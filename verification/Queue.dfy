/**
 The bounded FIFO queue of queue.go.

 A Go channel of capacity `size` is a sequence of at most `size` items.  The callback handed to
 `iterate` is a closure over mutable variables; here those variables are an explicit state of type
 `S` that the callback takes and returns, so a `Visitor` is an arbitrary stateful callback.
 */
module Queues {
  import opened Common

  datatype Enqueued = Accepted | Full | Panic

  datatype IterateResult = Completed | Panicked

  datatype Dequeued<+T> = Item(value: Option<T>) | ClosedError

  /** What a callback answers: stop iterating?  put the item back? */
  datatype Verdict = Verdict(brk: bool, requeue: bool)

  type Visitor<!S, !T> = (S, Option<T>) -> (S, Verdict)

  /** The effect of an iteration: the final callback state, the items put back, how many were seen. */
  datatype Visit<S, T> = Visit(state: S, kept: seq<T>, seen: nat)

  /** The reference reading of `iterate`: offer the items one after the other until one breaks. */
  function Run<S, T>(f: Visitor<S, T>, s: S, items: seq<T>): (r: Visit<S, T>)
    ensures |r.kept| <= r.seen <= |items|
    ensures items != [] ==> 1 <= r.seen
  {
    if items == [] then Visit(s, [], 0)
    else
      var (s1, verdict) := f(s, Some(items[0]));
      var back := if verdict.requeue then [items[0]] else [];
      if verdict.brk then Visit(s1, back, 1)
      else
        var rest := Run(f, s1, items[1..]);
        Visit(rest.state, back + rest.kept, 1 + rest.seen)
  }

  /**
   The same on a destroyed queue: items are still handed out, but the first one to be put back is
   sent to a closed channel, which panics.
   */
  function RunDestroyed<S, T>(f: Visitor<S, T>, s: S, items: seq<T>): (r: (S, nat, IterateResult))
    ensures r.1 <= |items|
  {
    if items == [] then (s, 0, Completed)
    else
      var (s1, verdict) := f(s, Some(items[0]));
      if verdict.requeue then (s1, 1, Panicked)
      else if verdict.brk then (s1, 1, Completed)
      else
        var (s2, seen, r) := RunDestroyed(f, s1, items[1..]);
        (s2, 1 + seen, r)
  }

  /** A run over `items` that has seen `c` of them, kept `kept` and is in state `s` still leads to the whole run. */
  ghost predicate Resumes<S, T>(f: Visitor<S, T>, s0: S, items: seq<T>, s: S, kept: seq<T>, c: nat)
    requires c <= |items|
  {
    var rest := Run(f, s, items[c..]);
    Run(f, s0, items) == Visit(rest.state, kept + rest.kept, c + rest.seen)
  }

  /** One unfolding of `Run` at position `c`. */
  lemma {:induction false} RunAt<S, T>(f: Visitor<S, T>, s: S, items: seq<T>, c: nat)
    requires c < |items|
    ensures var (s1, verdict) := f(s, Some(items[c]));
            var back := if verdict.requeue then [items[c]] else [];
            var rest := Run(f, s1, items[c + 1..]);
            Run(f, s, items[c..]) ==
            if verdict.brk then Visit(s1, back, 1)
            else Visit(rest.state, back + rest.kept, 1 + rest.seen)
  {
    assert items[c..][0] == items[c] && items[c..][1..] == items[c + 1..];
  }

  lemma {:induction false} ResumeStep<S, T>(f: Visitor<S, T>, s0: S, items: seq<T>, s: S, kept: seq<T>, c: nat)
    requires c < |items| && Resumes(f, s0, items, s, kept, c)
    ensures var (s1, verdict) := f(s, Some(items[c]));
            var kept1 := if verdict.requeue then kept + [items[c]] else kept;
            if verdict.brk then Run(f, s0, items) == Visit(s1, kept1, c + 1)
            else Resumes(f, s0, items, s1, kept1, c + 1)
  {
    hide Run;
    RunAt(f, s, items, c);
    var (s1, verdict) := f(s, Some(items[c]));
    var rest := Run(f, s1, items[c + 1..]);
    if verdict.requeue {
      assert kept + ([items[c]] + rest.kept) == kept + [items[c]] + rest.kept;
    } else {
      assert kept + ([] + rest.kept) == kept + rest.kept;
      assert kept + [] == kept;
    }
  }

  /** There is nothing to iterate over in an empty queue, open or destroyed. */
  lemma RunNothing<S, T>(f: Visitor<S, T>, s: S)
    ensures Run(f, s, []) == Visit(s, [], 0)
    ensures RunDestroyed(f, s, []) == (s, 0, Completed)
  {
  }

  /** On a destroyed queue an iteration panics iff something would be put back, and else goes as on an open one. */
  lemma {:induction false} DestroyedRunIff<S, T>(f: Visitor<S, T>, s: S, items: seq<T>)
    ensures var (s1, seen, r) := RunDestroyed(f, s, items);
            var v := Run(f, s, items);
            && (r == Panicked <==> v.kept != [])
            && (r == Completed ==> s1 == v.state && seen == v.seen)
            && (r == Panicked ==> 0 < seen <= v.seen && items[seen - 1] == v.kept[0])
  {
    if items != [] {
      var (s1, verdict) := f(s, Some(items[0]));
      if !verdict.requeue && !verdict.brk {
        DestroyedRunIff(f, s1, items[1..]);
        assert [] + Run(f, s1, items[1..]).kept == Run(f, s1, items[1..]).kept;
      }
    }
  }

  ghost predicate ResumesDestroyed<S, T>(f: Visitor<S, T>, s0: S, items: seq<T>, s: S, c: nat)
    requires c <= |items|
  {
    var (s1, seen, r) := RunDestroyed(f, s, items[c..]);
    RunDestroyed(f, s0, items) == (s1, c + seen, r)
  }

  lemma {:induction false} ResumeDestroyedStep<S, T>(f: Visitor<S, T>, s0: S, items: seq<T>, s: S, c: nat)
    requires c < |items| && ResumesDestroyed(f, s0, items, s, c)
    ensures var (s1, verdict) := f(s, Some(items[c]));
            if verdict.requeue then RunDestroyed(f, s0, items) == (s1, c + 1, Panicked)
            else if verdict.brk then RunDestroyed(f, s0, items) == (s1, c + 1, Completed)
            else ResumesDestroyed(f, s0, items, s1, c + 1)
  {
    assert items[c..][0] == items[c] && items[c..][1..] == items[c + 1..];
  }

  lemma ResumeAtStart<S, T>(f: Visitor<S, T>, s: S, items: seq<T>)
    ensures Resumes(f, s, items, s, [], 0) && ResumesDestroyed(f, s, items, s, 0)
  {
    assert items[0..] == items;
    assert [] + Run(f, s, items).kept == Run(f, s, items).kept;
  }

  lemma ResumeAtEnd<S, T>(f: Visitor<S, T>, s0: S, items: seq<T>, s: S, kept: seq<T>)
    ensures Resumes(f, s0, items, s, kept, |items|) ==> Run(f, s0, items) == Visit(s, kept, |items|)
    ensures ResumesDestroyed(f, s0, items, s, |items|) ==> RunDestroyed(f, s0, items) == (s, |items|, Completed)
  {
    assert items[|items|..] == [] && kept + [] == kept;
  }

  /** Taking the head of a partly rotated queue, and putting it back at the end. */
  lemma RotateStep<T>(was: seq<T>, kept: seq<T>, c: nat)
    requires c < |was|
    ensures (was[c..] + kept)[0] == was[c]
    ensures (was[c..] + kept)[1..] == was[c + 1..] + kept
    ensures was[c + 1..] + kept + [was[c]] == was[c + 1..] + (kept + [was[c]])
  {
  }

  class Queue<T> {
    const size: nat
    var items: seq<T>
    var closed: bool

    predicate Valid()
      reads this
    {
      0 < size <= 0xFFFF && |items| <= size
    }

    /** newQueue panics on a zero size, hence the precondition. */
    constructor (size: nat)
      requires 0 < size <= 0xFFFF
      ensures Valid() && items == [] && !closed && this.size == size
    {
      this.size := size;
      items := [];
      closed := false;
    }

    /** A nil value panics; so does sending on a destroyed queue that still has room. */
    method Enqueue(v: Option<T>) returns (r: Enqueued)
      requires Valid()
      modifies this`items
      ensures Valid()
      ensures r == if v.None? then Panic else if |old(items)| == size then Full else if closed then Panic else Accepted
      ensures items == if r.Accepted? then old(items) + [v.value] else old(items)
    {
      if v.None? {
        return Panic;
      }
      r := DoEnqueue(v.value);
    }

    method DoEnqueue(v: T) returns (r: Enqueued)
      requires Valid()
      modifies this`items
      ensures Valid()
      ensures r == if |old(items)| == size then Full else if closed then Panic else Accepted
      ensures items == if r.Accepted? then old(items) + [v] else old(items)
    {
      if |items| == size {
        return Full;
      }
      if closed {
        return Panic;
      }
      items := items + [v];
      r := Accepted;
    }

    /** An empty open queue yields a nil value, an empty destroyed one an error. */
    method Dequeue() returns (r: Dequeued<T>)
      requires Valid()
      modifies this`items
      ensures Valid()
      ensures old(items) != [] ==> r == Item(Some(old(items)[0])) && items == old(items)[1..]
      ensures old(items) == [] ==> items == [] && r == if closed then ClosedError else Item(None)
    {
      if items == [] {
        r := if closed then ClosedError else Item(None);
      } else {
        r := Item(Some(items[0]));
        items := items[1..];
      }
    }

    /**
     For any stateful callback, on an open queue: no error, only items that are present are offered,
     the loop ends within the initial length, and what is left is the unvisited suffix followed by
     the items put back.  On a destroyed queue the first put-back panics; until then it is drained.
     */
    method Iterate<S>(f: Visitor<S, T>, s0: S) returns (s: S, r: IterateResult)
      requires Valid()
      modifies this`items
      ensures Valid()
      ensures !closed ==>
                var v := Run(f, s0, old(items));
                r == Completed && s == v.state && items == old(items)[v.seen..] + v.kept
      ensures closed ==>
                var d := RunDestroyed(f, s0, old(items));
                (s, items, r) == (d.0, old(items)[d.1..], d.2)
    {
      hide Run, RunDestroyed, Resumes, ResumesDestroyed;
      s, r := s0, Completed;
      var count := |items|;
      ResumeAtStart(f, s0, items);
      if count == 0 {
        ResumeAtEnd(f, s0, items, s0, []);
        return;
      }
      var c := 0;
      ghost var was, kept := items, [];
      while true
        invariant 0 <= c < count == |was| <= size
        invariant items == was[c..] + kept
        invariant |kept| <= c && (closed ==> kept == [])
        invariant r == Completed
        invariant if closed then ResumesDestroyed(f, s0, was, s, c) else Resumes(f, s0, was, s, kept, c)
        decreases count - c
      {
        RotateStep(was, kept, c);
        assert was[c + 1..] + [] == was[c + 1..];
        if closed {
          ResumeDestroyedStep(f, s0, was, s, c);
        } else {
          ResumeStep(f, s0, was, s, kept, c);
        }
        c := c + 1;
        var d := Dequeue();
        if d.ClosedError? {
          assert false;
        }
        var v := d.value;
        var (s1, verdict) := f(s, v);
        s := s1;
        if verdict.requeue && v.Some? {
          var e := DoEnqueue(v.value);
          if e.Full? {
            assert false;
          }
          if e.Panic? {
            return s, Panicked;
          }
          kept := kept + [v.value];
        }
        if verdict.brk {
          break;
        }
        if c == count {
          ResumeAtEnd(f, s0, was, s, kept);
          break;
        }
      }
    }

    method Count() returns (n: nat)
      requires Valid()
      ensures n == |items| <= 0xFFFF
    {
      n := |items|;
    }

    /** Closing a closed channel panics. */
    method Destroy() returns (panicked: bool)
      modifies this`closed
      ensures closed && panicked == old(closed)
    {
      if closed {
        return true;
      }
      closed := true;
      panicked := false;
    }
  }

  // ------------------------------------------------------------------------------------------
  // What any callback observes
  // ------------------------------------------------------------------------------------------

  /** The callback `f`, additionally writing down every argument it receives and every answer it gives. */
  function Logging<S, T>(f: Visitor<S, T>): Visitor<(S, seq<(Option<T>, Verdict)>), T>
  {
    (sl: (S, seq<(Option<T>, Verdict)>), v: Option<T>) =>
      var (s1, verdict) := f(sl.0, v);
      ((s1, sl.1 + [(v, verdict)]), verdict)
  }

  /** The items of a log that were put back, in the order of the log. */
  function PutBack<T>(log: seq<(Option<T>, Verdict)>): seq<T>
  {
    if log == [] then []
    else (if log[0].1.requeue && log[0].0.Some? then [log[0].0.value] else []) + PutBack(log[1..])
  }

  /**
   An iteration over `items` was allowed to produce `log`: a prefix, once each, in order, and only its
   end may break.
   */
  ghost predicate FifoLog<T>(items: seq<T>, log: seq<(Option<T>, Verdict)>)
  {
    && |log| <= |items|
    && (forall i :: 0 <= i < |log| ==> log[i].0 == Some(items[i]))
    && (forall i :: 0 <= i < |log| - 1 ==> !log[i].1.brk)
    && (|log| < |items| ==> log != [] && log[|log| - 1].1.brk)
  }

  /**
   Whatever the callback does: the log of the run is a FIFO log of the queue, as long as `seen`,
   logging changes nothing else, and the items kept are those the log put back, in visit order.
   */
  lemma {:induction false} IterateVisitsPrefix<S, T>(f: Visitor<S, T>, s: S, items: seq<T>,
                                                     before: seq<(Option<T>, Verdict)>)
    ensures var plain := Run(f, s, items);
            var logged := Run(Logging(f), (s, before), items);
            && logged.state.0 == plain.state && logged.kept == plain.kept && logged.seen == plain.seen
            && before <= logged.state.1
            && (var log := logged.state.1[|before|..];
                |log| == plain.seen && FifoLog(items, log) && PutBack(log) == plain.kept)
  {
    if items != [] {
      var (s1, verdict) := f(s, Some(items[0]));
      var entry := (Some(items[0]), verdict);
      var next := before + [entry];
      assert Logging(f)((s, before), Some(items[0])) == ((s1, next), verdict);
      if verdict.brk {
        assert next[|before|..] == [entry];
      } else {
        IterateVisitsPrefix(f, s1, items[1..], next);
        var all := Run(Logging(f), (s, before), items).state.1;
        var tail := all[|next|..];
        assert all[|before|..] == [entry] + tail;
        assert ([entry] + tail)[1..] == tail;
      }
    }
  }
}

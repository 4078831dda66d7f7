/**
 Calls on different fields commute.  Whatever two handles they are made through, above or below each
 other, inside the tree or detached from it, and even when both allocate and the objects come to lie at
 different addresses, the tree of edits is the same in either order.  On trees alone, where an edit names
 a place and not a handle, the order matters exactly when one edit makes the map that the other is about.
 And what has been detached from a tree, by removing the map it hangs in, stays detached.
 */
module MapCommute {
  import opened Common
  import opened MapOps
  import opened MapTree

  // ------------------------------------------------------------------------------------------
  // One object
  // ------------------------------------------------------------------------------------------

  /** Two edits of one object, one after the other. */
  function Both(n: OpNode, k1: string, e1: Edit, k2: string, e2: Edit): OpNode {
    Own(Edited(Own(Edited(n, k1, e1, 0)), k2, e2, 0))
  }

  /** The part of an object that edits of one type are about. */
  function Part(n: OpNode, t: FieldType): OpNode {
    match t
    case COUNTER => EMPTY_NODE.(incrementCounters := n.incrementCounters, removeCounters := n.removeCounters)
    case SET => EMPTY_NODE.(addToSets := n.addToSets, removeFromSets := n.removeFromSets, removeSets := n.removeSets)
    case REGISTER => EMPTY_NODE.(registersToSet := n.registersToSet, removeRegisters := n.removeRegisters)
    case FLAG => EMPTY_NODE.(flagsToSet := n.flagsToSet, removeFlags := n.removeFlags)
    case MAP => EMPTY_NODE.(removeMaps := n.removeMaps)
  }

  /** Objects without children are equal if all their parts are. */
  lemma SameParts(n: OpNode, n': OpNode)
    requires n.maps == map[] && n'.maps == map[]
    requires forall t :: Part(n, t) == Part(n', t)
    ensures n == n'
  {
    assert Part(n, COUNTER) == Part(n', COUNTER) && Part(n, SET) == Part(n', SET)
           && Part(n, REGISTER) == Part(n', REGISTER);
    assert Part(n, FLAG) == Part(n', FLAG) && Part(n, MAP) == Part(n', MAP);
  }

  /** An edit leaves the parts of the other types alone. */
  lemma OtherPart(n: OpNode, key: string, edit: Edit, t: FieldType)
    requires t != TypeOf(edit)
    ensures Part(Own(Edited(n, key, edit, 0)), t) == Part(n, t)
  {
  }

  /** What an edit does to its own part depends on that part only. */
  lemma OwnPart(n: OpNode, n': OpNode, key: string, edit: Edit)
    requires Part(n, TypeOf(edit)) == Part(n', TypeOf(edit))
    ensures Part(Own(Edited(n, key, edit, 0)), TypeOf(edit)) == Part(Own(Edited(n', key, edit, 0)), TypeOf(edit))
  {
  }

  lemma SwapMap<V>(m: map<string, V>, k1: string, k2: string, v1: V, v2: V)
    requires k1 != k2
    ensures m[k1 := v1][k2 := v2] == m[k2 := v2][k1 := v1]
    ensures m[k1 := v1] - {k2} == (m - {k2})[k1 := v1]
    ensures m[k2 := v2] - {k1} == (m - {k1})[k2 := v2]
    ensures m - {k1} - {k2} == m - {k2} - {k1}
    ensures forall d :: Get(m[k1 := v1], k2, d) == Get(m, k2, d) && Get(m[k2 := v2], k1, d) == Get(m, k1, d)
    ensures forall d :: Get(m - {k1}, k2, d) == Get(m, k2, d) && Get(m - {k2}, k1, d) == Get(m, k1, d)
  {
  }

  lemma SwapSet(s: set<string>, k1: string, k2: string)
    requires k1 != k2
    ensures s + {k1} + {k2} == s + {k2} + {k1}
    ensures s - {k1} - {k2} == s - {k2} - {k1}
    ensures s + {k1} - {k2} == s - {k2} + {k1}
    ensures s + {k2} - {k1} == s - {k1} + {k2}
  {
  }

  lemma CounterPart(n: OpNode, key: string, edit: Edit)
    requires TypeOf(edit) == COUNTER
    ensures var n1, m := Own(Edited(n, key, edit, 0)), n.incrementCounters;
            if edit.IncrementCounter? then
              && n1.incrementCounters == m[key := Wrap64(Get(m, key, 0) + edit.increment)]
              && n1.removeCounters == n.removeCounters - {key}
            else n1.incrementCounters == m - {key} && n1.removeCounters == n.removeCounters + {key}
  {
  }

  lemma CountersCommute(n: OpNode, k1: string, e1: Edit, k2: string, e2: Edit)
    requires TypeOf(e1) == TypeOf(e2) == COUNTER && k1 != k2
    ensures Part(Both(n, k1, e1, k2, e2), COUNTER) == Part(Both(n, k2, e2, k1, e1), COUNTER)
  {
    hide Wrap64, Edited, Own, Get;
    var m := n.incrementCounters;
    CounterPart(n, k1, e1);
    CounterPart(n, k2, e2);
    CounterPart(Own(Edited(n, k1, e1, 0)), k2, e2);
    CounterPart(Own(Edited(n, k2, e2, 0)), k1, e1);
    var v1 := if e1.IncrementCounter? then Wrap64(Get(m, k1, 0) + e1.increment) else 0;
    var v2 := if e2.IncrementCounter? then Wrap64(Get(m, k2, 0) + e2.increment) else 0;
    SwapMap(m, k1, k2, v1, v2);
    SwapSet(n.removeCounters, k1, k2);
  }

  lemma RegistersCommute(n: OpNode, k1: string, e1: Edit, k2: string, e2: Edit)
    requires TypeOf(e1) == TypeOf(e2) == REGISTER && k1 != k2
    ensures Part(Both(n, k1, e1, k2, e2), REGISTER) == Part(Both(n, k2, e2, k1, e1), REGISTER)
  {
    var v1 := if e1.SetRegister? then e1.value else [];
    var v2 := if e2.SetRegister? then e2.value else [];
    SwapMap(n.registersToSet, k1, k2, v1, v2);
    SwapSet(n.removeRegisters, k1, k2);
  }

  lemma FlagsCommute(n: OpNode, k1: string, e1: Edit, k2: string, e2: Edit)
    requires TypeOf(e1) == TypeOf(e2) == FLAG && k1 != k2
    ensures Part(Both(n, k1, e1, k2, e2), FLAG) == Part(Both(n, k2, e2, k1, e1), FLAG)
  {
    SwapMap(n.flagsToSet, k1, k2, e1.SetFlag? && e1.flag, e2.SetFlag? && e2.flag);
    SwapSet(n.removeFlags, k1, k2);
  }

  lemma MapsCommute(n: OpNode, k1: string, e1: Edit, k2: string, e2: Edit)
    requires TypeOf(e1) == TypeOf(e2) == MAP && k1 != k2
    ensures Part(Both(n, k1, e1, k2, e2), MAP) == Part(Both(n, k2, e2, k1, e1), MAP)
  {
    SwapSet(n.removeMaps, k1, k2);
  }

  lemma SetsCommute(n: OpNode, k1: string, e1: Edit, k2: string, e2: Edit)
    requires TypeOf(e1) == TypeOf(e2) == SET && k1 != k2
    ensures Part(Both(n, k1, e1, k2, e2), SET) == Part(Both(n, k2, e2, k1, e1), SET)
  {
    var a, r := n.addToSets, n.removeFromSets;
    var x1 := if e1.RemoveSet? then [] else [e1.value];
    var x2 := if e2.RemoveSet? then [] else [e2.value];
    SwapMap(a, k1, k2, Get(a, k1, []) + x1, Get(a, k2, []) + x2);
    SwapMap(r, k1, k2, Get(r, k1, []) + x1, Get(r, k2, []) + x2);
    SwapSet(n.removeSets, k1, k2);
  }

  /** Edits of different fields of one object commute. */
  lemma EditsCommute(n: OpNode, k1: string, e1: Edit, k2: string, e2: Edit)
    requires TypeOf(e1) != TypeOf(e2) || k1 != k2
    ensures Both(n, k1, e1, k2, e2) == Both(n, k2, e2, k1, e1)
  {
    hide Edited, Own, Part, Get;
    var n1, n2 := Own(Edited(n, k1, e1, 0)), Own(Edited(n, k2, e2, 0));
    forall t ensures Part(Both(n, k1, e1, k2, e2), t) == Part(Both(n, k2, e2, k1, e1), t) {
      if TypeOf(e1) == TypeOf(e2) == t {
        match t {
          case COUNTER => CountersCommute(n, k1, e1, k2, e2);
          case SET => SetsCommute(n, k1, e1, k2, e2);
          case REGISTER => RegistersCommute(n, k1, e1, k2, e2);
          case FLAG => FlagsCommute(n, k1, e1, k2, e2);
          case MAP => MapsCommute(n, k1, e1, k2, e2);
        }
      } else if t == TypeOf(e1) {
        OtherPart(n1, k2, e2, t);
        OtherPart(n, k2, e2, t);
        OwnPart(n, n2, k1, e1);
      } else if t == TypeOf(e2) {
        OtherPart(n2, k1, e1, t);
        OtherPart(n, k1, e1, t);
        OwnPart(n, n1, k2, e2);
      } else {
        OtherPart(n, k1, e1, t);
        OtherPart(n, k2, e2, t);
        OtherPart(n1, k2, e2, t);
        OtherPart(n2, k1, e1, t);
      }
    }
    OwnHasNoMaps(n, k1, e1, k2, e2);
    OwnHasNoMaps(n, k2, e2, k1, e1);
    SameParts(Both(n, k1, e1, k2, e2), Both(n, k2, e2, k1, e1));
  }

  lemma OwnHasNoMaps(n: OpNode, k1: string, e1: Edit, k2: string, e2: Edit)
    ensures Both(n, k1, e1, k2, e2).maps == map[]
  {
  }

  // ------------------------------------------------------------------------------------------
  // Trees
  // ------------------------------------------------------------------------------------------

  /** The edit makes the map at the end of `other`, which the tree does not have yet. */
  predicate Opens(op: Op, path: seq<string>, key: string, edit: Edit, other: seq<string>)
    decreases |path|
  {
    if path == [] then edit.NestedMap? && other == [key] && key !in op.nested
    else
      && other != [] && other[0] == path[0] && path[0] in op.nested
      && Opens(op.nested[path[0]], path[1..], key, edit, other[1..])
  }

  /** What an edit below does to the nested operations. */
  function Below(m: map<string, Op>, path: seq<string>, key: string, edit: Edit): map<string, Op>
    requires path != []
  {
    if path[0] in m then m[path[0] := UpdateAt(m[path[0]], path[1..], key, edit)] else m
  }

  lemma UpdateRoot(op: Op, key: string, edit: Edit)
    ensures UpdateAt(op, [], key, edit) == OpEdited(op, key, edit)
  {
  }

  lemma UpdateBelow(op: Op, path: seq<string>, key: string, edit: Edit)
    requires path != []
    ensures UpdateAt(op, path, key, edit) == Op(op.own, Below(op.nested, path, key, edit))
  {
  }

  /** Two edits of a tree give the same in either order. */
  predicate Commute(op: Op, p1: seq<string>, k1: string, e1: Edit, p2: seq<string>, k2: string, e2: Edit) {
    UpdateAt(UpdateAt(op, p1, k1, e1), p2, k2, e2) == UpdateAt(UpdateAt(op, p2, k2, e2), p1, k1, e1)
  }

  lemma CommuteIsSymmetric(op: Op, p1: seq<string>, k1: string, e1: Edit, p2: seq<string>, k2: string, e2: Edit)
    ensures Commute(op, p1, k1, e1, p2, k2, e2) <==> Commute(op, p2, k2, e2, p1, k1, e1)
  {
  }

  lemma NestedCommute(m: map<string, Op>, k1: string, e1: Edit, k2: string, e2: Edit)
    requires TypeOf(e1) != TypeOf(e2) || k1 != k2
    ensures NestedEdited(NestedEdited(m, k1, e1), k2, e2) == NestedEdited(NestedEdited(m, k2, e2), k1, e1)
  {
    if k1 != k2 {
      SwapMap(m, k1, k2, EMPTY_OP, EMPTY_OP);
    }
  }

  lemma RootsCommute(op: Op, k1: string, e1: Edit, k2: string, e2: Edit)
    requires TypeOf(e1) != TypeOf(e2) || k1 != k2
    ensures Commute(op, [], k1, e1, [], k2, e2)
  {
    UpdateRoot(op, k1, e1);
    UpdateRoot(op, k2, e2);
    UpdateRoot(OpEdited(op, k1, e1), k2, e2);
    UpdateRoot(OpEdited(op, k2, e2), k1, e1);
    EditsCommute(op.own, k1, e1, k2, e2);
    NestedCommute(op.nested, k1, e1, k2, e2);
    hide Edited, Own, NestedEdited, UpdateAt;
  }

  /** Every edit leaves a trace in an empty operation, at its root only. */
  lemma EmptyUpdated(path: seq<string>, key: string, edit: Edit)
    ensures UpdateAt(EMPTY_OP, path, key, edit) == EMPTY_OP <==> path != []
  {
    if path == [] {
      var op := OpEdited(EMPTY_OP, key, edit);
      if edit.NestedMap? {
        assert key in op.nested;
      } else {
        assert EntryOf(op.own, TypeOf(edit), key) != EntryOf(EMPTY_NODE, TypeOf(edit), key);
      }
    }
  }

  lemma NestedAndBelow(m: map<string, Op>, k1: string, e1: Edit, p2: seq<string>, k2: string, e2: Edit)
    requires p2 != []
    ensures Below(NestedEdited(m, k1, e1), p2, k2, e2) == NestedEdited(Below(m, p2, k2, e2), k1, e1) <==>
            !(e1.NestedMap? && p2 == [k1] && k1 !in m)
  {
    hide UpdateAt;
    var k, q := p2[0], p2[1..];
    var v := if k in m then UpdateAt(m[k], q, k2, e2) else EMPTY_OP;
    if k != k1 {
      SwapMap(m, k, k1, v, EMPTY_OP);
    } else if e1.NestedMap? && k1 !in m {
      EmptyUpdated(q, k2, e2);
      assert p2 == [k1] + q;
      var m1 := m[k := EMPTY_OP];
      assert Below(m1, p2, k2, e2)[k] == UpdateAt(EMPTY_OP, q, k2, e2);
      assert q != [] ==> m1[k := EMPTY_OP] == m1;
    } else if e1.RemoveMap? {
      assert m[k := v] - {k} == m - {k};
    }
  }

  /** An edit at the root and one below it. */
  lemma RootAndBelowCommute(op: Op, k1: string, e1: Edit, p2: seq<string>, k2: string, e2: Edit)
    requires p2 != []
    ensures Commute(op, [], k1, e1, p2, k2, e2) <==> !Opens(op, [], k1, e1, p2)
  {
    UpdateRoot(op, k1, e1);
    UpdateRoot(UpdateAt(op, p2, k2, e2), k1, e1);
    UpdateBelow(op, p2, k2, e2);
    UpdateBelow(OpEdited(op, k1, e1), p2, k2, e2);
    hide Edited, Own, NestedEdited, Below, UpdateAt;
    NestedAndBelow(op.nested, k1, e1, p2, k2, e2);
  }

  /** Edits below different children. */
  lemma BranchesCommute(op: Op, p1: seq<string>, k1: string, e1: Edit, p2: seq<string>, k2: string, e2: Edit)
    requires p1 != [] && p2 != [] && p1[0] != p2[0]
    ensures Commute(op, p1, k1, e1, p2, k2, e2)
  {
    hide UpdateAt, OpEdited;
    var x, y, m := p1[0], p2[0], op.nested;
    UpdateBelow(op, p1, k1, e1);
    UpdateBelow(op, p2, k2, e2);
    UpdateBelow(UpdateAt(op, p1, k1, e1), p2, k2, e2);
    UpdateBelow(UpdateAt(op, p2, k2, e2), p1, k1, e1);
    if x in m && y in m {
      SwapMap(m, x, y, UpdateAt(m[x], p1[1..], k1, e1), UpdateAt(m[y], p2[1..], k2, e2));
    }
  }

  /** Two edits below the same child are two edits of that child. */
  lemma UpdateTwice(op: Op, k: string, p1: seq<string>, k1: string, e1: Edit, p2: seq<string>, k2: string, e2: Edit)
    requires p1 != [] && p2 != [] && p1[0] == p2[0] == k && k in op.nested
    ensures UpdateAt(UpdateAt(op, p1, k1, e1), p2, k2, e2) ==
            op.(nested := op.nested[k := UpdateAt(UpdateAt(op.nested[k], p1[1..], k1, e1), p2[1..], k2, e2)])
  {
    hide OpEdited;
    var inner := UpdateAt(op.nested[k], p1[1..], k1, e1);
    var op1 := UpdateAt(op, p1, k1, e1);
    assert op1 == op.(nested := op.nested[k := inner]);
    var inner2 := UpdateAt(inner, p2[1..], k2, e2);
    assert op.nested[k := inner][k := inner2] == op.nested[k := inner2];
  }

  lemma UpdateMissing(op: Op, path: seq<string>, key: string, edit: Edit)
    requires path != [] && path[0] !in op.nested
    ensures UpdateAt(op, path, key, edit) == op
  {
  }

  lemma SameChild(m: map<string, Op>, k: string, a: Op, b: Op)
    ensures m[k := a] == m[k := b] <==> a == b
  {
    assert m[k := a] == m[k := b] ==> m[k := a][k] == m[k := b][k];
  }

  /** Edits below the same child commute iff they do so there. */
  lemma CommuteBelow(op: Op, p1: seq<string>, k1: string, e1: Edit, p2: seq<string>, k2: string, e2: Edit)
    requires p1 != [] && p2 != [] && p1[0] == p2[0]
    ensures var k := p1[0];
            Commute(op, p1, k1, e1, p2, k2, e2) <==>
            k !in op.nested || Commute(op.nested[k], p1[1..], k1, e1, p2[1..], k2, e2)
  {
    hide UpdateAt, Below;
    var k, m := p1[0], op.nested;
    if k !in m {
      UpdateMissing(op, p1, k1, e1);
      UpdateMissing(op, p2, k2, e2);
    } else {
      UpdateTwice(op, k, p1, k1, e1, p2, k2, e2);
      UpdateTwice(op, k, p2, k2, e2, p1, k1, e1);
      var a := UpdateAt(UpdateAt(m[k], p1[1..], k1, e1), p2[1..], k2, e2);
      var b := UpdateAt(UpdateAt(m[k], p2[1..], k2, e2), p1[1..], k1, e1);
      SameChild(m, k, a, b);
    }
  }

  /**
   Edits of different fields of a tree commute, unless one of them makes the very map that the other
   is about: then the order matters.
   */
  lemma {:induction false} UpdatesCommute(
    op: Op, p1: seq<string>, k1: string, e1: Edit, p2: seq<string>, k2: string, e2: Edit)
    requires p1 != p2 || TypeOf(e1) != TypeOf(e2) || k1 != k2
    ensures Commute(op, p1, k1, e1, p2, k2, e2) <==> !Opens(op, p1, k1, e1, p2) && !Opens(op, p2, k2, e2, p1)
    decreases |p1|
  {
    hide OpEdited, UpdateAt;
    CommuteIsSymmetric(op, p1, k1, e1, p2, k2, e2);
    hide Commute;
    if p1 == [] && p2 == [] {
      RootsCommute(op, k1, e1, k2, e2);
    } else if p1 == [] {
      RootAndBelowCommute(op, k1, e1, p2, k2, e2);
    } else if p2 == [] {
      RootAndBelowCommute(op, k2, e2, p1, k1, e1);
    } else if p1[0] != p2[0] {
      BranchesCommute(op, p1, k1, e1, p2, k2, e2);
    } else {
      CommuteBelow(op, p1, k1, e1, p2, k2, e2);
      var k := p1[0];
      if k in op.nested {
        assert p1 != p2 ==> p1[1..] != p2[1..] by {
          assert p1 == [k] + p1[1..] && p2 == [k] + p2[1..];
        }
        UpdatesCommute(op.nested[k], p1[1..], k1, e1, p2[1..], k2, e2);
      }
    }
  }

  // ------------------------------------------------------------------------------------------
  // Detached objects
  // ------------------------------------------------------------------------------------------

  /** The edges after a step are old ones, or lead to a new object without children. */
  lemma StepEdges(h: Heap, e: Event, r: Ref, k: string)
    requires HeapOk(h) && r < |Step(h, e)| && k in Step(h, e)[r].maps
    ensures r < |h|
    ensures var child := Step(h, e)[r].maps[k];
            || (k in h[r].maps && child == h[r].maps[k])
            || (child == |h| < |Step(h, e)| && Step(h, e)[|h|].maps == map[] && e.DoCall? && r == e.call.op)
  {
    if e.DoCall? && e.call.op < |h| && r == e.call.op {
      EditedMaps(h[r], e.call.key, e.call.edit, |h|);
    }
  }

  lemma StepKeepsHeap(h: Heap, e: Event)
    requires HeapOk(h)
    ensures HeapOk(Step(h, e)) && |h| <= |Step(h, e)|
  {
    if e.NewOp? {
      EmptyOk();
    } else if e.call.op < |h| {
      ApplyKeeps(h, e.call);
    }
  }

  lemma {:induction false} StaysUnreached(h: Heap, r: Ref, x: Ref, e: Event)
    requires HeapOk(h) && r < |h| && x < |h| && !Reaches(h, r, x)
    ensures HeapOk(Step(h, e)) && r < |Step(h, e)| && !Reaches(Step(h, e), r, x)
    decreases |h| - r
  {
    hide NodeOk, Unshared, Step;
    StepKeepsHeap(h, e);
    var h1 := Step(h, e);
    forall k | k in h1[r].maps ensures !Reaches(h1, h1[r].maps[k], x) {
      StepEdges(h, e, r, k);
      if k in h[r].maps && h1[r].maps[k] == h[r].maps[k] {
        StaysUnreached(h, h[r].maps[k], x, e);
      }
    }
  }

  /** An object allocated through a handle outside the tree is outside the tree too. */
  lemma {:induction false} ChildOfDetached(h: Heap, r: Ref, c: Call)
    requires HeapOk(h) && r < |h| && c.op < |h| && Allocates(h, c) && !Reaches(h, r, c.op)
    ensures Acyclic(Apply(h, c)) && !Reaches(Apply(h, c), r, |h|)
    decreases |h| - r
  {
    hide NodeOk, Unshared, Edited;
    ApplyKeeps(h, c);
    assert Apply(h, c)[r] == h[r];
    forall k | k in h[r].maps ensures !Reaches(Apply(h, c), h[r].maps[k], |h|) {
      ChildOfDetached(h, h[r].maps[k], c);
    }
  }

  function Steps(h: Heap, events: seq<Event>): Heap
    decreases |events|
  {
    if events == [] then h else Steps(Step(h, events[0]), events[1..])
  }

  /**
   Once an object is outside a tree it stays outside, whatever is called later, and calls on it are never
   seen there.
   */
  lemma {:induction false} DetachedForever(h: Heap, root: Ref, x: Ref, events: seq<Event>, key: string, edit: Edit)
    requires HeapOk(h) && root < |h| && x < |h| && !Reaches(h, root, x)
    ensures var h1 := Steps(h, events);
            && HeapOk(h1) && |h| <= |h1| && !Reaches(h1, root, x)
            && Acyclic(Apply(h1, Call(x, key, edit)))
            && Tree(Apply(h1, Call(x, key, edit)), root) == Tree(h1, root)
    decreases |events|
  {
    hide NodeOk, Unshared, Step, Reaches, Tree, Apply;
    if events == [] {
      DetachedCallsAreInvisible(h, root, Call(x, key, edit));
    } else {
      StepKeepsHeap(h, events[0]);
      StaysUnreached(h, root, x, events[0]);
      DetachedForever(Step(h, events[0]), root, x, events[1..], key, edit);
    }
  }

  lemma MapDropped(h: Heap, c: Call)
    requires HeapOk(h) && c.op < |h| && c.edit.RemoveMap?
    ensures HeapOk(Apply(h, c)) && |Apply(h, c)| == |h|
    ensures forall r :: 0 <= r < |h| && r != c.op ==> Apply(h, c)[r] == h[r]
    ensures Apply(h, c)[c.op].maps == h[c.op].maps - {c.key}
  {
    ApplyKeeps(h, c);
  }

  /** Removing a map detaches its operation, and all operations below that, from every tree around it. */
  lemma {:induction false} DropDetaches(h: Heap, root: Ref, c: Call, x: Ref)
    requires HeapOk(h) && root < |h| && c.op < |h| && Reaches(h, root, c.op)
    requires c.edit.RemoveMap? && c.key in h[c.op].maps && Reaches(h, h[c.op].maps[c.key], x)
    ensures HeapOk(Apply(h, c)) && x < |h| && !Reaches(Apply(h, c), root, x)
    decreases x
  {
    hide NodeOk, Apply, Reaches;
    MapDropped(h, c);
    var h1, child := Apply(h, c), h[c.op].maps[c.key];
    ReachesUp(h, root, c.op);
    ReachesUp(h, child, x);
    if Reaches(h1, root, x) {
      var p, k := LastEdge(h1, root, x);
      assert h[p].maps[k] == x;
      if x != child {
        var p', k' := LastEdge(h, child, x);
        assert p' == p;
        DropDetaches(h, root, c, p);
      }
      assert false;
    }
  }

  /** The handle of a removed map, and every handle below it, is dead for good. */
  lemma RemovedMapStaysDetached(h: Heap, root: Ref, c: Call, x: Ref, events: seq<Event>, key: string, edit: Edit)
    requires HeapOk(h) && root < |h| && c.op < |h| && Reaches(h, root, c.op)
    requires c.edit.RemoveMap? && c.key in h[c.op].maps && Reaches(h, h[c.op].maps[c.key], x)
    ensures var h1 := Steps(Apply(h, c), events);
            && HeapOk(h1) && root < |h1| && x < |h1| && !Reaches(h1, root, x)
            && Acyclic(Apply(h1, Call(x, key, edit)))
            && Tree(Apply(h1, Call(x, key, edit)), root) == Tree(h1, root)
  {
    hide NodeOk, Unshared, Reaches, Tree, Steps;
    DropDetaches(h, root, c, x);
    DetachedForever(Apply(h, c), root, x, events, key, edit);
  }

  // ------------------------------------------------------------------------------------------
  // Calls through handles
  // ------------------------------------------------------------------------------------------

  /** A call outside a tree changes no path in it. */
  lemma {:induction false} FollowUnreached(h: Heap, r: Ref, path: seq<string>, c: Call)
    requires HeapOk(h) && c.op < |h| && r < |h| && !Reaches(h, r, c.op)
    ensures Acyclic(Apply(h, c)) && Follow(Apply(h, c), r, path) == Follow(h, r, path)
    decreases |path|
  {
    hide NodeOk, Edited, Unshared;
    ApplyKeeps(h, c);
    assert Apply(h, c)[r] == h[r];
    if path != [] && path[0] in h[r].maps {
      FollowUnreached(h, h[r].maps[path[0]], path[1..], c);
    }
  }

  /** `other` leads through the map `key` at `path`. */
  predicate Through(path: seq<string>, key: string, other: seq<string>)
    decreases |path|
  {
    other != [] &&
    if path == [] then other[0] == key else other[0] == path[0] && Through(path[1..], key, other[1..])
  }

  /** A call leaves a handle into the tree where it is, unless it drops a map on the way there. */
  lemma {:induction false} FollowStable(h: Heap, root: Ref, p: seq<string>, c: Call, q: seq<string>)
    requires HeapOk(h) && c.op < |h| && root < |h|
    requires Follow(h, root, p) == Some(c.op) && Follow(h, root, q).Some?
    requires !(c.edit.RemoveMap? && Through(p, c.key, q))
    ensures Acyclic(Apply(h, c)) && Follow(Apply(h, c), root, q) == Follow(h, root, q)
    decreases |q|
  {
    hide NodeOk, Edited, Reaches;
    ApplyKeeps(h, c);
    if q != [] {
      var h1, child := Apply(h, c), h[root].maps[q[0]];
      FollowReaches(h, root, p);
      if p == [] {
        KeptChild(h, c, q[0]);
        ChildIsBelow(h, root, q[0]);
        FollowUnreached(h, child, q[1..], c);
      } else {
        PathLeavesRoot(h, root, p);
        assert h1[root] == h[root];
        if p[0] == q[0] {
          FollowStable(h, child, p[1..], c, q[1..]);
        } else {
          FollowReaches(h, h[root].maps[p[0]], p[1..]);
          SiblingsDisjoint(h, root, p[0], q[0], c.op);
          FollowUnreached(h, child, q[1..], c);
        }
      }
    }
  }

  lemma KeptChild(h: Heap, c: Call, k: string)
    requires c.op < |h| && k in h[c.op].maps && !(c.edit.RemoveMap? && k == c.key)
    ensures k in Apply(h, c)[c.op].maps && Apply(h, c)[c.op].maps[k] == h[c.op].maps[k]
  {
    EditedMaps(h[c.op], c.key, c.edit, |h|);
  }

  lemma ChildIsBelow(h: Heap, r: Ref, k: string)
    requires Acyclic(h) && r < |h| && k in h[r].maps
    ensures !Reaches(h, h[r].maps[k], r)
  {
    if Reaches(h, h[r].maps[k], r) {
      ReachesUp(h, h[r].maps[k], r);
    }
  }

  lemma PathLeavesRoot(h: Heap, r: Ref, path: seq<string>)
    requires Acyclic(h) && r < |h| && path != [] && Follow(h, r, path).Some?
    ensures Follow(h, r, path).value != r
  {
    FollowReaches(h, h[r].maps[path[0]], path[1..]);
    ReachesUp(h, h[r].maps[path[0]], Follow(h, r, path).value);
  }

  /** A path through a map passes that map's operation. */
  lemma {:induction false} ThroughReaches(h: Heap, root: Ref, p: seq<string>, key: string, q: seq<string>)
    requires Acyclic(h) && root < |h| && Follow(h, root, p).Some? && Follow(h, root, q).Some? && Through(p, key, q)
    ensures var r := Follow(h, root, p).value;
            r < |h| && key in h[r].maps && Reaches(h, h[r].maps[key], Follow(h, root, q).value)
    decreases |p|
  {
    var child := h[root].maps[q[0]];
    if p == [] {
      FollowReaches(h, child, q[1..]);
    } else {
      ThroughReaches(h, child, p[1..], key, q[1..]);
    }
  }

  /** An edit at the end of a path that has been cut does nothing. */
  lemma {:induction false} CutOff(op: Op, p: seq<string>, key: string, q: seq<string>, k2: string, e2: Edit)
    requires Through(p, key, q)
    ensures UpdateAt(UpdateAt(op, p, key, RemoveMap), q, k2, e2) == UpdateAt(op, p, key, RemoveMap)
    decreases |p|
  {
    if p != [] && p[0] in op.nested {
      CutOff(op.nested[p[0]], p[1..], key, q[1..], k2, e2);
      UpdateTwice(op, p[0], p, key, RemoveMap, q, k2, e2);
    }
  }

  /** A second call edits the tree at the place its handle had before the first, wherever that call left it. */
  lemma CallAfterCall(h: Heap, root: Ref, p1: seq<string>, c1: Call, p2: seq<string>, c2: Call)
    requires HeapOk(h) && root < |h| && c1.op < |h| && c2.op < |h|
    requires Follow(h, root, p1) == Some(c1.op) && Follow(h, root, p2) == Some(c2.op)
    ensures HeapOk(Apply(h, c1)) && Acyclic(Apply(Apply(h, c1), c2))
    ensures Tree(Apply(Apply(h, c1), c2), root) ==
            UpdateAt(UpdateAt(Tree(h, root), p1, c1.key, c1.edit), p2, c2.key, c2.edit)
  {
    hide NodeOk, Edited, Unshared, Tree, Follow, UpdateAt, Reaches, Through;
    var h1 := Apply(h, c1);
    ApplyKeeps(h, c1);
    CallEditsAtPath(h, root, p1, c1);
    if c1.edit.RemoveMap? && Through(p1, c1.key, p2) {
      FollowReaches(h, root, p1);
      ThroughReaches(h, root, p1, c1.key, p2);
      DropDetaches(h, root, c1, c2.op);
      DetachedCallsAreInvisible(h1, root, c2);
      CutOff(Tree(h, root), p1, c1.key, p2, c2.key, c2.edit);
    } else {
      FollowStable(h, root, p1, c1, p2);
      CallEditsAtPath(h1, root, p2, c2);
    }
  }

  /** A map at the end of a path is there already, so no edit opens it. */
  lemma {:induction false} AlreadyOpen(h: Heap, root: Ref, p: seq<string>, key: string, edit: Edit, q: seq<string>)
    requires Acyclic(h) && root < |h| && Follow(h, root, q).Some?
    ensures !Opens(Tree(h, root), p, key, edit, q)
    decreases |p|
  {
    TreeParts(h, root);
    hide Tree;
    if p != [] && q != [] && p[0] == q[0] {
      AlreadyOpen(h, h[root].maps[q[0]], p[1..], key, edit, q[1..]);
    }
  }

  /** A call outside the tree can come before or after any other. */
  lemma UnseenCommutes(h: Heap, root: Ref, c1: Call, c2: Call)
    requires HeapOk(h) && root < |h| && c1.op < |h| && c2.op < |h| && !Reaches(h, root, c1.op)
    ensures Acyclic(Apply(Apply(h, c1), c2)) && Acyclic(Apply(Apply(h, c2), c1))
    ensures Tree(Apply(Apply(h, c1), c2), root) == Tree(Apply(Apply(h, c2), c1), root)
  {
    hide NodeOk, Edited, Unshared, Tree, Follow, UpdateAt, Reaches;
    var h1, h2 := Apply(h, c1), Apply(h, c2);
    ApplyKeeps(h, c1);
    ApplyKeeps(h, c2);
    DetachedCallsAreInvisible(h, root, c1);
    StaysUnreached(h, root, c1.op, DoCall(c2));
    DetachedCallsAreInvisible(h2, root, c1);
    if Reaches(h, root, c2.op) {
      var p2 := ReachesFollow(h, root, c2.op);
      FollowUnreached(h, root, p2, c1);
      CallEditsAtPath(h, root, p2, c2);
      CallEditsAtPath(h1, root, p2, c2);
    } else {
      StaysUnreached(h, root, c2.op, DoCall(c1));
      DetachedCallsAreInvisible(h, root, c2);
      DetachedCallsAreInvisible(h1, root, c2);
    }
  }

  /**
   Calls on different fields commute: made through any two handles, inside or outside the tree and
   above or below each other, in either order, they lead to the same tree of edits.
   */
  lemma CallsCommute(h: Heap, root: Ref, c1: Call, c2: Call)
    requires HeapOk(h) && root < |h| && c1.op < |h| && c2.op < |h|
    requires c1.op != c2.op || TypeOf(c1.edit) != TypeOf(c2.edit) || c1.key != c2.key
    ensures Acyclic(Apply(Apply(h, c1), c2)) && Acyclic(Apply(Apply(h, c2), c1))
    ensures Tree(Apply(Apply(h, c1), c2), root) == Tree(Apply(Apply(h, c2), c1), root)
  {
    hide NodeOk, Edited, Unshared, Tree, Follow, UpdateAt, Reaches, Apply, Acyclic, Opens;
    if !Reaches(h, root, c1.op) {
      UnseenCommutes(h, root, c1, c2);
    } else if !Reaches(h, root, c2.op) {
      UnseenCommutes(h, root, c2, c1);
    } else {
      var p1 := ReachesFollow(h, root, c1.op);
      var p2 := ReachesFollow(h, root, c2.op);
      CallAfterCall(h, root, p1, c1, p2, c2);
      CallAfterCall(h, root, p2, c2, p1, c1);
      AlreadyOpen(h, root, p1, c1.key, c1.edit, p2);
      AlreadyOpen(h, root, p2, c2.key, c2.edit, p1);
      UpdatesCommute(Tree(h, root), p1, c1.key, c1.edit, p2, c2.key, c2.edit);
    }
  }
}

/**
 cluster.go and async.go in place: the retry loop of execute, and the command queue's three users,
 enqueueCommand, the tick of executeEnqueuedCommands and the first half of Stop.
 */
module ClusterExecute {
  import opened Common
  import opened Queues
  import opened RoundRobin
  import opened Scheduler

  /** The parts of an Async that a caller observes: how often completion was signalled, and Error. */
  class Async {
    var signals: nat
    var error: bool

    constructor ()
      ensures signals == 0 && !error
    {
      signals, error := 0, false;
    }

    /** A nil error leaves an error set earlier in place. */
    method Done(err: bool)
      modifies this
      ensures signals == old(signals) + 1 && error == (old(error) || err)
    {
      if err {
        error := true;
      }
      signals := signals + 1;
    }
  }

  predicate Succeeds(a: NodeAnswer) {
    a.executed && !a.failed
  }

  predicate Parks(queueing: bool, a: NodeAnswer) {
    queueing && !a.executed && !a.failed
  }

  /**
   The loop of execute for one command.  `running[k]` is what the state check before the k-th node
   call finds, `answers[k]` what that call returns, `accepts` whether the command queue takes the
   command.  Every node call but the last is one that asks for a retry.
   */
  method Execute(o: Options, retryable: bool, a: Async, running: seq<bool>, answers: seq<NodeAnswer>, accepts: bool)
    returns (calls: nat, enqueued: bool)
    requires ValidOptions(o)
    requires o.attempts <= |running| && o.attempts <= |answers|  // as much as the loop may look at
    modifies a
    ensures calls <= (if retryable then o.attempts else 1)
    ensures forall k :: 0 <= k < calls ==> running[k]
    ensures forall k :: 0 <= k < calls - 1 ==> !Succeeds(answers[k]) && !Parks(o.queueing, answers[k])
    ensures var parked := calls > 0 && Parks(o.queueing, answers[calls - 1]);
            && enqueued == (parked && accepts)
            && a.signals == old(a.signals) + (if !parked then 1 else if accepts then 0 else 2)
    ensures enqueued ==> a.error == old(a.error)
    ensures !enqueued ==> a.error == (old(a.error) || !(calls > 0 && Succeeds(answers[calls - 1])))
    ensures calls < (if retryable then o.attempts else 1) ==>
              || !running[calls]
              || (calls > 0 && (Succeeds(answers[calls - 1]) || Parks(o.queueing, answers[calls - 1])))
  {
    calls, enqueued := 0, false;
    var tries := if retryable then o.attempts else 1;
    ghost var budget := tries;
    while tries > 0
      invariant 0 < tries == budget - calls && !enqueued
      invariant a.signals == old(a.signals) && a.error == old(a.error)
      invariant forall k :: 0 <= k < calls ==> running[k] && !Succeeds(answers[k]) && !Parks(o.queueing, answers[k])
    {
      var next := Attempt(o.queueing, running[calls], tries, answers[calls]);
      if running[calls] {
        calls := calls + 1;
      }
      match next {
        case Again(t) =>
          tries := t;
        case Signal(err) =>
          a.Done(err);
          return;
        case Offer =>
          // enqueueCommand, which signals a refusal itself
          if accepts {
            enqueued := true;
          } else {
            a.Done(true);
            a.Done(true);
          }
          return;
      }
    }
  }

  /**
   The scheduler's iteration takes the same decisions: done, with an error unless the node call
   succeeded; parked; or tried again.
   */
  lemma IterationOutcome(o: Options, s: Sched, id: CmdId, a: NodeAnswer)
    requires SchedInv(o, s) && id in s.active && s.active[id].Trying?
    ensures var s1 := Iteration(o, s, id, a);
            var running, tries := s.phase.SchedRunning?, s.active[id].tries;
            && s1.signals[id] == (if id in s1.active then 0 else 1)
            && (id !in s1.active ==> (id in s1.failed <==> id in s.failed || !(running && Succeeds(a))))
            && (id in s1.active ==> running && !Succeeds(a) && s1.failed == s.failed)
            && (id in s1.active ==> s1.active[id] == if Parks(o.queueing, a) then Offering else Trying(tries - 1))
            && (id !in s1.active ==> !running || Succeeds(a) || tries == 1)
  {
    assert CmdOk(s, id);
  }

  /** The iterations of a command's retry loop, one answer each, with nothing in between. */
  function Retry(o: Options, s: Sched, id: CmdId, answers: seq<NodeAnswer>): Sched
    decreases |answers|
  {
    if answers == [] || id !in s.active || !s.active[id].Trying? || s.active[id].tries == 0 then s
    else Retry(o, Iteration(o, s, id, answers[0]), id, answers[1..])
  }

  lemma {:induction false} RetriesLeft(o: Options, s: Sched, id: CmdId, answers: seq<NodeAnswer>)
    requires SchedInv(o, s) && s.phase.SchedRunning? && id in s.active && s.active[id].Trying?
    requires |answers| <= s.active[id].tries
    requires forall i :: 0 <= i < |answers| ==> !Succeeds(answers[i]) && !Parks(o.queueing, answers[i])
    ensures var s1 := Retry(o, s, id, answers);
            && s1.queue == s.queue
            && if |answers| < s.active[id].tries
               then id in s1.active && s1.active[id] == Trying(s.active[id].tries - |answers|)
               else id !in s1.active && id in s1.signals && s1.signals[id] == 1 && id in s1.failed
    decreases |answers|
  {
    hide SchedInv;
    assert 0 < s.active[id].tries by { TriesArePositive(o, s, id); }
    if answers != [] {
      var s1 := Iteration(o, s, id, answers[0]);
      AttemptKeeps(o, s, id, answers[0]);
      IterationOutcome(o, s, id, answers[0]);
      assert Succeeds(answers[0]) == false && Parks(o.queueing, answers[0]) == false;
      if s.active[id].tries > 1 {
        RetriesLeft(o, s1, id, answers[1..]);
      } else {
        assert answers[1..] == [];
      }
    }
  }

  lemma TriesArePositive(o: Options, s: Sched, id: CmdId)
    requires SchedInv(o, s) && id in s.active && s.active[id].Trying?
    ensures 0 < s.active[id].tries
  {
    assert CmdOk(s, id);
  }

  /**
   A submitted command whose node calls all ask for a retry makes exactly as many calls as configured (one, if it
   cannot be retried); then it is signalled once, with an error.
   */
  lemma RetriesExact(o: Options, s: Sched, id: CmdId, retryable: bool, answers: seq<NodeAnswer>)
    requires SchedInv(o, s) && s.phase.SchedRunning? && id !in s.signals
    requires |answers| <= (if retryable then o.attempts else 1)
    requires forall i :: 0 <= i < |answers| ==> !Succeeds(answers[i]) && !Parks(o.queueing, answers[i])
    ensures var s1 := Retry(o, Submit(o, s, id, retryable), id, answers);
            var budget := if retryable then o.attempts else 1;
            && s1.queue == s.queue
            && if |answers| < budget then id in s1.active && s1.active[id] == Trying(budget - |answers|)
               else id !in s1.active && id in s1.signals && s1.signals[id] == 1 && id in s1.failed
  {
    hide SchedInv, Retry;
    SubmitKeeps(o, s, id, retryable);
    RetriesLeft(o, Submit(o, s, id, retryable), id, answers);
  }

  // ------------------------------------------------------------------------------------------
  // The command queue
  // ------------------------------------------------------------------------------------------

  /** The callback of a tick: launch what is due, put the rest back. */
  function TickVisitor(o: Options, s: Sched, now: int): Visitor<map<CmdId, Task>, CmdId> {
    (active: map<CmdId, Task>, v: Option<CmdId>) =>
      if v.None? then (active, Verdict(true, false))
      else if Due(s, now, v.value) then (active[v.value := Trying(TriesFor(o, s, v.value))], Verdict(false, false))
      else (active, Verdict(false, true))
  }

  lemma {:induction false} RunTick(o: Options, s: Sched, now: int, active: map<CmdId, Task>, ids: seq<CmdId>)
    ensures Run(TickVisitor(o, s, now), active, ids) ==
            Visit(Launched(o, s, now, active, ids), Waiting(s, now, ids), |ids|)
    decreases |ids|
  {
    if ids != [] {
      var active1 := if Due(s, now, ids[0]) then active[ids[0] := Trying(TriesFor(o, s, ids[0]))] else active;
      RunTick(o, s, now, active1, ids[1..]);
    }
  }

  /** The callback of Stop: signal and drop. */
  function StopVisitor(): Visitor<Sched, CmdId> {
    (s: Sched, v: Option<CmdId>) =>
      if v.None? then (s, Verdict(true, false))
      else (Scheduler.Done(s, v.value, true, 1), Verdict(false, false))
  }

  lemma {:induction false} RunStop(s: Sched, ids: seq<CmdId>)
    ensures Run(StopVisitor(), s, ids) == Visit(SignalAll(s, ids), [], |ids|)
    decreases |ids|
  {
    if ids != [] {
      RunStop(Scheduler.Done(s, ids[0], true, 1), ids[1..]);
    }
  }

  /** A refused command is signalled by enqueueCommand and again by execute. */
  lemma DoneTwice(s: Sched, id: CmdId)
    ensures Scheduler.Done(Scheduler.Done(s, id, true, 1), id, true, 1) == Scheduler.Done(s, id, true, 2)
  {
    assert s.active - {id} - {id} == s.active - {id};
    assert s.failed + {id} + {id} == s.failed + {id};
    var n := SignalsOf(s, id);
    assert s.signals[id := n + 1][id := n + 2] == s.signals[id := n + 2];
  }

  /** A cluster with command queueing; `rest` is everything but the queue, which lives in `cq`. */
  class CommandQueue {
    const o: Options
    const cq: Queue<CmdId>
    var rest: Sched

    function State(): Sched
      reads this, cq
    {
      rest.(queue := cq.items)
    }

    ghost predicate Valid()
      reads this, cq
    {
      && cq.Valid() && cq.size == o.depth && (cq.closed <==> rest.phase.SchedShutdown?)
      && SchedInv(o, State())
    }

    constructor (o: Options)
      requires ValidOptions(o) && o.queueing
      ensures Valid() && fresh(cq) && State() == NewSched() && this.o == o
    {
      this.o := o;
      cq := new Queue<CmdId>(o.depth);
      rest := NewSched();
    }

    /** enqueueCommand, then the end of execute; the destroyed queue is never touched. */
    method EnqueueCommand(id: CmdId, at: int)
      requires Valid() && id in rest.active && rest.active[id].Offering?
      modifies this, cq`items
      ensures Valid()
      ensures State() == Enqueueing(o, old(State()), id, at)
    {
      hide SchedInv;
      OfferKeeps(o, State(), id, at);
      if rest.phase.SchedShutdown? {
        DoneTwice(rest, id);
        rest := Scheduler.Done(rest, id, true, 1);
        rest := Scheduler.Done(rest, id, true, 1).(refused := rest.refused + {id});
      } else {
        rest := rest.(executeAt := rest.executeAt[id := at]);
        var r := cq.Enqueue(Some(id));
        if r.Full? {
          DoneTwice(rest, id);
          rest := Scheduler.Done(rest, id, true, 1);
          rest := Scheduler.Done(rest, id, true, 1).(refused := rest.refused + {id});
        } else {
          rest := rest.(active := rest.active - {id});
        }
      }
    }

    /** One tick of executeEnqueuedCommands. */
    method TickQueue(now: int)
      requires Valid()
      modifies this, cq`items
      ensures Valid()
      ensures State() == Tick(o, old(State()), now)
    {
      hide SchedInv, Run, Waiting, Launched, TickVisitor;
      TickKeeps(o, State(), now);
      if !rest.phase.SchedShutdown? {
        RunTick(o, State(), now, rest.active, cq.items);
        var active, _ := cq.Iterate(TickVisitor(o, State(), now), rest.active);
        rest := rest.(active := active);
        assert cq.items == Waiting(old(State()), now, old(cq.items));
      }
    }

    /** Stop, as far as commands are concerned. */
    method StopQueue()
      requires Valid()
      modifies this, cq
      ensures Valid()
      ensures State() == StopSched(old(State()))
    {
      hide SchedInv, Run, SignalAll, StopVisitor;
      SchedStepKeeps(o, State(), DoHalt);
      if rest.phase.SchedRunning? {
        RunStop(State(), cq.items);
        var s, _ := cq.Iterate(StopVisitor(), State());
        rest := s.(phase := SchedShutdown);
        var _ := cq.Destroy();
      }
    }
  }
}

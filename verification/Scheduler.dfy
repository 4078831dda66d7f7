/**
 The command scheduler of cluster.go: submitting a command, the retry loop of execute, the command
 queue with its ticks, and Stop.  A command is identified by its submission.  One iteration of the
 retry loop, one attempt to enqueue, one tick and one Stop are the atomic steps, so a Stop may come
 between a command's decision to enqueue and the enqueueing.
 */
module Scheduler {
  import opened Common
  import opened RoundRobin

  type CmdId = nat

  datatype SchedPhase = SchedCreated | SchedRunning | SchedShutdown

  /** Where an executing command stands: in the retry loop, or about to be enqueued. */
  datatype Task = Trying(tries: nat) | Offering

  datatype Options = Options(attempts: nat, queueing: bool, depth: nat)

  /**
   What NewCluster lets through: at least one attempt (a byte), and a queue exactly if its depth is
   positive (a uint16).
   */
  predicate ValidOptions(o: Options) {
    0 < o.attempts <= 0xFF && o.depth <= 0xFFFF && (o.queueing <==> 0 < o.depth)
  }

  /**
   `signals` has an entry for every accepted command: how often its completion was signalled.
   `failed` are the commands whose Async.Error is set, `refused` those the queue turned down.
   */
  datatype Sched = Sched(
    phase: SchedPhase,
    queue: seq<CmdId>,
    active: map<CmdId, Task>,
    signals: map<CmdId, nat>,
    failed: set<CmdId>,
    refused: set<CmdId>,
    retryable: set<CmdId>,
    executeAt: map<CmdId, int>)

  /** What one iteration of the retry loop leads to. */
  datatype Next = Again(tries: nat) | Signal(err: bool) | Offer

  /** One iteration, with `tries` left and answer `a` of the node manager. */
  function Attempt(queueing: bool, running: bool, tries: nat, a: NodeAnswer): (r: Next)
    requires 0 < tries
  {
    if !running then Signal(true)
    else if a.executed && !a.failed then Signal(false)
    else if !a.executed && !a.failed && queueing then Offer
    else if tries == 1 then Signal(true)
    else Again(tries - 1)
  }

  function TriesFor(o: Options, s: Sched, id: CmdId): nat {
    if id in s.retryable then o.attempts else 1
  }

  function SignalsOf(s: Sched, id: CmdId): nat {
    if id in s.signals then s.signals[id] else 0
  }

  /** Async.done, `times` times. */
  function Done(s: Sched, id: CmdId, err: bool, times: nat): Sched {
    s.(active := s.active - {id}, signals := s.signals[id := SignalsOf(s, id) + times],
       failed := if err then s.failed + {id} else s.failed)
  }

  function Submit(o: Options, s: Sched, id: CmdId, retryable: bool): Sched {
    s.(signals := s.signals[id := 0], retryable := if retryable then s.retryable + {id} else s.retryable,
       active := s.active[id := Trying(if retryable then o.attempts else 1)])
  }

  function Iteration(o: Options, s: Sched, id: CmdId, a: NodeAnswer): Sched
    requires id in s.active && s.active[id].Trying? && 0 < s.active[id].tries
  {
    match Attempt(o.queueing, s.phase.SchedRunning?, s.active[id].tries, a)
    case Again(t) => s.(active := s.active[id := Trying(t)])
    case Signal(err) => Done(s, id, err, 1)
    case Offer => s.(active := s.active[id := Offering])
  }

  /** enqueueCommand and the rest of execute: a refusal is signalled in both. */
  function Enqueueing(o: Options, s: Sched, id: CmdId, at: int): Sched {
    if s.phase.SchedShutdown? then Done(s, id, true, 2).(refused := s.refused + {id})
    else
      var s1 := s.(executeAt := s.executeAt[id := at]);
      if |s.queue| == o.depth then Done(s1, id, true, 2).(refused := s.refused + {id})
      else s1.(queue := s.queue + [id], active := s.active - {id})
  }

  predicate Due(s: Sched, now: int, id: CmdId) {
    id in s.executeAt && now > s.executeAt[id]
  }

  /** The queued commands whose time has not come, in order. */
  function Waiting(s: Sched, now: int, ids: seq<CmdId>): seq<CmdId> {
    if ids == [] then []
    else (if Due(s, now, ids[0]) then [] else [ids[0]]) + Waiting(s, now, ids[1..])
  }

  /** The executing commands after the due ones of `ids` have been launched. */
  function Launched(o: Options, s: Sched, now: int, active: map<CmdId, Task>, ids: seq<CmdId>): map<CmdId, Task>
    decreases |ids|
  {
    if ids == [] then active
    else
      var active1 := if Due(s, now, ids[0]) then active[ids[0] := Trying(TriesFor(o, s, ids[0]))] else active;
      Launched(o, s, now, active1, ids[1..])
  }

  function Tick(o: Options, s: Sched, now: int): Sched {
    if s.phase.SchedShutdown? then s
    else s.(queue := Waiting(s, now, s.queue), active := Launched(o, s, now, s.active, s.queue))
  }

  /** Every queued command is told that the cluster is shutting down. */
  function SignalAll(s: Sched, ids: seq<CmdId>): Sched
    decreases |ids|
  {
    if ids == [] then s else SignalAll(Done(s, ids[0], true, 1), ids[1..])
  }

  function StopSched(s: Sched): Sched {
    if !s.phase.SchedRunning? then s
    else SignalAll(s, s.queue).(phase := SchedShutdown, queue := [])
  }

  datatype SchedStep =
    | DoLaunch  // Cluster.Start
    | DoSubmit(id: CmdId, retryable: bool)
    | DoAttempt(id: CmdId, answer: NodeAnswer)
    | DoOffer(id: CmdId, at: int)
    | DoTick(now: int)
    | DoHalt  // Cluster.Stop

  predicate SchedEnabled(s: Sched, step: SchedStep) {
    match step
    case DoSubmit(id, _) => id !in s.signals
    case DoAttempt(id, _) => id in s.active && s.active[id].Trying? && 0 < s.active[id].tries
    case DoOffer(id, _) => id in s.active && s.active[id].Offering?
    case _ => true
  }

  function SchedDo(o: Options, s: Sched, step: SchedStep): Sched
    requires SchedEnabled(s, step)
  {
    match step
    case DoLaunch => if s.phase.SchedCreated? then s.(phase := SchedRunning) else s
    case DoSubmit(id, retryable) => Submit(o, s, id, retryable)
    case DoAttempt(id, a) => Iteration(o, s, id, a)
    case DoOffer(id, at) => Enqueueing(o, s, id, at)
    case DoTick(now) => Tick(o, s, now)
    case DoHalt => StopSched(s)
  }

  function NewSched(): Sched {
    Sched(SchedCreated, [], map[], map[], {}, {}, {}, map[])
  }

  // ------------------------------------------------------------------------------------------
  // The invariant
  // ------------------------------------------------------------------------------------------

  /** An accepted command is executing, queued or signalled; signalled twice exactly if it was refused. */
  predicate CmdOk(s: Sched, id: CmdId)
    requires id in s.signals
  {
    if id in s.active
    then && id !in s.queue && s.signals[id] == 0 && id !in s.refused
         && (s.active[id].Trying? ==> 0 < s.active[id].tries)
    else if id in s.queue then s.signals[id] == 0 && id !in s.refused
    else s.signals[id] == if id in s.refused then 2 else 1
  }

  predicate SchedInv(o: Options, s: Sched) {
    && ValidOptions(o)
    && NoDup(s.queue) && |s.queue| <= o.depth
    && (forall id :: id in s.queue ==> id in s.signals)
    && (forall id :: id in s.active ==> id in s.signals)
    && (forall id :: id in s.refused ==> id in s.signals)
    && (forall id :: id in s.signals ==> CmdOk(s, id))
    && (forall id :: id in s.active && s.active[id].Trying? ==> s.active[id].tries <= TriesFor(o, s, id))
    && (s.phase.SchedShutdown? ==> s.queue == [])
    && (!o.queueing ==> s.queue == [] && forall id :: id in s.active ==> s.active[id].Trying?)
  }

  lemma {:induction false} WaitingMembers(s: Sched, now: int, ids: seq<CmdId>)
    requires NoDup(ids)
    ensures var w := Waiting(s, now, ids);
            && NoDup(w) && |w| <= |ids|
            && (forall id :: id in w <==> id in ids && !Due(s, now, id))
  {
    if ids != [] {
      assert ids == [ids[0]] + ids[1..];
      WaitingMembers(s, now, ids[1..]);
      var w := Waiting(s, now, ids[1..]);
      assert ([ids[0]] + w)[1..] == w && [] + w == w;
      assert Waiting(s, now, ids) == if Due(s, now, ids[0]) then w else [ids[0]] + w;
      hide Waiting, Due;
    }
  }

  lemma {:induction false} LaunchedMembers(o: Options, s: Sched, now: int, active: map<CmdId, Task>, ids: seq<CmdId>)
    ensures var l := Launched(o, s, now, active, ids);
            && (forall id :: id in l <==> id in active || (id in ids && Due(s, now, id)))
            && (forall id :: id in l ==>
                  l[id] == if id in ids && Due(s, now, id) then Trying(TriesFor(o, s, id)) else active[id])
    decreases |ids|
  {
    if ids != [] {
      assert ids == [ids[0]] + ids[1..];
      var active1 := if Due(s, now, ids[0]) then active[ids[0] := Trying(TriesFor(o, s, ids[0]))] else active;
      LaunchedMembers(o, s, now, active1, ids[1..]);
    }
  }

  /** `a` is `b` with some elements left out. */
  predicate Subsequence(a: seq<CmdId>, b: seq<CmdId>)
    decreases |b|
  {
    a == [] || (b != [] && if a[0] == b[0] then Subsequence(a[1..], b[1..]) else Subsequence(a, b[1..]))
  }

  lemma {:induction false} WaitingInOrder(s: Sched, now: int, ids: seq<CmdId>)
    requires NoDup(ids)
    ensures Subsequence(Waiting(s, now, ids), ids)
  {
    if ids != [] {
      WaitingInOrder(s, now, ids[1..]);
      WaitingMembers(s, now, ids[1..]);
      var w := Waiting(s, now, ids[1..]);
      assert [] + w == w && ([ids[0]] + w)[1..] == w;
      assert w != [] ==> w[0] in w;
    }
  }

  lemma {:induction false} SubsequenceOfItself(a: seq<CmdId>)
    ensures Subsequence(a, a)
  {
    if a != [] {
      SubsequenceOfItself(a[1..]);
    }
  }

  /** A tick launches exactly the due commands, each once, and leaves the others queued in their order. */
  lemma TickKeeps(o: Options, s: Sched, now: int)
    requires SchedInv(o, s)
    ensures SchedInv(o, Tick(o, s, now))
    ensures !s.phase.SchedShutdown? ==>
              forall id :: id in s.queue ==>
                if Due(s, now, id) then id !in Tick(o, s, now).queue && id in Tick(o, s, now).active
                else id in Tick(o, s, now).queue && id !in Tick(o, s, now).active
    ensures Subsequence(Tick(o, s, now).queue, s.queue)
  {
    hide NoDup, Waiting, Launched, Due, Subsequence;
    WaitingInOrder(s, now, s.queue);
    SubsequenceOfItself(s.queue);
    WaitingMembers(s, now, s.queue);
    LaunchedMembers(o, s, now, s.active, s.queue);
  }

  lemma {:induction false} SignalAllExact(s: Sched, ids: seq<CmdId>)
    requires NoDup(ids)
    requires forall id :: id in ids ==> id in s.signals && id !in s.active
    ensures var s1 := SignalAll(s, ids);
            && s1 == s.(signals := s1.signals, failed := s1.failed)
            && s1.signals.Keys == s.signals.Keys
            && (forall id :: id in s.signals ==> s1.signals[id] == s.signals[id] + if id in ids then 1 else 0)
            && (forall id :: id in s1.failed <==> id in s.failed || id in ids)
    decreases |ids|
  {
    if ids != [] {
      assert ids == [ids[0]] + ids[1..];
      assert s.active - {ids[0]} == s.active;
      SignalAllExact(Done(s, ids[0], true, 1), ids[1..]);
    }
  }

  /** Stop empties the queue and signals every command in it exactly once, with an error, and no other. */
  lemma StopSignalsQueued(o: Options, s: Sched)
    requires SchedInv(o, s) && s.phase.SchedRunning?
    ensures var s1 := StopSched(s);
            && SchedInv(o, s1) && s1.phase == SchedShutdown && s1.queue == [] && s1.active == s.active
            && s1.signals.Keys == s.signals.Keys
            && (forall id :: id in s.signals ==> s1.signals[id] == if id in s.queue then 1 else s.signals[id])
            && (forall id :: id in s.queue ==> id in s1.failed)
  {
    SignalAllExact(s, s.queue);
    hide SignalAll;
  }

  lemma OfferKeeps(o: Options, s: Sched, id: CmdId, at: int)
    requires SchedInv(o, s) && id in s.active && s.active[id].Offering?
    ensures SchedInv(o, Enqueueing(o, s, id, at))
  {
    hide NoDup;
    if !s.phase.SchedShutdown? && |s.queue| < o.depth {
      NoDupAppend(s.queue, id);
    }
  }

  /**
   What enqueueing is for: a command queued to be executed at `at` is launched by a tick after that time, with
   all its tries, and left in the queue by a tick before it.  No other command's time changes.
   */
  lemma QueuedUntilDue(o: Options, s: Sched, id: CmdId, at: int, now: int)
    requires SchedInv(o, s) && id in s.active && s.active[id].Offering?
    requires !s.phase.SchedShutdown? && |s.queue| < o.depth
    ensures var s1 := Tick(o, Enqueueing(o, s, id, at), now);
            && (now > at ==>
                  && id !in s1.queue && id in s1.active
                  && s1.active[id] == Trying(if id in s.retryable then o.attempts else 1))
            && (now <= at ==> id in s1.queue && id !in s1.active)
            && (forall x :: x != id ==>
                  && (x in s1.executeAt <==> x in s.executeAt)
                  && (x in s.executeAt ==> s1.executeAt[x] == s.executeAt[x]))
  {
    hide NoDup, Waiting, Launched;
    var s1 := Enqueueing(o, s, id, at);
    OfferKeeps(o, s, id, at);
    assert s1.queue[|s.queue|] == id;
    WaitingMembers(s1, now, s1.queue);
    LaunchedMembers(o, s1, now, s1.active, s1.queue);
  }

  lemma SubmitKeeps(o: Options, s: Sched, id: CmdId, retryable: bool)
    requires SchedInv(o, s) && id !in s.signals
    ensures SchedInv(o, Submit(o, s, id, retryable))
  {
    hide NoDup;
  }

  lemma AttemptKeeps(o: Options, s: Sched, id: CmdId, a: NodeAnswer)
    requires SchedInv(o, s) && id in s.active && s.active[id].Trying?
    ensures SchedInv(o, Iteration(o, s, id, a))
  {
    hide NoDup;
  }

  lemma LaunchKeeps(o: Options, s: Sched)
    requires SchedInv(o, s) && s.phase.SchedCreated?
    ensures SchedInv(o, s.(phase := SchedRunning))
  {
    hide NoDup;
  }

  lemma SchedStepKeeps(o: Options, s: Sched, step: SchedStep)
    requires SchedInv(o, s) && SchedEnabled(s, step)
    ensures SchedInv(o, SchedDo(o, s, step))
  {
    hide SchedInv, Submit, Iteration, Tick, StopSched, Enqueueing;
    match step
    case DoLaunch => if s.phase.SchedCreated? { LaunchKeeps(o, s); }
    case DoSubmit(id, retryable) => SubmitKeeps(o, s, id, retryable);
    case DoAttempt(id, a) => AttemptKeeps(o, s, id, a);
    case DoOffer(id, at) => OfferKeeps(o, s, id, at);
    case DoTick(now) => TickKeeps(o, s, now);
    case DoHalt => if s.phase.SchedRunning? { StopSignalsQueued(o, s); } else { StopNotRunning(s); }
  }

  lemma StopNotRunning(s: Sched)
    requires !s.phase.SchedRunning?
    ensures StopSched(s) == s
  {
  }

  // ------------------------------------------------------------------------------------------
  // Whole runs
  // ------------------------------------------------------------------------------------------

  ghost predicate SchedRun(o: Options, states: seq<Sched>, steps: seq<SchedStep>) {
    && |states| == |steps| + 1 && states[0] == NewSched() && ValidOptions(o)
    && (forall i :: 0 <= i < |steps| ==>
          SchedEnabled(states[i], steps[i]) && states[i + 1] == SchedDo(o, states[i], steps[i]))
  }

  /**
   In every run: each accepted command is in exactly one place, the queue has no duplicates and
   respects its depth, an executing command has no more tries left than it is entitled to,
   completion is signalled at most once, or twice exactly when the queue refused
   the command; and once the cluster is stopped and nothing executes any more, every accepted
   command has been signalled.
   */
  lemma {:induction false} EveryCommandAccounted(o: Options, states: seq<Sched>, steps: seq<SchedStep>, k: nat)
    requires SchedRun(o, states, steps) && k <= |steps|
    ensures SchedInv(o, states[k])
    ensures var s := states[k]; s.phase.SchedShutdown? && s.active == map[] ==>
              forall id :: id in s.signals ==> s.signals[id] == if id in s.refused then 2 else 1
  {
    if k > 0 {
      EveryCommandAccounted(o, states, steps, k - 1);
      SchedStepKeeps(o, states[k - 1], steps[k - 1]);
    }
  }

  /** A command is refused exactly when it is offered to a full queue or after shutdown. */
  lemma RefusedIff(o: Options, s: Sched, id: CmdId, at: int)
    requires SchedInv(o, s) && id in s.active && s.active[id].Offering?
    ensures var s1 := Enqueueing(o, s, id, at);
            && (s1.signals[id] == 2 <==> s.phase.SchedShutdown? || |s.queue| == o.depth)
            && (id in s1.queue <==> s1.signals[id] == 0)
            && (s1.signals[id] == 2 ==> id in s1.failed)
  {
  }

  /** The answer of a node manager that found no node to execute a command. */
  const NOT_EXECUTED := NodeAnswer(false, false)

  /** A single-try command that no node executes, from its submission to the queue's verdict. */
  lemma SubmitToQueue(o: Options, s: Sched, id: CmdId) returns (s1: Sched, s2: Sched, s3: Sched)
    requires s.phase.SchedRunning? && o.queueing && id !in s.signals
    ensures s1 == SchedDo(o, s, DoSubmit(id, false))
    ensures SchedEnabled(s1, DoAttempt(id, NOT_EXECUTED)) && s2 == SchedDo(o, s1, DoAttempt(id, NOT_EXECUTED))
    ensures SchedEnabled(s2, DoOffer(id, 0)) && s3 == SchedDo(o, s2, DoOffer(id, 0))
    ensures s3.phase == s.phase && s3.active == s.active - {id}
    ensures |s.queue| == o.depth ==> s3.queue == s.queue && s3.signals == s.signals[id := 2]
    ensures |s.queue| != o.depth ==> s3.queue == s.queue + [id] && s3.signals == s.signals[id := 0]
  {
    hide Tick, StopSched;
    s1 := SchedDo(o, s, DoSubmit(id, false));
    s2 := SchedDo(o, s1, DoAttempt(id, NOT_EXECUTED));
    s3 := SchedDo(o, s2, DoOffer(id, 0));
  }

  /** The double signal is real: with room for one queued command, the second to be parked is refused. */
  lemma RefusedIsSignalledTwice() returns (states: seq<Sched>)
    ensures var steps := [DoLaunch, DoSubmit(0, false), DoAttempt(0, NOT_EXECUTED), DoOffer(0, 0),
                          DoSubmit(1, false), DoAttempt(1, NOT_EXECUTED), DoOffer(1, 0)];
            && SchedRun(Options(1, true, 1), states, steps)
            && states[7].signals == map[0 := 0, 1 := 2] && states[7].queue == [0]
  {
    hide Submit, Iteration, Enqueueing, Tick, StopSched;
    var o, s0 := Options(1, true, 1), NewSched();
    var s1 := SchedDo(o, s0, DoLaunch);
    var s2, s3, s4 := SubmitToQueue(o, s1, 0);
    var s5, s6, s7 := SubmitToQueue(o, s4, 1);
    states := [s0, s1, s2, s3, s4, s5, s6, s7];
  }
}

/**
 node.go: a node owns a connection pool, hands its connections to commands and falls back to
 health checking when the pool cannot deliver.  Executing a command is split where other goroutines
 can come in between: `Look` is the state check and get's scan of the queue, `DialFor` the creation
 of a new connection when the scan found none, `Finish` what follows the network call.  Runs cover
 any number of commands at each of these points, and a stop while they are there.
 */
module Nodes {
  import opened Pools
  import opened PoolRuns
  import opened ConnectionManagers

  datatype NodePhase = NodeCreated | NodeRunning | NodeHealthChecking | NodeShuttingDown | NodeShutdown | NodeError

  /** `dialing` commands have found no idle connection and are about to create one. */
  datatype NodeState = NodeState(cfg: Config, phase: NodePhase, sys: System, dialing: nat)

  /** How conn.execute ended. */
  datatype Outcome = Answered | RiakOrClientError | OtherError(temporary: bool)

  /**
   Where execute stands: holding a connection, about to dial, or at its end.  NilPanic is the panic
   on a nil connection.
   */
  datatype Acquired =
    | Holds(id: ConnId)
    | Dialing
    | IllegalState
    | Declined
    | NoConnection(why: GetResult)
    | NilPanic

  predicate Serving(p: NodePhase) {
    p.NodeRunning? || p.NodeHealthChecking?
  }

  /** doHealthCheck: isStateLessThan(nodeHealthChecking), then set. */
  function Suspect(p: NodePhase): NodePhase {
    if p.NodeCreated? || p.NodeRunning? then NodeHealthChecking else p
  }

  /** The state check and the scan of the queue. */
  function Look(n: NodeState): (NodeState, Acquired) {
    if !Serving(n.phase) then (n, IllegalState)
    else if n.phase.NodeHealthChecking? then (n, Declined)
    else
      var n1 := n.(sys := Do(n.cfg, n.sys, DoScan));
      match ScanIdle(n.sys.pool).1
      case Some(id) => (n1, Holds(id))
      case None => (n1.(dialing := n.dialing + 1), Dialing)
  }

  /** A command that found nothing creates a connection. */
  function DialFor(n: NodeState, dial: Dial): (NodeState, Acquired)
    requires 0 < n.dialing
  {
    var n1 := n.(sys := Do(n.cfg, n.sys, DoCreate(dial)), dialing := n.dialing - 1);
    var r := Create(n.cfg, n.sys.pool, dial).1;
    match r
    case Got(id) => (n1, Holds(id))
    case NilConn => (n1, NilPanic)
    case _ => (n1.(phase := Suspect(n.phase)), NoConnection(r))
  }

  /** Both, with nothing in between. */
  function Acquire(n: NodeState, dial: Dial): (NodeState, Acquired) {
    var (n1, a) := Look(n);
    if a.Dialing? then DialFor(n1, dial) else (n1, a)
  }

  function Finish(n: NodeState, id: ConnId, o: Outcome): NodeState {
    match o
    case OtherError(temporary) =>
      n.(phase := if temporary then n.phase else Suspect(n.phase), sys := Do(n.cfg, n.sys, DoRemove(id)))
    case _ => n.(sys := Do(n.cfg, n.sys, DoPut(id)))
  }

  /** One round of the health check goroutine: it may only lead back to running from health checking. */
  function HealthTick(n: NodeState, healthy: bool): NodeState {
    if n.phase.NodeHealthChecking? && healthy then n.(phase := NodeRunning) else n
  }

  function StartNode(n: NodeState, dials: seq<Dial>): (NodeState, bool) {
    if !n.phase.NodeCreated? then (n, false)
    else (n.(phase := NodeRunning, sys := Do(n.cfg, n.sys, DoStart(dials))), true)
  }

  function StopNode(n: NodeState): (NodeState, bool) {
    if !Serving(n.phase) then (n, false)
    else
      var ok := Stop(n.sys.pool).1;
      (n.(phase := if ok then NodeShutdown else NodeError, sys := Do(n.cfg, n.sys, DoStop)), ok)
  }

  function NewNode(cfg: Config): NodeState {
    NodeState(cfg, NodeCreated, NewSystem(), 0)
  }

  // ------------------------------------------------------------------------------------------
  // What every step keeps
  // ------------------------------------------------------------------------------------------

  /** The node's state and its pool's state go together; the error states are never reached. */
  predicate NodeInv(n: NodeState) {
    && Inv(n.cfg, n.sys)
    && match n.phase
       case NodeCreated => n.sys == NewSystem() && n.dialing == 0
       case NodeRunning => n.sys.pool.phase.Running?
       case NodeHealthChecking => n.sys.pool.phase.Running?
       case NodeShutdown => n.sys.pool.phase.Shutdown?
       case _ => false
  }

  datatype NodeStep =
    | DoLook
    | DoDial(dial: Dial)
    | DoFinish(id: ConnId, outcome: Outcome)
    | DoHealth(healthy: bool)
    | DoPool(step: Step)  // expiry ticks and network traffic

  predicate NodeEnabled(n: NodeState, step: NodeStep) {
    match step
    case DoDial(_) => 0 < n.dialing
    case DoFinish(id, _) => id in n.sys.out
    case DoPool(s) => s.DoExpire? || s.DoUse?
    case _ => true
  }

  function NodeDo(n: NodeState, step: NodeStep): NodeState
    requires NodeEnabled(n, step)
  {
    match step
    case DoLook => Look(n).0
    case DoDial(dial) => DialFor(n, dial).0
    case DoFinish(id, o) => Finish(n, id, o)
    case DoHealth(healthy) => HealthTick(n, healthy)
    case DoPool(s) => n.(sys := Do(n.cfg, n.sys, s))
  }

  lemma {:induction false} FillKeepsPhase(cfg: Config, p: Pool, dials: seq<Dial>, n: nat)
    ensures Fill(cfg, p, dials, n).phase == p.phase
    decreases n
  {
    if n > 0 {
      var (p1, r) := Create(cfg, p, if dials == [] then DialFailed else dials[0]);
      var p2 := if r.Got? then Put(cfg, p1, r.id).0 else p1;
      FillKeepsPhase(cfg, p2, if dials == [] then [] else dials[1..], n - 1);
    }
  }

  /** Only start and stop change the pool's phase, and only clients change what is held. */
  lemma PhaseOf(cfg: Config, s: System, step: Step)
    ensures var p, p1 := s.pool.phase, Do(cfg, s, step).pool.phase;
            p1 == if step.DoStart? && p.Created? then Running else if step.DoStop? && p.Running? then Shutdown else p
    ensures step.DoExpire? || step.DoUse? ==> Do(cfg, s, step).out == s.out
  {
    if step.DoStart? {
      FillKeepsPhase(cfg, s.pool, step.dials, cfg.min);
    }
  }

  lemma LookKeeps(n: NodeState)
    requires NodeInv(n)
    ensures NodeInv(Look(n).0)
    ensures Look(n).1.Holds? ==> Look(n).1.id in Look(n).0.sys.out
    ensures Look(n).0.phase == n.phase
  {
    hide Inv;
    if n.phase.NodeRunning? {
      StepKeeps(n.cfg, n.sys, DoScan);
      PhaseOf(n.cfg, n.sys, DoScan);
    }
  }

  /**
   create gives (nil, nil), and execute panics, exactly when the node has been stopped since the
   command looked at its state.
   */
  lemma DialKeeps(n: NodeState, dial: Dial)
    requires NodeInv(n) && 0 < n.dialing
    ensures NodeInv(DialFor(n, dial).0)
    ensures DialFor(n, dial).1.NilPanic? <==> n.phase.NodeShutdown?
    ensures DialFor(n, dial).1.Holds? ==> DialFor(n, dial).1.id in DialFor(n, dial).0.sys.out
    ensures DialFor(n, dial).0.phase == if DialFor(n, dial).1.NoConnection? then NodeHealthChecking else n.phase
    ensures Serving(DialFor(n, dial).0.phase) == Serving(n.phase)
  {
    hide Inv;
    StepKeeps(n.cfg, n.sys, DoCreate(dial));
    PhaseOf(n.cfg, n.sys, DoCreate(dial));
  }

  /** A stop between the two halves of get does lead to the panic. */
  lemma StopWhileDialingPanics(cfg: Config, dial: Dial)
    requires ValidConfig(cfg)
    ensures var n1 := StartNode(NewNode(cfg), []).0;
            var n2 := Look(n1).0;
            var n3 := StopNode(n2).0;
            && Look(n1).1.Dialing? && 0 < n3.dialing && NodeInv(n3)
            && DialFor(n3, dial).1.NilPanic?
  {
    var n := NewNode(cfg);
    NoDialsNoConnections(cfg, n.sys.pool, cfg.min);
    var n1 := StartNode(n, []).0;
    assert n1.sys.pool == Pool(Running, 0, [], []);
    var n2, a := Look(n1).0, Look(n1).1;
    assert a.Dialing? && n2.dialing == 1;
    StartNodeKeeps(n, []);
    LookKeeps(n1);
    StopNodeKeeps(n2);
    hide Inv, Do, StartNode, Look;
    DialKeeps(StopNode(n2).0, dial);
  }

  lemma {:induction false} NoDialsNoConnections(cfg: Config, p: Pool, n: nat)
    requires p.phase.Created? && p.idle == []
    ensures Fill(cfg, p, [], n) == p
    decreases n
  {
    if n > 0 {
      NoDialsNoConnections(cfg, p, n - 1);
    }
  }

  /** Undisturbed, get on a running pool delivers a connection or a reason, so the panic is not reached. */
  lemma AcquireKeeps(n: NodeState, dial: Dial)
    requires NodeInv(n)
    ensures NodeInv(Acquire(n, dial).0)
    ensures !Acquire(n, dial).1.NilPanic? && !Acquire(n, dial).1.Dialing?
    ensures Acquire(n, dial).1.Holds? ==> Acquire(n, dial).1.id in Acquire(n, dial).0.sys.out && n.phase.NodeRunning?
    ensures Acquire(n, dial).0.dialing == n.dialing
    ensures Serving(Acquire(n, dial).0.phase) == Serving(n.phase)
    ensures Acquire(n, dial).1.NoConnection? ==> n.phase.NodeRunning? && Acquire(n, dial).0.phase.NodeHealthChecking?
  {
    hide Inv, Do, Create;
    LookKeeps(n);
    if Look(n).1.Dialing? {
      DialKeeps(Look(n).0, dial);
    }
  }

  /** Only a running node looks for a connection; a health checking one declines, others report their state. */
  lemma AcquireByState(n: NodeState, dial: Dial)
    requires NodeInv(n)
    ensures match n.phase
            case NodeRunning => Acquire(n, dial).1.Holds? || Acquire(n, dial).1.NoConnection?
            case NodeHealthChecking => Acquire(n, dial) == (n, Declined)
            case _ => Acquire(n, dial) == (n, IllegalState)
  {
    hide Inv, Do, Create;
    AcquireKeeps(n, dial);
  }

  /**
   Where a connection goes when its command is done: back into the queue, open as it was, after an
   answer or an error from Riak or the client; closed and uncounted after a network error, and then
   a permanent one sends a running node into health checking.  On a node stopped in the meantime it is
   closed and uncounted, except that after a network error it is left open and counted.
   */
  lemma FinishExact(n: NodeState, id: ConnId, o: Outcome)
    requires NodeInv(n) && id in n.sys.out
    ensures var n1 := Finish(n, id, o);
            var p, p1 := n.sys.pool, n1.sys.pool;
            && id !in n1.sys.out
            && if !Serving(n.phase) then
                 && n1.phase == n.phase
                 && if o.OtherError? then p1 == p
                    else p1.idle == [] && p1.counter == p.counter - 1 && |p1.conns| == |p.conns| && !p1.conns[id].open
               else if o.OtherError? then
                 && p1.idle == p.idle && p1.counter == p.counter - 1 && |p1.conns| == |p.conns| && !p1.conns[id].open
                 && (n1.phase.NodeRunning? <==> o.temporary && n.phase.NodeRunning?)
               else
                 && p1.idle == p.idle + [id] && p1.counter == p.counter && p1.conns == p.conns && n1.phase == n.phase
  {
    PutKeeps(n.cfg, n.sys, id);
    InvMeansNoGuard(n.cfg, n.sys, DoRemove(id));
  }

  lemma NodeStepKeeps(n: NodeState, step: NodeStep)
    requires NodeInv(n) && NodeEnabled(n, step)
    ensures NodeInv(NodeDo(n, step))
    ensures Serving(NodeDo(n, step).phase) == Serving(n.phase)
  {
    hide Inv, Do, Look, DialFor;
    match step
    case DoLook => LookKeeps(n);
    case DoDial(dial) => DialKeeps(n, dial);
    case DoFinish(id, o) =>
      StepKeeps(n.cfg, n.sys, if o.OtherError? then DoRemove(id) else DoPut(id));
      PhaseOf(n.cfg, n.sys, if o.OtherError? then DoRemove(id) else DoPut(id));
    case DoHealth(_) =>
    case DoPool(s) =>
      NewSystemStarts(n.cfg, n.sys, s);
      StepKeeps(n.cfg, n.sys, s);
      PhaseOf(n.cfg, n.sys, s);
  }

  /** A health check leads from health checking to running if it succeeds, and changes nothing otherwise. */
  lemma HealthExact(n: NodeState, healthy: bool)
    ensures var n1 := HealthTick(n, healthy);
            && (n1.phase.NodeRunning? <==> n.phase.NodeRunning? || (n.phase.NodeHealthChecking? && healthy))
            && (!n1.phase.NodeRunning? ==> n1.phase == n.phase)
            && n1.cfg == n.cfg && n1.sys == n.sys && n1.dialing == n.dialing
  {
  }

  /** A node that has not been started opens, when started, the connections that its first `min` dials give. */
  lemma StartNodeOpens(n: NodeState, dials: seq<Dial>)
    requires NodeInv(n) && n.phase.NodeCreated?
    ensures var n1, conns := StartNode(n, dials).0, Opened(dials, n.cfg.min);
            && n1.phase == NodeRunning && n1.sys.out == {} && n1.cfg == n.cfg
            && n1.sys.pool == Pool(Running, |conns|, Upto(|conns|), conns)
  {
    hide Do, Opened;
    NewSystemStarts(n.cfg, n.sys, DoStart(dials));
  }

  lemma StartNodeKeeps(n: NodeState, dials: seq<Dial>)
    requires NodeInv(n)
    ensures NodeInv(StartNode(n, dials).0)
    ensures StartNode(n, dials).1 <==> n.phase.NodeCreated?
    ensures StartNode(n, dials).1 ==> StartNode(n, dials).0.phase.NodeRunning?
    ensures !StartNode(n, dials).1 ==> StartNode(n, dials).0 == n
  {
    hide Inv, Do;
    StepKeeps(n.cfg, n.sys, DoStart(dials));
    PhaseOf(n.cfg, n.sys, DoStart(dials));
  }

  /** A serving node stops cleanly: every idle connection closed, the counter at the connections still held. */
  lemma StopNodeKeeps(n: NodeState)
    requires NodeInv(n)
    ensures NodeInv(StopNode(n).0)
    ensures StopNode(n).1 <==> Serving(n.phase)
    ensures !Serving(n.phase) ==> StopNode(n).0 == n
    ensures Serving(n.phase) ==>
              var n1 := StopNode(n).0;
              && n1.phase.NodeShutdown? && n1.sys.out == n.sys.out
              && n1.sys.pool == Pool(Shutdown, |n.sys.out|, [], CloseAll(n.sys.pool.conns, n.sys.pool.idle))
  {
    if Serving(n.phase) {
      StopKeeps(n.cfg, n.sys);
    }
  }

  // ------------------------------------------------------------------------------------------
  // The node in place
  // ------------------------------------------------------------------------------------------

  class Node {
    const cm: ConnectionManager
    var phase: NodePhase
    ghost var dialing: nat  // commands between the two halves of get

    ghost predicate Valid()
      reads this, cm, cm.q
    {
      cm.Valid() && NodeInv(State())
    }

    ghost function State(): NodeState
      reads this, cm, cm.q
    {
      NodeState(cm.cfg, phase, cm.Sys(), dialing)
    }

    constructor (cfg: Config)
      requires ValidConfig(cfg)
      ensures Valid() && fresh(cm) && fresh(cm.q) && State() == NewNode(cfg)
    {
      cm := new ConnectionManager(cfg);
      phase, dialing := NodeCreated, 0;
    }

    method DoHealthCheck()
      modifies this`phase
      ensures phase == Suspect(old(phase))
    {
      if phase.NodeCreated? || phase.NodeRunning? {
        phase := NodeHealthChecking;
      }
    }

    /** execute up to the first half of get. */
    method LookForConn() returns (r: Acquired)
      requires Valid()
      modifies this`dialing, cm`counter, cm`conns, cm`out, cm.q`items
      ensures Valid()
      ensures (State(), r) == Look(old(State()))
      ensures r.Dialing? ==> 0 < dialing
    {
      hide Inv, Do, ScanIdle;
      LookKeeps(State());
      if !Serving(phase) {
        return IllegalState;
      }
      if phase != NodeRunning {
        return Declined;
      }
      var found := cm.ScanConns();
      if found.Some? {
        return Holds(found.value);
      }
      dialing := dialing + 1;
      r := Dialing;
    }

    /** The second half of get, and what execute makes of its result. */
    method DialConn(dial: Dial) returns (r: Acquired)
      requires Valid() && 0 < dialing
      modifies this`phase, this`dialing, cm`counter, cm`conns, cm`out
      ensures Valid()
      ensures (State(), r) == DialFor(old(State()), dial)
      ensures r.NilPanic? <==> old(phase).NodeShutdown?
    {
      hide Inv, Do, Create;
      DialKeeps(State(), dial);
      dialing := dialing - 1;
      var g := cm.CreateConn(dial);
      if g.Got? {
        return Holds(g.id);
      }
      if g.NilConn? {
        return NilPanic;
      }
      DoHealthCheck();
      r := NoConnection(g);
    }

    /** Both without interruption; the panic on a nil connection is then unreachable. */
    method AcquireConn(dial: Dial) returns (r: Acquired)
      requires Valid()
      modifies this`phase, this`dialing, cm`counter, cm`conns, cm`out, cm.q`items
      ensures Valid()
      ensures (State(), r) == Acquire(old(State()), dial)
      ensures r != NilPanic
    {
      hide Inv, Look, DialFor;
      AcquireKeeps(State(), dial);
      r := LookForConn();
      if r.Dialing? {
        r := DialConn(dial);
      }
    }

    method FinishConn(id: ConnId, o: Outcome)
      requires Valid() && id in cm.out
      modifies this`phase, cm`counter, cm`conns, cm`out, cm`leaked, cm.q`items
      ensures Valid()
      ensures State() == Finish(old(State()), id, o)
    {
      hide Inv, Do;
      NodeStepKeeps(State(), DoFinish(id, o));
      if o.OtherError? {
        cm.RemoveConn(id);
        if !o.temporary {
          DoHealthCheck();
        }
      } else {
        var _ := cm.PutConn(id);
      }
    }

    /** execute with nothing in between: (executed, failed) as the source returns them. */
    method Execute(dial: Dial, o: Outcome) returns (executed: bool, failed: bool)
      requires Valid()
      modifies this`phase, this`dialing, cm`counter, cm`conns, cm`out, cm`leaked, cm.q`items
      ensures Valid()
      ensures var (n, a) := Acquire(old(State()), dial);
              && executed == a.Holds?
              && failed == (if executed then !o.Answered? else !a.Declined?)
              && State() == if executed then Finish(n, a.id, o) else n
      ensures match old(phase)
              case NodeRunning => executed || (failed && phase == NodeHealthChecking)
              case NodeHealthChecking => !executed && !failed && State() == old(State())
              case _ => !executed && failed && State() == old(State())
    {
      AcquireByState(State(), dial);
      hide Inv, Do, Acquire, Finish;
      AcquireKeeps(State(), dial);
      var a := AcquireConn(dial);
      if !a.Holds? {
        return false, !a.Declined?;
      }
      FinishConn(a.id, o);
      return true, !o.Answered?;
    }

    method HealthCheckRound(healthy: bool)
      requires Valid()
      modifies this`phase
      ensures Valid()
      ensures State() == HealthTick(old(State()), healthy)
    {
      if phase.NodeHealthChecking? && healthy {
        phase := NodeRunning;
      }
    }

    method Start(dials: seq<Dial>) returns (ok: bool)
      requires Valid()
      modifies this`phase, cm, cm.q`items
      ensures Valid()
      ensures (State(), ok) == StartNode(old(State()), dials)
    {
      hide Inv, Do;
      StartNodeKeeps(State(), dials);
      if phase != NodeCreated {
        return false;
      }
      var _ := cm.StartPool(dials);
      phase := NodeRunning;
      ok := true;
    }

    method StopNow() returns (ok: bool)
      requires Valid()
      modifies this`phase, cm, cm.q
      ensures Valid()
      ensures (State(), ok) == StopNode(old(State()))
    {
      hide Inv, Do;
      StopNodeKeeps(State());
      if !Serving(phase) {
        return false;
      }
      phase := NodeShuttingDown;
      ok := cm.StopPool();
      phase := if ok then NodeShutdown else NodeError;
    }
  }
}

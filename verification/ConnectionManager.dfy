/**
 connection_manager.go in place: the pool as an object whose methods update its counter, its queue
 and its connections.  Every method is equated with the pool operation it performs, and keeps the
 invariant that covers every run.
 */
module ConnectionManagers {
  import opened Common
  import opened Queues
  import opened Pools
  import opened PoolRuns

  // ------------------------------------------------------------------------------------------
  // The closures handed to iterate
  // ------------------------------------------------------------------------------------------

  function GetVisitor(phase: Phase): Visitor<Scan, ConnId> {
    (s: Scan, v: Option<ConnId>) =>
      if v.None? then (s, Verdict(true, false))
      else if Available(s.conns, v.value) then (s.(found := v), Verdict(true, false))
      else (RemoveFrom(phase, s, v.value).(found := None), Verdict(false, false))
  }

  function ExpireVisitor(cfg: Config, phase: Phase, now: int): Visitor<Scan, ConnId> {
    (s: Scan, v: Option<ConnId>) =>
      if v.None? then (s, Verdict(true, false))
      else if !BeforeShutdown(phase) then (s, Verdict(true, true))
      else if s.counter > cfg.min then
        if Stale(cfg, now, s.conns, v.value) then
          (s.(counter := Decrement(s.counter), conns := Close(s.conns, v.value)), Verdict(false, false))
        else (s, Verdict(false, true))
      else (s, Verdict(true, true))
  }

  function StopVisitor(): Visitor<Scan, ConnId> {
    (s: Scan, v: Option<ConnId>) =>
      if v.None? then (s, Verdict(true, false))
      else
        var s1 := s.(counter := Decrement(s.counter), conns := Close(s.conns, v.value));
        (s1, Verdict(s1.counter == 0, false))
  }

  lemma {:induction false} RunGet(phase: Phase, s: Scan, ids: seq<ConnId>)
    ensures Run(GetVisitor(phase), s, ids) == GetLoop(phase, s, ids)
    decreases |ids|
  {
    if ids != [] && !Available(s.conns, ids[0]) {
      RunGet(phase, RemoveFrom(phase, s, ids[0]).(found := None), ids[1..]);
    }
  }

  lemma {:induction false} RunExpire(cfg: Config, phase: Phase, now: int, s: Scan, ids: seq<ConnId>)
    ensures Run(ExpireVisitor(cfg, phase, now), s, ids) == ExpireLoop(cfg, phase, now, s, ids)
    decreases |ids|
  {
    if ids != [] && BeforeShutdown(phase) && s.counter > cfg.min {
      if Stale(cfg, now, s.conns, ids[0]) {
        RunExpire(cfg, phase, now, s.(counter := Decrement(s.counter), conns := Close(s.conns, ids[0])), ids[1..]);
      } else {
        RunExpire(cfg, phase, now, s, ids[1..]);
      }
    }
  }

  lemma {:induction false} RunStop(s: Scan, ids: seq<ConnId>)
    ensures Run(StopVisitor(), s, ids) == StopLoop(s, ids)
    decreases |ids|
  {
    if ids != [] {
      RunStop(s.(counter := Decrement(s.counter), conns := Close(s.conns, ids[0])), ids[1..]);
    }
  }

  lemma DestroyedMeansEmpty(cfg: Config, s: System)
    requires Inv(cfg, s)
    ensures s.pool.phase == Shutdown ==> s.pool.idle == []
  {
  }

  // ------------------------------------------------------------------------------------------

  class ConnectionManager {
    const cfg: Config
    const q: Queue<ConnId>
    var phase: Phase
    var counter: nat
    var conns: seq<Conn>
    ghost var out: set<ConnId>
    ghost var leaked: set<ConnId>

    ghost predicate Valid()
      reads this, q
    {
      && q.Valid() && q.size == cfg.max && (q.closed <==> phase == Shutdown)
      && Inv(cfg, Sys())
    }

    ghost function Sys(): System
      reads this, q
    {
      System(State(), out, leaked)
    }

    function State(): Pool
      reads this, q
    {
      Pool(phase, counter, q.items, conns)
    }

    constructor (cfg: Config)
      requires ValidConfig(cfg)
      ensures Valid() && fresh(q) && this.cfg == cfg && Sys() == NewSystem()
    {
      this.cfg := cfg;
      q := new Queue<ConnId>(cfg.max);
      phase, counter, conns := Created, 0, [];
      out, leaked := {}, {};
    }

    method CreateConn(dial: Dial) returns (r: GetResult)
      requires Valid()
      modifies this`counter, this`conns, this`out
      ensures Valid()
      ensures (State(), r) == Create(cfg, old(State()), dial)
      ensures Sys() == Do(cfg, old(Sys()), DoCreate(dial))
    {
      hide Inv;
      CreateKeeps(cfg, Sys(), dial);
      if !BeforeShutdown(phase) {
        return NilConn;
      }
      if counter >= cfg.max {
        return AllInUse;
      }
      match dial {
        case DialFailed =>
          r := DialError;
        case Connected(at) =>
          r := Got(|conns|);
          conns := conns + [Conn(true, true, at)];
          counter := Increment(counter);
          out := out + {r.id};
      }
    }

    /** The first half of get: iterate the queue until an available connection turns up. */
    method ScanConns() returns (found: Option<ConnId>)
      requires Valid()
      modifies this`counter, this`conns, this`out, q`items
      ensures Valid()
      ensures (State(), found) == ScanIdle(old(State()))
      ensures Sys() == Do(cfg, old(Sys()), DoScan)
    {
      hide Inv, Run, RunDestroyed, GetLoop, GetVisitor;
      StepKeeps(cfg, Sys(), DoScan);
      DestroyedMeansEmpty(cfg, Sys());
      RunGet(phase, Scan(counter, conns, None), q.items);
      RunNothing(GetVisitor(phase), Scan(counter, conns, None));
      var s, _ := q.Iterate(GetVisitor(phase), Scan(counter, conns, None));
      counter, conns, found := s.counter, s.conns, s.found;
      out := out + if found.Some? then {found.value} else {};
    }

    method GetConn(dial: Dial) returns (r: GetResult)
      requires Valid()
      modifies this`counter, this`conns, this`out, q`items
      ensures Valid()
      ensures (State(), r) == Get(cfg, old(State()), dial)
      ensures Sys() == var s := Do(cfg, old(Sys()), DoScan);
                       if ScanIdle(old(State())).1.Some? then s else Do(cfg, s, DoCreate(dial))
    {
      hide Inv, ScanIdle, Create, Do;
      var found := ScanConns();
      if found.Some? {
        return Got(found.value);
      }
      r := CreateConn(dial);
    }

    /** put: the enqueue always finds room for a connection that is checked out. */
    method PutConn(id: ConnId) returns (r: Enqueued)
      requires Valid() && id in out
      modifies this`counter, this`conns, this`out, q`items
      ensures Valid()
      ensures r == Accepted
      ensures Sys() == Do(cfg, old(Sys()), DoPut(id))
    {
      hide Inv;
      PutKeeps(cfg, Sys(), id);
      out := out - {id};
      if BeforeShutdown(phase) {
        r := q.Enqueue(Some(id));
      } else {
        counter := Decrement(counter);
        conns := Close(conns, id);
        r := Accepted;
      }
    }

    method RemoveConn(id: ConnId)
      requires Valid() && id in out
      modifies this`counter, this`conns, this`out, this`leaked
      ensures Valid()
      ensures Sys() == Do(cfg, old(Sys()), DoRemove(id))
    {
      hide Inv;
      RemoveKeeps(cfg, Sys(), id);
      out := out - {id};
      if BeforeShutdown(phase) {
        counter := Decrement(counter);
        conns := Close(conns, id);
      } else {
        leaked := leaked + {id};
      }
    }

    method StartPool(dials: seq<Dial>) returns (ok: bool)
      requires Valid()
      modifies this, q`items
      ensures Valid()
      ensures ok == old(phase).Created?
      ensures Sys() == Do(cfg, old(Sys()), DoStart(dials))
      ensures var made := Opened(dials, cfg.min);
              old(Sys()) == NewSystem() ==> State() == Pool(Running, |made|, Upto(|made|), made)
    {
      hide Inv, Put, Create, Opened;
      NewSystemStarts(cfg, Sys(), DoStart(dials));
      if phase != Created {
        return false;
      }
      StartKeeps(cfg, Sys(), dials);
      var i := 0;
      var left := dials;
      while i < cfg.min
        invariant i <= cfg.min
        invariant Valid() && phase == Created && out == old(out) && leaked == old(leaked)
        invariant Fill(cfg, old(State()), dials, cfg.min) == Fill(cfg, State(), left, cfg.min - i)
      {
        NewConnIsFresh(cfg, Sys(), if left == [] then DialFailed else left[0]);
        var r := CreateConn(if left == [] then DialFailed else left[0]);
        if r.Got? {
          var _ := PutConn(r.id);
        }
        assert out == old(out);
        left := if left == [] then [] else left[1..];
        i := i + 1;
      }
      phase := Running;
      ok := true;
    }

    /** stop reaches shutdown, never the error state, with an empty, destroyed queue. */
    method StopPool() returns (ok: bool)
      requires Valid()
      modifies this, q
      ensures Valid()
      ensures ok == old(phase).Running?
      ensures ok ==> phase == Shutdown && counter == |out| && q.items == []
      ensures Sys() == Do(cfg, old(Sys()), DoStop)
    {
      hide Inv, Run, StopLoop, StopVisitor;
      if phase != Running {
        return false;
      }
      StopKeeps(cfg, Sys());
      RunStop(Scan(counter, conns, None), q.items);
      phase := ShuttingDown;
      var s, r := q.Iterate(StopVisitor(), Scan(counter, conns, None));
      counter, conns := s.counter, s.conns;
      var _ := q.Destroy();
      phase := if r.Completed? then Shutdown else Error;
      ok := true;
    }

    method ExpireTick(now: int)
      requires Valid()
      modifies this`counter, this`conns, q`items
      ensures Valid()
      ensures Sys() == Do(cfg, old(Sys()), DoExpire(now))
    {
      hide Inv, Run, RunDestroyed, ExpireLoop, ExpireVisitor;
      StepKeeps(cfg, Sys(), DoExpire(now));
      DestroyedMeansEmpty(cfg, Sys());
      RunExpire(cfg, phase, now, Scan(counter, conns, None), q.items);
      RunNothing(ExpireVisitor(cfg, phase, now), Scan(counter, conns, None));
      var s, _ := q.Iterate(ExpireVisitor(cfg, phase, now), Scan(counter, conns, None));
      counter, conns := s.counter, s.conns;
    }
  }

  // ------------------------------------------------------------------------------------------
  // Options
  // ------------------------------------------------------------------------------------------

  const DEFAULT_MIN_CONNECTIONS := 1
  const DEFAULT_MAX_CONNECTIONS := 256
  const DEFAULT_IDLE_TIMEOUT := 10_000_000_000  // ten seconds, in nanoseconds

  /** newConnectionManager: zero options mean the defaults, and a minimum above the maximum is refused. */
  method NewConnectionManager(min: nat, max: nat, idleTimeout: int) returns (cm: ConnectionManager?)
    requires min <= MAX_UINT16 && max <= MAX_UINT16  // both are uint16
    ensures var min', max' := if min == 0 then 1 else min, if max == 0 then 256 else max;
            && (cm == null <==> min' > max')
            && (cm != null ==>
                  && cm.Valid() && fresh(cm) && fresh(cm.q) && cm.Sys() == NewSystem()
                  && cm.cfg == Config(min', max', if idleTimeout == 0 then 10_000_000_000 else idleTimeout))
  {
    var minConnections, maxConnections, timeout := min, max, idleTimeout;
    if minConnections == 0 {
      minConnections := DEFAULT_MIN_CONNECTIONS;
    }
    if maxConnections == 0 {
      maxConnections := DEFAULT_MAX_CONNECTIONS;
    }
    if minConnections > maxConnections {
      return null;
    }
    if timeout == 0 {
      timeout := DEFAULT_IDLE_TIMEOUT;
    }
    cm := new ConnectionManager(Config(minConnections, maxConnections, timeout));
  }
}

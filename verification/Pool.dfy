/**
 The connection pool of connection_manager.go.

 Connections are objects with an identity; a `ConnId` is an index into the pool's store `conns`,
 which holds every connection ever dialed.  Dialing and the clock are inputs of the operations.
 Each operation is a function on `Pool` values; ConnectionManager.dfy performs them in place.
 */
module Pools {
  import opened Common
  import opened Queues

  const MAX_UINT16: nat := 0xFFFF

  type ConnId = nat

  datatype Phase = Created | Running | ShuttingDown | Shutdown | Error

  /** isStateLessThan(cmShuttingDown) */
  predicate BeforeShutdown(p: Phase) {
    p.Created? || p.Running?
  }

  /** A connection: its socket is non-nil, its state is below connInactive, and when it was last used. */
  datatype Conn = Conn(open: bool, active: bool, lastUsed: int)

  datatype Config = Config(min: nat, max: nat, idleTimeout: int)

  /** What newConnectionManager lets through. */
  predicate ValidConfig(cfg: Config) {
    0 < cfg.min <= cfg.max <= MAX_UINT16
  }

  datatype Pool = Pool(phase: Phase, counter: nat, idle: seq<ConnId>, conns: seq<Conn>)

  /** The outcome of dialing a new connection. */
  datatype Dial = Connected(at: int) | DialFailed

  /** The answer of get and create; NilConn is the pair (nil, nil). */
  datatype GetResult = Got(id: ConnId) | AllInUse | DialError | NilConn

  // ------------------------------------------------------------------------------------------
  // Connections and the counter
  // ------------------------------------------------------------------------------------------

  predicate Available(conns: seq<Conn>, id: ConnId) {
    id < |conns| && conns[id].open && conns[id].active
  }

  function Close(conns: seq<Conn>, id: ConnId): seq<Conn> {
    if id < |conns| then conns[id := conns[id].(open := false)] else conns
  }

  /** The store after closing the connections in `ids`, one after the other. */
  function CloseAll(conns: seq<Conn>, ids: seq<ConnId>): seq<Conn>
    decreases ids
  {
    if ids == [] then conns else CloseAll(Close(conns, ids[0]), ids[1..])
  }

  /** Closing touches the sockets of exactly the connections named, and nothing else of any of them. */
  lemma {:induction false} CloseAllExact(conns: seq<Conn>, ids: seq<ConnId>)
    ensures |CloseAll(conns, ids)| == |conns|
    ensures forall i :: 0 <= i < |conns| ==>
              CloseAll(conns, ids)[i] == if i in ids then conns[i].(open := false) else conns[i]
    decreases ids
  {
    if ids != [] {
      CloseAllExact(Close(conns, ids[0]), ids[1..]);
    }
  }

  /** connectionCounter.increment: saturates at the largest uint16. */
  function Increment(c: nat): nat {
    if c < MAX_UINT16 then c + 1 else c
  }

  /** connectionCounter.decrement: stops at zero. */
  function Decrement(c: nat): nat {
    if c > 0 then c - 1 else c
  }

  // ------------------------------------------------------------------------------------------
  // Operations
  // ------------------------------------------------------------------------------------------

  /** The variables that the callbacks of get, stop and the expiry routine share with the pool. */
  datatype Scan = Scan(counter: nat, conns: seq<Conn>, found: Option<ConnId>)

  function RemoveFrom(phase: Phase, s: Scan, id: ConnId): Scan {
    if BeforeShutdown(phase) then s.(counter := Decrement(s.counter), conns := Close(s.conns, id)) else s
  }

  /** get's pass over the queue: take the first available connection, remove the others on the way. */
  function GetLoop(phase: Phase, s: Scan, ids: seq<ConnId>): (v: Visit<Scan, ConnId>)
    ensures v.seen <= |ids|
    decreases |ids|
  {
    if ids == [] then Visit(s, [], 0)
    else if Available(s.conns, ids[0]) then Visit(s.(found := Some(ids[0])), [], 1)
    else
      var r := GetLoop(phase, RemoveFrom(phase, s, ids[0]).(found := None), ids[1..]);
      Visit(r.state, r.kept, 1 + r.seen)
  }

  predicate Stale(cfg: Config, now: int, conns: seq<Conn>, id: ConnId) {
    !Available(conns, id) || now - conns[id].lastUsed >= cfg.idleTimeout
  }

  /** The expiry routine's pass: above the floor drop stale connections and put the others back. */
  function ExpireLoop(cfg: Config, phase: Phase, now: int, s: Scan, ids: seq<ConnId>): (v: Visit<Scan, ConnId>)
    ensures v.seen <= |ids|
    decreases |ids|
  {
    if ids == [] then Visit(s, [], 0)
    else if !BeforeShutdown(phase) || s.counter <= cfg.min then Visit(s, [ids[0]], 1)
    else if Stale(cfg, now, s.conns, ids[0]) then
      var s1 := s.(counter := Decrement(s.counter), conns := Close(s.conns, ids[0]));
      var r := ExpireLoop(cfg, phase, now, s1, ids[1..]);
      Visit(r.state, r.kept, 1 + r.seen)
    else
      var r := ExpireLoop(cfg, phase, now, s, ids[1..]);
      Visit(r.state, [ids[0]] + r.kept, 1 + r.seen)
  }

  /** stop's pass: close and uncount, but leave off as soon as the counter reaches zero. */
  function StopLoop(s: Scan, ids: seq<ConnId>): (v: Visit<Scan, ConnId>)
    ensures v.seen <= |ids|
    decreases |ids|
  {
    if ids == [] then Visit(s, [], 0)
    else
      var s1 := s.(counter := Decrement(s.counter), conns := Close(s.conns, ids[0]));
      if s1.counter == 0 then Visit(s1, [], 1)
      else
        var r := StopLoop(s1, ids[1..]);
        Visit(r.state, r.kept, 1 + r.seen)
  }

  /** The pool after a pass over its queue. */
  function After(p: Pool, v: Visit<Scan, ConnId>): Pool
    requires v.seen <= |p.idle|
  {
    p.(counter := v.state.counter, conns := v.state.conns, idle := p.idle[v.seen..] + v.kept)
  }

  function ScanOf(p: Pool): Scan {
    Scan(p.counter, p.conns, None)
  }

  /** The first half of get: look for an available pooled connection. */
  function ScanIdle(p: Pool): (Pool, Option<ConnId>) {
    var v := GetLoop(p.phase, ScanOf(p), p.idle);
    (After(p, v), v.state.found)
  }

  function Create(cfg: Config, p: Pool, dial: Dial): (Pool, GetResult) {
    if !BeforeShutdown(p.phase) then (p, NilConn)
    else if p.counter >= cfg.max then (p, AllInUse)
    else match dial
      case DialFailed => (p, DialError)
      case Connected(at) =>
        (p.(counter := Increment(p.counter), conns := p.conns + [Conn(true, true, at)]), Got(|p.conns|))
  }

  /** The second half of get. */
  function CreateUnlessFound(cfg: Config, p: Pool, found: Option<ConnId>, dial: Dial): (Pool, GetResult) {
    match found
    case Some(id) => (p, Got(id))
    case None => Create(cfg, p, dial)
  }

  function Get(cfg: Config, p: Pool, dial: Dial): (Pool, GetResult) {
    var (p1, found) := ScanIdle(p);
    CreateUnlessFound(cfg, p1, found, dial)
  }

  function Put(cfg: Config, p: Pool, id: ConnId): (Pool, Enqueued) {
    if BeforeShutdown(p.phase) then
      if |p.idle| == cfg.max then (p, Full) else (p.(idle := p.idle + [id]), Accepted)
    else
      (p.(counter := Decrement(p.counter), conns := Close(p.conns, id)), Accepted)
  }

  function Remove(p: Pool, id: ConnId): Pool {
    if BeforeShutdown(p.phase) then p.(counter := Decrement(p.counter), conns := Close(p.conns, id)) else p
  }

  function Expire(cfg: Config, p: Pool, now: int): Pool {
    After(p, ExpireLoop(cfg, p.phase, now, ScanOf(p), p.idle))
  }

  /** The loop of start, with `n` rounds to go; the k-th round dials with the k-th outcome. */
  function Fill(cfg: Config, p: Pool, dials: seq<Dial>, n: nat): Pool
    decreases n
  {
    if n == 0 then p
    else
      var (p1, r) := Create(cfg, p, if dials == [] then DialFailed else dials[0]);
      var p2 := if r.Got? then Put(cfg, p1, r.id).0 else p1;
      Fill(cfg, p2, if dials == [] then [] else dials[1..], n - 1)
  }

  /** The second component tells whether the state allowed starting. */
  function Start(cfg: Config, p: Pool, dials: seq<Dial>): (Pool, bool) {
    if !p.phase.Created? then (p, false)
    else (Fill(cfg, p, dials, cfg.min).(phase := Running), true)
  }

  function Stop(p: Pool): (Pool, bool) {
    if !p.phase.Running? then (p, false)
    else (After(p, StopLoop(ScanOf(p), p.idle)).(phase := Shutdown), true)
  }
}

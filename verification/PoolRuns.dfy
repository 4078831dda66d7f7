/**
 Every run of the pool: what each operation does exactly, and what all of them keep.

 A `System` is the pool together with the connections its clients hold.  Steps are the pool's
 methods; `get` is split into its two locked halves, so runs also cover what other goroutines do
 between looking for an idle connection and dialing a new one.
 */
module PoolRuns {
  import opened Common
  import opened Queues
  import opened Pools

  /** `out`: handed out and not yet returned; `leaked`: given to remove after shutdown, which drops them. */
  datatype System = System(pool: Pool, out: set<ConnId>, leaked: set<ConnId>)

  datatype Step =
    | DoStart(dials: seq<Dial>)
    | DoScan
    | DoCreate(dial: Dial)
    | DoPut(id: ConnId)
    | DoRemove(id: ConnId)
    | DoExpire(now: int)
    | DoUse(id: ConnId, active: bool, lastUsed: int)  // network traffic changes a connection
    | DoStop

  /** Clients only give back what they hold. */
  predicate Enabled(s: System, step: Step) {
    match step
    case DoPut(id) => id in s.out
    case DoRemove(id) => id in s.out
    case _ => true
  }

  function Held(r: GetResult): set<ConnId> {
    if r.Got? then {r.id} else {}
  }

  function Do(cfg: Config, s: System, step: Step): System {
    match step
    case DoStart(dials) => s.(pool := Start(cfg, s.pool, dials).0)
    case DoScan =>
      var (p, found) := ScanIdle(s.pool);
      s.(pool := p, out := s.out + if found.Some? then {found.value} else {})
    case DoCreate(dial) =>
      var (p, r) := Create(cfg, s.pool, dial);
      s.(pool := p, out := s.out + Held(r))
    case DoPut(id) => s.(pool := Put(cfg, s.pool, id).0, out := s.out - {id})
    case DoRemove(id) =>
      System(Remove(s.pool, id), s.out - {id}, if BeforeShutdown(s.pool.phase) then s.leaked else s.leaked + {id})
    case DoExpire(now) => s.(pool := Expire(cfg, s.pool, now))
    case DoUse(id, active, lastUsed) =>
      if id < |s.pool.conns| then
        s.(pool := s.pool.(conns := s.pool.conns[id := Conn(s.pool.conns[id].open, active, lastUsed)]))
      else s
    case DoStop => s.(pool := Stop(s.pool).0)
  }

  function NewSystem(): System {
    System(Pool(Created, 0, [], []), {}, {})
  }

  // ------------------------------------------------------------------------------------------
  // The invariant
  // ------------------------------------------------------------------------------------------

  /** The idle connections are distinct, known to the store and held by nobody. */
  predicate IdleOk(s: System) {
    && NoDup(s.pool.idle)
    && (forall id :: id in s.pool.idle ==> id < |s.pool.conns| && id !in s.out && id !in s.leaked)
  }

  predicate HeldOk(s: System) {
    && (forall id :: id in s.out ==> id < |s.pool.conns|)
    && (forall id :: id in s.leaked ==> id < |s.pool.conns|)
    && s.out !! s.leaked
  }

  /** No socket is lost: a connection that is still open is idle, checked out or was leaked. */
  predicate SocketsOk(s: System) {
    forall id :: 0 <= id < |s.pool.conns| && s.pool.conns[id].open ==>
      id in s.pool.idle || id in s.out || id in s.leaked
  }

  /** The counter counts; before shutdown nothing has leaked, and the only later phase is a drained shutdown. */
  predicate CountOk(cfg: Config, s: System) {
    && s.pool.counter == |s.pool.idle| + |s.out| + |s.leaked| <= cfg.max
    && if BeforeShutdown(s.pool.phase) then s.leaked == {} else s.pool.phase.Shutdown? && s.pool.idle == []
  }

  predicate Inv(cfg: Config, s: System) {
    ValidConfig(cfg) && IdleOk(s) && HeldOk(s) && SocketsOk(s) && CountOk(cfg, s)
  }

  // ------------------------------------------------------------------------------------------
  // get, exactly
  // ------------------------------------------------------------------------------------------

  /** The position of the first available connection, or the length if there is none. */
  function FirstAvailable(conns: seq<Conn>, ids: seq<ConnId>): (k: nat)
    ensures k <= |ids|
  {
    if ids == [] || Available(conns, ids[0]) then 0 else 1 + FirstAvailable(conns, ids[1..])
  }

  lemma {:induction false} FirstAvailableMeaning(conns: seq<Conn>, ids: seq<ConnId>)
    ensures var k := FirstAvailable(conns, ids);
            && (forall j :: 0 <= j < k ==> !Available(conns, ids[j]))
            && (k < |ids| ==> Available(conns, ids[k]))
  {
    if ids != [] {
      FirstAvailableMeaning(conns, ids[1..]);
    }
  }

  lemma {:induction false} FirstAvailableOther(conns: seq<Conn>, id: ConnId, ids: seq<ConnId>)
    requires id !in ids
    ensures FirstAvailable(Close(conns, id), ids) == FirstAvailable(conns, ids)
  {
    if ids != [] {
      FirstAvailableOther(conns, id, ids[1..]);
    }
  }

  lemma {:induction false} GetLoopExact(phase: Phase, counter: nat, conns: seq<Conn>, ids: seq<ConnId>)
    requires BeforeShutdown(phase) && NoDup(ids) && |ids| <= counter
    ensures var v := GetLoop(phase, Scan(counter, conns, None), ids);
            var k := FirstAvailable(conns, ids);
            && v.kept == []
            && v.state.counter == counter - k
            && v.state.conns == CloseAll(conns, ids[..k])
            && v.state.found == (if k < |ids| then Some(ids[k]) else None)
            && v.seen == (if k < |ids| then k + 1 else k)
    decreases |ids|
  {
    if ids != [] && !Available(conns, ids[0]) {
      var conns1, rest := Close(conns, ids[0]), ids[1..];
      GetLoopExact(phase, counter - 1, conns1, rest);
      FirstAvailableOther(conns, ids[0], rest);
      var k := FirstAvailable(conns, ids);
      assert ids[..k][1..] == rest[..k - 1] && ids[..k][0] == ids[0];
    }
  }

  /** The first half of get: find the first available idle connection and drop the dead ones before it. */
  lemma ScanExact(p: Pool)
    requires BeforeShutdown(p.phase) && NoDup(p.idle) && |p.idle| <= p.counter
    ensures var k := FirstAvailable(p.conns, p.idle);
            ScanIdle(p) ==
            if k < |p.idle| then
              (p.(idle := p.idle[k + 1..], counter := p.counter - k, conns := CloseAll(p.conns, p.idle[..k])),
               Some(p.idle[k]))
            else
              (p.(idle := [], counter := p.counter - k, conns := CloseAll(p.conns, p.idle)), None)
  {
    GetLoopExact(p.phase, p.counter, p.conns, p.idle);
    var k := FirstAvailable(p.conns, p.idle);
    if k < |p.idle| {
      assert p.idle[k + 1..] + [] == p.idle[k + 1..];
    } else {
      assert p.idle[..k] == p.idle && p.idle[k..] + [] == [];
    }
  }

  /**
   get while running: the first available idle connection, after closing and uncounting exactly the
   dead ones before it and leaving the rest in order; else a fresh one.  All-in-use is reported
   exactly when no idle connection is available and the clients hold all `max`; never (nil, nil).
   */
  lemma GetExact(cfg: Config, p: Pool, out: nat, dial: Dial)
    requires BeforeShutdown(p.phase) && NoDup(p.idle) && p.counter == |p.idle| + out <= cfg.max <= MAX_UINT16
    ensures var k := FirstAvailable(p.conns, p.idle);
            Get(cfg, p, dial) ==
            if k < |p.idle| then
              (p.(idle := p.idle[k + 1..], counter := p.counter - k, conns := CloseAll(p.conns, p.idle[..k])),
               Got(p.idle[k]))
            else
              var p1 := p.(idle := [], counter := out, conns := CloseAll(p.conns, p.idle));
              if out == cfg.max then (p1, AllInUse)
              else if dial.DialFailed? then (p1, DialError)
              else (p1.(counter := out + 1, conns := p1.conns + [Conn(true, true, dial.at)]), Got(|p.conns|))
  {
    hide ScanIdle, FirstAvailable, CloseAll, NoDup;
    ScanExact(p);
    var (p1, found) := ScanIdle(p);
    var k := FirstAvailable(p.conns, p.idle);
    assert Get(cfg, p, dial) == CreateUnlessFound(cfg, p1, found, dial);
    if k < |p.idle| {
      assert found == Some(p.idle[k]);
    } else {
      assert found == None && p1 == p.(idle := [], counter := out, conns := CloseAll(p.conns, p.idle));
      assert |p1.conns| == |p.conns| by { CloseAllExact(p.conns, p.idle); }
    }
  }

  /**
   What a caller can rely on: the connection it gets has an open socket and is active, and nothing is
   dialed while the queue holds such a connection.
   */
  lemma GetIsUsable(cfg: Config, s: System, dial: Dial)
    requires Inv(cfg, s) && BeforeShutdown(s.pool.phase)
    ensures var p := s.pool;
            var (p1, r) := Get(cfg, p, dial);
            && (r.Got? ==>
                  && r.id < |p1.conns| && p1.conns[r.id].open && p1.conns[r.id].active
                  && r.id !in s.out && r.id !in p1.idle)
            && ((exists id :: id in p.idle && p.conns[id].open && p.conns[id].active) ==>
                  r.Got? && r.id in p.idle && |p1.conns| == |p.conns|)
  {
    hide Get, CloseAll, FirstAvailable, NoDup;
    var p := s.pool;
    var k := FirstAvailable(p.conns, p.idle);
    GetExact(cfg, p, |s.out|, dial);
    FirstAvailableMeaning(p.conns, p.idle);
    CloseAllExact(p.conns, p.idle[..k]);
    CloseAllExact(p.conns, p.idle);
    NoDupIndex(p.idle);
    if k < |p.idle| {
      assert p.idle[k] in p.idle;
    }
  }

  lemma {:induction false} NoDupIndex(ids: seq<ConnId>)
    requires NoDup(ids)
    ensures forall i, j :: 0 <= i < j < |ids| ==> ids[i] != ids[j]
  {
    if ids != [] {
      NoDupIndex(ids[1..]);
      forall j | 0 < j < |ids| ensures ids[0] != ids[j] {
        assert ids[j] in ids[1..];
      }
    }
  }

  // ------------------------------------------------------------------------------------------
  // The expiry tick, exactly
  // ------------------------------------------------------------------------------------------

  /** The first `n` stale connections of `ids`. */
  function FirstStale(cfg: Config, now: int, conns: seq<Conn>, ids: seq<ConnId>, n: nat): (r: seq<ConnId>)
    ensures |r| <= n
    decreases |ids|
  {
    if ids == [] || n == 0 then []
    else if Stale(cfg, now, conns, ids[0]) then [ids[0]] + FirstStale(cfg, now, conns, ids[1..], n - 1)
    else FirstStale(cfg, now, conns, ids[1..], n)
  }

  /** The connections a tick expires: the first stale ones, as many as the counter lies above the floor. */
  function Expired(cfg: Config, now: int, counter: nat, conns: seq<Conn>, ids: seq<ConnId>): seq<ConnId> {
    FirstStale(cfg, now, conns, ids, if counter <= cfg.min then 0 else counter - cfg.min)
  }

  lemma {:induction false} FirstStaleMeaning(cfg: Config, now: int, conns: seq<Conn>, ids: seq<ConnId>, n: nat)
    ensures var r := FirstStale(cfg, now, conns, ids, n);
            && (forall id :: id in r ==> id in ids && Stale(cfg, now, conns, id))
            && (|r| < n ==> forall id :: id in ids && Stale(cfg, now, conns, id) ==> id in r)
    decreases |ids|
  {
    if ids != [] && n > 0 {
      assert ids == [ids[0]] + ids[1..];
      FirstStaleMeaning(cfg, now, conns, ids[1..], if Stale(cfg, now, conns, ids[0]) then n - 1 else n);
    }
  }

  lemma {:induction false} FirstStaleOther(
    cfg: Config, now: int, conns: seq<Conn>, id: ConnId, ids: seq<ConnId>, n: nat)
    requires id !in ids
    ensures FirstStale(cfg, now, Close(conns, id), ids, n) == FirstStale(cfg, now, conns, ids, n)
    decreases |ids|
  {
    if ids != [] && n > 0 {
      FirstStaleOther(cfg, now, conns, id, ids[1..], if Stale(cfg, now, conns, ids[0]) then n - 1 else n);
    }
  }

  /** One round of the expiry loop above the floor. */
  lemma {:induction false} ExpireStep(
    cfg: Config, phase: Phase, now: int, counter: nat, conns: seq<Conn>, ids: seq<ConnId>)
    requires BeforeShutdown(phase) && NoDup(ids) && ids != [] && counter > cfg.min
    ensures var v := ExpireLoop(cfg, phase, now, Scan(counter, conns, None), ids);
            var gone := Expired(cfg, now, counter, conns, ids);
            if Stale(cfg, now, conns, ids[0]) then
              var conns1 := Close(conns, ids[0]);
              var v1 := ExpireLoop(cfg, phase, now, Scan(counter - 1, conns1, None), ids[1..]);
              v == Visit(v1.state, v1.kept, 1 + v1.seen)
              && gone == [ids[0]] + Expired(cfg, now, counter - 1, conns1, ids[1..])
            else
              var v1 := ExpireLoop(cfg, phase, now, Scan(counter, conns, None), ids[1..]);
              v == Visit(v1.state, [ids[0]] + v1.kept, 1 + v1.seen)
              && gone == Expired(cfg, now, counter, conns, ids[1..])
  {
    if Stale(cfg, now, conns, ids[0]) {
      FirstStaleOther(cfg, now, conns, ids[0], ids[1..], counter - cfg.min - 1);
    }
  }

  lemma {:induction false} ExpireLoopCloses(
    cfg: Config, phase: Phase, now: int, counter: nat, conns: seq<Conn>, ids: seq<ConnId>)
    requires BeforeShutdown(phase) && NoDup(ids) && |ids| <= counter
    ensures var v := ExpireLoop(cfg, phase, now, Scan(counter, conns, None), ids);
            var gone := Expired(cfg, now, counter, conns, ids);
            && v.state.counter == counter - |gone|
            && v.state.conns == CloseAll(conns, gone)
    decreases |ids|
  {
    if ids != [] && counter > cfg.min {
      hide ExpireLoop, Expired;
      ExpireStep(cfg, phase, now, counter, conns, ids);
      if Stale(cfg, now, conns, ids[0]) {
        var conns1 := Close(conns, ids[0]);
        ExpireLoopCloses(cfg, phase, now, counter - 1, conns1, ids[1..]);
        var gone1 := Expired(cfg, now, counter - 1, conns1, ids[1..]);
        assert ([ids[0]] + gone1)[1..] == gone1;
      } else {
        ExpireLoopCloses(cfg, phase, now, counter, conns, ids[1..]);
      }
    }
  }

  lemma MultisetGone<T>(x: T, rest: seq<T>, left: seq<T>, gone: seq<T>)
    requires multiset(rest) == multiset(left) + multiset(gone)
    ensures multiset([x] + rest) == multiset(left) + multiset([x] + gone)
  {
  }

  lemma MultisetKept<T>(x: T, rest: seq<T>, a: seq<T>, b: seq<T>, gone: seq<T>)
    requires multiset(rest) == multiset(a + b) + multiset(gone)
    ensures multiset([x] + rest) == multiset(a + ([x] + b)) + multiset(gone)
  {
    assert multiset(a + ([x] + b)) == multiset(a + b) + multiset{x};
  }

  /** Dropping the head: the connection is gone. */
  lemma StaleStepKeeps(cfg: Config, phase: Phase, now: int, counter: nat, conns: seq<Conn>, ids: seq<ConnId>)
    requires BeforeShutdown(phase) && NoDup(ids) && ids != [] && counter > cfg.min && Stale(cfg, now, conns, ids[0])
    requires KeepsAll(cfg, phase, now, counter - 1, Close(conns, ids[0]), ids[1..])
    ensures KeepsAll(cfg, phase, now, counter, conns, ids)
  {
    hide ExpireLoop, Expired, Stale, NoDup, Close;
    ExpireStep(cfg, phase, now, counter, conns, ids);
    var rest, conns1 := ids[1..], Close(conns, ids[0]);
    var v1 := ExpireLoop(cfg, phase, now, Scan(counter - 1, conns1, None), rest);
    MultisetGone(ids[0], rest, rest[v1.seen..] + v1.kept, Expired(cfg, now, counter - 1, conns1, rest));
    assert ids == [ids[0]] + rest;
    assert ids[1 + v1.seen..] == rest[v1.seen..];
  }

  /** Putting the head back: it stays, behind the others. */
  lemma FreshStepKeeps(cfg: Config, phase: Phase, now: int, counter: nat, conns: seq<Conn>, ids: seq<ConnId>)
    requires BeforeShutdown(phase) && NoDup(ids) && ids != [] && counter > cfg.min && !Stale(cfg, now, conns, ids[0])
    requires KeepsAll(cfg, phase, now, counter, conns, ids[1..])
    ensures KeepsAll(cfg, phase, now, counter, conns, ids)
  {
    hide ExpireLoop, Expired, Stale, NoDup, Close;
    ExpireStep(cfg, phase, now, counter, conns, ids);
    var rest := ids[1..];
    var v1 := ExpireLoop(cfg, phase, now, Scan(counter, conns, None), rest);
    MultisetKept(ids[0], rest, rest[v1.seen..], v1.kept, Expired(cfg, now, counter, conns, rest));
    assert ids == [ids[0]] + rest;
    assert ids[1 + v1.seen..] == rest[v1.seen..];
  }

  /** Every idle connection is afterwards left in the queue or gone, exactly as often as before. */
  ghost predicate KeepsAll(cfg: Config, phase: Phase, now: int, counter: nat, conns: seq<Conn>, ids: seq<ConnId>) {
    var v := ExpireLoop(cfg, phase, now, Scan(counter, conns, None), ids);
    multiset(ids) == multiset(ids[v.seen..] + v.kept) + multiset(Expired(cfg, now, counter, conns, ids))
  }

  lemma ExpireEndKeeps(cfg: Config, phase: Phase, now: int, counter: nat, conns: seq<Conn>, ids: seq<ConnId>)
    requires ids == [] || counter <= cfg.min
    ensures KeepsAll(cfg, phase, now, counter, conns, ids)
  {
    assert Expired(cfg, now, counter, conns, ids) == [];
    if ids != [] {
      var v := ExpireLoop(cfg, phase, now, Scan(counter, conns, None), ids);
      assert v.seen == 1 && v.kept == [ids[0]];
      hide ExpireLoop, Expired;
      assert ids == [ids[0]] + ids[1..];
    }
  }

  lemma {:induction false} ExpireLoopKeeps(
    cfg: Config, phase: Phase, now: int, counter: nat, conns: seq<Conn>, ids: seq<ConnId>)
    requires BeforeShutdown(phase) && NoDup(ids) && |ids| <= counter
    ensures KeepsAll(cfg, phase, now, counter, conns, ids)
    decreases |ids|
  {
    hide KeepsAll;
    if ids == [] || counter <= cfg.min {
      ExpireEndKeeps(cfg, phase, now, counter, conns, ids);
    } else {
      if Stale(cfg, now, conns, ids[0]) {
        ExpireLoopKeeps(cfg, phase, now, counter - 1, Close(conns, ids[0]), ids[1..]);
        StaleStepKeeps(cfg, phase, now, counter, conns, ids);
      } else {
        ExpireLoopKeeps(cfg, phase, now, counter, conns, ids[1..]);
        FreshStepKeeps(cfg, phase, now, counter, conns, ids);
      }
    }
  }

  /**
   One expiry tick: with `gone` the first stale idle connections, as many as lie above the floor,
   it closes and uncounts exactly `gone`, keeps every other idle connection exactly once, never
   takes the counter below the floor, and leaves either a counter at the floor or only idle
   connections that are usable and recently used.
   */
  lemma ExpireExact(cfg: Config, p: Pool, now: int)
    requires BeforeShutdown(p.phase) && NoDup(p.idle) && |p.idle| <= p.counter
    ensures var gone := Expired(cfg, now, p.counter, p.conns, p.idle);
            var p1 := Expire(cfg, p, now);
            && p1 == p.(idle := p1.idle, counter := p.counter - |gone|, conns := CloseAll(p.conns, gone))
            && multiset(p.idle) == multiset(p1.idle) + multiset(gone)
            && p1.counter >= (if p.counter <= cfg.min then p.counter else cfg.min)
            && (p1.counter <= cfg.min || forall id :: id in p1.idle ==> !Stale(cfg, now, p1.conns, id))
  {
    ExpireLoopCloses(cfg, p.phase, now, p.counter, p.conns, p.idle);
    ExpireLoopKeeps(cfg, p.phase, now, p.counter, p.conns, p.idle);
    var p1 := Expire(cfg, p, now);
    if p1.counter > cfg.min {
      ExpireSettles(cfg, now, p.counter, p.conns, p.idle, p1.idle);
    }
  }

  /**
   The same in terms of sockets and times: what a tick closes was closed, inactive or idle for the timeout;
   and above the floor everything left is open, active and was used less than the timeout ago.
   */
  lemma ExpireByTime(cfg: Config, s: System, now: int)
    requires Inv(cfg, s) && BeforeShutdown(s.pool.phase)
    ensures var p, p1 := s.pool, Expire(cfg, s.pool, now);
            && (forall id :: id in p.idle && id !in p1.idle ==>
                  !p.conns[id].open || !p.conns[id].active || now - p.conns[id].lastUsed >= cfg.idleTimeout)
            && (p1.counter > cfg.min ==>
                  forall id :: id in p1.idle ==>
                    && id < |p1.conns| && p1.conns[id].open && p1.conns[id].active
                    && now - p1.conns[id].lastUsed < cfg.idleTimeout)
  {
    hide CloseAll, FirstStale, NoDup, ExpireLoop, Expire;
    var p, p1 := s.pool, Expire(cfg, s.pool, now);
    var gone := Expired(cfg, now, p.counter, p.conns, p.idle);
    ExpireExact(cfg, p, now);
    FirstStaleMeaning(cfg, now, p.conns, p.idle, if p.counter <= cfg.min then 0 else p.counter - cfg.min);
    forall id | id in p.idle && id !in p1.idle ensures id in gone {
      assert id in multiset(p.idle);
    }
  }

  lemma ExpireSettles(cfg: Config, now: int, counter: nat, conns: seq<Conn>, ids: seq<ConnId>, left: seq<ConnId>)
    requires NoDup(ids) && counter > cfg.min
    requires var gone := Expired(cfg, now, counter, conns, ids);
             multiset(ids) == multiset(left) + multiset(gone) && counter - |gone| > cfg.min
    ensures var gone := Expired(cfg, now, counter, conns, ids);
            forall id :: id in left ==> !Stale(cfg, now, CloseAll(conns, gone), id)
  {
    hide NoDup, CloseAll, FirstStale;
    var gone := Expired(cfg, now, counter, conns, ids);
    assert multiset(left) + multiset(gone) == multiset(left) + multiset(gone) + multiset({});
    DrainSets(ids, gone, {}, left);
    FirstStaleMeaning(cfg, now, conns, ids, counter - cfg.min);
    CloseAllExact(conns, gone);
  }

  // ------------------------------------------------------------------------------------------
  // stop, exactly
  // ------------------------------------------------------------------------------------------

  /** The early exit at counter zero cannot leave an idle connection open. */
  lemma {:induction false} StopLoopExact(s: Scan, ids: seq<ConnId>)
    requires |ids| <= s.counter
    ensures StopLoop(s, ids) == Visit(Scan(s.counter - |ids|, CloseAll(s.conns, ids), s.found), [], |ids|)
    decreases |ids|
  {
    if ids != [] {
      StopLoopExact(s.(counter := s.counter - 1, conns := Close(s.conns, ids[0])), ids[1..]);
    }
  }

  lemma StopExact(p: Pool)
    requires |p.idle| <= p.counter
    ensures p.phase == Running ==>
              Stop(p) == (Pool(Shutdown, p.counter - |p.idle|, [], CloseAll(p.conns, p.idle)), true)
    ensures p.phase != Running ==> Stop(p) == (p, false)
  {
    StopLoopExact(Scan(p.counter, p.conns, None), p.idle);
    assert p.idle[|p.idle|..] + [] == [];
  }

  // ------------------------------------------------------------------------------------------
  // Every step keeps the invariant
  // ------------------------------------------------------------------------------------------

  lemma PutKeeps(cfg: Config, s: System, id: ConnId)
    requires Inv(cfg, s) && id in s.out
    ensures Inv(cfg, Do(cfg, s, DoPut(id)))
    ensures Put(cfg, s.pool, id).1.Accepted?
  {
    if BeforeShutdown(s.pool.phase) {
      NoDupAppend(s.pool.idle, id);
    }
  }

  lemma RemoveKeeps(cfg: Config, s: System, id: ConnId)
    requires Inv(cfg, s) && id in s.out
    ensures Inv(cfg, Do(cfg, s, DoRemove(id)))
  {
    hide NoDup;
    assert |s.out - {id}| == |s.out| - 1;
    if BeforeShutdown(s.pool.phase) {
      assert |Close(s.pool.conns, id)| == |s.pool.conns|;
    } else {
      assert |s.leaked + {id}| == |s.leaked| + 1;
    }
  }

  /** A new connection is stored, counted and handed out. */
  lemma NewConnKeeps(cfg: Config, s: System, conn: Conn)
    requires Inv(cfg, s) && BeforeShutdown(s.pool.phase) && s.pool.counter < cfg.max
    ensures Inv(cfg, s.(pool := s.pool.(counter := s.pool.counter + 1, conns := s.pool.conns + [conn]),
                        out := s.out + {|s.pool.conns|}))
  {
    hide NoDup;
    assert |s.pool.conns| !in s.out;
  }

  lemma CreateKeeps(cfg: Config, s: System, dial: Dial)
    requires Inv(cfg, s)
    ensures Inv(cfg, Do(cfg, s, DoCreate(dial)))
  {
    assert cfg.max <= MAX_UINT16;
    hide Inv;
    var r := Create(cfg, s.pool, dial).1;
    if r.Got? {
      NewConnKeeps(cfg, s, Conn(true, true, dial.at));
    } else {
      assert s.out + {} == s.out;
    }
  }

  /** Splitting a duplicate-free queue into what is closed, what is taken and what is left. */
  lemma DrainSets(idle: seq<ConnId>, gone: seq<ConnId>, taken: set<ConnId>, left: seq<ConnId>)
    requires NoDup(idle) && multiset(idle) == multiset(left) + multiset(gone) + multiset(taken)
    ensures NoDup(left) && |idle| == |left| + |gone| + |taken|
    ensures forall x :: x in idle <==> x in left || x in gone || x in taken
    ensures forall x :: x in taken ==> x !in left && x !in gone
    ensures forall x :: x in left ==> x !in gone
  {
    NoDupIff(idle);
    NoDupIff(left);
    forall x
      ensures multiset(left)[x] + multiset(gone)[x] + multiset(taken)[x] == multiset(idle)[x] <= 1
      ensures x in idle <==> x in multiset(idle)
      ensures x in left <==> x in multiset(left)
      ensures x in gone <==> x in multiset(gone)
    {
    }
    assert |multiset(idle)| == |multiset(left)| + |multiset(gone)| + |multiset(taken)|;
  }

  /** Connections leave the queue: `gone` are closed and uncounted, `taken` go to a client, the others stay. */
  lemma DrainKeeps(cfg: Config, s: System, gone: seq<ConnId>, taken: set<ConnId>, p1: Pool)
    requires Inv(cfg, s) && BeforeShutdown(s.pool.phase) && p1.phase == s.pool.phase
    requires multiset(s.pool.idle) == multiset(p1.idle) + multiset(gone) + multiset(taken)
    requires p1.counter == s.pool.counter - |gone| && p1.conns == CloseAll(s.pool.conns, gone)
    ensures Inv(cfg, s.(pool := p1, out := s.out + taken))
  {
    DrainSets(s.pool.idle, gone, taken, p1.idle);
    CloseAllExact(s.pool.conns, gone);
    assert |s.out + taken| == |s.out| + |taken|;
  }

  lemma ScanKeeps(cfg: Config, s: System)
    requires Inv(cfg, s) && BeforeShutdown(s.pool.phase)
    ensures Inv(cfg, Do(cfg, s, DoScan))
  {
    hide ScanIdle, FirstAvailable, CloseAll, NoDup;
    var p := s.pool;
    ScanExact(p);
    var p1 := ScanIdle(p).0;
    var k := FirstAvailable(p.conns, p.idle);
    if k < |p.idle| {
      assert p.idle == p.idle[..k] + [p.idle[k]] + p.idle[k + 1..];
      DrainKeeps(cfg, s, p.idle[..k], {p.idle[k]}, p1);
    } else {
      DrainKeeps(cfg, s, p.idle, {}, p1);
    }
  }

  lemma ExpireKeeps(cfg: Config, s: System, now: int)
    requires Inv(cfg, s) && BeforeShutdown(s.pool.phase)
    ensures Inv(cfg, Do(cfg, s, DoExpire(now)))
  {
    hide Expire, ExpireLoop, Expired, CloseAll, NoDup;
    ExpireExact(cfg, s.pool, now);
    DrainKeeps(cfg, s, Expired(cfg, now, s.pool.counter, s.pool.conns, s.pool.idle), {}, Expire(cfg, s.pool, now));
    assert s.out + {} == s.out;
  }

  lemma NewConnIsFresh(cfg: Config, s: System, dial: Dial)
    requires Inv(cfg, s)
    ensures var r := Create(cfg, s.pool, dial).1; r.Got? ==> r.id !in s.out
    ensures Create(cfg, s.pool, dial).0.phase == s.pool.phase
  {
  }

  /** One round of start: dial, and put the new connection into the queue. */
  lemma RoundKeeps(cfg: Config, s: System, dial: Dial)
    requires Inv(cfg, s) && s.pool.phase.Created?
    ensures var (p1, r) := Create(cfg, s.pool, dial);
            var p2 := if r.Got? then Put(cfg, p1, r.id).0 else p1;
            Inv(cfg, s.(pool := p2)) && p2.phase.Created?
  {
    hide Inv;
    CreateKeeps(cfg, s, dial);
    NewConnIsFresh(cfg, s, dial);
    var r := Create(cfg, s.pool, dial).1;
    if r.Got? {
      PutKeeps(cfg, Do(cfg, s, DoCreate(dial)), r.id);
      assert s.out + {r.id} - {r.id} == s.out;
    } else {
      assert s.out + {} == s.out;
    }
  }

  lemma {:induction false} FillKeeps(cfg: Config, s: System, dials: seq<Dial>, n: nat)
    requires Inv(cfg, s) && s.pool.phase.Created?
    ensures var p := Fill(cfg, s.pool, dials, n); Inv(cfg, s.(pool := p)) && p.phase.Created?
    decreases n
  {
    if n > 0 {
      hide Create, Put, Inv;
      var dial := if dials == [] then DialFailed else dials[0];
      RoundKeeps(cfg, s, dial);
      var (p1, r) := Create(cfg, s.pool, dial);
      var p2 := if r.Got? then Put(cfg, p1, r.id).0 else p1;
      FillKeeps(cfg, s.(pool := p2), if dials == [] then [] else dials[1..], n - 1);
    }
  }

  /** The connections that the first `n` dials open. */
  function Opened(dials: seq<Dial>, n: nat): (r: seq<Conn>)
    ensures |r| <= n
    decreases n
  {
    if n == 0 || dials == [] then []
    else (if dials[0].Connected? then [Conn(true, true, dials[0].at)] else []) + Opened(dials[1..], n - 1)
  }

  lemma {:induction false} AllOpened(dials: seq<Dial>, n: nat)
    requires n <= |dials| && forall i :: 0 <= i < n ==> dials[i].Connected?
    ensures |Opened(dials, n)| == n
    ensures forall i :: 0 <= i < n ==> Opened(dials, n)[i] == Conn(true, true, dials[i].at)
    decreases n
  {
    if n > 0 {
      AllOpened(dials[1..], n - 1);
    }
  }

  function Upto(n: nat): (r: seq<ConnId>)
    ensures |r| == n && forall i :: 0 <= i < n ==> r[i] == i
  {
    seq(n, i => i)
  }

  /** A new pool's queue and store after some dials: all connections idle and counted. */
  function Filled(conns: seq<Conn>): Pool {
    Pool(Created, |conns|, Upto(|conns|), conns)
  }

  lemma FillRound(cfg: Config, conns: seq<Conn>, dial: Dial)
    requires |conns| < cfg.max <= MAX_UINT16
    ensures var (p1, r) := Create(cfg, Filled(conns), dial);
            && (dial.DialFailed? ==> !r.Got? && p1 == Filled(conns))
            && (dial.Connected? ==> r.Got? && Put(cfg, p1, r.id).0 == Filled(conns + [Conn(true, true, dial.at)]))
  {
    assert Upto(|conns|) + [|conns|] == Upto(|conns| + 1);
  }

  lemma {:induction false} FillExact(cfg: Config, conns: seq<Conn>, dials: seq<Dial>, n: nat)
    requires |conns| + n <= cfg.max <= MAX_UINT16
    ensures Fill(cfg, Filled(conns), dials, n) == Filled(conns + Opened(dials, n))
    decreases n
  {
    hide Create, Put, Filled;
    if n == 0 {
      assert conns + [] == conns;
    } else {
      var dial, rest := if dials == [] then DialFailed else dials[0], if dials == [] then [] else dials[1..];
      FillRound(cfg, conns, dial);
      var more := if dial.Connected? then [Conn(true, true, dial.at)] else [];
      assert conns + [] == conns;
      FillExact(cfg, conns + more, rest, n - 1);
      assert conns + more + Opened(rest, n - 1) == conns + (more + Opened(rest, n - 1));
      assert more + Opened(rest, n - 1) == Opened(dials, n) by { OpenedStep(dials, n); }
    }
  }

  lemma OpenedStep(dials: seq<Dial>, n: nat)
    requires n > 0
    ensures var dial, rest := if dials == [] then DialFailed else dials[0], if dials == [] then [] else dials[1..];
            Opened(dials, n) == (if dial.Connected? then [Conn(true, true, dial.at)] else []) + Opened(rest, n - 1)
  {
  }

  /**
   start on a new pool: with the connections that the first `min` dials open, in that order, idle and counted;
   that is `min` of them if no dial fails.  A pool that is not new is not started.
   */
  lemma StartExact(cfg: Config, p: Pool, dials: seq<Dial>)
    requires ValidConfig(cfg)
    ensures !p.phase.Created? ==> Start(cfg, p, dials) == (p, false)
    ensures p == Pool(Created, 0, [], []) ==>
              var conns := Opened(dials, cfg.min);
              Start(cfg, p, dials) == (Pool(Running, |conns|, Upto(|conns|), conns), true)
    ensures p == Pool(Created, 0, [], []) && cfg.min <= |dials|
            && (forall i :: 0 <= i < cfg.min ==> dials[i].Connected?) ==>
              var p1 := Start(cfg, p, dials).0;
              && p1.counter == |p1.idle| == |p1.conns| == cfg.min
              && forall i :: 0 <= i < cfg.min ==> p1.idle[i] == i && p1.conns[i] == Conn(true, true, dials[i].at)
  {
    if p == Pool(Created, 0, [], []) {
      FillExact(cfg, [], dials, cfg.min);
      assert Filled([]) == p && Upto(0) == [] && [] + Opened(dials, cfg.min) == Opened(dials, cfg.min);
    }
    if cfg.min <= |dials| && forall i :: 0 <= i < cfg.min ==> dials[i].Connected? {
      AllOpened(dials, cfg.min);
    }
  }

  /** The same for the whole system, and until then ticks and traffic change nothing. */
  lemma NewSystemStarts(cfg: Config, s: System, step: Step)
    requires Inv(cfg, s)
    ensures s == NewSystem() && (step.DoExpire? || step.DoUse?) ==> Do(cfg, s, step) == s
    ensures s == NewSystem() && step.DoStart? ==>
              var conns := Opened(step.dials, cfg.min);
              Do(cfg, s, step) == System(Pool(Running, |conns|, Upto(|conns|), conns), {}, {})
  {
    if step.DoStart? {
      StartExact(cfg, s.pool, step.dials);
      hide Start, Opened;
    }
  }

  lemma StartKeeps(cfg: Config, s: System, dials: seq<Dial>)
    requires Inv(cfg, s)
    ensures Inv(cfg, Do(cfg, s, DoStart(dials)))
  {
    if s.pool.phase.Created? {
      FillKeeps(cfg, s, dials, cfg.min);
    }
  }

  /** stop closes every idle connection, ends in shutdown and counts just the connections still held. */
  lemma StopKeeps(cfg: Config, s: System)
    requires Inv(cfg, s) && s.pool.phase.Running?
    ensures Do(cfg, s, DoStop) == s.(pool := Pool(Shutdown, |s.out|, [], CloseAll(s.pool.conns, s.pool.idle)))
    ensures Inv(cfg, Do(cfg, s, DoStop))
  {
    hide Stop, CloseAll;
    StopExact(s.pool);
    CloseAllExact(s.pool.conns, s.pool.idle);
  }

  /** After shutdown the queue is empty, so neither a scan nor a late expiry tick does anything. */
  lemma DrainedIsIdle(cfg: Config, s: System, now: int)
    requires Inv(cfg, s) && !BeforeShutdown(s.pool.phase)
    ensures Do(cfg, s, DoScan) == s && Do(cfg, s, DoExpire(now)) == s
  {
  }

  lemma StepKeeps(cfg: Config, s: System, step: Step)
    requires Inv(cfg, s) && Enabled(s, step)
    ensures Inv(cfg, Do(cfg, s, step))
  {
    match step
    case DoStart(dials) => StartKeeps(cfg, s, dials);
    case DoScan => if BeforeShutdown(s.pool.phase) { ScanKeeps(cfg, s); } else { DrainedIsIdle(cfg, s, 0); }
    case DoCreate(dial) => CreateKeeps(cfg, s, dial);
    case DoPut(id) => PutKeeps(cfg, s, id);
    case DoRemove(id) => RemoveKeeps(cfg, s, id);
    case DoExpire(now) =>
      if BeforeShutdown(s.pool.phase) { ExpireKeeps(cfg, s, now); } else { DrainedIsIdle(cfg, s, now); }
    case DoUse(id, active, lastUsed) =>
    case DoStop => if s.pool.phase.Running? { StopKeeps(cfg, s); }
  }

  // ------------------------------------------------------------------------------------------
  // Whole runs
  // ------------------------------------------------------------------------------------------

  function DoAll(cfg: Config, s: System, steps: seq<Step>): System
    decreases |steps|
  {
    if steps == [] then s else DoAll(cfg, Do(cfg, s, steps[0]), steps[1..])
  }

  predicate Legal(cfg: Config, s: System, steps: seq<Step>)
    decreases |steps|
  {
    steps == [] || (Enabled(s, steps[0]) && Legal(cfg, Do(cfg, s, steps[0]), steps[1..]))
  }

  /** Every round of start's loop: room in the counter for a new connection and in the queue to put it. */
  predicate FillClean(cfg: Config, p: Pool, dials: seq<Dial>, n: nat)
    decreases n
  {
    n == 0 ||
    (var (p1, r) := Create(cfg, p, if dials == [] then DialFailed else dials[0]);
     var p2 := if r.Got? then Put(cfg, p1, r.id).0 else p1;
     && (r.Got? ==> p.counter < MAX_UINT16 && |p1.idle| < cfg.max)
     && FillClean(cfg, p2, if dials == [] then [] else dials[1..], n - 1))
  }

  /** Every decrement of get's pass starts above zero. */
  predicate GetClean(phase: Phase, s: Scan, ids: seq<ConnId>)
    decreases |ids|
  {
    ids == [] || Available(s.conns, ids[0]) ||
    (&& (BeforeShutdown(phase) ==> 0 < s.counter)
     && GetClean(phase, RemoveFrom(phase, s, ids[0]).(found := None), ids[1..]))
  }

  predicate ExpireClean(cfg: Config, phase: Phase, now: int, s: Scan, ids: seq<ConnId>)
    decreases |ids|
  {
    ids == [] || !BeforeShutdown(phase) || s.counter <= cfg.min ||
    if Stale(cfg, now, s.conns, ids[0]) then
      var s1 := s.(counter := Decrement(s.counter), conns := Close(s.conns, ids[0]));
      0 < s.counter && ExpireClean(cfg, phase, now, s1, ids[1..])
    else ExpireClean(cfg, phase, now, s, ids[1..])
  }

  predicate StopClean(s: Scan, ids: seq<ConnId>)
    decreases |ids|
  {
    ids == [] ||
    (var s1 := s.(counter := Decrement(s.counter), conns := Close(s.conns, ids[0]));
     0 < s.counter && (s1.counter == 0 || StopClean(s1, ids[1..])))
  }

  /** None of the defensive branches can be taken: no full queue, no saturated or exhausted counter. */
  predicate NoGuardFires(cfg: Config, s: System, step: Step) {
    var p := s.pool;
    match step
    case DoPut(_) => if BeforeShutdown(p.phase) then |p.idle| < cfg.max else 0 < p.counter
    case DoRemove(_) => BeforeShutdown(p.phase) ==> 0 < p.counter
    case DoCreate(dial) => Create(cfg, p, dial).1.Got? ==> p.counter < MAX_UINT16
    case DoUse(_, _, _) => true
    case DoStart(dials) => p.phase.Created? ==> FillClean(cfg, p, dials, cfg.min)
    case DoScan => GetClean(p.phase, ScanOf(p), p.idle)
    case DoExpire(now) => ExpireClean(cfg, p.phase, now, ScanOf(p), p.idle)
    case DoStop => p.phase.Running? ==> StopClean(ScanOf(p), p.idle)
  }

  /**
   The pool's accounting, over every run of any length from a new pool: counter, queue and the
   clients' connections agree, and the next step cannot hit a defensive branch.
   */
  lemma EveryRunIsSafe(cfg: Config, steps: seq<Step>, next: Step)
    requires ValidConfig(cfg) && Legal(cfg, NewSystem(), steps)
    ensures var s := DoAll(cfg, NewSystem(), steps);
            Inv(cfg, s) && (Enabled(s, next) ==> NoGuardFires(cfg, s, next))
  {
    RunKeeps(cfg, NewSystem(), steps);
    var s := DoAll(cfg, NewSystem(), steps);
    if Enabled(s, next) {
      InvMeansNoGuard(cfg, s, next);
    }
  }

  lemma {:induction false} RunKeeps(cfg: Config, s: System, steps: seq<Step>)
    requires Inv(cfg, s) && Legal(cfg, s, steps)
    ensures Inv(cfg, DoAll(cfg, s, steps))
    decreases |steps|
  {
    if steps != [] {
      StepKeeps(cfg, s, steps[0]);
      RunKeeps(cfg, Do(cfg, s, steps[0]), steps[1..]);
    }
  }

  lemma RoundIsClean(cfg: Config, s: System, dial: Dial)
    requires Inv(cfg, s) && s.pool.phase.Created?
    ensures var (p1, r) := Create(cfg, s.pool, dial);
            r.Got? ==> s.pool.counter < MAX_UINT16 && |p1.idle| < cfg.max
  {
  }

  lemma {:induction false} FillIsClean(cfg: Config, s: System, dials: seq<Dial>, n: nat)
    requires Inv(cfg, s) && s.pool.phase.Created?
    ensures FillClean(cfg, s.pool, dials, n)
    decreases n
  {
    if n > 0 {
      hide Create, Put, Inv;
      var dial := if dials == [] then DialFailed else dials[0];
      RoundKeeps(cfg, s, dial);
      RoundIsClean(cfg, s, dial);
      var (p1, r) := Create(cfg, s.pool, dial);
      var p2 := if r.Got? then Put(cfg, p1, r.id).0 else p1;
      FillIsClean(cfg, s.(pool := p2), if dials == [] then [] else dials[1..], n - 1);
    }
  }

  /** No pass over the queue decrements the counter at zero, as long as it counts the queue. */
  lemma {:induction false} PassesAreClean(cfg: Config, phase: Phase, now: int, s: Scan, ids: seq<ConnId>)
    requires |ids| <= s.counter
    ensures GetClean(phase, s, ids) && ExpireClean(cfg, phase, now, s, ids) && StopClean(s, ids)
    decreases |ids|
  {
    if ids != [] {
      var s1 := s.(counter := Decrement(s.counter), conns := Close(s.conns, ids[0]));
      PassesAreClean(cfg, phase, now, s1, ids[1..]);
      PassesAreClean(cfg, phase, now, s, ids[1..]);
      PassesAreClean(cfg, phase, now, RemoveFrom(phase, s, ids[0]).(found := None), ids[1..]);
    }
  }

  lemma InvMeansNoGuard(cfg: Config, s: System, step: Step)
    requires Inv(cfg, s) && Enabled(s, step)
    ensures NoGuardFires(cfg, s, step)
  {
    if step.DoPut? || step.DoRemove? {
      assert s.out != {};
    } else if step.DoStart? && s.pool.phase.Created? {
      FillIsClean(cfg, s, step.dials, cfg.min);
    } else {
      PassesAreClean(cfg, s.pool.phase, if step.DoExpire? then step.now else 0, ScanOf(s.pool), s.pool.idle);
    }
  }

  // ------------------------------------------------------------------------------------------
  // After shutdown
  // ------------------------------------------------------------------------------------------

  /** The connections that a run gives to remove when the pool is past shutdown. */
  function LateRemoves(cfg: Config, s: System, steps: seq<Step>): set<ConnId>
    decreases |steps|
  {
    if steps == [] then {}
    else
      (if steps[0].DoRemove? && !BeforeShutdown(s.pool.phase) then {steps[0].id} else {})
      + LateRemoves(cfg, Do(cfg, s, steps[0]), steps[1..])
  }

  /** Exactly these are leaked. */
  lemma {:induction false} LeakedAreLateRemoves(cfg: Config, s: System, steps: seq<Step>)
    ensures DoAll(cfg, s, steps).leaked == s.leaked + LateRemoves(cfg, s, steps)
    decreases |steps|
  {
    if steps != [] {
      LeakedAreLateRemoves(cfg, Do(cfg, s, steps[0]), steps[1..]);
    }
  }

  /**
   In every run that has ended in shutdown: the counter is off by the connections that were given to remove
   after shutdown, so it tells how many are held iff there were none; and nothing else is open.
   */
  lemma CounterAfterShutdown(cfg: Config, steps: seq<Step>)
    requires ValidConfig(cfg) && Legal(cfg, NewSystem(), steps)
    requires DoAll(cfg, NewSystem(), steps).pool.phase.Shutdown?
    ensures var s := DoAll(cfg, NewSystem(), steps);
            var late := LateRemoves(cfg, NewSystem(), steps);
            && s.pool.counter == |s.out| + |late| && s.out !! late
            && (s.pool.counter == |s.out| <==> late == {})
            && (forall id :: 0 <= id < |s.pool.conns| && s.pool.conns[id].open ==> id in s.out || id in late)
  {
    RunKeeps(cfg, NewSystem(), steps);
    LeakedAreLateRemoves(cfg, NewSystem(), steps);
  }

  /** There were none iff no step of the run is a removal in a state past shutdown. */
  lemma {:induction false} LateRemovesMeaning(cfg: Config, s: System, steps: seq<Step>)
    ensures LateRemoves(cfg, s, steps) == {} <==>
            forall i :: 0 <= i < |steps| && steps[i].DoRemove? ==>
              BeforeShutdown(DoAll(cfg, s, steps[..i]).pool.phase)
    decreases |steps|
  {
    if steps != [] {
      var s1, rest := Do(cfg, s, steps[0]), steps[1..];
      LateRemovesMeaning(cfg, s1, rest);
      forall i | 0 <= i < |rest| ensures DoAll(cfg, s, steps[..i + 1]) == DoAll(cfg, s1, rest[..i]) {
        assert steps[..i + 1][0] == steps[0] && steps[..i + 1][1..] == rest[..i];
      }
      assert steps[..0] == [];
      hide Do, DoAll;
      if LateRemoves(cfg, s, steps) == {} {
        forall i | 0 <= i < |steps| && steps[i].DoRemove?
          ensures BeforeShutdown(DoAll(cfg, s, steps[..i]).pool.phase)
        {
          if i > 0 {
            assert steps[i] == rest[i - 1];
          }
        }
      }
    }
  }

  /** The leak is real: a connection removed after shutdown stays open and counted. */
  lemma RemoveAfterShutdownLeaks()
    ensures var cfg := Config(1, 1, 0);
            var steps := [DoStart([Connected(0)]), DoScan, DoStop, DoRemove(0)];
            && Legal(cfg, NewSystem(), steps)
            && (var s := DoAll(cfg, NewSystem(), steps);
                s.pool.phase.Shutdown? && s.out == {} && s.pool.counter == 1 && s.pool.conns == [Conn(true, true, 0)])
  {
    var cfg, s0 := Config(1, 1, 0), NewSystem();
    var s1 := Do(cfg, s0, DoStart([Connected(0)]));
    assert Fill(cfg, Pool(Created, 1, [0], [Conn(true, true, 0)]), [], 0) ==
           Pool(Created, 1, [0], [Conn(true, true, 0)]);
    assert s1.pool == Pool(Running, 1, [0], [Conn(true, true, 0)]);
    var s2 := Do(cfg, s1, DoScan);
    assert s2 == System(Pool(Running, 1, [], [Conn(true, true, 0)]), {0}, {});
    var s3 := Do(cfg, s2, DoStop);
    assert s3 == System(Pool(Shutdown, 1, [], [Conn(true, true, 0)]), {0}, {});
    var s4 := Do(cfg, s3, DoRemove(0));
    var steps := [DoStart([Connected(0)]), DoScan, DoStop, DoRemove(0)];
    assert steps[1..][1..][1..] == [DoRemove(0)] && steps[1..][1..] == [DoStop, DoRemove(0)];
    assert Legal(cfg, s3, [DoRemove(0)]) && DoAll(cfg, s3, [DoRemove(0)]) == s4;
    assert Legal(cfg, s2, steps[1..][1..]) && DoAll(cfg, s2, steps[1..][1..]) == s4;
    assert Legal(cfg, s1, steps[1..]) && DoAll(cfg, s1, steps[1..]) == s4;
  }
}

/**
 The RTP port-pair pool run by one caller at a time (internal/media/portalloc/pool.go),
 and the media sessions that lease from it (internal/media/session/session.go).
 Whether a port can be bound is given by the environment.
 */
module PortPool {
  import opened Wrap

  datatype Config = Config(bindIPSpecified: bool, startPort: uint16, endPort: uint16)

  predicate ValidConfig(cfg: Config) {
    && cfg.bindIPSpecified
    && cfg.startPort >= 1024 && cfg.startPort % 2 == 0
    && cfg.endPort > cfg.startPort && cfg.endPort % 2 == 1
  }

  /** The even ports of the configured range, in order. */
  function EvenPorts(start: int, end: int): (ports: seq<int>)
    requires start % 2 == 0 && end % 2 == 1
    ensures |ports| == if end < start then 0 else (end - start + 1) / 2
    ensures forall i :: 0 <= i < |ports| ==> ports[i] == start + 2 * i
    decreases end - start
  {
    if end < start then [] else [start] + EvenPorts(start + 2, end)
  }

  lemma {:induction false} CountFirst(x: int, s: seq<int>, p: int)
    ensures multiset([x] + s)[p] == (if x == p then 1 else 0) + multiset(s)[p]
  {
    assert multiset([x] + s) == multiset{x} + multiset(s);
  }

  lemma {:induction false} EvenPortsOnce(start: int, end: int, p: int)
    requires start % 2 == 0 && end % 2 == 1
    ensures multiset(EvenPorts(start, end))[p] == if start <= p <= end && p % 2 == 0 then 1 else 0
    decreases end - start
  {
    if start <= end {
      EvenPortsOnce(start + 2, end, p);
      CountFirst(start, EvenPorts(start + 2, end), p);
    }
  }

  lemma AllOnce(start: int, end: int)
    requires start % 2 == 0 && end % 2 == 1
    ensures var ports := multiset(EvenPorts(start, end)); forall p :: p in ports ==> ports[p] == 1 && p % 2 == 0
  {
    forall p | p in multiset(EvenPorts(start, end)) ensures multiset(EvenPorts(start, end))[p] == 1 && p % 2 == 0 {
      EvenPortsOnce(start, end, p);
    }
  }

  datatype Outcome = Bound(port: int) | Exhausted | Cancelled

  /** The number of ports tried in vain from `from` on, before one binds or a select picks the cancelled context. */
  function Tries(queue: seq<int>, binds: int -> bool, done: nat -> bool, from: nat): (k: nat)
    requires from <= |queue|
    ensures from <= k <= |queue|
    decreases |queue| - from
  {
    if from == |queue| || done(from) || binds(queue[from]) then from else Tries(queue, binds, done, from + 1)
  }

  predicate Leases(queue: seq<int>, binds: int -> bool, done: nat -> bool) {
    var k := Tries(queue, binds, done, 0);
    k < |queue| && !done(k)
  }

  /** The queue after an attempt: what was not tried, then the ports that failed to bind. */
  function Rest(queue: seq<int>, binds: int -> bool, done: nat -> bool): seq<int> {
    var k := Tries(queue, binds, done, 0);
    if Leases(queue, binds, done) then queue[k + 1..] + queue[..k] else queue[k..] + queue[..k]
  }

  /**
   Without cancellation a lease goes to the first queued port that binds, and there is one unless every queued port
   fails.
   */
  lemma {:induction false} FirstThatBinds(queue: seq<int>, binds: int -> bool, done: nat -> bool, from: nat)
    requires from <= |queue|
    ensures var k := Tries(queue, binds, done, from);
      && (forall i :: from <= i < k ==> !binds(queue[i]) && !done(i))
      && (k < |queue| ==> done(k) || binds(queue[k]))
    decreases |queue| - from
  {
    if from < |queue| {
      FirstThatBinds(queue, binds, done, from + 1);
    }
  }

  lemma {:induction false} Rotated(queue: seq<int>, k: nat)
    requires k <= |queue|
    ensures multiset(queue[k..] + queue[..k]) == multiset(queue)
  {
    assert queue == queue[..k] + queue[k..];
  }

  lemma {:induction false} Removed(queue: seq<int>, k: nat)
    requires k < |queue|
    ensures multiset(queue[k + 1..] + queue[..k]) + multiset{queue[k]} == multiset(queue)
  {
    assert queue == queue[..k] + ([queue[k]] + queue[k + 1..]);
  }

  /** An attempt that leases nothing keeps the ports, and their order when all were tried; a lease takes one out. */
  lemma {:induction false} NothingIsLost(queue: seq<int>, binds: int -> bool, done: nat -> bool)
    ensures !Leases(queue, binds, done) ==> multiset(Rest(queue, binds, done)) == multiset(queue)
    ensures Leases(queue, binds, done) ==>
      multiset(Rest(queue, binds, done)) + multiset{queue[Tries(queue, binds, done, 0)]} == multiset(queue)
    ensures Tries(queue, binds, done, 0) == |queue| ==> Rest(queue, binds, done) == queue
  {
    var k := Tries(queue, binds, done, 0);
    if Leases(queue, binds, done) {
      Removed(queue, k);
    } else {
      Rotated(queue, k);
    }
  }

  class Lease {
    const pool: Pool
    const rtpPort: int
    var released: bool

    ghost predicate Valid()
      reads this, pool
    {
      pool.Valid() && (!released ==> rtpPort in pool.leased)
    }

    constructor (pool: Pool, port: int)
      ensures this.pool == pool && rtpPort == port && !released
    {
      this.pool, rtpPort, released := pool, port, false;
    }

    /** Returns the pair the first time; later calls change nothing. */
    method Release()
      requires Valid()
      modifies this, pool
      ensures released && Valid()
      ensures old(released) ==> pool.available == old(pool.available) && pool.leased == old(pool.leased)
      ensures !old(released) ==> pool.available == old(pool.available) + [rtpPort]
                                 && pool.leased == old(pool.leased) - multiset{rtpPort}
    {
      if !released {
        released := true;
        pool.inUse := pool.inUse - 1;
        pool.available := pool.available + [rtpPort];
        pool.leased := pool.leased - multiset{rtpPort};
      }
    }
  }

  class Pool {
    var available: seq<int>
    const capacity: nat
    var inUse: int

    /** The configured ports, and those of the leases not yet released. */
    ghost const ports: multiset<int>
    ghost var leased: multiset<int>

    ghost predicate Valid()
      reads this
    {
      && multiset(available) + leased == ports
      && inUse == |leased| && |ports| == capacity
      && forall p :: p in ports ==> ports[p] == 1 && p % 2 == 0
    }

    constructor (cfg: Config)
      requires ValidConfig(cfg)
      ensures Valid() && leased == multiset{}
      ensures available == EvenPorts(cfg.startPort, cfg.endPort)
    {
      var queue := FillQueue(cfg);
      AllOnce(cfg.startPort, cfg.endPort);
      available, capacity, inUse := queue, (cfg.endPort - cfg.startPort + 1) / 2, 0;
      ports, leased := multiset(queue), multiset{};
    }

    static method FillQueue(cfg: Config) returns (queue: seq<int>)
      requires ValidConfig(cfg)
      ensures queue == EvenPorts(cfg.startPort, cfg.endPort)
    {
      queue := [];
      var port: int := cfg.startPort;
      ghost var all := EvenPorts(cfg.startPort, cfg.endPort);
      while port + 1 <= cfg.endPort
        invariant port == cfg.startPort + 2 * |queue|
        invariant |queue| <= |all| && queue == all[..|queue|]
      {
        queue := queue + [port];
        port := port + 2;
      }
    }

    /**
     Acquire run alone leases the first port in queue order that binds and puts the failed ones back; it
     reports exhaustion only when every queued port failed. `done(i)` says that the select of attempt i
     picks the cancelled context.
     */
    method Acquire(binds: int -> bool, done: nat -> bool) returns (outcome: Outcome, lease: Lease?)
      requires Valid()
      modifies this
      ensures Valid()
      ensures available == Rest(old(available), binds, done)
      ensures var queue := old(available);
        var k := Tries(queue, binds, done, 0);
        if Leases(queue, binds, done) then
          && outcome == Bound(queue[k]) && leased == old(leased) + multiset{queue[k]}
          && lease != null && fresh(lease) && lease.pool == this && lease.rtpPort == queue[k] && !lease.released
        else
          && outcome == (if k < |queue| || (k < capacity && done(k)) then Cancelled else Exhausted)
          && lease == null && leased == old(leased)
    {
      QueueFits();
      NothingIsLost(available, binds, done);
      outcome, lease := TakeAndBind(binds, done);
      if lease != null {
        leased := leased + multiset{lease.rtpPort};
      }
    }

    lemma QueueFits()
      requires Valid()
      ensures |available| <= capacity
    {
      assert |multiset(available) + leased| == |multiset(available)| + |leased|;
    }

    /** The loop of Acquire and its deferred put-back. */
    method TakeAndBind(binds: int -> bool, done: nat -> bool) returns (outcome: Outcome, lease: Lease?)
      requires |available| <= capacity
      modifies this`available, this`inUse
      ensures available == Rest(old(available), binds, done)
      ensures var queue := old(available);
        var k := Tries(queue, binds, done, 0);
        if Leases(queue, binds, done) then
          && outcome == Bound(queue[k]) && inUse == old(inUse) + 1
          && lease != null && fresh(lease) && lease.pool == this && lease.rtpPort == queue[k] && !lease.released
        else
          && outcome == (if k < |queue| || (k < capacity && done(k)) then Cancelled else Exhausted)
          && lease == null && inUse == old(inUse)
    {
      var failed: seq<int> := [];
      ghost var queue := available;
      ghost var k := Tries(queue, binds, done, 0);
      outcome, lease := Exhausted, null;
      for attempt := 0 to capacity
        invariant attempt <= k && Tries(queue, binds, done, attempt) == k
        invariant failed == queue[..attempt] && available == queue[attempt..] && inUse == old(inUse)
        invariant outcome == Exhausted && lease == null
      {
        if done(attempt) {
          outcome := Cancelled;
          break;
        }
        if available == [] {
          break;
        }
        var port := available[0];
        available := available[1..];
        if binds(port) {
          lease := new Lease(this, port);
          inUse := inUse + 1;
          outcome := Bound(port);
          break;
        }
        failed := failed + [port];
      }
      available := available + failed;
    }
  }

  // ---- Sessions ----

  class Session {
    const caller: Lease
    const callee: Lease
    var closed: bool

    ghost predicate Valid()
      reads this, caller, callee, caller.pool
    {
      && caller != callee && caller.pool == callee.pool && caller.pool.Valid()
      && caller.released == callee.released == closed
      && (!closed ==>
          caller.rtpPort != callee.rtpPort && multiset{caller.rtpPort, callee.rtpPort} <= caller.pool.leased)
    }

    constructor (caller: Lease, callee: Lease)
      ensures this.caller == caller && this.callee == callee && !closed
    {
      this.caller, this.callee, closed := caller, callee, false;
    }

    /** Gives both pairs back exactly once. */
    method Close()
      requires Valid()
      modifies this, caller, callee, caller.pool
      ensures closed && Valid()
      ensures caller.pool.leased == if old(closed) then old(caller.pool.leased)
                                    else old(caller.pool.leased) - multiset{caller.rtpPort, callee.rtpPort}
      ensures caller.pool.available == if old(closed) then old(caller.pool.available)
                                       else old(caller.pool.available) + [caller.rtpPort, callee.rtpPort]
    {
      if !closed {
        closed := true;
        caller.Release();
        callee.Release();
      }
    }
  }

  /** Two leases on distinct ports, or everything taken is given back. */
  method LeaseBoth(pool: Pool, binds: int -> bool, binds': int -> bool, done: nat -> bool, done': nat -> bool)
    returns (caller: Lease?, callee: Lease?)
    requires pool.Valid()
    modifies pool
    ensures pool.Valid() && (caller == null <==> callee == null)
    ensures caller == null ==> pool.leased == old(pool.leased)
    ensures caller != null && callee != null ==>
      && fresh(caller) && fresh(callee) && caller != callee && caller.pool == callee.pool == pool
      && !caller.released && !callee.released && caller.rtpPort != callee.rtpPort
      && pool.leased == old(pool.leased) + multiset{caller.rtpPort, callee.rtpPort}
    ensures caller != null <==>
      Leases(old(pool.available), binds, done) && Leases(Rest(old(pool.available), binds, done), binds', done')
    ensures caller != null ==>
      var queue := old(pool.available);
      caller.rtpPort == queue[Tries(queue, binds, done, 0)]
        && pool.available == Rest(Rest(queue, binds, done), binds', done')
  {
    ghost var before := pool.leased;
    var _, first := pool.Acquire(binds, done);
    caller, callee := null, null;
    if first != null {
      var _, second := pool.Acquire(binds', done');
      if second == null {
        first.Release();
      } else {
        TwoPorts(pool.ports, multiset(pool.available), before, first.rtpPort, second.rtpPort);
        caller, callee := first, second;
      }
    }
  }

  method GiveBack(caller: Lease, callee: Lease)
    requires caller != callee && caller.pool == callee.pool && caller.pool.Valid()
    requires !caller.released && !callee.released && caller.rtpPort != callee.rtpPort
    requires multiset{caller.rtpPort, callee.rtpPort} <= caller.pool.leased
    modifies caller, callee, caller.pool
    ensures caller.pool.Valid() && caller.released && callee.released
    ensures caller.pool.leased == old(caller.pool.leased) - multiset{caller.rtpPort, callee.rtpPort}
  {
    caller.Release();
    callee.Release();
  }

  /**
   Factory.New: a session holding two distinct pairs, or the pool's leases as they were. `seeded` says that random
   identifiers were available.
   */
  method NewSession(pool: Pool, binds: int -> bool, binds': int -> bool, done: nat -> bool, done': nat -> bool,
    seeded: bool)
    returns (session: Session?)
    requires pool.Valid()
    modifies pool
    ensures pool.Valid()
    ensures session == null ==> pool.leased == old(pool.leased)
    ensures session != null ==>
      && fresh(session) && fresh(session.caller) && fresh(session.callee) && session.caller.pool == pool
      && session.Valid() && !session.closed
      && pool.leased == old(pool.leased) + multiset{session.caller.rtpPort, session.callee.rtpPort}
    ensures session != null <==>
      && seeded && Leases(old(pool.available), binds, done)
      && Leases(Rest(old(pool.available), binds, done), binds', done')
  {
    session := null;
    var caller, callee := LeaseBoth(pool, binds, binds', done, done');
    if caller != null && callee != null {
      if seeded {
        session := new Session(caller, callee);
      } else {
        GiveBack(caller, callee);
      }
    }
  }

  lemma TwoPorts(ports: multiset<int>, queued: multiset<int>, before: multiset<int>, p: int, q: int)
    requires forall x :: x in ports ==> ports[x] == 1
    requires queued + (before + multiset{p} + multiset{q}) == ports
    ensures p != q && before + multiset{p} + multiset{q} == before + multiset{p, q}
  {
    assert ports[p] >= (before + multiset{p} + multiset{q})[p];
  }
}

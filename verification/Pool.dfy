/**
 The idle-connection list (src/pool.rs). The mutex is held from the first line of an operation
 to its last, across the connect, so each operation is one step; instants are natural numbers.
 */
module Pool {
  datatype Addr = Addr(ip: string, port: nat)

  datatype PooledConnection = PooledConnection(addr: Addr, createdAt: nat, lastUsed: nat)

  /** How the await on the connect ends; a dropped future runs nothing after it. */
  datatype Connect = Connected | Failed | Dropped

  /// The operations as functions on the list

  /** `now.duration_since(then)` saturates at zero. */
  predicate Expired(conn: PooledConnection, now: nat, idleTimeout: nat) {
    (if now < conn.lastUsed then 0 else now - conn.lastUsed) >= idleTimeout
  }

  /** An entry lives for less than the timeout after its last use; with a timeout of zero none does. */
  lemma ExpiredMeaning(conn: PooledConnection, now: nat, idleTimeout: nat)
    ensures Expired(conn, now, idleTimeout) <==> idleTimeout == 0 || conn.lastUsed + idleTimeout <= now
  {
  }

  function Unexpired(conns: seq<PooledConnection>, now: nat, idleTimeout: nat): (r: seq<PooledConnection>)
    ensures |r| <= |conns|
  {
    if conns == [] then []
    else if Expired(conns[0], now, idleTimeout) then Unexpired(conns[1..], now, idleTimeout)
    else [conns[0]] + Unexpired(conns[1..], now, idleTimeout)
  }

  /** Index of the first entry for an address, or the length when there is none. */
  function Position(conns: seq<PooledConnection>, addr: Addr): (p: nat)
    ensures p <= |conns|
    ensures p < |conns| ==> conns[p].addr == addr
    ensures forall i | 0 <= i < p :: conns[i].addr != addr
  {
    if conns == [] || conns[0].addr == addr then 0
    else
      var p := Position(conns[1..], addr);
      assert forall i | 1 <= i < |conns| :: conns[i] == conns[1..][i - 1];
      p + 1
  }

  datatype Branch = Reused | Created | Full

  function Borrow(conns: seq<PooledConnection>, max: nat, idleTimeout: nat, addr: Addr,
                  now: nat, connect: Connect, created: nat, used: nat)
    : (Branch, seq<PooledConnection>)
  {
    var live := Unexpired(conns, now, idleTimeout);
    var p := Position(live, addr);
    if p < |live| then (Reused, live[..p] + live[p + 1..])
    else if |live| < max then
      (Created, if connect == Connected then live + [PooledConnection(addr, created, used)] else live)
    else (Full, live)
  }

  function GiveBack(conns: seq<PooledConnection>, max: nat, addr: Addr, created: nat, used: nat)
    : seq<PooledConnection>
  {
    if |conns| < max then conns + [PooledConnection(addr, created, used)] else conns
  }

  class ConnectionPool {
    const maxConnections: nat
    const idleTimeout: nat
    var connections: seq<PooledConnection>

    constructor (maxConnections: nat, idleTimeout: nat)
      ensures this.maxConnections == maxConnections && this.idleTimeout == idleTimeout
      ensures connections == []
    {
      this.maxConnections := maxConnections;
      this.idleTimeout := idleTimeout;
      connections := [];
    }

    /** Keeps the entries that are not expired, in place and in order. */
    method Retain(now: nat)
      modifies this
      ensures connections == Unexpired(old(connections), now, idleTimeout)
    {
      var kept: seq<PooledConnection> := [];
      for k := 0 to |connections|
        invariant connections == old(connections)
        invariant kept + Unexpired(connections[k..], now, idleTimeout) == Unexpired(connections, now, idleTimeout)
      {
        if !Expired(connections[k], now, idleTimeout) {
          kept := kept + [connections[k]];
        }
      }
      connections := kept;
    }

    /** `stream` is whether the caller gets a connected stream. */
    method GetConnection(addr: Addr, now: nat, connect: Connect, created: nat, used: nat)
      returns (stream: bool)
      modifies this
      ensures var (branch, after) :=
                Borrow(old(connections), maxConnections, idleTimeout, addr, now, connect, created, used);
              connections == after && stream == (branch != Full && connect == Connected)
    {
      Retain(now);
      var pos := Position(connections, addr);
      if pos < |connections| {
        connections := connections[..pos] + connections[pos + 1..];
        return connect == Connected;
      }
      if |connections| < maxConnections {
        if connect == Connected {
          connections := connections + [PooledConnection(addr, created, used)];
          return true;
        }
        return false;
      }
      return false;
    }

    method ReturnConnection(addr: Addr, created: nat, used: nat)
      modifies this
      ensures connections == GiveBack(old(connections), maxConnections, addr, created, used)
      ensures connections
           == old(connections)
              + if |old(connections)| < maxConnections then [PooledConnection(addr, created, used)] else []
    {
      if |connections| < maxConnections {
        connections := connections + [PooledConnection(addr, created, used)];
      }
    }

    method CleanupExpired(now: nat)
      modifies this
      ensures connections == Unexpired(old(connections), now, idleTimeout)
    {
      Retain(now);
    }
  }

  /// Runs

  /**
   One completed step of the shared pool. A future dropped while it waits for the lock takes no
   step at all; one dropped at the connect is a `Get` with `Dropped`.
   */
  datatype Event =
    | Get(addr: Addr, now: nat, connect: Connect, created: nat, used: nat)
    | Return(addr: Addr, created: nat, used: nat)
    | Cleanup(now: nat)

  datatype Limits = Limits(max: nat, idleTimeout: nat)

  function Step(conns: seq<PooledConnection>, limits: Limits, e: Event): seq<PooledConnection> {
    match e
    case Get(addr, now, connect, created, used) =>
      Borrow(conns, limits.max, limits.idleTimeout, addr, now, connect, created, used).1
    case Return(addr, created, used) => GiveBack(conns, limits.max, addr, created, used)
    case Cleanup(now) => Unexpired(conns, now, limits.idleTimeout)
  }

  function Run(conns: seq<PooledConnection>, limits: Limits, events: seq<Event>): seq<PooledConnection>
    decreases events
  {
    if events == [] then conns else Run(Step(conns, limits, events[0]), limits, events[1..])
  }

  /** The clock when a step starts and when it ends. */
  function Begin(e: Event): nat {
    match e
    case Get(_, now, _, _, _) => now
    case Return(_, created, _) => created
    case Cleanup(now) => now
  }

  function End(e: Event): nat {
    match e
    case Get(_, _, _, _, used) => used
    case Return(_, _, used) => used
    case Cleanup(now) => now
  }

  /** A monotone clock: a step reads its instants in order, and starts after the one before ended. */
  ghost predicate Monotone(events: seq<Event>, from: nat) {
    events == [] ||
    (var e := events[0];
     && from <= Begin(e)
     && (e.Get? ==> e.now <= e.created <= e.used)
     && (e.Return? ==> e.created <= e.used)
     && Monotone(events[1..], End(e)))
  }

  function Clock(events: seq<Event>, from: nat): nat {
    if events == [] then from else Clock(events[1..], End(events[0]))
  }

  /// The invariant

  ghost predicate Sorted(conns: seq<PooledConnection>) {
    forall i, j | 0 <= i < j < |conns| :: conns[i].lastUsed <= conns[j].lastUsed
  }

  ghost predicate Inv(conns: seq<PooledConnection>, max: nat, now: nat) {
    && |conns| <= max
    && Sorted(conns)
    && forall c | c in conns :: c.createdAt <= c.lastUsed <= now
  }

  /** In a sorted list the expired entries are a prefix, and that prefix is what `retain` drops. */
  lemma {:induction false} ExpiredArePrefix(conns: seq<PooledConnection>, now: nat, idleTimeout: nat)
    returns (k: nat)
    requires Sorted(conns)
    ensures k <= |conns| && Unexpired(conns, now, idleTimeout) == conns[k..]
    ensures forall i | 0 <= i < |conns| :: Expired(conns[i], now, idleTimeout) <==> i < k
  {
    if conns == [] {
      k := 0;
    } else {
      var tail := conns[1..];
      assert Sorted(tail);
      var m := ExpiredArePrefix(tail, now, idleTimeout);
      if Expired(conns[0], now, idleTimeout) {
        k := m + 1;
        assert forall i | 1 <= i < |conns| :: conns[i] == tail[i - 1];
      } else {
        k := 0;
        forall i | 0 <= i < |conns| ensures !Expired(conns[i], now, idleTimeout) {
          assert conns[0].lastUsed <= conns[i].lastUsed;
        }
        assert |tail| > 0 ==> tail[0] == conns[1];
        assert m == 0;
        assert [conns[0]] + tail == conns;
      }
    }
  }

  lemma RemoveKeepsInv(conns: seq<PooledConnection>, p: nat, max: nat, now: nat)
    requires Inv(conns, max, now) && p < |conns|
    ensures Inv(conns[..p] + conns[p + 1..], max, now)
  {
  }

  lemma AppendKeepsInv(conns: seq<PooledConnection>, c: PooledConnection, max: nat, now: nat)
    requires Inv(conns, max, now) && |conns| < max
    requires now <= c.createdAt <= c.lastUsed
    ensures Inv(conns + [c], max, c.lastUsed)
  {
  }

  lemma RetainKeepsInv(conns: seq<PooledConnection>, max: nat, now: nat, idleTimeout: nat)
    requires Inv(conns, max, now)
    ensures Inv(Unexpired(conns, now, idleTimeout), max, now)
  {
    var k := ExpiredArePrefix(conns, now, idleTimeout);
  }

  lemma InvLater(conns: seq<PooledConnection>, max: nat, now: nat, later: nat)
    requires Inv(conns, max, now) && now <= later
    ensures Inv(conns, max, later)
  {
  }

  lemma StepKeepsInv(conns: seq<PooledConnection>, limits: Limits, e: Event, clock: nat)
    requires Inv(conns, limits.max, clock) && Monotone([e], clock)
    ensures Inv(Step(conns, limits, e), limits.max, End(e))
  {
    InvLater(conns, limits.max, clock, Begin(e));
    match e
    case Return(addr, created, used) =>
      if |conns| < limits.max {
        AppendKeepsInv(conns, PooledConnection(addr, created, used), limits.max, created);
      } else {
        InvLater(conns, limits.max, created, used);
      }
    case Cleanup(now) =>
      RetainKeepsInv(conns, limits.max, now, limits.idleTimeout);
    case Get(addr, now, connect, created, used) =>
      RetainKeepsInv(conns, limits.max, now, limits.idleTimeout);
      var live := Unexpired(conns, now, limits.idleTimeout);
      InvLater(live, limits.max, now, created);
      var p := Position(live, addr);
      if p < |live| {
        RemoveKeepsInv(live, p, limits.max, created);
        InvLater(live[..p] + live[p + 1..], limits.max, created, used);
      } else if |live| < limits.max && connect == Connected {
        AppendKeepsInv(live, PooledConnection(addr, created, used), limits.max, created);
      } else {
        InvLater(live, limits.max, created, used);
      }
  }

  /** Every run from the empty pool under a monotone clock, with connects that fail or are dropped. */
  lemma {:induction false} RunKeepsInv(conns: seq<PooledConnection>, limits: Limits, events: seq<Event>, clock: nat)
    requires Inv(conns, limits.max, clock) && Monotone(events, clock)
    ensures Inv(Run(conns, limits, events), limits.max, Clock(events, clock))
    decreases events
  {
    if events != [] {
      assert Monotone([events[0]], clock);
      StepKeepsInv(conns, limits, events[0], clock);
      RunKeepsInv(Step(conns, limits, events[0]), limits, events[1..], End(events[0]));
    }
  }

  lemma PoolInvariant(limits: Limits, events: seq<Event>)
    requires Monotone(events, 0)
    ensures Inv(Run([], limits, events), limits.max, Clock(events, 0))
  {
    RunKeepsInv([], limits, events, 0);
  }

  lemma {:induction false} UnexpiredMembers(conns: seq<PooledConnection>, now: nat, idleTimeout: nat)
    ensures forall c :: c in Unexpired(conns, now, idleTimeout) <==> c in conns && !Expired(c, now, idleTimeout)
  {
    if conns != [] {
      UnexpiredMembers(conns[1..], now, idleTimeout);
      assert conns == [conns[0]] + conns[1..];
    }
  }

  predicate Reuses(conns: seq<PooledConnection>, limits: Limits, e: Event)
    requires e.Get?
  {
    Borrow(conns, limits.max, limits.idleTimeout, e.addr, e.now, e.connect, e.created, e.used).0 == Reused
  }

  /** Reuse happens exactly when some live entry has the address, whatever the capacity. */
  lemma ReusedExactlyWhenLive(conns: seq<PooledConnection>, limits: Limits, e: Event)
    requires e.Get?
    ensures Reuses(conns, limits, e)
       <==> exists c :: c in conns && c.addr == e.addr && 0 < limits.idleTimeout
                        && e.now < c.lastUsed + limits.idleTimeout
  {
    UnexpiredMembers(conns, e.now, limits.idleTimeout);
    var live := Unexpired(conns, e.now, limits.idleTimeout);
    var p := Position(live, e.addr);
    assert p < |live| ==> live[p] in live;
  }

  /** The first entry of an address in a sorted suffix is the least recently used there. */
  lemma FirstIsOldest(conns: seq<PooledConnection>, from: nat, addr: Addr) returns (taken: nat)
    requires Sorted(conns) && from <= |conns| && Position(conns[from..], addr) < |conns[from..]|
    ensures taken == from + Position(conns[from..], addr) < |conns| && conns[taken].addr == addr
    ensures forall i | from <= i < |conns| && conns[i].addr == addr ::
              taken <= i && conns[taken].lastUsed <= conns[i].lastUsed
  {
    var live := conns[from..];
    taken := from + Position(live, addr);
    forall i | from <= i < |conns| && conns[i].addr == addr ensures taken <= i {
      assert conns[i] == live[i - from];
    }
  }

  lemma SuffixWithout(conns: seq<PooledConnection>, from: nat, k: nat)
    requires from <= k < |conns|
    ensures conns[from..][..k - from] + conns[from..][k - from + 1..] == conns[from..k] + conns[k + 1..]
  {
  }

  lemma ReuseFinds(conns: seq<PooledConnection>, limits: Limits, e: Event, live: seq<PooledConnection>)
    requires e.Get? && live == Unexpired(conns, e.now, limits.idleTimeout)
    ensures Reuses(conns, limits, e) <==> Position(live, e.addr) < |live|
  {
  }

  lemma ReuseStep(conns: seq<PooledConnection>, limits: Limits, e: Event, live: seq<PooledConnection>, p: nat)
    requires e.Get? && live == Unexpired(conns, e.now, limits.idleTimeout)
    requires p == Position(live, e.addr) && p < |live|
    ensures Step(conns, limits, e) == live[..p] + live[p + 1..]
  {
  }

  lemma ReuseRemoves(conns: seq<PooledConnection>, limits: Limits, e: Event, dropped: nat, taken: nat)
    requires e.Get? && dropped <= taken < |conns|
    requires Unexpired(conns, e.now, limits.idleTimeout) == conns[dropped..]
    requires taken == dropped + Position(conns[dropped..], e.addr)
    ensures Step(conns, limits, e) == conns[dropped..taken] + conns[taken + 1..]
  {
    ReuseStep(conns, limits, e, conns[dropped..], taken - dropped);
    SuffixWithout(conns, dropped, taken);
  }

  /**
   Reuse removes the least recently used live entry of the address, and no other live entry.
   `PoolInvariant` gives `Sorted` for every reachable pool.
   */
  lemma ReuseTakesOldest(conns: seq<PooledConnection>, limits: Limits, e: Event)
    returns (dropped: nat, taken: nat)
    requires Sorted(conns) && e.Get? && Reuses(conns, limits, e)
    ensures dropped <= taken < |conns| && conns[taken].addr == e.addr
    ensures forall i | 0 <= i < |conns| :: Expired(conns[i], e.now, limits.idleTimeout) <==> i < dropped
    ensures forall i | dropped <= i < |conns| && conns[i].addr == e.addr ::
              taken <= i && conns[taken].lastUsed <= conns[i].lastUsed
    ensures Step(conns, limits, e) == conns[dropped..taken] + conns[taken + 1..]
  {
    dropped := ExpiredArePrefix(conns, e.now, limits.idleTimeout);
    ReuseFinds(conns, limits, e, conns[dropped..]);
    taken := FirstIsOldest(conns, dropped, e.addr);
    ReuseRemoves(conns, limits, e, dropped, taken);
  }

  /** The live entries are a selection in order: one more entry is added at the end, or left out. */
  lemma LiveAppend(conns: seq<PooledConnection>, c: PooledConnection, now: nat, idleTimeout: nat)
    ensures Unexpired([], now, idleTimeout) == []
    ensures Unexpired(conns + [c], now, idleTimeout)
         == Unexpired(conns, now, idleTimeout)
            + if idleTimeout == 0 || c.lastUsed + idleTimeout <= now then [] else [c]
  {
    UnexpiredAppend(conns, c, now, idleTimeout);
    assert [c][1..] == [];
  }

  lemma PositionFinds(conns: seq<PooledConnection>, addr: Addr)
    ensures Position(conns, addr) < |conns| <==> exists c :: c in conns && c.addr == addr
  {
    var p := Position(conns, addr);
    if p < |conns| { assert conns[p] in conns; }
  }

  /** Without a live entry of the address, a connect that succeeds is recorded if there is a place. */
  lemma NewWhenRoom(conns: seq<PooledConnection>, limits: Limits, e: Event, live: seq<PooledConnection>)
    requires e.Get? && live == Unexpired(conns, e.now, limits.idleTimeout)
    requires forall c | c in live :: c.addr != e.addr
    ensures Step(conns, limits, e)
         == live
            + if |live| < limits.max && e.connect == Connected then [PooledConnection(e.addr, e.created, e.used)]
              else []
  {
    PositionFinds(live, e.addr);
    assert live + [] == live;
  }

  /// Each address has a queue of its own

  function For(conns: seq<PooledConnection>, addr: Addr): seq<PooledConnection> {
    if conns == [] then []
    else if conns[0].addr == addr then [conns[0]] + For(conns[1..], addr)
    else For(conns[1..], addr)
  }

  lemma {:induction false} ForConcat(a: seq<PooledConnection>, b: seq<PooledConnection>, addr: Addr)
    ensures For(a + b, addr) == For(a, addr) + For(b, addr)
  {
    if a == [] {
      assert a + b == b;
    } else {
      ForConcat(a[1..], b, addr);
      assert (a + b)[1..] == a[1..] + b;
    }
  }

  lemma {:induction false} ForNone(conns: seq<PooledConnection>, addr: Addr)
    ensures For(conns, addr) == [] <==> forall i | 0 <= i < |conns| :: conns[i].addr != addr
  {
    if conns != [] {
      ForNone(conns[1..], addr);
      assert forall i | 1 <= i < |conns| :: conns[i] == conns[1..][i - 1];
    }
  }

  lemma ForWithout(live: seq<PooledConnection>, p: nat, addr: Addr)
    requires p < |live|
    ensures For(live, addr) == For(live[..p], addr) + For([live[p]], addr) + For(live[p + 1..], addr)
    ensures For(live[..p] + live[p + 1..], addr) == For(live[..p], addr) + For(live[p + 1..], addr)
  {
    assert live == live[..p] + [live[p]] + live[p + 1..];
    ForConcat(live[..p] + [live[p]], live[p + 1..], addr);
    ForConcat(live[..p], [live[p]], addr);
    ForConcat(live[..p], live[p + 1..], addr);
  }

  /** The queue of an address after a borrow, in terms of its unexpired queue before it. */
  function QueueAfter(queue: seq<PooledConnection>, full: bool, e: Event): seq<PooledConnection>
    requires e.Get?
  {
    if queue != [] then queue[1..]
    else if !full && e.connect == Connected then [PooledConnection(e.addr, e.created, e.used)]
    else []
  }

  /**
   A borrow takes the head of its address's unexpired queue, or else appends to it a new entry when
   there is room and the connect succeeds. The queue of every other address only loses what expired.
   */
  lemma BorrowMovesOneQueue(conns: seq<PooledConnection>, limits: Limits, e: Event, addr: Addr)
    requires e.Get?
    ensures var live := Unexpired(conns, e.now, limits.idleTimeout);
            var queue := For(live, addr);
            For(Step(conns, limits, e), addr)
            == if addr == e.addr then QueueAfter(queue, |live| >= limits.max, e) else queue
  {
    var live := Unexpired(conns, e.now, limits.idleTimeout);
    var p := Position(live, e.addr);
    ForNone(live, e.addr);
    if p < |live| {
      ForWithout(live, p, addr);
      ForNone(live[..p], e.addr);
    } else {
      ForConcat(live, [PooledConnection(e.addr, e.created, e.used)], addr);
    }
  }

  /// Explicit cleanup is invisible

  /** What the borrowers see: the branch each `Get` takes and the pool it leaves. */
  function Borrows(conns: seq<PooledConnection>, limits: Limits, events: seq<Event>)
    : seq<(Branch, seq<PooledConnection>)>
    decreases events
  {
    if events == [] then []
    else
      var e := events[0];
      var rest := Borrows(Step(conns, limits, e), limits, events[1..]);
      if e.Get? then
        [Borrow(conns, limits.max, limits.idleTimeout, e.addr, e.now, e.connect, e.created, e.used)] + rest
      else rest
  }

  function WithoutCleanups(events: seq<Event>): seq<Event> {
    if events == [] then []
    else if events[0].Cleanup? then WithoutCleanups(events[1..])
    else [events[0]] + WithoutCleanups(events[1..])
  }

  /** A return that meets a full list, although the list holds an entry that has expired by then. */
  predicate RefusedForExpired(conns: seq<PooledConnection>, limits: Limits, e: Event) {
    && e.Return? && |conns| >= limits.max
    && exists i | 0 <= i < |conns| :: Expired(conns[i], e.created, limits.idleTimeout)
  }

  /** No return of the run is refused for the sake of an expired entry. */
  ghost predicate Harmless(conns: seq<PooledConnection>, limits: Limits, events: seq<Event>)
    decreases events
  {
    events == [] ||
    (&& !RefusedForExpired(conns, limits, events[0])
     && Harmless(Step(conns, limits, events[0]), limits, events[1..]))
  }

  lemma {:induction false} UnexpiredShorter(conns: seq<PooledConnection>, now: nat, idleTimeout: nat)
    ensures (exists i | 0 <= i < |conns| :: Expired(conns[i], now, idleTimeout))
       <==> |Unexpired(conns, now, idleTimeout)| < |conns|
    ensures |Unexpired(conns, now, idleTimeout)| == |conns| ==> Unexpired(conns, now, idleTimeout) == conns
  {
    if conns != [] {
      UnexpiredShorter(conns[1..], now, idleTimeout);
      assert forall i | 1 <= i < |conns| :: conns[i] == conns[1..][i - 1];
      assert forall i | 0 <= i < |conns| - 1 :: conns[1..][i] == conns[i + 1];
    }
  }

  lemma {:induction false} UnexpiredLater(conns: seq<PooledConnection>, now: nat, later: nat, idleTimeout: nat)
    requires now <= later
    ensures Unexpired(Unexpired(conns, now, idleTimeout), later, idleTimeout) == Unexpired(conns, later, idleTimeout)
  {
    if conns != [] {
      UnexpiredLater(conns[1..], now, later, idleTimeout);
      if !Expired(conns[0], now, idleTimeout) {
        assert ([conns[0]] + Unexpired(conns[1..], now, idleTimeout))[1..] == Unexpired(conns[1..], now, idleTimeout);
      }
    }
  }

  lemma {:induction false} UnexpiredAppend(conns: seq<PooledConnection>, c: PooledConnection, now: nat,
                                           idleTimeout: nat)
    ensures Unexpired(conns + [c], now, idleTimeout)
         == Unexpired(conns, now, idleTimeout) + Unexpired([c], now, idleTimeout)
  {
    if conns == [] {
      assert conns + [c] == [c];
    } else {
      UnexpiredAppend(conns[1..], c, now, idleTimeout);
      assert (conns + [c])[1..] == conns[1..] + [c];
    }
  }

  /** The simulation: the cleaned list is no longer, and both agree once filtered from `clock` on. */
  ghost predicate Simulates(cleaned: seq<PooledConnection>, plain: seq<PooledConnection>, clock: nat,
                            idleTimeout: nat) {
    |cleaned| <= |plain| && Unexpired(cleaned, clock, idleTimeout) == Unexpired(plain, clock, idleTimeout)
  }

  lemma SimulatesLater(cleaned: seq<PooledConnection>, plain: seq<PooledConnection>, clock: nat, later: nat,
                       idleTimeout: nat)
    requires Simulates(cleaned, plain, clock, idleTimeout) && clock <= later
    ensures Simulates(cleaned, plain, later, idleTimeout)
  {
    UnexpiredLater(cleaned, clock, later, idleTimeout);
    UnexpiredLater(plain, clock, later, idleTimeout);
  }

  /** Any other step keeps the simulation, unless it is a return refused for an expired entry. */
  lemma StepSimulates(cleaned: seq<PooledConnection>, plain: seq<PooledConnection>, limits: Limits, e: Event)
    requires Simulates(cleaned, plain, Begin(e), limits.idleTimeout)
    requires Monotone([e], Begin(e)) && !e.Cleanup? && !RefusedForExpired(plain, limits, e)
    ensures Simulates(Step(cleaned, limits, e), Step(plain, limits, e), End(e), limits.idleTimeout)
    ensures e.Get? ==> Step(cleaned, limits, e) == Step(plain, limits, e)
  {
    if e.Return? {
      UnexpiredShorter(plain, e.created, limits.idleTimeout);
      SimulatesLater(cleaned, plain, Begin(e), End(e), limits.idleTimeout);
      UnexpiredAppend(cleaned, PooledConnection(e.addr, e.created, e.used), End(e), limits.idleTimeout);
      UnexpiredAppend(plain, PooledConnection(e.addr, e.created, e.used), End(e), limits.idleTimeout);
    }
  }

  lemma {:induction false} CleanupSimulation(cleaned: seq<PooledConnection>, plain: seq<PooledConnection>,
                                             limits: Limits, events: seq<Event>, clock: nat)
    requires Simulates(cleaned, plain, clock, limits.idleTimeout) && Monotone(events, clock)
    requires Harmless(plain, limits, WithoutCleanups(events))
    ensures Borrows(cleaned, limits, events) == Borrows(plain, limits, WithoutCleanups(events))
    decreases events
  {
    if events != [] {
      var e, rest := events[0], events[1..];
      SimulatesLater(cleaned, plain, clock, Begin(e), limits.idleTimeout);
      if e.Cleanup? {
        UnexpiredLater(cleaned, e.now, e.now, limits.idleTimeout);
        CleanupSimulation(Step(cleaned, limits, e), plain, limits, rest, End(e));
      } else {
        assert WithoutCleanups(events)[1..] == WithoutCleanups(rest);
        StepSimulates(cleaned, plain, limits, e);
        CleanupSimulation(Step(cleaned, limits, e), Step(plain, limits, e), limits, rest, End(e));
      }
    }
  }

  /**
   Two runs that differ only in their cleanups, where no return of the run with none of them is
   refused for an expired entry: every borrower takes the same branch and leaves the same pool.
   */
  lemma CleanupIsInvisible(limits: Limits, one: seq<Event>, other: seq<Event>)
    requires Monotone(one, 0) && Monotone(other, 0)
    requires WithoutCleanups(one) == WithoutCleanups(other)
    requires Harmless([], limits, WithoutCleanups(one))
    ensures Borrows([], limits, one) == Borrows([], limits, other)
  {
    CleanupSimulation([], [], limits, one, 0);
    CleanupSimulation([], [], limits, other, 0);
  }

  /// Exactly when it is

  predicate OnlyGets(events: seq<Event>) {
    forall i | 0 <= i < |events| :: events[i].Get?
  }

  predicate NoCleanups(events: seq<Event>) {
    forall i | 0 <= i < |events| :: !events[i].Cleanup?
  }

  /** Up to any point of the run cleanups may be put in anywhere: who borrows next sees no difference. */
  ghost predicate CleanupInvisible(limits: Limits, run: seq<Event>) {
    forall cleaned, tail |
      && WithoutCleanups(cleaned) <= run && OnlyGets(tail) && Monotone(cleaned + tail, 0) ::
      Borrows([], limits, cleaned + tail) == Borrows([], limits, WithoutCleanups(cleaned) + tail)
  }

  lemma WithoutCleanupsCons(e: Event, events: seq<Event>)
    ensures WithoutCleanups([e] + events)
         == if e.Cleanup? then WithoutCleanups(events) else [e] + WithoutCleanups(events)
  {
    assert ([e] + events)[1..] == events;
  }

  /** Borrowers that see different things later see different things now. */
  lemma BorrowsCons(conns: seq<PooledConnection>, limits: Limits, e: Event, a: seq<Event>, b: seq<Event>)
    requires Borrows(Step(conns, limits, e), limits, a) != Borrows(Step(conns, limits, e), limits, b)
    ensures Borrows(conns, limits, [e] + a) != Borrows(conns, limits, [e] + b)
  {
    var x, y := Borrows(Step(conns, limits, e), limits, a), Borrows(Step(conns, limits, e), limits, b);
    assert ([e] + a)[1..] == a && ([e] + b)[1..] == b;
    if e.Get? {
      assert Borrows(conns, limits, [e] + a)[1..] == x && Borrows(conns, limits, [e] + b)[1..] == y;
    }
  }

  lemma ConsConcat<T>(e: T, a: seq<T>, b: seq<T>)
    ensures ([e] + a) + b == [e] + (a + b)
  {
  }

  lemma {:induction false} WithoutCleanupsConcat(a: seq<Event>, b: seq<Event>)
    ensures WithoutCleanups(a + b) == WithoutCleanups(a) + WithoutCleanups(b)
  {
    if a == [] {
      assert a + b == b;
    } else {
      var e, rest := a[0], a[1..];
      WithoutCleanupsConcat(rest, b);
      assert a == [e] + rest;
      ConsConcat(e, rest, b);
      WithoutCleanupsCons(e, rest + b);
      ConsConcat(e, WithoutCleanups(rest), WithoutCleanups(b));
    }
  }

  lemma {:induction false} GetsStay(tail: seq<Event>)
    requires OnlyGets(tail)
    ensures WithoutCleanups(tail) == tail
  {
    if tail != [] {
      GetsStay(tail[1..]);
    }
  }

  lemma {:induction false} GetsAreHarmless(conns: seq<PooledConnection>, limits: Limits, tail: seq<Event>)
    requires OnlyGets(tail)
    ensures Harmless(conns, limits, tail)
    decreases tail
  {
    if tail != [] {
      GetsAreHarmless(Step(conns, limits, tail[0]), limits, tail[1..]);
    }
  }

  lemma HarmlessCons(conns: seq<PooledConnection>, limits: Limits, e: Event, rest: seq<Event>)
    ensures Harmless(conns, limits, [e] + rest)
       <==> !RefusedForExpired(conns, limits, e) && Harmless(Step(conns, limits, e), limits, rest)
  {
    assert ([e] + rest)[1..] == rest;
  }

  lemma HarmlessUncons(conns: seq<PooledConnection>, limits: Limits, a: seq<Event>, b: seq<Event>)
    requires a != []
    ensures Harmless(conns, limits, a + b)
       <==> !RefusedForExpired(conns, limits, a[0]) && Harmless(Step(conns, limits, a[0]), limits, a[1..] + b)
  {
    assert a == [a[0]] + a[1..];
    ConsConcat(a[0], a[1..], b);
    HarmlessCons(conns, limits, a[0], a[1..] + b);
  }

  lemma {:induction false} HarmlessFront(conns: seq<PooledConnection>, limits: Limits, front: seq<Event>,
                                         back: seq<Event>, tail: seq<Event>)
    requires Harmless(conns, limits, front + back) && OnlyGets(tail)
    ensures Harmless(conns, limits, front + tail)
    decreases front
  {
    if front == [] {
      assert front + tail == tail;
      GetsAreHarmless(conns, limits, tail);
    } else {
      HarmlessUncons(conns, limits, front, back);
      HarmlessFront(Step(conns, limits, front[0]), limits, front[1..], back, tail);
      HarmlessUncons(conns, limits, front, tail);
    }
  }

  lemma {:induction false} NothingLivesWithoutTimeout(conns: seq<PooledConnection>, now: nat)
    ensures Unexpired(conns, now, 0) == []
  {
    if conns != [] {
      NothingLivesWithoutTimeout(conns[1..], now);
    }
  }

  /** With a zero timeout every borrower finds an empty list, whatever was kept. */
  lemma {:induction false} ZeroTimeoutIsBlind(a: seq<PooledConnection>, b: seq<PooledConnection>, limits: Limits,
                                              events: seq<Event>)
    requires limits.idleTimeout == 0
    ensures Borrows(a, limits, events) == Borrows(b, limits, WithoutCleanups(events))
    decreases events
  {
    if events != [] {
      var e, rest := events[0], events[1..];
      if e.Cleanup? {
        ZeroTimeoutIsBlind(Step(a, limits, e), b, limits, rest);
      } else {
        if e.Get? {
          NothingLivesWithoutTimeout(a, e.now);
          NothingLivesWithoutTimeout(b, e.now);
        }
        ZeroTimeoutIsBlind(Step(a, limits, e), Step(b, limits, e), limits, rest);
        assert WithoutCleanups(events)[1..] == WithoutCleanups(rest);
      }
    }
  }

  /** The borrow right after such a return that tells whether a cleanup came right before it. */
  function Probe(e: Event): Event
    requires e.Return?
  {
    Get(e.addr, e.used, Failed, e.used, e.used)
  }

  /** After the return the cleaned list has the new entry behind the live ones; the plain list has not. */
  lemma ProbeTellsApart(conns: seq<PooledConnection>, limits: Limits, e: Event)
    requires 0 < limits.idleTimeout && |conns| <= limits.max && RefusedForExpired(conns, limits, e)
    requires e.created <= e.used
    ensures var cleaned := Step(Unexpired(conns, e.created, limits.idleTimeout), limits, e);
            Borrows(cleaned, limits, [Probe(e)]) != Borrows(conns, limits, [Probe(e)])
  {
    var idle, probe := limits.idleTimeout, Probe(e);
    var live := Unexpired(conns, e.created, idle);
    UnexpiredShorter(conns, e.created, idle);
    var fresh' := PooledConnection(e.addr, e.created, e.used);
    var cleaned := live + [fresh'];
    assert Step(live, limits, e) == cleaned;
    UnexpiredLater(conns, e.created, e.used, idle);
    UnexpiredAppend(live, fresh', e.used, idle);
    var before, after := Unexpired(conns, e.used, idle), Unexpired(cleaned, e.used, idle);
    assert Unexpired([fresh'], e.used, idle) == [fresh'];
    assert after == before + [fresh'];
    assert after[|before|].addr == e.addr;
    var plainPool := Step(conns, limits, probe);
    var cleanedPool := Step(cleaned, limits, probe);
    assert Borrows(cleaned, limits, [probe])[0].1 == cleanedPool;
    assert Borrows(conns, limits, [probe])[0].1 == plainPool;
    if Position(before, e.addr) < |before| {
      assert |plainPool| == |before| - 1 && |cleanedPool| == |before|;
    } else {
      assert Borrows(cleaned, limits, [probe])[0].0 == Reused;
      assert Borrows(conns, limits, [probe])[0].0 != Reused;
    }
  }

  /** `cleaned`, before `tail`, is an insertion of cleanups into a part of the run that the borrows of `tail` notice. */
  ghost predicate Shows(conns: seq<PooledConnection>, limits: Limits, run: seq<Event>, clock: nat,
                        cleaned: seq<Event>, tail: seq<Event>) {
    && WithoutCleanups(cleaned) <= run && OnlyGets(tail) && Monotone(cleaned + tail, clock)
    && Borrows(conns, limits, cleaned + tail) != Borrows(conns, limits, WithoutCleanups(cleaned) + tail)
  }

  lemma ShowsNow(conns: seq<PooledConnection>, limits: Limits, run: seq<Event>, clock: nat)
    requires 0 < limits.idleTimeout && |conns| <= limits.max && run != [] && Monotone(run, clock)
    requires RefusedForExpired(conns, limits, run[0])
    ensures Shows(conns, limits, run, clock, [Cleanup(run[0].created), run[0]], [Probe(run[0])])
  {
    var e := run[0];
    var clean, probe := Cleanup(e.created), Probe(e);
    var whole := [clean, e, probe];
    ProbeTellsApart(conns, limits, e);
    assert [clean, e][1..] == [e] && WithoutCleanups([e]) == [e];
    assert WithoutCleanups([clean, e]) == [e];
    assert [clean, e] + [probe] == whole && whole[1..] == [e, probe] && [e, probe][1..] == [probe];
    assert [e] + [probe] == [e, probe];
    assert Monotone([probe], e.used) && Monotone([e, probe], e.created);
    assert Borrows(conns, limits, [e, probe]) == Borrows(conns, limits, [probe]);
    assert Borrows(conns, limits, whole) == Borrows(Step(conns, limits, clean), limits, [e, probe]);
  }

  lemma MonotoneCons(e: Event, events: seq<Event>, clock: nat)
    requires Monotone([e], clock) && Monotone(events, End(e))
    ensures Monotone([e] + events, clock)
  {
    assert ([e] + events)[1..] == events;
  }

  lemma ShowsEarlier(conns: seq<PooledConnection>, limits: Limits, e: Event, rest: seq<Event>, clock: nat,
                     cleaned: seq<Event>, tail: seq<Event>)
    requires Monotone([e], clock) && !e.Cleanup?
    requires Shows(Step(conns, limits, e), limits, rest, End(e), cleaned, tail)
    ensures Shows(conns, limits, [e] + rest, clock, [e] + cleaned, tail)
  {
    var without := WithoutCleanups(cleaned);
    WithoutCleanupsCons(e, cleaned);
    ConsConcat(e, cleaned, tail);
    ConsConcat(e, without, tail);
    MonotoneCons(e, cleaned + tail, clock);
    BorrowsCons(conns, limits, e, cleaned + tail, without + tail);
    ConsPrefix(e, without, rest);
  }

  lemma ConsPrefix<T>(e: T, a: seq<T>, b: seq<T>)
    requires a <= b
    ensures [e] + a <= [e] + b
  {
  }

  /** A run with such a return, cut after the first of them, with one cleanup put in. */
  lemma {:induction false} RefusalShowsCleanup(conns: seq<PooledConnection>, limits: Limits, run: seq<Event>,
                                               clock: nat)
    returns (cleaned: seq<Event>, tail: seq<Event>)
    requires 0 < limits.idleTimeout && |conns| <= limits.max
    requires NoCleanups(run) && Monotone(run, clock) && !Harmless(conns, limits, run)
    ensures Shows(conns, limits, run, clock, cleaned, tail)
    decreases run
  {
    var e := run[0];
    if RefusedForExpired(conns, limits, e) {
      ShowsNow(conns, limits, run, clock);
      cleaned, tail := [Cleanup(e.created), e], [Probe(e)];
    } else {
      StepKeepsSize(conns, limits, e);
      cleaned, tail := RefusalShowsCleanup(Step(conns, limits, e), limits, run[1..], End(e));
      ShowsEarlier(conns, limits, e, run[1..], clock, cleaned, tail);
      assert [e] + run[1..] == run;
      cleaned := [e] + cleaned;
    }
  }

  lemma StepKeepsSize(conns: seq<PooledConnection>, limits: Limits, e: Event)
    requires |conns| <= limits.max
    ensures |Step(conns, limits, e)| <= limits.max
  {
  }

  /**
   Cleanups put into a run are invisible exactly when no return of the run is refused while the
   full list holds an expired entry; a zero timeout hides everything.
   */
  lemma InvisibleExactlyWhenHarmless(limits: Limits, run: seq<Event>)
    requires NoCleanups(run) && Monotone(run, 0)
    ensures CleanupInvisible(limits, run) <==> limits.idleTimeout == 0 || Harmless([], limits, run)
  {
    if limits.idleTimeout == 0 {
      forall cleaned, tail | WithoutCleanups(cleaned) <= run && OnlyGets(tail) && Monotone(cleaned + tail, 0)
        ensures Borrows([], limits, cleaned + tail) == Borrows([], limits, WithoutCleanups(cleaned) + tail)
      {
        WithoutCleanupsConcat(cleaned, tail);
        GetsStay(tail);
        ZeroTimeoutIsBlind([], [], limits, cleaned + tail);
      }
    } else if Harmless([], limits, run) {
      forall cleaned, tail | WithoutCleanups(cleaned) <= run && OnlyGets(tail) && Monotone(cleaned + tail, 0)
        ensures Borrows([], limits, cleaned + tail) == Borrows([], limits, WithoutCleanups(cleaned) + tail)
      {
        WithoutCleanupsConcat(cleaned, tail);
        GetsStay(tail);
        var front := WithoutCleanups(cleaned);
        assert front + run[|front|..] == run;
        HarmlessFront([], limits, front, run[|front|..], tail);
        CleanupSimulation([], [], limits, cleaned + tail, 0);
      }
    } else {
      var cleaned, tail := RefusalShowsCleanup([], limits, run, 0);
    }
  }
}

/** Endpoint selection with the shared round-robin counter (src/proxy.rs, `select_endpoint`). */
module LoadBalancer {
  import opened Config
  import opened Wrappers

  /** Number of values of a 64-bit `usize`; `fetch_add` wraps modulo it. */
  const USIZE: nat := 0x1_0000_0000_0000_0000

  predicate Ticketed(strategy: LoadBalanceStrategy) {
    strategy == RoundRobin || strategy == LeastConnections
  }

  /** One call; `timeHash` and `ipHash` are what the library's hasher gives, `hasIp` whether a client is known. */
  datatype Call = Call(endpoints: seq<string>, strategy: LoadBalanceStrategy, hasIp: bool, timeHash: nat, ipHash: nat)

  /** The call takes a ticket from the shared counter. */
  predicate Draws(c: Call) {
    c.endpoints != [] && Ticketed(c.strategy)
  }

  /** The position a call chooses at a counter value, and the counter after it. */
  function Choose(c: Call, counter: nat): (r: (Option<nat>, nat))
    ensures r.0.Some? ==> r.0.value < |c.endpoints|
  {
    if c.endpoints == [] then (None, counter)
    else
      match c.strategy
      case Random => (Some(c.timeHash % |c.endpoints|), counter)
      case IpHash => (Some(if c.hasIp then c.ipHash % |c.endpoints| else 0), counter)
      case _ => (Some(counter % |c.endpoints|), (counter + 1) % USIZE)
  }

  class ProxyClient {
    var lbCounter: nat

    ghost predicate Valid()
      reads this
    {
      lbCounter < USIZE
    }

    constructor ()
      ensures Valid() && lbCounter == 0
    {
      lbCounter := 0;
    }

    /** The atomic `fetch_add(1)`. */
    method Ticket() returns (ticket: nat)
      requires Valid()
      modifies this
      ensures Valid() && ticket == old(lbCounter) && lbCounter == (ticket + 1) % USIZE
    {
      ticket := lbCounter;
      lbCounter := (lbCounter + 1) % USIZE;
    }

    method SelectEndpoint(c: Call) returns (chosen: Option<string>)
      requires Valid()
      modifies this
      ensures Valid()
      ensures var (position, counter) := Choose(c, old(lbCounter));
              && lbCounter == counter
              && chosen == match position
                           case Some(p) => Some(c.endpoints[p])
                           case None => None
      ensures chosen == None <==> c.endpoints == []
      ensures chosen.Some? && (c.strategy == RoundRobin || c.strategy == LeastConnections) ==>
                chosen.value == c.endpoints[old(lbCounter) % |c.endpoints|]
                && lbCounter == if old(lbCounter) == 0xFFFF_FFFF_FFFF_FFFF then 0 else old(lbCounter) + 1
      ensures chosen.Some? && c.strategy == Random ==> chosen.value == c.endpoints[c.timeHash % |c.endpoints|]
      ensures chosen.Some? && c.strategy == IpHash ==>
                chosen.value == c.endpoints[if c.hasIp then c.ipHash % |c.endpoints| else 0]
      ensures chosen == None || c.strategy == Random || c.strategy == IpHash ==> lbCounter == old(lbCounter)
    {
      if c.endpoints == [] {
        return None;
      }
      match c.strategy
      case RoundRobin =>
        var ticket := Ticket();
        return Some(c.endpoints[ticket % |c.endpoints|]);
      case Random =>
        return Some(c.endpoints[c.timeHash % |c.endpoints|]);
      case IpHash =>
        if c.hasIp {
          return Some(c.endpoints[c.ipHash % |c.endpoints|]);
        } else {
          return Some(c.endpoints[0]);
        }
      case LeastConnections =>
        var ticket := Ticket();
        return Some(c.endpoints[ticket % |c.endpoints|]);
    }
  }

  /// Runs: calls of any clients with any lists, in the order their atomic steps happen

  /** How many calls draw a ticket for this list. */
  function DrawsOn(calls: seq<Call>, list: seq<string>): nat {
    if calls == [] then 0
    else (if Draws(calls[0]) && calls[0].endpoints == list then 1 else 0) + DrawsOn(calls[1..], list)
  }

  /** How many of those choose position `i`, from a counter value on. */
  function CountOn(calls: seq<Call>, counter: nat, list: seq<string>, i: nat): nat
    decreases calls
  {
    if calls == [] then 0
    else
      var (position, next) := Choose(calls[0], counter);
      (if Draws(calls[0]) && calls[0].endpoints == list && position == Some(i) then 1 else 0)
      + CountOn(calls[1..], next, list, i)
  }

  /** No other list draws tickets. */
  predicate OnlyList(calls: seq<Call>, list: seq<string>) {
    forall k | 0 <= k < |calls| :: Draws(calls[k]) ==> calls[k].endpoints == list
  }

  /** How many of the tickets `from .. from + k` fall on position `i`. */
  function Hits(from: nat, k: nat, n: nat, i: nat): nat
    requires n > 0
    decreases k
  {
    if k == 0 then 0 else (if from % n == i then 1 else 0) + Hits(from + 1, k - 1, n, i)
  }

  /** The same for `k` draws of a counter that wraps. */
  function WrappedHits(from: nat, k: nat, n: nat, i: nat): nat
    requires n > 0
    decreases k
  {
    if k == 0 then 0 else (if from % n == i then 1 else 0) + WrappedHits((from + 1) % USIZE, k - 1, n, i)
  }

  /** Whatever the interleaving, the counts of the only list that draws are those of consecutive tickets. */
  lemma {:induction false} CountsAreHits(calls: seq<Call>, counter: nat, list: seq<string>, i: nat)
    requires list != [] && OnlyList(calls, list)
    ensures CountOn(calls, counter, list, i) == WrappedHits(counter, DrawsOn(calls, list), |list|, i)
    decreases calls
  {
    if calls != [] {
      var (position, next) := Choose(calls[0], counter);
      CountsAreHits(calls[1..], next, list, i);
    }
  }

  lemma {:induction false} UnwrappedHits(from: nat, k: nat, n: nat, i: nat)
    requires n > 0 && from < USIZE && from + k <= USIZE
    ensures WrappedHits(from, k, n, i) == Hits(from, k, n, i)
    decreases k
  {
    if k > 1 {
      assert (from + 1) % USIZE == from + 1;
      UnwrappedHits(from + 1, k - 1, n, i);
    }
  }

  /** At a wrap the draws start again from ticket zero. */
  lemma {:induction false} HitsAcrossWrap(from: nat, k: nat, n: nat, i: nat)
    requires n > 0 && from < USIZE && from + k > USIZE
    ensures WrappedHits(from, k, n, i)
         == Hits(from, USIZE - from, n, i) + WrappedHits(0, k - (USIZE - from), n, i)
    decreases k
  {
    if from + 1 < USIZE {
      assert (from + 1) % USIZE == from + 1;
      HitsAcrossWrap(from + 1, k - 1, n, i);
    } else {
      assert Hits(from, 1, n, i) == (if from % n == i then 1 else 0) + Hits(from + 1, 0, n, i);
    }
  }

  /** The number of tickets below `x` that fall on position `i`, in closed form. */
  function Below(x: nat, n: nat, i: nat): nat
    requires n > 0
  {
    x / n + if i < x % n then 1 else 0
  }

  lemma Distribute(a: nat, b: nat, n: nat)
    ensures (a + b) * n == a * n + b * n
  {
  }

  lemma SameQuotient(a: nat, r: nat, b: nat, s: nat, n: nat)
    requires r < n && s < n && a * n + r == b * n + s
    ensures a == b && r == s
  {
    if a < b {
      Distribute(a, b - a, n);
    } else if b < a {
      Distribute(b, a - b, n);
    }
  }

  /** Division with remainder is the only way to write a number like this. */
  lemma DivMod(x: nat, q: nat, r: nat, n: nat)
    requires r < n && x == q * n + r
    ensures x / n == q && x % n == r
  {
    SameQuotient(x / n, x % n, q, r, n);
  }

  lemma BelowStep(x: nat, n: nat, i: nat)
    requires i < n
    ensures Below(x + 1, n, i) == Below(x, n, i) + if x % n == i then 1 else 0
  {
    var q, r := x / n, x % n;
    assert x == q * n + r;
    if r + 1 < n {
      DivMod(x + 1, q, r + 1, n);
    } else {
      Distribute(q, 1, n);
      DivMod(x + 1, q + 1, 0, n);
    }
  }

  lemma {:induction false} HitsAreBelow(from: nat, k: nat, n: nat, i: nat)
    requires i < n
    ensures Hits(from, k, n, i) == Below(from + k, n, i) - Below(from, n, i)
    decreases k
  {
    if k > 0 {
      BelowStep(from, n, i);
      HitsAreBelow(from + 1, k - 1, n, i);
    }
  }

  /** Within one of the exact share, on the side the remainder allows. */
  predicate FairShare(hits: nat, k: nat, n: nat)
    requires n > 0
  {
    hits == k / n || (k % n != 0 && hits == k / n + 1)
  }

  lemma AddParts(q: nat, r: nat, p: nat, s: nat, n: nat)
    ensures (q * n + r) + (p * n + s) == (q + p) * n + (r + s) == (q + p + 1) * n + (r + s - n)
  {
  }

  lemma AddQuotients(x: nat, q: nat, r: nat, k: nat, p: nat, s: nat, n: nat)
    requires r < n && s < n && x == q * n + r && k == p * n + s
    ensures r + s < n ==> (x + k) / n == q + p && (x + k) % n == r + s
    ensures r + s >= n ==> (x + k) / n == q + p + 1 && (x + k) % n == r + s - n
  {
    AddParts(q, r, p, s, n);
    if r + s < n {
      DivMod(x + k, q + p, r + s, n);
    } else {
      DivMod(x + k, q + p + 1, r + s - n, n);
    }
  }

  lemma BelowSum(x: nat, k: nat, n: nat, i: nat)
    requires i < n
    ensures Below(x + k, n, i)
         == k / n + if x % n + k % n < n then x / n + (if i < x % n + k % n then 1 else 0)
                    else x / n + 1 + (if i < x % n + k % n - n then 1 else 0)
  {
    AddQuotients(x, x / n, x % n, k, k / n, k % n, n);
  }

  lemma ConsecutiveTicketsFair(from: nat, k: nat, n: nat, i: nat)
    requires i < n
    ensures FairShare(Hits(from, k, n, i), k, n)
  {
    HitsAreBelow(from, k, n, i);
    BelowSum(from, k, n, i);
  }

  ghost predicate Fair(calls: seq<Call>, counter: nat, list: seq<string>)
    requires list != []
  {
    forall i: nat | i < |list| :: FairShare(CountOn(calls, counter, list, i), DrawsOn(calls, list), |list|)
  }

  /** Without a wrap, every interleaving gives each position its share, rounded down or up. */
  lemma RoundRobinFair(calls: seq<Call>, counter: nat, list: seq<string>)
    requires list != [] && OnlyList(calls, list) && counter < USIZE && counter + DrawsOn(calls, list) <= USIZE
    ensures Fair(calls, counter, list)
  {
    forall i: nat | i < |list|
      ensures FairShare(CountOn(calls, counter, list, i), DrawsOn(calls, list), |list|)
    {
      CountsAreHits(calls, counter, list, i);
      UnwrappedHits(counter, DrawsOn(calls, list), |list|, i);
      ConsecutiveTicketsFair(counter, DrawsOn(calls, list), |list|, i);
    }
  }

  /** The stretches of consecutive tickets that `k` draws consist of, cut at each wrap. */
  function Stretches(from: nat, k: nat): nat
    requires from < USIZE
    decreases k
  {
    if k == 0 then 0 else if from + k <= USIZE then 1 else 1 + Stretches(0, k - (USIZE - from))
  }

  lemma {:induction false} StretchesInClosedForm(from: nat, k: nat)
    requires from < USIZE && k > 0
    ensures Stretches(from, k) == (from + k - 1) / USIZE + 1
    decreases k
  {
    if from + k > USIZE {
      StretchesInClosedForm(0, k - (USIZE - from));
      DivMod(from + k - 1, (from + k - 1 - USIZE) / USIZE + 1, (from + k - 1 - USIZE) % USIZE, USIZE);
    }
  }

  lemma {:induction false} HitsGap(from: nat, k: nat, n: nat, i: nat, j: nat)
    requires i < n && j < n && from < USIZE
    ensures WrappedHits(from, k, n, i) <= WrappedHits(from, k, n, j) + Stretches(from, k)
    decreases k
  {
    if k > 0 {
      var here := if from + k <= USIZE then k else USIZE - from;
      ConsecutiveTicketsFair(from, here, n, i);
      ConsecutiveTicketsFair(from, here, n, j);
      if from + k <= USIZE {
        UnwrappedHits(from, k, n, i);
        UnwrappedHits(from, k, n, j);
      } else {
        HitsAcrossWrap(from, k, n, i);
        HitsAcrossWrap(from, k, n, j);
        HitsGap(0, k - here, n, i, j);
      }
    }
  }

  /** Over any number of wraps two positions differ by at most the number of stretches. */
  lemma GapWithinStretches(calls: seq<Call>, counter: nat, list: seq<string>, i: nat, j: nat)
    requires i < |list| && j < |list| && OnlyList(calls, list) && counter < USIZE
    ensures CountOn(calls, counter, list, i)
         <= CountOn(calls, counter, list, j) + (if DrawsOn(calls, list) == 0 then 0
                                                else (counter + DrawsOn(calls, list) - 1) / USIZE + 1)
  {
    CountsAreHits(calls, counter, list, i);
    CountsAreHits(calls, counter, list, j);
    HitsGap(counter, DrawsOn(calls, list), |list|, i, j);
    if DrawsOn(calls, list) > 0 { StretchesInClosedForm(counter, DrawsOn(calls, list)); }
  }

  /** Fair in every run, of any length and over any number of wraps, where no other list draws. */
  ghost predicate FairAlone(list: seq<string>)
    requires list != []
  {
    forall calls, counter: nat | counter < USIZE && OnlyList(calls, list) :: Fair(calls, counter, list)
  }

  /** Wraps cost no fairness exactly when the number of endpoints divides the counter's range. */
  lemma WrapIsFairExactlyForDivisors(list: seq<string>)
    requires list != []
    ensures FairAlone(list) <==> USIZE % |list| == 0
  {
    if USIZE % |list| == 0 {
      forall calls, counter: nat | counter < USIZE && OnlyList(calls, list) ensures Fair(calls, counter, list) {
        DivisorHidesWraps(calls, counter, list);
      }
    } else {
      var calls, counter := UnfairWrap(list);
    }
  }

  /** A ticket and the ticket a multiple of `n` later serve the same position. */
  lemma SamePosition(x: nat, m: nat, n: nat)
    requires n > 0 && m % n == 0
    ensures (x + m) % n == x % n
  {
    AddQuotients(x, x / n, x % n, m, m / n, 0, n);
  }

  lemma {:induction false} HitsShift(from: nat, m: nat, k: nat, n: nat, i: nat)
    requires n > 0 && m % n == 0
    ensures Hits(from + m, k, n, i) == Hits(from, k, n, i)
    decreases k
  {
    if k > 0 {
      SamePosition(from, m, n);
      HitsShift(from + 1, m, k - 1, n, i);
    }
  }

  /** The draws after the first, from the next ticket or from zero. */
  lemma NextHits(from: nat, k: nat, n: nat, i: nat)
    requires n > 0 && k > 0 && from < USIZE
    ensures WrappedHits(from, k, n, i)
         == (if from % n == i then 1 else 0) + WrappedHits(if from + 1 < USIZE then from + 1 else 0, k - 1, n, i)
  {
    assert (from + 1) % USIZE == if from + 1 < USIZE then from + 1 else 0;
  }

  lemma {:induction false} DivisorHits(from: nat, k: nat, n: nat, i: nat)
    requires n > 0 && USIZE % n == 0 && from < USIZE
    ensures WrappedHits(from, k, n, i) == Hits(from, k, n, i)
    decreases k
  {
    if k > 0 {
      NextHits(from, k, n, i);
      if from + 1 < USIZE {
        DivisorHits(from + 1, k - 1, n, i);
      } else {
        DivisorHits(0, k - 1, n, i);
        HitsShift(0, USIZE, k - 1, n, i);
      }
    }
  }

  lemma DivisorHidesWraps(calls: seq<Call>, counter: nat, list: seq<string>)
    requires list != [] && USIZE % |list| == 0 && counter < USIZE && OnlyList(calls, list)
    ensures Fair(calls, counter, list)
  {
    forall i: nat | i < |list|
      ensures FairShare(CountOn(calls, counter, list, i), DrawsOn(calls, list), |list|)
    {
      CountsAreHits(calls, counter, list, i);
      DivisorHits(counter, DrawsOn(calls, list), |list|, i);
      ConsecutiveTicketsFair(counter, DrawsOn(calls, list), |list|, i);
    }
  }

  /** Calls in a row that draw for one list. */
  function Burst(list: seq<string>, k: nat): (calls: seq<Call>)
    requires list != []
    ensures |calls| == k && forall j | 0 <= j < k :: calls[j] == Call(list, RoundRobin, false, 0, 0)
    ensures DrawsOn(calls, list) == k
  {
    if k == 0 then [] else [Call(list, RoundRobin, false, 0, 0)] + Burst(list, k - 1)
  }

  /** The last incomplete round before the wrap and the first ticket after it both serve position 0. */
  lemma UnfairWrap(list: seq<string>) returns (calls: seq<Call>, counter: nat)
    requires list != [] && USIZE % |list| != 0
    ensures counter < USIZE && OnlyList(calls, list) && !Fair(calls, counter, list)
  {
    var n := |list|;
    var q, r := USIZE / n, USIZE % n;
    assert USIZE == q * n + r;
    calls, counter := Burst(list, r + 1), q * n;
    CountsAreHits(calls, counter, list, 0);
    HitsAcrossWrap(counter, r + 1, n, 0);
    HitsAreBelow(counter, r, n, 0);
    DivMod(q * n, q, 0, n);
    assert Hits(counter, r, n, 0) == 1;
    assert WrappedHits(0, 1, n, 0) == 1 + WrappedHits(1, 0, n, 0);
    ShareOfOneRound(r + 1, n);
    assert CountOn(calls, counter, list, 0) == 2;
  }

  /** Of at most one full round no position gets two. */
  lemma ShareOfOneRound(k: nat, n: nat)
    requires 0 < k <= n
    ensures !FairShare(2, k, n)
  {
    if k == n {
      DivMod(n, 1, 0, n);
    } else {
      DivMod(k, 0, k, n);
    }
  }

  /// Other lists draw from the same counter

  /** Fair in every run, whatever other lists draw in between. */
  ghost predicate FairAmongOthers(list: seq<string>)
    requires list != []
  {
    forall calls, counter: nat | counter < USIZE :: Fair(calls, counter, list)
  }

  /** With other lists on the shared counter, only a single endpoint keeps its share. */
  lemma SharedIsFairExactlyForOne(list: seq<string>)
    requires list != []
    ensures FairAmongOthers(list) <==> |list| == 1
  {
    if |list| == 1 {
      forall calls, counter: nat | counter < USIZE ensures Fair(calls, counter, list) {
        OneGetsAll(calls, counter, list);
        DivMod(DrawsOn(calls, list), DrawsOn(calls, list), 0, 1);
      }
    } else {
      var calls := OthersShift(list);
      assert !Fair(calls, 0, list);
    }
  }

  lemma {:induction false} OneGetsAll(calls: seq<Call>, counter: nat, list: seq<string>)
    requires |list| == 1
    ensures CountOn(calls, counter, list, 0) == DrawsOn(calls, list)
    decreases calls
  {
    if calls != [] {
      OneGetsAll(calls[1..], Choose(calls[0], counter).1, list);
    }
  }

  lemma BurstCons(list: seq<string>, k: nat, rest: seq<Call>)
    requires list != [] && k > 0
    ensures Burst(list, k) + rest == [Call(list, RoundRobin, false, 0, 0)] + (Burst(list, k - 1) + rest)
  {
  }

  /** A count that ignores each call of a burst ignores the burst. */
  lemma {:induction false} BurstIgnored(count: (seq<Call>, nat) -> nat, other: seq<string>, k: nat, rest: seq<Call>,
                                        counter: nat)
    requires other != [] && counter + k < USIZE
    requires forall tail, c: nat | c + 1 < USIZE ::
               count([Call(other, RoundRobin, false, 0, 0)] + tail, c) == count(tail, c + 1)
    ensures count(Burst(other, k) + rest, counter) == count(rest, counter + k)
    decreases k
  {
    if k == 0 {
      assert Burst(other, k) + rest == rest;
    } else {
      BurstCons(other, k, rest);
      BurstIgnored(count, other, k - 1, rest, counter + 1);
    }
  }

  function CountingOn(list: seq<string>): (seq<Call>, nat) -> nat {
    (calls: seq<Call>, counter: nat) => CountOn(calls, counter, list, 0)
  }

  function DrawingOn(list: seq<string>): (seq<Call>, nat) -> nat {
    (calls: seq<Call>, counter: nat) => DrawsOn(calls, list)
  }

  lemma OtherDraw(other: seq<string>, tail: seq<Call>, counter: nat, list: seq<string>)
    requires other != [] && other != list && counter + 1 < USIZE
    ensures var calls := [Call(other, RoundRobin, false, 0, 0)] + tail;
            && CountingOn(list)(calls, counter) == CountingOn(list)(tail, counter + 1)
            && DrawingOn(list)(calls, counter) == DrawingOn(list)(tail, counter + 1)
  {
    assert ([Call(other, RoundRobin, false, 0, 0)] + tail)[1..] == tail;
    assert (counter + 1) % USIZE == counter + 1;
  }

  lemma BurstOnOther(other: seq<string>, k: nat, rest: seq<Call>, counter: nat, list: seq<string>)
    requires other != [] && other != list && counter + k < USIZE
    ensures CountingOn(list)(Burst(other, k) + rest, counter) == CountingOn(list)(rest, counter + k)
    ensures DrawingOn(list)(Burst(other, k) + rest, counter) == DrawingOn(list)(rest, counter + k)
  {
    var count, draws := CountingOn(list), DrawingOn(list);
    forall tail, c: nat | c + 1 < USIZE
      ensures count([Call(other, RoundRobin, false, 0, 0)] + tail, c) == count(tail, c + 1)
      ensures draws([Call(other, RoundRobin, false, 0, 0)] + tail, c) == draws(tail, c + 1)
    {
      OtherDraw(other, tail, c, list);
    }
    BurstIgnored(count, other, k, rest, counter);
    BurstIgnored(draws, other, k, rest, counter);
  }

  lemma DrawAtZero(list: seq<string>, counter: nat, rest: seq<Call>)
    requires list != [] && counter % |list| == 0
    ensures var calls := [Call(list, RoundRobin, false, 0, 0)] + rest;
            && CountOn(calls, counter, list, 0) == 1 + CountOn(rest, (counter + 1) % USIZE, list, 0)
            && DrawsOn(calls, list) == 1 + DrawsOn(rest, list)
  {
    assert ([Call(list, RoundRobin, false, 0, 0)] + rest)[1..] == rest;
  }

  /** The draw that may wrap the counter. */
  lemma LastOtherDraw(other: seq<string>, rest: seq<Call>, counter: nat, list: seq<string>)
    requires other != [] && other != list
    ensures var calls := [Call(other, RoundRobin, false, 0, 0)] + rest;
            && CountOn(calls, counter, list, 0) == CountOn(rest, (counter + 1) % USIZE, list, 0)
            && DrawsOn(calls, list) == DrawsOn(rest, list)
  {
    assert ([Call(other, RoundRobin, false, 0, 0)] + rest)[1..] == rest;
  }

  /** One draw, then as many by another list as bring the counter round, then one draw on the same position. */
  lemma OthersShift(list: seq<string>) returns (calls: seq<Call>)
    requires |list| > 1
    ensures !Fair(calls, 0, list)
  {
    var n, other, draw := |list|, list + [""], Call(list, RoundRobin, false, 0, 0);
    var turn := if n < USIZE then n else USIZE;
    assert n < USIZE ==> turn % USIZE == n && n % n == 0;
    var back := [Call(other, RoundRobin, false, 0, 0)] + ([draw] + []);
    calls := [draw] + (Burst(other, turn - 2) + back);
    DrawAtZero(list, 0, Burst(other, turn - 2) + back);
    BurstOnOther(other, turn - 2, back, 1, list);
    LastOtherDraw(other, [draw] + [], turn - 1, list);
    DrawAtZero(list, turn % USIZE, []);
    ShareOfOneRound(2, n);
    assert CountOn(calls, 0, list, 0) == 2 && DrawsOn(calls, list) == 2;
  }
}

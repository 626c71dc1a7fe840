/**
 `select_endpoint` of crates/gateway-core/src/upstream.rs: weighted round robin, least connections
 and modulo-ring hashing over the endpoints that are not Unhealthy.
 */
module Selection {
  import opened Numbers
  import opened Health

  const U64_MAX: nat := 0xFFFF_FFFF_FFFF_FFFF

  datatype Endpoint = Endpoint(weight: nat, health: Health, activeConns: nat, ewmaLatency: nat)

  predicate Available(e: Endpoint)
  {
    e.health != Unhealthy
  }

  /** Degraded endpoints count half, but at least one. */
  function EffectiveWeight(e: Endpoint): nat
  {
    match e.health
    case Healthy => e.weight
    case Degraded => if e.weight / 2 > 1 then e.weight / 2 else 1
    case Unhealthy => 0
  }

  function SaturatingMul(x: nat, y: nat): nat
  {
    if x * y > U64_MAX then U64_MAX else x * y
  }

  /** The least-connections key. */
  function Score(e: Endpoint): nat
  {
    var base := if e.ewmaLatency == 0 then e.activeConns else SaturatingMul(e.activeConns, e.ewmaLatency);
    SaturatingMul(base, if e.health == Degraded then 2 else 1)
  }

  /** A product of two 64-bit factors, saturated twice, is the whole product, saturated once. */
  lemma SaturatesOnce(x: nat, y: nat, z: nat)
    requires z >= 1
    ensures SaturatingMul(SaturatingMul(x, y), z) == if x * y * z > U64_MAX then U64_MAX else x * y * z
  {
    if x * y > U64_MAX {
      assert x * y * z >= x * y;
      assert U64_MAX * z >= U64_MAX;
    }
  }

  /** Connections times latency, an unmeasured latency counting as one, doubled for a Degraded endpoint; unbounded. */
  function Load(e: Endpoint): nat
  {
    e.activeConns * (if e.ewmaLatency == 0 then 1 else e.ewmaLatency) * (if e.health == Degraded then 2 else 1)
  }

  /** The 64-bit key is the load, and past 64 bits exactly the maximum. */
  lemma ScoreIsLoad(e: Endpoint)
    requires e.activeConns <= U64_MAX
    ensures Score(e) == if Load(e) > U64_MAX then U64_MAX else Load(e)
  {
    SaturatesOnce(e.activeConns, if e.ewmaLatency == 0 then 1 else e.ewmaLatency, if e.health == Degraded then 2 else 1);
  }

  // ---- Arithmetic ----

  lemma MulMonotone(x: nat, y: nat, m: nat)
    requires x <= y
    ensures x * m <= y * m
  {}

  lemma SameQuotient(m: nat, q: nat, r: nat, q': nat, r': nat)
    requires r < m && r' < m
    requires q * m + r == q' * m + r'
    ensures q == q' && r == r'
  {
    if q < q' {
      MulMonotone(q + 1, q', m);
    } else if q' < q {
      MulMonotone(q' + 1, q, m);
    }
  }

  lemma QuotientUnique(x: nat, m: nat, q: nat, r: nat)
    requires m > 0 && x == q * m + r && r < m
    ensures x / m == q && x % m == r
  {
    SameQuotient(m, x / m, x % m, q, r);
  }

  // ---- Weighted round robin ----

  /** Sum of the first `k` weights. */
  function PrefixSum(ws: seq<nat>, k: nat): nat
    requires k <= |ws|
  {
    if k == 0 then 0 else PrefixSum(ws, k - 1) + ws[k - 1]
  }

  function Total(ws: seq<nat>): nat
  {
    PrefixSum(ws, |ws|)
  }

  lemma {:induction false} PrefixSumMonotone(ws: seq<nat>, i: nat, j: nat)
    requires i <= j <= |ws|
    ensures PrefixSum(ws, i) <= PrefixSum(ws, j)
    decreases j - i
  {
    if i < j { PrefixSumMonotone(ws, i, j - 1); }
  }

  /** Position `pos` falls in the share of index `i`. */
  predicate InShare(ws: seq<nat>, pos: nat, i: nat)
  {
    i < |ws| && PrefixSum(ws, i) <= pos < PrefixSum(ws, i + 1)
  }

  lemma SharesAreDisjoint(ws: seq<nat>, pos: nat, i: nat, j: nat)
    requires InShare(ws, pos, i) && InShare(ws, pos, j)
    ensures i == j
  {
    if i < j { PrefixSumMonotone(ws, i + 1, j); }
    if j < i { PrefixSumMonotone(ws, j + 1, i); }
  }

  /** The counter is cut to 32 bits before the modulus. */
  function RingPosition(counter: nat, total: nat): (pos: nat)
    requires total > 0
    ensures pos < total
  {
    (counter % U32) % total
  }

  /** The iterator sum, which wraps at 32 bits. */
  method SumWeights(ws: seq<nat>) returns (total: nat)
    ensures total == Total(ws) % U32
  {
    total := 0;
    for k := 0 to |ws|
      invariant total == PrefixSum(ws, k) % U32
    {
      AddWrapped(PrefixSum(ws, k), ws[k]);
      total := (total + ws[k]) % U32;
    }
  }

  lemma AddWrapped(a: nat, b: nat)
    ensures (a % U32 + b) % U32 == (a + b) % U32
  {}

  /** The accumulating scan; its fallback is the first endpoint. */
  method ScanShares(ws: seq<nat>, pos: nat) returns (i: nat)
    requires ws != []
    ensures i < |ws|
    ensures pos < Total(ws) < U32 ==> InShare(ws, pos, i)
  {
    var acc := 0;
    for k := 0 to |ws|
      invariant Total(ws) < U32 ==> acc == PrefixSum(ws, k) <= pos
    {
      PrefixSumMonotone(ws, k + 1, |ws|);
      acc := (acc + ws[k]) % U32;
      if pos < acc { return k; }
    }
    return 0;
  }

  /**
   The round-robin arm. When the weights do not overflow, the index returned is the one whose share
   holds the position: the scan ends inside the loop and the fallback is never taken.
   */
  method PickWeighted(ws: seq<nat>, counter: nat) returns (i: nat, next: nat)
    requires ws != []
    ensures i < |ws|
    ensures 0 < Total(ws) < U32 ==> InShare(ws, RingPosition(counter, Total(ws)), i) && next == counter + 1
    ensures Total(ws) % U32 == 0 ==> i == 0 && next == counter
    ensures Total(ws) % U32 != 0 ==> next == counter + 1
  {
    var total := SumWeights(ws);
    if total == 0 { return 0, counter; }
    next := counter + 1;
    i := ScanShares(ws, RingPosition(counter, total));
  }

  /** How many of `n` consecutive ring positions from `start` fall in the share of `i`. */
  function CountShare(ws: seq<nat>, start: nat, n: nat, i: nat): nat
    requires Total(ws) > 0
  {
    if n == 0 then 0
    else CountShare(ws, start, n - 1, i) + if InShare(ws, (start + n - 1) % Total(ws), i) then 1 else 0
  }

  lemma {:induction false} CountFromFront(ws: seq<nat>, start: nat, n: nat, i: nat)
    requires Total(ws) > 0
    ensures CountShare(ws, start, n + 1, i)
         == (if InShare(ws, start % Total(ws), i) then 1 else 0) + CountShare(ws, start + 1, n, i)
  {
    if n > 0 { CountFromFront(ws, start, n - 1, i); }
  }

  lemma WholeTurn(start: nat, total: nat)
    requires total > 0
    ensures (start + total) % total == start % total
  {
    assert (start / total + 1) * total == start / total * total + total;
    QuotientUnique(start + total, total, start / total + 1, start % total);
  }

  /** A full turn counts the same wherever it starts. */
  lemma {:induction false} TurnsAreAlike(ws: seq<nat>, start: nat, i: nat)
    requires Total(ws) > 0
    ensures CountShare(ws, start, Total(ws), i) == CountShare(ws, 0, Total(ws), i)
  {
    if start > 0 {
      var t := Total(ws);
      TurnsAreAlike(ws, start - 1, i);
      CountFromFront(ws, start - 1, t - 1, i);
      WholeTurn(start - 1, t);
    }
  }

  /** From position zero, the first `n` positions cover the share as far as it reaches below `n`. */
  lemma {:induction false} CountFromZero(ws: seq<nat>, n: nat, i: nat)
    requires n <= Total(ws) && i < |ws|
    requires Total(ws) > 0
    ensures var lo, hi := PrefixSum(ws, i), PrefixSum(ws, i + 1);
            CountShare(ws, 0, n, i) == if n <= lo then 0 else if n <= hi then n - lo else hi - lo
  {
    if n > 0 {
      CountFromZero(ws, n - 1, i);
      SmallMod(n - 1, Total(ws));
    }
  }

  lemma SmallMod(x: nat, m: nat)
    requires x < m
    ensures x % m == x
  {}

  /** Any full turn of consecutive positions gives each index exactly its weight. */
  lemma FairTurn(ws: seq<nat>, start: nat, i: nat)
    requires Total(ws) > 0 && i < |ws|
    ensures CountShare(ws, start, Total(ws), i) == ws[i]
  {
    TurnsAreAlike(ws, start, i);
    CountFromZero(ws, Total(ws), i);
    PrefixSumMonotone(ws, i + 1, |ws|);
  }

  /** How many of `n` consecutive counter values pick index `i`. */
  function CountPicks(ws: seq<nat>, counter: nat, n: nat, i: nat): nat
    requires Total(ws) > 0
  {
    if n == 0 then 0
    else CountPicks(ws, counter, n - 1, i)
         + if InShare(ws, RingPosition(counter + n - 1, Total(ws)), i) then 1 else 0
  }

  lemma NoWrap(counter: nat, k: nat)
    requires counter % U32 + k < U32
    ensures (counter + k) % U32 == counter % U32 + k
  {}

  lemma PositionAgrees(counter: nat, k: nat, total: nat)
    requires total > 0 && counter % U32 + k < U32
    ensures RingPosition(counter + k, total) == (counter % U32 + k) % total
  {
    NoWrap(counter, k);
  }

  lemma {:induction false} PicksAreShares(ws: seq<nat>, counter: nat, n: nat, i: nat)
    requires Total(ws) > 0
    requires counter % U32 + n <= U32
    ensures CountPicks(ws, counter, n, i) == CountShare(ws, counter % U32, n, i)
  {
    if n > 0 {
      PicksAreShares(ws, counter, n - 1, i);
      var k, start := n - 1, counter % U32;
      PositionAgrees(counter, k, Total(ws));
      assert counter + n - 1 == counter + k && start + n - 1 == start + k;
    }
  }

  /**
   Weighted fairness: while the counter does not cross a multiple of 2^32, any total-weight many
   consecutive picks choose each endpoint exactly its effective weight times.
   */
  lemma WeightedFairness(ws: seq<nat>, counter: nat, i: nat)
    requires Total(ws) > 0 && i < |ws|
    requires counter % U32 + Total(ws) <= U32
    ensures CountPicks(ws, counter, Total(ws), i) == ws[i]
  {
    PicksAreShares(ws, counter, Total(ws), i);
    FairTurn(ws, counter % U32, i);
  }

  /** How often `i` occurs. */
  function Occurrences(picks: seq<nat>, i: nat): nat
  {
    if picks == [] then 0 else Occurrences(picks[..|picks| - 1], i) + if picks[|picks| - 1] == i then 1 else 0
  }

  lemma OccurrencesAppend(picks: seq<nat>, pick: nat, i: nat)
    ensures Occurrences(picks + [pick], i) == Occurrences(picks, i) + if pick == i then 1 else 0
  {
    assert (picks + [pick])[..|picks|] == picks;
  }

  /** One pick more, counted once as an endpoint and once as a position. */
  lemma PickCounts(ws: seq<nat>, counter: nat, picks: seq<nat>, pick: nat, i: nat)
    requires Total(ws) > 0 && i < |ws|
    requires InShare(ws, RingPosition(counter + |picks|, Total(ws)), pick)
    requires Occurrences(picks, i) == CountPicks(ws, counter, |picks|, i)
    ensures Occurrences(picks + [pick], i) == CountPicks(ws, counter, |picks| + 1, i)
  {
    OccurrencesAppend(picks, pick, i);
    var pos := RingPosition(counter + |picks|, Total(ws));
    if InShare(ws, pos, i) { SharesAreDisjoint(ws, pos, pick, i); }
  }

  /**
   `n` calls of the round-robin arm in a row, on one counter. Each index is returned as often as
   positions fall in its share; over a full turn that does not cross a multiple of 2^32, exactly its
   weight times.
   */
  method PickMany(ws: seq<nat>, counter: nat, n: nat) returns (picks: seq<nat>, next: nat)
    requires 0 < Total(ws) < U32
    ensures |picks| == n && next == counter + n
    ensures forall i | 0 <= i < |ws| :: Occurrences(picks, i) == CountPicks(ws, counter, n, i)
    ensures n == Total(ws) && counter % U32 + n <= U32 ==> forall i | 0 <= i < |ws| :: Occurrences(picks, i) == ws[i]
  {
    picks, next := [], counter;
    for k := 0 to n
      invariant |picks| == k && next == counter + k
      invariant forall i | 0 <= i < |ws| :: Occurrences(picks, i) == CountPicks(ws, counter, k, i)
    {
      var i;
      i, next := PickWeighted(ws, next);
      forall j | 0 <= j < |ws| ensures Occurrences(picks + [i], j) == CountPicks(ws, counter, k + 1, j) {
        PickCounts(ws, counter, picks, i, j);
      }
      picks := picks + [i];
    }
    if n == Total(ws) && counter % U32 + n <= U32 {
      forall i | 0 <= i < |ws| ensures Occurrences(picks, i) == ws[i] { WeightedFairness(ws, counter, i); }
    }
  }

  /**
   The crossing is a real exception: three equal weights, and the turn that crosses 2^32 picks the
   first endpoint twice and the second not at all.
   */
  lemma CrossingIsUnfair()
    ensures var ws := [1, 1, 1]; var counter := U32 - 1;
            && CountPicks(ws, counter, Total(ws), 0) == 2
            && CountPicks(ws, counter, Total(ws), 2) == 0
  {
    var ws: seq<nat> := [1, 1, 1];
    var counter := U32 - 1;
    assert PrefixSum(ws, 0) == 0 && PrefixSum(ws, 1) == 1 && PrefixSum(ws, 2) == 2 && PrefixSum(ws, 3) == 3;
    assert (counter + 1) % U32 == 0 && (counter + 2) % U32 == 1;
    assert RingPosition(counter, 3) == 0;
    assert RingPosition(counter + 1, 3) == 0;
    assert RingPosition(counter + 2, 3) == 1;
    assert InShare(ws, 0, 0) && !InShare(ws, 1, 0) && !InShare(ws, 0, 2) && !InShare(ws, 1, 2);
    forall i: nat
      ensures CountPicks(ws, counter, 3, i) == (if InShare(ws, RingPosition(counter, 3), i) then 1 else 0)
                                             + (if InShare(ws, RingPosition(counter + 1, 3), i) then 1 else 0)
                                             + (if InShare(ws, RingPosition(counter + 2, 3), i) then 1 else 0)
    {
      assert counter + 1 - 1 == counter && counter + 2 - 1 == counter + 1 && counter + 3 - 1 == counter + 2;
      assert CountPicks(ws, counter, 0, i) == 0;
      assert CountPicks(ws, counter, 1, i) == if InShare(ws, RingPosition(counter, 3), i) then 1 else 0;
      assert CountPicks(ws, counter, 2, i)
          == CountPicks(ws, counter, 1, i) + if InShare(ws, RingPosition(counter + 1, 3), i) then 1 else 0;
    }
  }

  lemma {:induction false} PicksSplit(ws: seq<nat>, counter: nat, n: nat, m: nat, i: nat)
    requires Total(ws) > 0
    ensures CountPicks(ws, counter, n + m, i) == CountPicks(ws, counter, n, i) + CountPicks(ws, counter + n, m, i)
  {
    if m > 0 { PicksSplit(ws, counter, n, m - 1, i); }
  }

  lemma {:induction false} SharesSplit(ws: seq<nat>, start: nat, n: nat, m: nat, i: nat)
    requires Total(ws) > 0
    ensures CountShare(ws, start, n + m, i) == CountShare(ws, start, n, i) + CountShare(ws, start + n, m, i)
  {
    if m > 0 { SharesSplit(ws, start, n, m - 1, i); }
  }

  lemma StartsAgain(counter: nat)
    ensures (counter + (U32 - counter % U32)) % U32 == 0
  {}

  /** A turn that crosses: the rest of the old cycle, then the first positions of a new one. */
  lemma CrossingPicks(ws: seq<nat>, counter: nat, start: nat, k: nat, i: nat)
    requires start == counter % U32 && k == U32 - start
    requires k < Total(ws) <= U32
    ensures CountPicks(ws, counter, Total(ws), i) == CountShare(ws, start, k, i) + CountShare(ws, 0, Total(ws) - k, i)
  {
    PicksSplit(ws, counter, k, Total(ws) - k, i);
    PicksAreShares(ws, counter, k, i);
    StartsAgain(counter);
    PicksAreShares(ws, counter + k, Total(ws) - k, i);
  }

  lemma TurnInTwo(ws: seq<nat>, k: nat, i: nat)
    requires k < Total(ws) && i < |ws|
    ensures CountShare(ws, 0, Total(ws) - k, i) + CountShare(ws, Total(ws) - k, k, i) == ws[i]
  {
    SharesSplit(ws, 0, Total(ws) - k, k, i);
    FairTurn(ws, 0, i);
  }

  /** How much of [lo, hi) lies in the share of index `i`. */
  function Overlap(ws: seq<nat>, i: nat, lo: nat, hi: nat): nat
    requires i < |ws|
  {
    var from := if PrefixSum(ws, i) > lo then PrefixSum(ws, i) else lo;
    var to := if PrefixSum(ws, i + 1) < hi then PrefixSum(ws, i + 1) else hi;
    if from < to then to - from else 0
  }

  /** Positions that do not run past the end of a turn are an interval. */
  lemma {:induction false} CountIsOverlap(ws: seq<nat>, start: nat, n: nat, i: nat)
    requires i < |ws| && start + n <= Total(ws) && Total(ws) > 0
    ensures CountShare(ws, start, n, i) == Overlap(ws, i, start, start + n)
  {
    if n > 0 {
      CountIsOverlap(ws, start, n - 1, i);
      SmallMod(start + n - 1, Total(ws));
    }
  }

  /** The `k` positions from `a` on, going round at most once: one interval, or two. */
  function TurnOverlap(ws: seq<nat>, i: nat, a: nat, k: nat): nat
    requires i < |ws|
  {
    if a + k <= Total(ws) then Overlap(ws, i, a, a + k)
    else Overlap(ws, i, a, Total(ws)) + Overlap(ws, i, 0, a + k - Total(ws))
  }

  lemma {:induction false} CountFromResidue(ws: seq<nat>, start: nat, n: nat, i: nat)
    requires Total(ws) > 0
    ensures CountShare(ws, start, n, i) == CountShare(ws, start % Total(ws), n, i)
  {
    if n > 0 {
      CountFromResidue(ws, start, n - 1, i);
      SameResidue(start, n - 1, Total(ws));
    }
  }

  lemma SameResidue(start: nat, k: nat, total: nat)
    requires total > 0
    ensures (start + k) % total == (start % total + k) % total
  {
    var x := start % total + k;
    assert start == start / total * total + start % total;
    assert x == x / total * total + x % total;
    assert (start / total + x / total) * total == start / total * total + x / total * total;
    QuotientUnique(start + k, total, start / total + x / total, x % total);
  }

  lemma CountRound(ws: seq<nat>, a: nat, k: nat, i: nat)
    requires i < |ws| && a < Total(ws) && k <= Total(ws)
    ensures CountShare(ws, a, k, i) == TurnOverlap(ws, i, a, k)
  {
    var t := Total(ws);
    if a + k <= t {
      CountIsOverlap(ws, a, k, i);
    } else {
      SharesSplit(ws, a, t - a, a + k - t, i);
      CountIsOverlap(ws, a, t - a, i);
      CountNextTurn(ws, a + k - t, i);
      CountIsOverlap(ws, 0, a + k - t, i);
    }
  }

  lemma CountNextTurn(ws: seq<nat>, n: nat, i: nat)
    requires Total(ws) > 0
    ensures CountShare(ws, Total(ws), n, i) == CountShare(ws, 0, n, i)
  {
    WholeTurn(0, Total(ws));
    CountFromResidue(ws, Total(ws), n, i);
  }

  /**
   Exactly when a turn that crosses is fair to an endpoint. Of the turn, the `k` picks before the
   crossing cover the positions from `a` on, going round; after it the counter starts again at zero
   and covers all but the last `k` positions. So the endpoint gets its weight if and only if its
   share overlaps the first stretch as much as it overlaps the last `k` positions.
   */
  lemma CrossingFairIff(ws: seq<nat>, counter: nat, k: nat, i: nat)
    requires i < |ws| && k == U32 - counter % U32
    requires k < Total(ws) <= U32
    ensures CountPicks(ws, counter, Total(ws), i) == ws[i]
            <==> TurnOverlap(ws, i, counter % U32 % Total(ws), k) == Overlap(ws, i, Total(ws) - k, Total(ws))
  {
    CrossingPicks(ws, counter, counter % U32, k, i);
    TurnInTwo(ws, k, i);
    CountFromResidue(ws, counter % U32, k, i);
    CountRound(ws, counter % U32 % Total(ws), k, i);
    CountIsOverlap(ws, Total(ws) - k, k, i);
  }

  lemma DivisorPosition(counter: nat, total: nat)
    requires total > 0 && U32 % total == 0
    ensures RingPosition(counter, total) == counter % total
  {
    var q, r, d := counter / U32, counter % U32, U32 / total;
    assert U32 == d * total;
    assert counter == q * U32 + r;
    assert q * (d * total) == (q * d) * total;
    assert r == r / total * total + r % total;
    assert (q * d) * total + r / total * total == (q * d + r / total) * total;
    QuotientUnique(counter, total, q * d + r / total, r % total);
  }

  lemma {:induction false} DivisorPicks(ws: seq<nat>, counter: nat, n: nat, i: nat)
    requires Total(ws) > 0 && U32 % Total(ws) == 0
    ensures CountPicks(ws, counter, n, i) == CountShare(ws, counter, n, i)
  {
    if n > 0 {
      DivisorPicks(ws, counter, n - 1, i);
      DivisorPosition(counter + n - 1, Total(ws));
    }
  }

  /** A total weight that divides 2^32 makes every turn fair, crossing or not. */
  lemma DivisorIsFair(ws: seq<nat>, counter: nat, i: nat)
    requires Total(ws) > 0 && i < |ws| && U32 % Total(ws) == 0
    ensures CountPicks(ws, counter, Total(ws), i) == ws[i]
  {
    DivisorPicks(ws, counter, Total(ws), i);
    FairTurn(ws, counter, i);
  }

  // ---- Modulo-ring hashing ----

  function RingIndex(hash: nat, n: nat, vnodes: nat): nat
    requires n > 0 && vnodes > 0
  {
    hash % (n * vnodes) / vnodes
  }

  /** A hash split into turns of the ring, a slot and a virtual node lands in that slot. */
  lemma RingSlot(hash: nat, n: nat, vnodes: nat, turns: nat, slot: nat, r: nat)
    requires n > 0 && vnodes > 0 && slot < n && r < vnodes
    requires hash == turns * (n * vnodes) + (slot * vnodes + r)
    ensures RingIndex(hash, n, vnodes) == slot
  {
    assert slot * vnodes + r < n * vnodes by {
      MulMonotone(slot + 1, n, vnodes);
      assert (slot + 1) * vnodes == slot * vnodes + vnodes;
    }
    QuotientUnique(hash, n * vnodes, turns, slot * vnodes + r);
    QuotientUnique(slot * vnodes + r, vnodes, slot, r);
  }

  lemma DistributeRing(turns: nat, n: nat, slot: nat, vnodes: nat, r: nat)
    ensures (turns * n + slot) * vnodes + r == turns * (n * vnodes) + (slot * vnodes + r)
  {}

  /** The ring collapses to a modulus: the virtual nodes of one endpoint are adjacent. */
  lemma RingIsModulus(hash: nat, n: nat, vnodes: nat)
    requires n > 0 && vnodes > 0
    ensures RingIndex(hash, n, vnodes) == (hash / vnodes) % n < n
  {
    var q, r := hash / vnodes, hash % vnodes;
    var turns, slot := q / n, q % n;
    assert hash == turns * (n * vnodes) + (slot * vnodes + r) by {
      assert q == turns * n + slot;
      assert hash == q * vnodes + r;
      DistributeRing(turns, n, slot, vnodes, r);
    }
    RingSlot(hash, n, vnodes, turns, slot, r);
  }

  /** Ring of `n` endpoints as weights: every endpoint weighs `vnodes`. */
  function Uniform(n: nat, vnodes: nat): (ws: seq<nat>)
    ensures |ws| == n && forall i | 0 <= i < n :: ws[i] == vnodes
  {
    seq(n, i => vnodes)
  }

  lemma {:induction false} UniformSums(n: nat, vnodes: nat, k: nat)
    requires k <= n
    ensures PrefixSum(Uniform(n, vnodes), k) == k * vnodes
  {
    if k > 0 {
      UniformSums(n, vnodes, k - 1);
      assert (k - 1) * vnodes + vnodes == k * vnodes;
    }
  }

  /** How many of `m` consecutive hashes land on index `i`. */
  function CountHashes(n: nat, vnodes: nat, hash: nat, m: nat, i: nat): nat
    requires n > 0 && vnodes > 0
  {
    if m == 0 then 0
    else CountHashes(n, vnodes, hash, m - 1, i) + if RingIndex(hash + m - 1, n, vnodes) == i then 1 else 0
  }

  lemma IndexIsShare(n: nat, vnodes: nat, pos: nat, i: nat)
    requires n > 0 && vnodes > 0 && pos < n * vnodes && i < n
    ensures pos / vnodes == i <==> InShare(Uniform(n, vnodes), pos, i)
  {
    UniformSums(n, vnodes, i);
    UniformSums(n, vnodes, i + 1);
    assert (i + 1) * vnodes == i * vnodes + vnodes;
    assert pos == pos / vnodes * vnodes + pos % vnodes;
    if i * vnodes <= pos < i * vnodes + vnodes {
      QuotientUnique(pos, vnodes, i, pos - i * vnodes);
    }
  }

  lemma {:induction false} HashesAreShares(n: nat, vnodes: nat, hash: nat, m: nat, i: nat)
    requires n > 0 && vnodes > 0 && i < n
    requires Total(Uniform(n, vnodes)) == n * vnodes > 0
    ensures CountHashes(n, vnodes, hash, m, i) == CountShare(Uniform(n, vnodes), hash, m, i)
  {
    if m > 0 {
      HashesAreShares(n, vnodes, hash, m - 1, i);
      IndexIsShare(n, vnodes, (hash + m - 1) % (n * vnodes), i);
    }
  }

  /** Every full ring of consecutive hashes splits evenly: `vnodes` for each endpoint. */
  lemma HashesSplitEvenly(n: nat, vnodes: nat, hash: nat, i: nat)
    requires n > 0 && vnodes > 0 && i < n
    ensures CountHashes(n, vnodes, hash, n * vnodes, i) == vnodes
  {
    UniformSums(n, vnodes, n);
    MulMonotone(1, n, vnodes);
    HashesAreShares(n, vnodes, hash, n * vnodes, i);
    FairTurn(Uniform(n, vnodes), hash, i);
  }

  // ---- All three algorithms ----

  datatype Algorithm =
    | WeightedRoundRobin
    | LeastConnections
    | ConsistentHashing(virtualNodes: nat)

  /** Positions of the available endpoints, in order. */
  function AvailableIndices(endpoints: seq<Endpoint>): (ix: seq<nat>)
    ensures forall k | 0 <= k < |ix| :: ix[k] < |endpoints| && Available(endpoints[ix[k]])
    ensures forall j | 0 <= j < |endpoints| && Available(endpoints[j]) :: j in ix
    ensures forall k, m | 0 <= k < m < |ix| :: ix[k] < ix[m]
  {
    if endpoints == [] then []
    else
      var n := |endpoints| - 1;
      AvailableIndices(endpoints[..n]) + if Available(endpoints[n]) then [n] else []
  }

  function Weights(endpoints: seq<Endpoint>, ix: seq<nat>): (ws: seq<nat>)
    requires forall k | 0 <= k < |ix| :: ix[k] < |endpoints|
    ensures |ws| == |ix| && forall k | 0 <= k < |ix| :: ws[k] == EffectiveWeight(endpoints[ix[k]])
  {
    seq(|ix|, k requires 0 <= k < |ix| => EffectiveWeight(endpoints[ix[k]]))
  }

  /** `min_by_key`: the first of the smallest. */
  method PickLeast(endpoints: seq<Endpoint>, ix: seq<nat>) returns (k: nat)
    requires ix != [] && forall k | 0 <= k < |ix| :: ix[k] < |endpoints|
    ensures k < |ix|
    ensures forall j | 0 <= j < |ix| :: Score(endpoints[ix[k]]) <= Score(endpoints[ix[j]])
    ensures forall j | 0 <= j < k :: Score(endpoints[ix[k]]) < Score(endpoints[ix[j]])
  {
    k := 0;
    for j := 1 to |ix|
      invariant k < j
      invariant forall m | 0 <= m < j :: Score(endpoints[ix[k]]) <= Score(endpoints[ix[m]])
      invariant forall m | 0 <= m < k :: Score(endpoints[ix[k]]) < Score(endpoints[ix[m]])
    {
      if Score(endpoints[ix[j]]) < Score(endpoints[ix[k]]) { k := j; }
    }
  }

  /** No available endpoint carries less load, as far as 64 bits can tell. */
  ghost predicate LeastLoaded(endpoints: seq<Endpoint>, i: nat)
    requires i < |endpoints|
  {
    forall j | 0 <= j < |endpoints| && Available(endpoints[j]) ::
      Load(endpoints[i]) <= Load(endpoints[j]) || Load(endpoints[j]) >= U64_MAX
  }

  predicate Bounded(endpoints: seq<Endpoint>)
  {
    forall j | 0 <= j < |endpoints| :: endpoints[j].activeConns <= U64_MAX
  }

  lemma LeastScoreIsLeastLoad(endpoints: seq<Endpoint>, i: nat)
    requires Bounded(endpoints) && i < |endpoints|
    requires forall j | 0 <= j < |endpoints| && Available(endpoints[j]) :: Score(endpoints[i]) <= Score(endpoints[j])
    ensures LeastLoaded(endpoints, i)
  {
    ScoreIsLoad(endpoints[i]);
    forall j | 0 <= j < |endpoints| && Available(endpoints[j])
      ensures Load(endpoints[i]) <= Load(endpoints[j]) || Load(endpoints[j]) >= U64_MAX
    {
      ScoreIsLoad(endpoints[j]);
    }
  }

  /**
   Degraded endpoints come last among equals: one is chosen over a Healthy one that has no more
   connections and no more latency only if it is idle, or if its load is past 64 bits.
   */
  lemma DegradedYields(endpoints: seq<Endpoint>, i: nat, j: nat)
    requires i < |endpoints| && j < |endpoints| && LeastLoaded(endpoints, i)
    requires endpoints[i].health == Degraded && endpoints[j].health == Healthy
    requires endpoints[j].activeConns <= endpoints[i].activeConns
    requires endpoints[j].ewmaLatency <= endpoints[i].ewmaLatency
    ensures endpoints[i].activeConns == 0 || Load(endpoints[i]) >= U64_MAX
  {
    DegradedDoubles(endpoints[i], endpoints[j]);
    assert Available(endpoints[j]);
  }

  lemma DegradedDoubles(a: Endpoint, b: Endpoint)
    requires a.health == Degraded && b.health == Healthy
    requires b.activeConns <= a.activeConns && b.ewmaLatency <= a.ewmaLatency
    ensures 2 * Load(b) <= Load(a) && (a.activeConns > 0 ==> Load(a) > 0)
  {
    var la, lb := if a.ewmaLatency == 0 then 1 else a.ewmaLatency, if b.ewmaLatency == 0 then 1 else b.ewmaLatency;
    MulMonotone(b.activeConns, a.activeConns, lb);
    MulMonotone(lb, la, a.activeConns);
    assert Load(b) == b.activeConns * lb && Load(a) == 2 * (a.activeConns * la);
    if a.activeConns > 0 { MulMonotone(1, a.activeConns, la); }
  }

  /** What each algorithm returns, as a position among the available endpoints. */
  ghost predicate Chosen(endpoints: seq<Endpoint>, algorithm: Algorithm, hash: nat, counter: nat, k: nat)
  {
    var ix := AvailableIndices(endpoints);
    && k < |ix|
    && match algorithm
       case WeightedRoundRobin =>
         var ws := Weights(endpoints, ix);
         0 < Total(ws) < U32 ==> InShare(ws, RingPosition(counter, Total(ws)), k)
       case LeastConnections =>
         && (forall j | 0 <= j < |ix| :: Score(endpoints[ix[k]]) <= Score(endpoints[ix[j]]))
         && (forall j | 0 <= j < k :: Score(endpoints[ix[k]]) < Score(endpoints[ix[j]]))
       case ConsistentHashing(vnodes) => vnodes >= 1 && k == (hash / vnodes) % |ix|
  }

  method Choose(endpoints: seq<Endpoint>, ix: seq<nat>, algorithm: Algorithm, hash: nat, counter: nat)
    returns (k: nat, next: nat)
    requires ix == AvailableIndices(endpoints) && ix != []
    requires algorithm.ConsistentHashing? ==> algorithm.virtualNodes >= 1
    ensures Chosen(endpoints, algorithm, hash, counter, k)
    ensures !algorithm.WeightedRoundRobin? ==> next == counter
    ensures algorithm.WeightedRoundRobin? && 0 < Total(Weights(endpoints, ix)) < U32 ==> next == counter + 1
  {
    next := counter;
    match algorithm {
      case WeightedRoundRobin =>
        k, next := PickWeighted(Weights(endpoints, ix), counter);
      case LeastConnections =>
        k := PickLeast(endpoints, ix);
      case ConsistentHashing(vnodes) =>
        RingIsModulus(hash, |ix|, vnodes);
        var idx := RingIndex(hash, |ix|, vnodes);
        SmallMod(idx, |ix|);
        k := idx % |ix|;
    }
  }

  lemma LeastChosen(endpoints: seq<Endpoint>, hash: nat, counter: nat, k: nat)
    requires Bounded(endpoints) && Chosen(endpoints, LeastConnections, hash, counter, k)
    ensures LeastLoaded(endpoints, AvailableIndices(endpoints)[k])
  {
    var ix := AvailableIndices(endpoints);
    forall j | 0 <= j < |endpoints| && Available(endpoints[j]) ensures Score(endpoints[ix[k]]) <= Score(endpoints[j]) {
      var m :| 0 <= m < |ix| && ix[m] == j;
    }
    LeastScoreIsLeastLoad(endpoints, ix[k]);
  }

  /**
   `select_endpoint`: returns an available endpoint exactly when there is one, chosen as the
   algorithm says. A missing hash key hashes the text "default".
   */
  method Select(endpoints: seq<Endpoint>, algorithm: Algorithm, hashKey: Option<string>,
                fnv1a: string -> nat, counter: nat)
    returns (r: Option<nat>, next: nat)
    requires algorithm.ConsistentHashing? ==> algorithm.virtualNodes >= 1
    ensures r.Some? <==> exists j | 0 <= j < |endpoints| :: Available(endpoints[j])
    ensures !algorithm.WeightedRoundRobin? || r.None? ==> next == counter
    ensures algorithm.WeightedRoundRobin? && 0 < Total(Weights(endpoints, AvailableIndices(endpoints))) < U32 ==>
              next == counter + 1
    ensures r.Some? ==>
              && r.value < |endpoints| && Available(endpoints[r.value])
              && var hash := fnv1a(match hashKey case Some(key) => key case None => "default");
                 exists k | 0 <= k < |AvailableIndices(endpoints)| ::
                   && r.value == AvailableIndices(endpoints)[k]
                   && Chosen(endpoints, algorithm, hash, counter, k)
    ensures r.Some? && algorithm.LeastConnections? && Bounded(endpoints) ==> LeastLoaded(endpoints, r.value)
  {
    var ix := AvailableIndices(endpoints);
    if ix == [] { return None, counter; }
    assert Available(endpoints[ix[0]]);
    var key := match hashKey case Some(key) => key case None => "default";
    var k;
    k, next := Choose(endpoints, ix, algorithm, fnv1a(key), counter);
    r := Some(ix[k]);
    if algorithm.LeastConnections? && Bounded(endpoints) { LeastChosen(endpoints, fnv1a(key), counter, k); }
  }

  // ---- Fairness of `select_endpoint` itself ----

  /** How many of these positions fall in the share of `k`. */
  function CountIn(ws: seq<nat>, positions: seq<nat>, k: nat): nat
  {
    if positions == [] then 0
    else CountIn(ws, positions[..|positions| - 1], k) + if InShare(ws, positions[|positions| - 1], k) then 1 else 0
  }

  lemma CountInAppend(ws: seq<nat>, positions: seq<nat>, pos: nat, k: nat)
    ensures CountIn(ws, positions + [pos], k) == CountIn(ws, positions, k) + if InShare(ws, pos, k) then 1 else 0
  {
    assert (positions + [pos])[..|positions|] == positions;
  }

  /** Every available endpoint was picked as often as a position fell in its share, every other never. */
  ghost predicate Counted(endpoints: seq<Endpoint>, positions: seq<nat>, picks: seq<nat>)
  {
    var ix := AvailableIndices(endpoints);
    && (forall k | 0 <= k < |ix| :: Occurrences(picks, ix[k]) == CountIn(Weights(endpoints, ix), positions, k))
    && (forall j | 0 <= j < |endpoints| && !Available(endpoints[j]) :: Occurrences(picks, j) == 0)
  }

  lemma CountedStep(endpoints: seq<Endpoint>, positions: seq<nat>, picks: seq<nat>, pos: nat, k: nat)
    requires Counted(endpoints, positions, picks) && k < |AvailableIndices(endpoints)|
    requires InShare(Weights(endpoints, AvailableIndices(endpoints)), pos, k)
    ensures Counted(endpoints, positions + [pos], picks + [AvailableIndices(endpoints)[k]])
  {
    var ix := AvailableIndices(endpoints);
    var ws := Weights(endpoints, ix);
    forall j | 0 <= j < |ix| ensures Occurrences(picks + [ix[k]], ix[j]) == CountIn(ws, positions + [pos], j) {
      OccurrencesAppend(picks, ix[k], ix[j]);
      CountInAppend(ws, positions, pos, j);
      if InShare(ws, pos, j) { SharesAreDisjoint(ws, pos, k, j); }
      if k < j { assert ix[k] < ix[j]; } else if j < k { assert ix[j] < ix[k]; }
    }
    forall j | 0 <= j < |endpoints| && !Available(endpoints[j]) ensures Occurrences(picks + [ix[k]], j) == 0 {
      OccurrencesAppend(picks, ix[k], j);
    }
  }

  /** The positions are those of `counter` and the values after it. */
  ghost predicate Consecutive(counter: nat, total: nat, counters: seq<nat>, positions: seq<nat>)
    requires total > 0
  {
    && |counters| == |positions|
    && forall n | 0 <= n < |positions| :: counters[n] == counter + n && positions[n] == RingPosition(counters[n], total)
  }

  lemma ConsecutiveStep(counter: nat, total: nat, counters: seq<nat>, positions: seq<nat>, now: nat, pos: nat)
    requires total > 0 && Consecutive(counter, total, counters, positions)
    requires now == counter + |positions| && pos == RingPosition(now, total)
    ensures Consecutive(counter, total, counters + [now], positions + [pos])
  {}

  lemma {:induction false} ConsecutiveCount(ws: seq<nat>, counter: nat, counters: seq<nat>, positions: seq<nat>, k: nat)
    requires Total(ws) > 0 && Consecutive(counter, Total(ws), counters, positions)
    ensures CountIn(ws, positions, k) == CountPicks(ws, counter, |positions|, k)
  {
    if positions != [] {
      var n := |positions| - 1;
      ConsecutiveCount(ws, counter, counters[..n], positions[..n], k);
      PicksOneMore(ws, counter, n, counters[n], positions[n], k);
    }
  }

  lemma PicksOneMore(ws: seq<nat>, counter: nat, n: nat, now: nat, pos: nat, k: nat)
    requires Total(ws) > 0 && now == counter + n && pos == RingPosition(now, Total(ws))
    ensures CountPicks(ws, counter, n + 1, k) == CountPicks(ws, counter, n, k) + if InShare(ws, pos, k) then 1 else 0
  {
    assert counter + (n + 1) - 1 == now;
  }

  /** A Healthy endpoint is picked its weight times, a Degraded one half as often but once at least, an Unhealthy one never. */
  ghost predicate Fair(endpoints: seq<Endpoint>, picks: seq<nat>)
  {
    forall j | 0 <= j < |endpoints| :: FairShare(endpoints[j], Occurrences(picks, j))
  }

  predicate FairShare(e: Endpoint, times: nat)
  {
    match e.health
    case Healthy => times == e.weight
    case Degraded => times >= 1 && (e.weight >= 2 ==> 2 * times <= e.weight < 2 * times + 2) && (e.weight < 2 ==> times == 1)
    case Unhealthy => times == 0
  }

  lemma FairSelection(endpoints: seq<Endpoint>, counter: nat, counters: seq<nat>, positions: seq<nat>, picks: seq<nat>)
    requires var ws := Weights(endpoints, AvailableIndices(endpoints));
             && 0 < Total(ws) == |positions| && counter % U32 + Total(ws) <= U32
             && Consecutive(counter, Total(ws), counters, positions)
    requires Counted(endpoints, positions, picks)
    ensures Fair(endpoints, picks)
  {
    var ix := AvailableIndices(endpoints);
    var ws := Weights(endpoints, ix);
    forall j | 0 <= j < |endpoints| ensures FairShare(endpoints[j], Occurrences(picks, j)) {
      if Available(endpoints[j]) {
        var k :| 0 <= k < |ix| && ix[k] == j;
        ConsecutiveCount(ws, counter, counters, positions, k);
        WeightedFairness(ws, counter, k);
      }
    }
  }

  /** One selection under round robin: the endpoint whose share holds the counter's position. */
  method SelectOne(endpoints: seq<Endpoint>, hashKey: Option<string>, fnv1a: string -> nat, counter: nat)
    returns (pick: nat, next: nat, ghost pos: nat, ghost k: nat)
    requires 0 < Total(Weights(endpoints, AvailableIndices(endpoints))) < U32
    ensures next == counter + 1
    ensures pos == RingPosition(counter, Total(Weights(endpoints, AvailableIndices(endpoints))))
    ensures k < |AvailableIndices(endpoints)| && pick == AvailableIndices(endpoints)[k]
    ensures InShare(Weights(endpoints, AvailableIndices(endpoints)), pos, k)
  {
    ghost var ix := AvailableIndices(endpoints);
    assert ix != [] && Available(endpoints[ix[0]]);
    var r;
    r, next := Select(endpoints, WeightedRoundRobin, hashKey, fnv1a, counter);
    var key := match hashKey case Some(key) => key case None => "default";
    k :| 0 <= k < |ix| && r.value == ix[k] && Chosen(endpoints, WeightedRoundRobin, fnv1a(key), counter, k);
    pos := RingPosition(counter, Total(Weights(endpoints, ix)));
    pick := r.value;
  }

  /** `n` selections in a row on one counter. */
  method SelectMany(endpoints: seq<Endpoint>, hashKey: Option<string>, fnv1a: string -> nat, counter: nat, n: nat)
    returns (picks: seq<nat>, next: nat, ghost counters: seq<nat>, ghost positions: seq<nat>)
    requires 0 < Total(Weights(endpoints, AvailableIndices(endpoints))) < U32
    ensures |picks| == |positions| == n && next == counter + n
    ensures Consecutive(counter, Total(Weights(endpoints, AvailableIndices(endpoints))), counters, positions)
    ensures Counted(endpoints, positions, picks)
  {
    picks, next, counters, positions := [], counter, [], [];
    while |picks| < n
      invariant |picks| == |positions| <= n && next == counter + |picks|
      invariant Consecutive(counter, Total(Weights(endpoints, AvailableIndices(endpoints))), counters, positions)
      invariant Counted(endpoints, positions, picks)
    {
      ghost var total, now := Total(Weights(endpoints, AvailableIndices(endpoints))), next;
      var pick;
      ghost var pos, k;
      pick, next, pos, k := SelectOne(endpoints, hashKey, fnv1a, next);
      CountedStep(endpoints, positions, picks, pos, k);
      ConsecutiveStep(counter, total, counters, positions, now, pos);
      picks, counters, positions := picks + [pick], counters + [now], positions + [pos];
    }
  }

  /**
   `select_endpoint` under round robin, called for a full turn on one counter with health and weights
   fixed: every Healthy endpoint is returned exactly its weight times, every Degraded one half as often
   but once at least, an Unhealthy one never.
   */
  method SelectTurn(endpoints: seq<Endpoint>, hashKey: Option<string>, fnv1a: string -> nat, counter: nat)
    returns (picks: seq<nat>, next: nat)
    requires 0 < Total(Weights(endpoints, AvailableIndices(endpoints))) < U32
    requires counter % U32 + Total(Weights(endpoints, AvailableIndices(endpoints))) <= U32
    ensures |picks| == Total(Weights(endpoints, AvailableIndices(endpoints))) && next == counter + |picks|
    ensures Fair(endpoints, picks)
  {
    var total := Total(Weights(endpoints, AvailableIndices(endpoints)));
    ghost var counters, positions;
    picks, next, counters, positions := SelectMany(endpoints, hashKey, fnv1a, counter, total);
    FairSelection(endpoints, counter, counters, positions, picks);
  }

  /** With weights validated to be at least one, every available endpoint has a share to be picked from. */
  lemma AvailableHasWeight(endpoints: seq<Endpoint>)
    requires forall j | 0 <= j < |endpoints| :: endpoints[j].weight >= 1
    ensures var ix := AvailableIndices(endpoints);
            ix != [] ==> Total(Weights(endpoints, ix)) > 0
  {
    var ix := AvailableIndices(endpoints);
    if ix != [] {
      var ws := Weights(endpoints, ix);
      PrefixSumMonotone(ws, 1, |ws|);
      assert PrefixSum(ws, 1) == PrefixSum(ws, 0) + ws[0];
    }
  }
}

/**
 The lazy token bucket of crates/gateway-ratelimit/src/l1_local.rs. The Redis token-bucket
 script does the same arithmetic on a stored hash, so its module reuses `Step` and `Run`.

 Time is in seconds and tokens are fractional, both as `real`. A bucket that was never used
 is `None`; it is created full.
 */
module TokenBucket {
  import opened Numbers

  datatype Limits = Limits(capacity: nat, rate: nat)

  datatype Bucket = Bucket(tokens: real, lastRefill: real)

  /** Tokens accrued over `dt` seconds. */
  function Accrued(l: Limits, dt: real): real
  {
    l.rate as real * dt
  }

  /** Tokens on hand at `now`, after the refill and before the decision. */
  function Level(l: Limits, b: Option<Bucket>, now: real): real
  {
    match b
    case None => l.capacity as real
    case Some(b) => Min(l.capacity as real, b.tokens + Accrued(l, Max(0.0, now - b.lastRefill)))
  }

  /** The bucket after one request at `now`, whether or not that request was admitted. */
  function Step(l: Limits, b: Option<Bucket>, now: real): Option<Bucket>
  {
    var level := Level(l, b, now);
    Some(Bucket(if level >= 1.0 then level - 1.0 else level, now))
  }

  /** The bucket after a whole run of requests, oldest first. */
  function Run(l: Limits, times: seq<real>): Option<Bucket>
  {
    if times == [] then None
    else Step(l, Run(l, times[..|times| - 1]), times[|times| - 1])
  }

  /** Which requests of the run were admitted. */
  function Decisions(l: Limits, times: seq<real>): (ds: seq<bool>)
    ensures |ds| == |times|
  {
    if times == [] then []
    else
      var before := times[..|times| - 1];
      Decisions(l, before) + [Level(l, Run(l, before), times[|times| - 1]) >= 1.0]
  }

  function Count(ds: seq<bool>): nat
  {
    if ds == [] then 0
    else Count(ds[..|ds| - 1]) + if ds[|ds| - 1] then 1 else 0
  }

  lemma {:induction false} RunAppend(l: Limits, times: seq<real>, now: real)
    ensures Run(l, times + [now]) == Step(l, Run(l, times), now)
    ensures Decisions(l, times + [now]) == Decisions(l, times) + [Level(l, Run(l, times), now) >= 1.0]
  {
    assert (times + [now])[..|times|] == times;
  }

  /** A bucket created full at `now` behaves as no bucket at all. */
  lemma FreshBucket(l: Limits, now: real)
    ensures Level(l, Some(Bucket(l.capacity as real, now)), now) == Level(l, None, now)
  {
    assert Accrued(l, Max(0.0, now - now)) == 0.0;
  }

  lemma AccruedAdds(l: Limits, x: real, y: real)
    ensures Accrued(l, x + y) == Accrued(l, x) + Accrued(l, y)
    ensures x <= y ==> Accrued(l, x) <= Accrued(l, y)
  {
    if x <= y {
      assert l.rate as real * (y - x) >= 0.0;
      assert Accrued(l, y) == Accrued(l, x) + l.rate as real * (y - x);
    }
  }

  // ---- The closed form ----

  /** The time at which the i-th start lies: a past request, or the request being decided. */
  function StartTime(times: seq<real>, now: real, i: nat): real
    requires i <= |times|
  {
    if i < |times| then times[i] else now
  }

  /** What the arrival curve starting at request `i` still allows at `now`. */
  function Headroom(l: Limits, times: seq<real>, ds: seq<bool>, now: real, i: nat): real
    requires i <= |times| == |ds|
  {
    l.capacity as real + Accrued(l, now - StartTime(times, now, i)) - Count(ds[i..]) as real
  }

  /** How far the clock moved forward, step by step, from request `i` to `now`; steps back count nothing. */
  function Forward(times: seq<real>, now: real, i: nat): real
    requires i <= |times|
  {
    if i == |times| then 0.0
    else
      var before, t := times[..|times| - 1], times[|times| - 1];
      Forward(before, t, i) + Max(0.0, now - t)
  }

  /** What the steps forward since request `i` still allow at `now`. */
  function Reach(l: Limits, times: seq<real>, ds: seq<bool>, now: real, i: nat): real
    requires i <= |times| == |ds|
  {
    l.capacity as real + Accrued(l, Forward(times, now, i)) - Count(ds[i..]) as real
  }

  lemma ReachShift(l: Limits, times: seq<real>, ds: seq<bool>, t: real, d: bool, now: real, i: nat)
    requires i <= |times| == |ds|
    ensures Reach(l, times + [t], ds + [d], now, i)
         == Reach(l, times, ds, t, i) - (if d then 1.0 else 0.0) + Accrued(l, Max(0.0, now - t))
  {
    assert (times + [t])[..|times|] == times;
    assert Forward(times + [t], now, i) == Forward(times, t, i) + Max(0.0, now - t);
    AccruedAdds(l, Forward(times, t, i), Max(0.0, now - t));
    var tail := (ds + [d])[i..];
    assert tail[..|tail| - 1] == ds[i..];
    assert tail[|tail| - 1] == d;
  }

  /** One lazy refill, from the level the previous request saw. */
  lemma LevelStep(l: Limits, times: seq<real>, t: real, now: real)
    ensures var prev := Level(l, Run(l, times), t);
            Level(l, Run(l, times + [t]), now)
            == Min(l.capacity as real, prev - (if prev >= 1.0 then 1.0 else 0.0) + Accrued(l, Max(0.0, now - t)))
  {
    RunAppend(l, times, t);
  }

  /**
   Exactness for timestamps in any order: tokens on hand equal the minimum, over every earlier start,
   of capacity plus what accrued over the steps forward since then, minus the admissions since then.
   */
  lemma {:induction false} AnyOrderForm(l: Limits, times: seq<real>, now: real)
    ensures forall i | 0 <= i <= |times| ::
              Level(l, Run(l, times), now) <= Reach(l, times, Decisions(l, times), now, i)
    ensures exists i | 0 <= i <= |times| ::
              Level(l, Run(l, times), now) == Reach(l, times, Decisions(l, times), now, i)
  {
    var n := |times|;
    var ds := Decisions(l, times);
    var level := Level(l, Run(l, times), now);
    assert ds[n..] == [];
    assert Accrued(l, 0.0) == 0.0;
    assert Reach(l, times, ds, now, n) == l.capacity as real;
    if n > 0 {
      var before, t := times[..n - 1], times[n - 1];
      assert before + [t] == times;
      AnyOrderForm(l, before, t);
      var ds0 := Decisions(l, before);
      var d := Level(l, Run(l, before), t) >= 1.0;
      RunAppend(l, before, t);
      LevelStep(l, before, t, now);
      var prev := Level(l, Run(l, before), t) - (if d then 1.0 else 0.0) + Accrued(l, Max(0.0, now - t));
      forall i | 0 <= i <= n ensures level <= Reach(l, times, ds, now, i) {
        if i < n { ReachShift(l, before, ds0, t, d, now, i); }
      }
      var k :| 0 <= k <= n - 1 && Level(l, Run(l, before), t) == Reach(l, before, ds0, t, k);
      ReachShift(l, before, ds0, t, d, now, k);
      assert Reach(l, times, ds, now, k) == prev;
    }
  }

  lemma {:induction false} ForwardInOrder(times: seq<real>, now: real, i: nat)
    requires NonDecreasing(times + [now]) && i <= |times|
    ensures Forward(times, now, i) == now - StartTime(times, now, i)
  {
    if i < |times| {
      var before, t := times[..|times| - 1], times[|times| - 1];
      assert before + [t] == times;
      NonDecreasingPrefix(times, now);
      ForwardInOrder(before, t, i);
    }
  }

  /**
   Exactness: tokens on hand equal the minimum, over every earlier start, of what the arrival
   curve from that start still allows. No timer, no drift: the lazy refill is the continuous one.
   */
  lemma ClosedForm(l: Limits, times: seq<real>, now: real)
    requires NonDecreasing(times + [now])
    ensures forall i | 0 <= i <= |times| ::
              Level(l, Run(l, times), now) <= Headroom(l, times, Decisions(l, times), now, i)
    ensures exists i | 0 <= i <= |times| ::
              Level(l, Run(l, times), now) == Headroom(l, times, Decisions(l, times), now, i)
  {
    var ds := Decisions(l, times);
    AnyOrderForm(l, times, now);
    forall i | 0 <= i <= |times| ensures Headroom(l, times, ds, now, i) == Reach(l, times, ds, now, i) {
      ForwardInOrder(times, now, i);
    }
    var k :| 0 <= k <= |times| && Level(l, Run(l, times), now) == Reach(l, times, ds, now, k);
    assert Level(l, Run(l, times), now) == Headroom(l, times, ds, now, k);
  }

  lemma {:induction false} LevelNonNegative(l: Limits, times: seq<real>, now: real)
    ensures Level(l, Run(l, times), now) >= 0.0
  {
    if times == [] {
      assert Run(l, times) == None;
    } else {
      var before, t := times[..|times| - 1], times[|times| - 1];
      assert before + [t] == times;
      LevelNonNegative(l, before, t);
      LevelStep(l, before, t, now);
      AccruedAdds(l, 0.0, Max(0.0, now - t));
    }
  }

  /**
   The bound that needs no order: over any stretch of requests, tokens left plus admissions never
   exceed capacity plus what accrues over the stretch's steps forward.
   */
  lemma StretchBound(l: Limits, before: seq<real>, t: real, i: nat)
    requires i <= |before|
    ensures var d := Level(l, Run(l, before), t) >= 1.0;
            Run(l, before + [t]).value.tokens + Count((Decisions(l, before) + [d])[i..]) as real
            <= l.capacity as real + Accrued(l, Forward(before, t, i))
  {
    var ds, d := Decisions(l, before), Level(l, Run(l, before), t) >= 1.0;
    RunAppend(l, before, t);
    AnyOrderForm(l, before, t);
    assert Level(l, Run(l, before), t) <= Reach(l, before, ds, t, i);
    var tail := (ds + [d])[i..];
    assert tail[..|tail| - 1] == ds[i..];
    assert tail[|tail| - 1] == d;
  }

  // ---- The decisions, characterised without any bucket ----

  /** Admitting one more request at `now` breaks the arrival curve of no earlier start. */
  ghost predicate Fits(l: Limits, times: seq<real>, ds: seq<bool>, now: real)
    requires |times| == |ds|
  {
    forall i | 0 <= i <= |times| ::
      Count(ds[i..]) as real + 1.0 <= l.capacity as real + Accrued(l, now - StartTime(times, now, i))
  }

  /** Every request was admitted exactly when it fitted the curve of every earlier start. */
  ghost predicate Greedy(l: Limits, times: seq<real>, ds: seq<bool>)
  {
    && |times| == |ds|
    && forall j | 0 <= j < |times| :: ds[j] <==> Fits(l, times[..j], ds[..j], times[j])
  }

  lemma AdmittedIffFits(l: Limits, times: seq<real>, now: real)
    requires NonDecreasing(times + [now])
    ensures Level(l, Run(l, times), now) >= 1.0 <==> Fits(l, times, Decisions(l, times), now)
  {
    ClosedForm(l, times, now);
    var ds := Decisions(l, times);
    var level := Level(l, Run(l, times), now);
    if level >= 1.0 {
      forall i | 0 <= i <= |times|
        ensures Count(ds[i..]) as real + 1.0 <= l.capacity as real + Accrued(l, now - StartTime(times, now, i))
      {
        assert level <= Headroom(l, times, ds, now, i);
      }
    } else {
      var k :| 0 <= k <= |times| && level == Headroom(l, times, ds, now, k);
      assert !(Count(ds[k..]) as real + 1.0 <= l.capacity as real + Accrued(l, now - StartTime(times, now, k)));
    }
  }

  /** The bucket's decisions are the one and only greedy sequence for the arrival curve. */
  lemma {:induction false} BucketIsGreedy(l: Limits, times: seq<real>, ds: seq<bool>)
    requires NonDecreasing(times)
    ensures Greedy(l, times, ds) <==> ds == Decisions(l, times)
  {
    if |times| == |ds| > 0 {
      var n := |times| - 1;
      var before, t := times[..n], times[n];
      assert before + [t] == times;
      assert ds[..n] + [ds[n]] == ds;
      NonDecreasingPrefix(before, t);
      BucketIsGreedy(l, before, ds[..n]);
      GreedyStep(l, before, t, ds[..n], ds[n]);
    }
  }

  lemma GreedyStep(l: Limits, before: seq<real>, t: real, ds: seq<bool>, d: bool)
    requires NonDecreasing(before + [t]) && |before| == |ds|
    requires Greedy(l, before, ds) <==> ds == Decisions(l, before)
    ensures Greedy(l, before + [t], ds + [d]) <==> ds + [d] == Decisions(l, before + [t])
  {
    GreedyAppend(l, before, t, ds, d);
    RunAppend(l, before, t);
    SameLast(ds, d, Decisions(l, before), Level(l, Run(l, before), t) >= 1.0);
    AdmittedIffFits(l, before, t);
  }

  lemma SameLast(xs: seq<bool>, x: bool, ys: seq<bool>, y: bool)
    requires |xs| == |ys|
    ensures xs + [x] == ys + [y] <==> xs == ys && x == y
  {
    assert (xs + [x])[..|xs|] == xs && (ys + [y])[..|ys|] == ys;
    assert (xs + [x])[|xs|] == x && (ys + [y])[|ys|] == y;
  }

  lemma GreedyAppend(l: Limits, before: seq<real>, t: real, ds: seq<bool>, d: bool)
    requires |before| == |ds|
    ensures Greedy(l, before + [t], ds + [d]) <==> Greedy(l, before, ds) && (d <==> Fits(l, before, ds, t))
  {
    var times, all := before + [t], ds + [d];
    forall j | 0 <= j <= |before|
      ensures times[..j] == before[..j] && all[..j] == ds[..j]
    {}
    assert before[..|before|] == before && ds[..|ds|] == ds;
    assert times[|before|] == t && all[|before|] == d;
    if Greedy(l, times, all) {
      forall j | 0 <= j < |before| ensures ds[j] <==> Fits(l, before[..j], ds[..j], before[j]) {
        assert all[j] <==> Fits(l, times[..j], all[..j], times[j]);
      }
    }
    if Greedy(l, before, ds) && (d <==> Fits(l, before, ds, t)) {
      forall j | 0 <= j < |times| ensures all[j] <==> Fits(l, times[..j], all[..j], times[j]) {
        if j < |before| { assert ds[j] <==> Fits(l, before[..j], ds[..j], before[j]); }
      }
    }
  }

  // ---- The arrival curve over any interval of time ----

  /** Admissions with a timestamp in [from, to]. */
  function AdmittedIn(l: Limits, times: seq<real>, from: real, to: real): nat
  {
    if times == [] then 0
    else
      var before, t := times[..|times| - 1], times[|times| - 1];
      AdmittedIn(l, before, from, to)
      + if from <= t <= to && Level(l, Run(l, before), t) >= 1.0 then 1 else 0
  }

  /** No interval, wherever it starts, holds more than capacity plus what accrues over its length. */
  lemma {:induction false} ArrivalCurve(l: Limits, times: seq<real>, from: real, to: real)
    requires NonDecreasing(times)
    requires from <= to
    ensures AdmittedIn(l, times, from, to) as real <= l.capacity as real + Accrued(l, to - from)
  {
    AccruedAdds(l, 0.0, to - from);
    if times != [] {
      ArrivalPotential(l, times, from, to);
      var last := times[|times| - 1];
      if last <= to { AccruedAdds(l, Max(last, from) - from, to - from); }
    }
  }

  /** Tokens left plus admissions since `from` never exceed what the curve has released so far. */
  lemma {:induction false} ArrivalPotential(l: Limits, times: seq<real>, from: real, to: real)
    requires NonDecreasing(times) && times != []
    requires from <= to
    ensures Run(l, times).Some? && Run(l, times).value.lastRefill == times[|times| - 1]
    ensures 0.0 <= Run(l, times).value.tokens <= l.capacity as real
    ensures times[|times| - 1] < from ==> AdmittedIn(l, times, from, to) == 0
    ensures times[|times| - 1] <= to ==>
              Run(l, times).value.tokens + AdmittedIn(l, times, from, to) as real
              <= l.capacity as real + Accrued(l, Max(times[|times| - 1], from) - from)
    ensures AdmittedIn(l, times, from, to) as real <= l.capacity as real + Accrued(l, to - from)
  {
    var before, t := times[..|times| - 1], times[|times| - 1];
    assert before + [t] == times;
    NonDecreasingPrefix(before, t);
    AccruedAdds(l, 0.0, to - from);
    if before == [] {
      AccruedAdds(l, 0.0, Max(t, from) - from);
    } else {
      ArrivalPotential(l, before, from, to);
      assert before[|before| - 1] <= t;
      PotentialStep(l, Run(l, before).value, AdmittedIn(l, before, from, to), t, from, to);
    }
  }

  /** The potential argument for one request, on one bucket and one count. */
  lemma PotentialStep(l: Limits, b: Bucket, count: nat, t: real, from: real, to: real)
    requires b.lastRefill <= t && from <= to
    requires 0.0 <= b.tokens <= l.capacity as real
    requires b.lastRefill < from ==> count == 0
    requires b.lastRefill <= to ==>
               b.tokens + count as real <= l.capacity as real + Accrued(l, Max(b.lastRefill, from) - from)
    requires count as real <= l.capacity as real + Accrued(l, to - from)
    ensures var level := Level(l, Some(b), t); var after := Step(l, Some(b), t).value;
            var more := count + if from <= t <= to && level >= 1.0 then 1 else 0;
            && 0.0 <= after.tokens <= l.capacity as real
            && (t <= to ==> after.tokens + more as real <= l.capacity as real + Accrued(l, Max(t, from) - from))
            && more as real <= l.capacity as real + Accrued(l, to - from)
  {
    AccruedAdds(l, 0.0, t - b.lastRefill);
    if t <= to {
      AccruedAdds(l, Max(t, from) - from, to - from);
      if from <= b.lastRefill {
        AccruedAdds(l, t - b.lastRefill, b.lastRefill - from);
        assert (t - b.lastRefill) + (b.lastRefill - from) == t - from;
      } else {
        AccruedAdds(l, 0.0, Max(t, from) - from);
      }
    }
  }

  /** How far the clock moved forward from request `i` to the last. */
  function StepsForward(times: seq<real>, i: nat): real
    requires i < |times|
  {
    Forward(times[..|times| - 1], times[|times| - 1], i)
  }

  /** Admissions from request `i` on. */
  function CountFrom(ds: seq<bool>, i: nat): nat
  {
    if i <= |ds| then Count(ds[i..]) else 0
  }

  lemma CountFromAppend(ds: seq<bool>, d: bool, i: nat)
    ensures CountFrom(ds + [d], i) == CountFrom(ds, i) + if i <= |ds| && d then 1 else 0
  {
    if i <= |ds| {
      var tail := (ds + [d])[i..];
      assert tail[..|tail| - 1] == ds[i..];
      assert tail[|tail| - 1] == d;
    } else if i == |ds| + 1 {
      assert (ds + [d])[i..] == [];
    }
  }

  /** The same bound, for the admissions from request `i` to the last. */
  lemma AdmittedFromBound(l: Limits, times: seq<real>, i: nat)
    requires i < |times|
    ensures CountFrom(Decisions(l, times), i) as real <= l.capacity as real + Accrued(l, StepsForward(times, i))
  {
    var before, t := times[..|times| - 1], times[|times| - 1];
    assert before + [t] == times;
    RunAppend(l, before, t);
    StretchBound(l, before, t, i);
    LevelNonNegative(l, before, t);
  }

  /** `k` times: a request at 0 that was overtaken, then one at 1. */
  function Overtaken(k: nat): seq<real>
  {
    if k == 0 then [] else Overtaken(k - 1) + [0.0] + [1.0]
  }

  lemma AdmittedInAppend(l: Limits, times: seq<real>, t: real, from: real, to: real)
    ensures AdmittedIn(l, times + [t], from, to)
         == AdmittedIn(l, times, from, to) + if from <= t <= to && Level(l, Run(l, times), t) >= 1.0 then 1 else 0
  {
    assert (times + [t])[..|times|] == times;
  }

  /** Order is needed for the arrival curve: out of order, one interval of one second admits any number. */
  lemma {:induction false} OvertakenUnbounded(l: Limits, k: nat)
    requires l.capacity >= 1 && l.rate >= 1
    ensures AdmittedIn(l, Overtaken(k), 0.0, 1.0) >= k
  {
    if k > 0 {
      var before := Overtaken(k - 1);
      OvertakenUnbounded(l, k - 1);
      AdmittedInAppend(l, before, 0.0, 0.0, 1.0);
      AdmittedInAppend(l, before + [0.0], 1.0, 0.0, 1.0);
      LevelStep(l, before, 0.0, 1.0);
      LevelNonNegative(l, before, 0.0);
      assert Accrued(l, Max(0.0, 1.0 - 0.0)) == l.rate as real;
    }
  }

  // ---- Bursts: what the reported `remaining` means ----

  /** The bucket after `k` further requests at the same instant. */
  function Burst(l: Limits, b: Option<Bucket>, now: real, k: nat): Option<Bucket>
  {
    if k == 0 then b else Step(l, Burst(l, b, now, k - 1), now)
  }

  /**
   The floor of the level is exactly how many requests can be admitted at this instant: the
   (k+1)-st of a burst is admitted if and only if k is below it.
   */
  lemma {:induction false} RemainingIsExact(l: Limits, b: Option<Bucket>, now: real, k: nat)
    requires Level(l, b, now) >= 0.0
    ensures var level := Level(l, b, now); var later := Level(l, Burst(l, b, now, k), now);
            && later == (if k <= level.Floor then level - k as real else level - level.Floor as real)
            && (later >= 1.0 <==> k < level.Floor)
  {
    if k > 0 {
      RemainingIsExact(l, b, now, k - 1);
      var prev := Burst(l, b, now, k - 1);
      assert Accrued(l, Max(0.0, now - now)) == 0.0;
      assert Level(l, prev, now) <= l.capacity as real;
    }
  }

  /** This bucket is what a non-empty, ordered run of requests leaves. */
  ghost predicate BucketOf(l: Limits, times: seq<real>, b: Bucket)
  {
    times != [] && NonDecreasing(times) && Run(l, times) == Some(b)
  }

  /** One more request leaves the bucket of the longer run. */
  lemma NextBucket(l: Limits, past: seq<real>, now: real)
    requires NonDecreasing(past + [now])
    ensures BucketOf(l, past + [now], Step(l, Run(l, past), now).value)
  {
    RunAppend(l, past, now);
  }

  /** `Bucket::consume`: refills for the time elapsed, then takes a token if there is one. */
  method Consume(l: Limits, b: Bucket, now: real) returns (after: Bucket, allowed: bool)
    ensures Some(after) == Step(l, Some(b), now)
    ensures allowed <==> Level(l, Some(b), now) >= 1.0
  {
    var elapsed := Max(0.0, now - b.lastRefill);
    var tokens := Min(l.capacity as real, b.tokens + Accrued(l, elapsed));
    allowed := tokens >= 1.0;
    if allowed { tokens := tokens - 1.0; }
    after := Bucket(tokens, now);
  }

  /**
   `L1LocalLimiter`: the map from key to bucket, with the request times of every key kept as
   ghost history. `Valid` says each bucket is the result of its own key's run alone.
   */
  class L1LocalLimiter {
    const limits: Limits
    var buckets: map<string, Bucket>
    ghost var history: map<string, seq<real>>

    ghost predicate Valid()
      reads this
    {
      && history.Keys == buckets.Keys
      && forall k | k in buckets :: BucketOf(limits, history[k], buckets[k])
    }

    ghost function Past(key: string): (times: seq<real>)
      reads this
    {
      if key in history then history[key] else []
    }

    constructor (config: Limits)
      ensures Valid() && limits == config && history == map[]
    {
      limits := config;
      buckets, history := map[], map[];
    }

    /** Admits exactly when one more admission at `now` fits every arrival curve of this key's run. */
    method Check(key: string, now: real) returns (allowed: bool)
      requires Valid()
      requires NonDecreasing(Past(key) + [now])
      modifies this
      ensures Valid()
      ensures history == old(history)[key := old(Past(key)) + [now]]
      ensures forall k | k in old(buckets) && k != key :: k in buckets && buckets[k] == old(buckets[k])
      ensures allowed <==> Fits(limits, old(Past(key)), Decisions(limits, old(Past(key))), now)
    {
      ghost var past := Past(key);
      FreshBucket(limits, now);
      NextBucket(limits, past, now);
      AdmittedIffFits(limits, past, now);
      var b := if key in buckets then buckets[key] else Bucket(limits.capacity as real, now);
      assert Step(limits, Some(b), now) == Step(limits, Run(limits, past), now);
      b, allowed := Consume(limits, b, now);
      buckets := buckets[key := b];
      history := history[key := past + [now]];
    }

    /** Whole tokens on hand; for a key never seen, the capacity. */
    method Remaining(key: string, now: real) returns (r: int)
      requires Valid()
      ensures r == Level(limits, Run(limits, Past(key)), now).Floor
    {
      if key in buckets {
        var b := buckets[key];
        var projected := Min(limits.capacity as real, b.tokens + Accrued(limits, Max(0.0, now - b.lastRefill)));
        r := projected.Floor;
      } else {
        r := limits.capacity;
      }
    }
  }
}

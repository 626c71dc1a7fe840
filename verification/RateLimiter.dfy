/**
 `RateLimiter::check` of crates/gateway-ratelimit/src/limiter.rs: the local bucket first, then the
 shared Redis script, failing open when Redis does. A cluster is any number of replicas, each with
 its own local buckets and its own monotonic clock, over one Redis. `check` suspends between the
 two, so a request is two steps, and any steps of other requests may come in between.
 */
module RateLimiter {
  import opened Numbers
  import opened TokenBucket
  import RedisTokenBucket
  import SlidingWindow

  datatype Distributed =
    | ByTokenBucket(limits: Limits)
    | BySlidingWindow(window: SlidingWindow.Window)

  datatype Policy = Policy(local: Limits, distributed: Distributed)

  /** What Redis holds under one key: nothing, a hash for one script, or a sorted set for the other. */
  datatype L2Key = Absent | Hash(bucket: Bucket) | ZSet(members: SlidingWindow.SortedSet)

  function HashOf(k: L2Key): Option<Bucket>
  {
    if k.Hash? then Some(k.bucket) else None
  }

  function MembersOf(k: L2Key): SlidingWindow.SortedSet
  {
    if k.ZSet? then k.members else map[]
  }

  function BucketKey(hash: Option<Bucket>): L2Key
  {
    match hash case None => Absent case Some(b) => Hash(b)
  }

  /** Redis keeps no empty sets. */
  function SetKey(members: SlidingWindow.SortedSet): L2Key
  {
    if members == map[] then Absent else ZSet(members)
  }

  /** A key left by the other script: every command on it raises an error. */
  predicate WrongType(c: Distributed, k: L2Key)
  {
    (c.ByTokenBucket? && k.ZSet?) || (c.BySlidingWindow? && k.Hash?)
  }

  /**
   How Redis behaves during one call. `ReplyLost`: the script ran but its answer never arrived.
   `Rogue`: it answers whatever it likes and leaves whatever it likes under the key.
   */
  datatype Redis = Up | Unreachable | ReplyLost | Rogue(verdict: bool, key: L2Key)

  /** One call of the script; `dropped` says that Redis dropped the key since the call before. */
  datatype Call = Call(wall: real, id: string, dropped: bool, redis: Redis)

  /** The steps of requests for the key under study. */
  datatype Event =
    | Local(req: nat, replica: nat, mono: real)   // the local bucket decides
    | Shared(req: nat, call: Call)                // the script runs, for a request that passed locally

  /** The scripts' answer; None is a script error. */
  function ScriptAllows(c: Distributed, k: L2Key, wall: real): Option<bool>
  {
    if WrongType(c, k) then None
    else
      match c
      case ByTokenBucket(l) =>
        (match RedisTokenBucket.ReplyOf(l, HashOf(k), wall)
         case Reply(o) => Some(o.allowed)
         case ScriptError => None)
      case BySlidingWindow(w) => Some(SlidingWindow.Admits(w, MembersOf(k), wall))
  }

  function ScriptState(c: Distributed, k: L2Key, wall: real, id: string): L2Key
  {
    if WrongType(c, k) then k
    else
      match c
      case ByTokenBucket(l) => BucketKey(Step(l, HashOf(k), wall))
      case BySlidingWindow(w) => SetKey(SlidingWindow.Step(w, MembersOf(k), SlidingWindow.Request(wall, id)))
  }

  function Found(k: L2Key, call: Call): L2Key
  {
    if call.dropped then Absent else k
  }

  /** `L2RedisLimiter::check`: any failure admits. */
  function L2Allows(c: Distributed, k: L2Key, call: Call): bool
  {
    match call.redis
    case Up => (match ScriptAllows(c, Found(k, call), call.wall) case Some(allowed) => allowed case None => true)
    case Unreachable => true
    case ReplyLost => true
    case Rogue(verdict, _) => verdict
  }

  function L2After(c: Distributed, k: L2Key, call: Call): L2Key
  {
    match call.redis
    case Up => ScriptState(c, Found(k, call), call.wall, call.id)
    case Unreachable => k
    case ReplyLost => ScriptState(c, Found(k, call), call.wall, call.id)
    case Rogue(_, key) => key
  }

  /** Where and when a request passed its local bucket. */
  datatype Pass = Pass(replica: nat, mono: real)

  /** All state about one key: a bucket per replica, the Redis key, and the requests in between. */
  datatype Cluster = Cluster(l1: map<nat, Bucket>, l2: L2Key, waiting: map<nat, Pass>)

  const IDLE := Cluster(map[], Absent, map[])

  function LocalBucket(s: Cluster, replica: nat): Option<Bucket>
  {
    if replica in s.l1 then Some(s.l1[replica]) else None
  }

  predicate L1Passes(p: Policy, s: Cluster, replica: nat, mono: real)
  {
    Level(p.local, LocalBucket(s, replica), mono) >= 1.0
  }

  /** Only a request that its local bucket let through goes on to Redis. */
  predicate Enabled(s: Cluster, e: Event)
  {
    e.req in s.waiting <==> e.Shared?
  }

  function Next(p: Policy, s: Cluster, e: Event): Cluster
  {
    match e
    case Local(req, replica, mono) =>
      s.(l1 := s.l1[replica := Step(p.local, LocalBucket(s, replica), mono).value],
         waiting := if L1Passes(p, s, replica, mono) then s.waiting[req := Pass(replica, mono)] else s.waiting)
    case Shared(req, call) =>
      s.(l2 := L2After(p.distributed, s.l2, call), waiting := s.waiting - {req})
  }

  /** The step that admits a request. */
  predicate Admits(p: Policy, s: Cluster, e: Event)
  {
    e.Shared? && L2Allows(p.distributed, s.l2, e.call)
  }

  function Play(p: Policy, run: History<Event>): Cluster
  {
    match run
    case Nothing => IDLE
    case Then(past, e) => Next(p, Play(p, past), e)
  }

  predicate Possible(p: Policy, run: History<Event>)
  {
    run.Then? ==> Possible(p, run.past) && Enabled(Play(p, run.past), run.last)
  }

  // ---- The local bound, whatever Redis does ----

  /** The times, on its own clock, at which one replica's bucket was asked. */
  function LocalTimes(run: History<Event>, replica: nat): seq<real>
  {
    match run
    case Nothing => []
    case Then(past, e) =>
      if e.Local? && e.replica == replica then LocalTimes(past, replica) + [e.mono] else LocalTimes(past, replica)
  }

  /** No reading of this replica's clock is later than `t`. */
  predicate ClockUpTo(run: History<Event>, replica: nat, t: real)
  {
    run.Then? ==>
      ClockUpTo(run.past, replica, t) && (run.last.Local? && run.last.replica == replica ==> run.last.mono <= t)
  }

  /** Each replica's monotonic clock never runs backwards; clocks of different replicas are unrelated. */
  predicate MonotonicClocks(run: History<Event>)
  {
    run.Then? ==>
      MonotonicClocks(run.past) && (run.last.Local? ==> ClockUpTo(run.past, run.last.replica, run.last.mono))
  }

  /** A replica's bucket is the result of its own requests alone. */
  lemma {:induction false} LocalBucketIsRun(p: Policy, run: History<Event>, replica: nat)
    ensures LocalBucket(Play(p, run), replica) == Run(p.local, LocalTimes(run, replica))
  {
    if run.Then? {
      LocalBucketIsRun(p, run.past, replica);
      if run.last.Local? { RunAppend(p.local, LocalTimes(run.past, replica), run.last.mono); }
    }
  }

  lemma {:induction false} LocalTimesBelow(run: History<Event>, replica: nat, t: real)
    requires ClockUpTo(run, replica, t)
    ensures forall i | 0 <= i < |LocalTimes(run, replica)| :: LocalTimes(run, replica)[i] <= t
  {
    if run.Then? { LocalTimesBelow(run.past, replica, t); }
  }

  lemma {:induction false} LocalTimesOrdered(run: History<Event>, replica: nat)
    requires MonotonicClocks(run)
    ensures NonDecreasing(LocalTimes(run, replica))
  {
    if run.Then? {
      LocalTimesOrdered(run.past, replica);
      if run.last.Local? && run.last.replica == replica { LocalTimesBelow(run.past, replica, run.last.mono); }
    }
  }

  /** One interval of length `d` for each replica below |starts|, on that replica's own clock. */
  predicate InInterval(pass: Pass, starts: seq<real>, d: real)
  {
    pass.replica < |starts| && starts[pass.replica] <= pass.mono <= starts[pass.replica] + d
  }

  predicate AdmitsWithin(p: Policy, s: Cluster, e: Event, starts: seq<real>, d: real)
  {
    Admits(p, s, e) && e.req in s.waiting && InInterval(s.waiting[e.req], starts, d)
  }

  /** Admitted requests whose local check fell into its replica's interval. */
  function AdmittedWithin(p: Policy, run: History<Event>, starts: seq<real>, d: real): nat
  {
    match run
    case Nothing => 0
    case Then(past, e) =>
      AdmittedWithin(p, past, starts, d) + if AdmitsWithin(p, Play(p, past), e, starts, d) then 1 else 0
  }

  /** Requests on their way to Redis whose local check fell into its replica's interval. */
  function WaitingWithin(s: Cluster, starts: seq<real>, d: real): set<nat>
  {
    set req | req in s.waiting && InInterval(s.waiting[req], starts, d)
  }

  /** The request went to this replica, at a time in [from, to], and its bucket let it through. */
  predicate PassesAt(p: Policy, s: Cluster, e: Event, replica: nat, from: real, to: real)
  {
    e.Local? && e.replica == replica && from <= e.mono <= to && L1Passes(p, s, replica, e.mono)
  }

  /** What one replica's bucket let through in [from, to]. */
  function LocalCount(p: Policy, run: History<Event>, replica: nat, from: real, to: real): nat
  {
    match run
    case Nothing => 0
    case Then(past, e) =>
      LocalCount(p, past, replica, from, to) + if PassesAt(p, Play(p, past), e, replica, from, to) then 1 else 0
  }

  /** That count, for each replica in its own interval of length `d`. */
  function LocalCounts(p: Policy, run: History<Event>, starts: seq<real>, d: real): (counts: seq<nat>)
    ensures |counts| == |starts|
    ensures forall i | 0 <= i < |starts| :: counts[i] == LocalCount(p, run, i, starts[i], starts[i] + d)
  {
    seq(|starts|, i requires 0 <= i < |starts| => LocalCount(p, run, i, starts[i], starts[i] + d))
  }

  function Sum(counts: seq<nat>): nat
  {
    if counts == [] then 0 else counts[0] + Sum(counts[1..])
  }

  lemma {:induction false} SumAfterOne(before: seq<nat>, after: seq<nat>, k: nat)
    requires k < |before| == |after|
    requires forall i | 0 <= i < |before| :: after[i] == before[i] + if i == k then 1 else 0
    ensures Sum(after) == Sum(before) + 1
  {
    if k > 0 {
      SumAfterOne(before[1..], after[1..], k - 1);
    } else {
      assert after[1..] == before[1..];
    }
  }

  lemma PassesByRun(p: Policy, run: History<Event>, replica: nat, mono: real)
    ensures L1Passes(p, Play(p, run), replica, mono)
            <==> Level(p.local, Run(p.local, LocalTimes(run, replica)), mono) >= 1.0
  {
    LocalBucketIsRun(p, run, replica);
  }

  /** A replica's count is that of one token bucket over its own requests. */
  lemma {:induction false} LocalCountIsBucket(p: Policy, run: History<Event>, replica: nat, from: real, to: real)
    ensures LocalCount(p, run, replica, from, to) == AdmittedIn(p.local, LocalTimes(run, replica), from, to)
  {
    if run.Then? {
      LocalCountIsBucket(p, run.past, replica, from, to);
      if run.last.Local? && run.last.replica == replica {
        AdmittedInAppend(p.local, LocalTimes(run.past, replica), run.last.mono, from, to);
        PassesByRun(p, run.past, replica, run.last.mono);
      }
    }
  }

  /** The event lets a request through whose local check falls into its replica's interval. */
  predicate PassesWithin(p: Policy, s: Cluster, e: Event, starts: seq<real>, d: real)
  {
    e.Local? && InInterval(Pass(e.replica, e.mono), starts, d) && L1Passes(p, s, e.replica, e.mono)
  }

  /** A request its local bucket lets through adds one to its own replica's count and to no other. */
  lemma LocalCountsAfter(p: Policy, run: History<Event>, e: Event, starts: seq<real>, d: real)
    ensures Sum(LocalCounts(p, Then(run, e), starts, d))
         == Sum(LocalCounts(p, run, starts, d)) + if PassesWithin(p, Play(p, run), e, starts, d) then 1 else 0
  {
    var before, after := LocalCounts(p, run, starts, d), LocalCounts(p, Then(run, e), starts, d);
    if PassesWithin(p, Play(p, run), e, starts, d) {
      SumAfterOne(before, after, e.replica);
    } else {
      assert after == before;
    }
  }

  /** Whoever is admitted was waiting, and whoever waits was let through. */
  lemma WaitingAfter(p: Policy, s: Cluster, e: Event, starts: seq<real>, d: real)
    requires Enabled(s, e)
    ensures |WaitingWithin(Next(p, s, e), starts, d)| + (if AdmitsWithin(p, s, e, starts, d) then 1 else 0)
            <= |WaitingWithin(s, starts, d)| + (if PassesWithin(p, s, e, starts, d) then 1 else 0)
  {
    match e
    case Local(req, replica, mono) =>
      LocalWaiting(s, Next(p, s, e), req, Pass(replica, mono), L1Passes(p, s, replica, mono), starts, d);
    case Shared(req, call) =>
      SharedWaiting(s, Next(p, s, e), req, starts, d);
  }

  lemma LocalWaiting(s: Cluster, t: Cluster, req: nat, pass: Pass, passes: bool, starts: seq<real>, d: real)
    requires req !in s.waiting && t.waiting == if passes then s.waiting[req := pass] else s.waiting
    ensures |WaitingWithin(t, starts, d)|
         <= |WaitingWithin(s, starts, d)| + if passes && InInterval(pass, starts, d) then 1 else 0
  {
    var before, after := WaitingWithin(s, starts, d), WaitingWithin(t, starts, d);
    if passes && InInterval(pass, starts, d) {
      assert after == before + {req};
    } else {
      assert after == before;
    }
  }

  lemma SharedWaiting(s: Cluster, t: Cluster, req: nat, starts: seq<real>, d: real)
    requires req in s.waiting && t.waiting == s.waiting - {req}
    ensures |WaitingWithin(t, starts, d)| + (if InInterval(s.waiting[req], starts, d) then 1 else 0)
         == |WaitingWithin(s, starts, d)|
  {
    var before, after := WaitingWithin(s, starts, d), WaitingWithin(t, starts, d);
    assert before == if InInterval(s.waiting[req], starts, d) then after + {req} else after;
  }

  lemma {:induction false} AdmittedAtMostLocal(p: Policy, run: History<Event>, starts: seq<real>, d: real)
    requires Possible(p, run)
    ensures AdmittedWithin(p, run, starts, d) + |WaitingWithin(Play(p, run), starts, d)|
            <= Sum(LocalCounts(p, run, starts, d))
  {
    if run.Then? {
      AdmittedAtMostLocal(p, run.past, starts, d);
      LocalCountsAfter(p, run.past, run.last, starts, d);
      WaitingAfter(p, Play(p, run.past), run.last, starts, d);
    }
  }

  /** What one local bucket admits over `d` seconds. */
  function Budget(l: Limits, d: real): real
  {
    l.capacity as real + Accrued(l, d)
  }

  lemma ReplicaBound(p: Policy, run: History<Event>, replica: nat, start: real, d: real)
    requires d >= 0.0
    requires MonotonicClocks(run)
    ensures LocalCount(p, run, replica, start, start + d) as real <= Budget(p.local, d)
  {
    LocalCountIsBucket(p, run, replica, start, start + d);
    LocalTimesOrdered(run, replica);
    WithinBudget(p.local, LocalTimes(run, replica), start, d);
  }

  lemma WithinBudget(l: Limits, times: seq<real>, start: real, d: real)
    requires NonDecreasing(times) && d >= 0.0
    ensures AdmittedIn(l, times, start, start + d) as real <= Budget(l, d)
  {
    ArrivalCurve(l, times, start, start + d);
    assert start + d - start == d;
  }

  /** `n` copies of `x`, added up. */
  function Copies(n: nat, x: real): real
  {
    if n == 0 then 0.0 else Copies(n - 1, x) + x
  }

  lemma {:induction false} CopiesIsProduct(n: nat, x: real)
    ensures Copies(n, x) == n as real * x
  {
    if n > 0 {
      CopiesIsProduct(n - 1, x);
      assert n as real * x == (n - 1) as real * x + x;
    }
  }

  lemma {:induction false} SumAtMost(counts: seq<nat>, x: real)
    requires forall i | 0 <= i < |counts| :: counts[i] as real <= x
    ensures Sum(counts) as real <= Copies(|counts|, x)
  {
    if counts != [] { SumAtMost(counts[1..], x); }
  }

  lemma CountsBounded(p: Policy, run: History<Event>, starts: seq<real>, d: real)
    requires d >= 0.0
    requires MonotonicClocks(run)
    ensures forall i | 0 <= i < |starts| :: LocalCounts(p, run, starts, d)[i] as real <= Budget(p.local, d)
  {
    forall i | 0 <= i < |starts| ensures LocalCounts(p, run, starts, d)[i] as real <= Budget(p.local, d) {
      ReplicaBound(p, run, i, starts[i], d);
    }
  }

  /**
   The cluster bound: with N replicas, whatever Redis answers, loses, refuses or makes up, the
   requests checked in intervals of length d are admitted at most N times as often as one local
   bucket admits.
   */
  lemma ClusterBound(p: Policy, run: History<Event>, starts: seq<real>, d: real, budget: real)
    requires d >= 0.0 && budget == Budget(p.local, d)
    requires Possible(p, run) && MonotonicClocks(run)
    ensures AdmittedWithin(p, run, starts, d) as real <= |starts| as real * budget
  {
    AtMostCopies(p, run, starts, d, budget);
    AtMostProduct(AdmittedWithin(p, run, starts, d), |starts|, budget);
  }

  lemma AtMostCopies(p: Policy, run: History<Event>, starts: seq<real>, d: real, budget: real)
    requires d >= 0.0 && budget == Budget(p.local, d)
    requires Possible(p, run) && MonotonicClocks(run)
    ensures AdmittedWithin(p, run, starts, d) as real <= Copies(|starts|, budget)
  {
    CountsBounded(p, run, starts, d);
    AdmittedAtMostSum(p, run, starts, d, budget);
  }

  lemma AtMostProduct(count: nat, n: nat, x: real)
    requires count as real <= Copies(n, x)
    ensures count as real <= n as real * x
  {
    CopiesIsProduct(n, x);
  }

  lemma AdmittedAtMostSum(p: Policy, run: History<Event>, starts: seq<real>, d: real, budget: real)
    requires Possible(p, run)
    requires forall i | 0 <= i < |starts| :: LocalCounts(p, run, starts, d)[i] as real <= budget
    ensures AdmittedWithin(p, run, starts, d) as real <= Copies(|starts|, budget)
  {
    AdmittedAtMostLocal(p, run, starts, d);
    SumAtMost(LocalCounts(p, run, starts, d), budget);
  }

  // ---- The shared bound, with a count of Redis failures ----

  /** The calls whose script ran, in the order Redis ran them. */
  function ScriptCalls(run: History<Event>): History<SlidingWindow.Call>
  {
    match run
    case Nothing => Nothing
    case Then(past, e) =>
      if e.Shared? && !e.call.redis.Unreachable?
      then Then(ScriptCalls(past), SlidingWindow.Call(SlidingWindow.Request(e.call.wall, e.call.id), e.call.dropped))
      else ScriptCalls(past)
  }

  /** The same calls, as the other script sees them. */
  function BucketCalls(calls: History<SlidingWindow.Call>): History<RedisTokenBucket.Call>
  {
    match calls
    case Nothing => Nothing
    case Then(past, c) => Then(BucketCalls(past), RedisTokenBucket.Call(c.request.now, c.dropped))
  }

  predicate NoRogue(run: History<Event>)
  {
    run.Then? ==> NoRogue(run.past) && (run.last.Shared? ==> !run.last.call.redis.Rogue?)
  }

  /** [from, to], or (from, to] if it does not include its start. */
  datatype Interval = Interval(from: real, to: real, closed: bool)

  predicate Within(t: real, i: Interval)
  {
    (i.from < t || (i.closed && t == i.from)) && t <= i.to
  }

  /** Requests admitted with a wall-clock time in the interval. */
  function AdmittedByWall(p: Policy, run: History<Event>, i: Interval): nat
  {
    match run
    case Nothing => 0
    case Then(past, e) =>
      AdmittedByWall(p, past, i) + if Admits(p, Play(p, past), e) && Within(e.call.wall, i) then 1 else 0
  }

  /** Calls in the interval that Redis left without an answer. */
  function Failures(run: History<Event>, i: Interval): nat
  {
    match run
    case Nothing => 0
    case Then(past, e) =>
      Failures(past, i) + if e.Shared? && !e.call.redis.Up? && Within(e.call.wall, i) then 1 else 0
  }

  /** While Redis runs its scripts, the hash is the run of everything that reached it. */
  lemma {:induction false} SharedBucketIsRun(p: Policy, run: History<Event>)
    requires p.distributed.ByTokenBucket? && NoRogue(run)
    ensures Play(p, run).l2
         == BucketKey(RedisTokenBucket.RunWithExpiry(p.distributed.limits, BucketCalls(ScriptCalls(run))))
  {
    if run.Then? { SharedBucketIsRun(p, run.past); }
  }

  /** Redis drops the hash only past its TTL, give or take `skew`. Timestamps may come in any order. */
  ghost predicate BucketTraffic(l: Limits, calls: History<RedisTokenBucket.Call>, skew: real)
  {
    l.rate > 0 && 0.0 <= skew <= 10.0 && RedisTokenBucket.LegalDrops(l, calls, skew)
  }

  function BucketTimes(run: History<Event>): seq<real>
  {
    RedisTokenBucket.Times(BucketCalls(ScriptCalls(run)))
  }

  /** What a script call decides, dropped key or not, is what one bucket that never expires decides. */
  lemma ScriptByLevel(p: Policy, past: History<Event>, e: Event, skew: real)
    requires p.distributed.ByTokenBucket? && NoRogue(Then(past, e))
    requires e.Shared? && !e.call.redis.Unreachable?
    requires BucketTraffic(p.distributed.limits, BucketCalls(ScriptCalls(Then(past, e))), skew)
    ensures ScriptAllows(p.distributed, Found(Play(p, past).l2, e.call), e.call.wall)
         == Some(Level(p.distributed.limits, Run(p.distributed.limits, BucketTimes(past)), e.call.wall) >= 1.0)
  {
    var l, calls := p.distributed.limits, BucketCalls(ScriptCalls(past));
    var hash := RedisTokenBucket.RunWithExpiry(l, calls);
    assert Play(p, past).l2 == BucketKey(hash) by { SharedBucketIsRun(p, past); }
    assert BucketCalls(ScriptCalls(Then(past, e))) == Then(calls, RedisTokenBucket.Call(e.call.wall, e.call.dropped));
    assert RedisTokenBucket.SameCall(l, RedisTokenBucket.Survives(hash, e.call.dropped), Run(l, BucketTimes(past)), e.call.wall) by {
      RedisTokenBucket.ExpiryUnobservable(l, Then(calls, RedisTokenBucket.Call(e.call.wall, e.call.dropped)), skew);
    }
    BucketAnswer(p.distributed, hash, Run(l, BucketTimes(past)), e.call);
  }

  /** A script call answers by the level, in a hash or in another that looks the same to it. */
  lemma BucketAnswer(c: Distributed, hash: Option<Bucket>, same: Option<Bucket>, call: Call)
    requires c.ByTokenBucket? && c.limits.rate > 0
    requires RedisTokenBucket.SameCall(c.limits, RedisTokenBucket.Survives(hash, call.dropped), same, call.wall)
    ensures ScriptAllows(c, Found(BucketKey(hash), call), call.wall) == Some(Level(c.limits, same, call.wall) >= 1.0)
  {
    assert HashOf(Found(BucketKey(hash), call)) == RedisTokenBucket.Survives(hash, call.dropped);
  }

  function OneIf(b: bool): nat
  {
    if b then 1 else 0
  }

  lemma BucketCallCounts(p: Policy, past: History<Event>, e: Event, i: Interval, skew: real)
    requires p.distributed.ByTokenBucket? && NoRogue(Then(past, e)) && i.closed
    requires e.Shared? && !e.call.redis.Unreachable?
    requires BucketTraffic(p.distributed.limits, BucketCalls(ScriptCalls(Then(past, e))), skew)
    ensures AdmittedIn(p.distributed.limits, BucketTimes(Then(past, e)), i.from, i.to)
         == AdmittedIn(p.distributed.limits, BucketTimes(past), i.from, i.to)
            + OneIf(Within(e.call.wall, i)
                    && ScriptAllows(p.distributed, Found(Play(p, past).l2, e.call), e.call.wall) == Some(true))
  {
    AdmittedInAppend(p.distributed.limits, BucketTimes(past), e.call.wall, i.from, i.to);
    ScriptByLevel(p, past, e, skew);
  }

  /** What one event adds to the bucket's admissions, to the cluster's, and to both with the failures. */
  lemma BucketCountStep(p: Policy, past: History<Event>, e: Event, i: Interval, skew: real)
    requires p.distributed.ByTokenBucket? && NoRogue(Then(past, e)) && i.closed
    requires BucketTraffic(p.distributed.limits, BucketCalls(ScriptCalls(Then(past, e))), skew)
    ensures var more := OneIf(Admits(p, Play(p, past), e) && Within(e.call.wall, i));
            var failed := OneIf(e.Shared? && !e.call.redis.Up? && Within(e.call.wall, i));
            var before := AdmittedIn(p.distributed.limits, BucketTimes(past), i.from, i.to);
            before <= AdmittedIn(p.distributed.limits, BucketTimes(Then(past, e)), i.from, i.to)
            <= before + more
            <= AdmittedIn(p.distributed.limits, BucketTimes(Then(past, e)), i.from, i.to) + failed
  {
    if e.Shared? && !e.call.redis.Unreachable? {
      BucketCallCounts(p, past, e, i, skew);
      ScriptByLevel(p, past, e, skew);
    }
  }

  /**
   The cluster's admissions are those of one bucket that sees every script call and never expires,
   plus at most one for each call that Redis left without an answer.
   */
  lemma {:induction false} SharedBucketCounts(p: Policy, run: History<Event>, i: Interval, skew: real)
    requires p.distributed.ByTokenBucket? && NoRogue(run) && i.closed
    requires BucketTraffic(p.distributed.limits, BucketCalls(ScriptCalls(run)), skew)
    ensures AdmittedIn(p.distributed.limits, BucketTimes(run), i.from, i.to)
            <= AdmittedByWall(p, run, i)
            <= AdmittedIn(p.distributed.limits, BucketTimes(run), i.from, i.to) + Failures(run, i)
  {
    if run.Then? {
      SharedBucketCounts(p, run.past, i, skew);
      BucketCountStep(p, run.past, run.last, i, skew);
    }
  }

  /** Failing open: every call that Redis leaves without an answer is admitted. */
  lemma {:induction false} UnansweredAreAdmitted(p: Policy, run: History<Event>, i: Interval)
    requires NoRogue(run)
    ensures Failures(run, i) <= AdmittedByWall(p, run, i)
  {
    if run.Then? { UnansweredAreAdmitted(p, run.past, i); }
  }

  /** Requests admitted from the i-th script call on, in the order Redis ran them. */
  function AdmittedFrom(p: Policy, run: History<Event>, i: nat): nat
  {
    match run
    case Nothing => 0
    case Then(past, e) =>
      AdmittedFrom(p, past, i) + OneIf(Admits(p, Play(p, past), e) && Length(ScriptCalls(past)) >= i)
  }

  /** Calls from then on that Redis left without an answer. */
  function FailuresFrom(run: History<Event>, i: nat): nat
  {
    match run
    case Nothing => 0
    case Then(past, e) =>
      FailuresFrom(past, i) + OneIf(e.Shared? && !e.call.redis.Up? && Length(ScriptCalls(past)) >= i)
  }

  lemma {:induction false} CallsCounted(calls: History<SlidingWindow.Call>)
    ensures |RedisTokenBucket.Times(BucketCalls(calls))| == Length(calls)
  {
    if calls.Then? { CallsCounted(calls.past); }
  }

  /** A script call adds one decision, the one the script makes. */
  lemma BucketCallFrom(p: Policy, past: History<Event>, e: Event, i: nat, skew: real)
    requires p.distributed.ByTokenBucket? && NoRogue(Then(past, e))
    requires e.Shared? && !e.call.redis.Unreachable?
    requires BucketTraffic(p.distributed.limits, BucketCalls(ScriptCalls(Then(past, e))), skew)
    ensures CountFrom(Decisions(p.distributed.limits, BucketTimes(Then(past, e))), i)
         == CountFrom(Decisions(p.distributed.limits, BucketTimes(past)), i)
            + OneIf(Length(ScriptCalls(past)) >= i
                    && ScriptAllows(p.distributed, Found(Play(p, past).l2, e.call), e.call.wall) == Some(true))
  {
    var l, times := p.distributed.limits, BucketTimes(past);
    CallsCounted(ScriptCalls(past));
    RunAppend(l, times, e.call.wall);
    CountFromAppend(Decisions(l, times), Level(l, Run(l, times), e.call.wall) >= 1.0, i);
    ScriptByLevel(p, past, e, skew);
  }

  lemma BucketFromStep(p: Policy, past: History<Event>, e: Event, i: nat, skew: real)
    requires p.distributed.ByTokenBucket? && NoRogue(Then(past, e))
    requires BucketTraffic(p.distributed.limits, BucketCalls(ScriptCalls(Then(past, e))), skew)
    ensures CountFrom(Decisions(p.distributed.limits, BucketTimes(past)), i)
            + OneIf(Admits(p, Play(p, past), e) && Length(ScriptCalls(past)) >= i)
            <= CountFrom(Decisions(p.distributed.limits, BucketTimes(Then(past, e))), i)
               + OneIf(e.Shared? && !e.call.redis.Up? && Length(ScriptCalls(past)) >= i)
  {
    if e.Shared? && !e.call.redis.Unreachable? {
      BucketCallFrom(p, past, e, i, skew);
      ScriptByLevel(p, past, e, skew);
    }
  }

  lemma {:induction false} SharedBucketFrom(p: Policy, run: History<Event>, i: nat, skew: real)
    requires p.distributed.ByTokenBucket? && NoRogue(run)
    requires BucketTraffic(p.distributed.limits, BucketCalls(ScriptCalls(run)), skew)
    ensures AdmittedFrom(p, run, i)
            <= CountFrom(Decisions(p.distributed.limits, BucketTimes(run)), i) + FailuresFrom(run, i)
  {
    if run.Then? {
      SharedBucketFrom(p, run.past, i, skew);
      BucketFromStep(p, run.past, run.last, i, skew);
    }
  }

  /**
   With the token-bucket script, whatever the interleaving, in whatever order timestamps reach Redis
   and whenever keys expire: from any script call to any later one, the whole cluster admits at most
   capacity plus what accrues over the steps forward of the timestamps, but for unanswered calls.
   */
  lemma SharedBucketStretch(p: Policy, run: History<Event>, i: nat, skew: real)
    requires p.distributed.ByTokenBucket? && NoRogue(run)
    requires BucketTraffic(p.distributed.limits, BucketCalls(ScriptCalls(run)), skew)
    requires i < |BucketTimes(run)|
    ensures AdmittedFrom(p, run, i) as real
            <= p.distributed.limits.capacity as real
               + Accrued(p.distributed.limits, StepsForward(BucketTimes(run), i)) + FailuresFrom(run, i) as real
  {
    SharedBucketFrom(p, run, i, skew);
    AdmittedFromBound(p.distributed.limits, BucketTimes(run), i);
  }

  /** If timestamps reach Redis in order, the whole cluster obeys one bucket's arrival curve, but for unanswered calls. */
  lemma SharedBucketBound(p: Policy, run: History<Event>, from: real, to: real, skew: real)
    requires p.distributed.ByTokenBucket? && NoRogue(run) && from <= to
    requires BucketTraffic(p.distributed.limits, BucketCalls(ScriptCalls(run)), skew)
    requires NonDecreasing(BucketTimes(run))
    ensures AdmittedByWall(p, run, Interval(from, to, true)) as real
            <= p.distributed.limits.capacity as real + Accrued(p.distributed.limits, to - from)
               + Failures(run, Interval(from, to, true)) as real
  {
    SharedBucketCounts(p, run, Interval(from, to, true), skew);
    ArrivalCurve(p.distributed.limits, BucketTimes(run), from, to);
  }

  /** One request on a replica of its own, whose script call carries this timestamp. */
  function OneRequest(run: History<Event>, req: nat, wall: real): History<Event>
  {
    Then(Then(run, Local(req, req, 0.0)), Shared(req, Call(wall, "", false, Up)))
  }

  /** `k` times: a request whose call was overtaken, then one whose call was not. */
  function Overtaking(k: nat): History<Event>
  {
    if k == 0 then Nothing else OneRequest(OneRequest(Overtaking(k - 1), 2 * k, 0.0), 2 * k + 1, 1.0)
  }

  lemma OneRequestPossible(p: Policy, run: History<Event>, req: nat, wall: real)
    requires Possible(p, run) && NoRogue(run) && p.local.capacity >= 1
    requires Play(p, run).waiting == map[] && (forall r | r in Play(p, run).l1 :: r < req)
    ensures var more := OneRequest(run, req, wall);
            && Possible(p, more) && NoRogue(more)
            && Play(p, more).waiting == map[] && (forall r | r in Play(p, more).l1 :: r < req + 1)
  {
    assert LocalBucket(Play(p, run), req) == None;
    assert Possible(p, Then(run, Local(req, req, 0.0)));
  }

  lemma OneRequestCalls(run: History<Event>, req: nat, wall: real, i: Interval)
    ensures BucketTimes(OneRequest(run, req, wall)) == BucketTimes(run) + [wall]
    ensures Failures(OneRequest(run, req, wall), i) == Failures(run, i)
  {
    var local := Then(run, Local(req, req, 0.0));
    assert ScriptCalls(local) == ScriptCalls(run) && Failures(local, i) == Failures(run, i);
    assert ScriptCalls(OneRequest(run, req, wall))
        == Then(ScriptCalls(run), SlidingWindow.Call(SlidingWindow.Request(wall, ""), false));
  }

  lemma {:induction false} OvertakingTimes(l: Limits, k: nat, i: Interval)
    requires l.rate > 0
    ensures BucketTimes(Overtaking(k)) == Overtaken(k) && Failures(Overtaking(k), i) == 0
    ensures RedisTokenBucket.LegalDrops(l, BucketCalls(ScriptCalls(Overtaking(k))), 0.0)
  {
    if k > 0 {
      OvertakingTimes(l, k - 1, i);
      var first := OneRequest(Overtaking(k - 1), 2 * k, 0.0);
      OneRequestCalls(Overtaking(k - 1), 2 * k, 0.0, i);
      OneRequestCalls(first, 2 * k + 1, 1.0, i);
      assert BucketCalls(ScriptCalls(first))
          == Then(BucketCalls(ScriptCalls(Overtaking(k - 1))), RedisTokenBucket.Call(0.0, false));
      assert BucketCalls(ScriptCalls(Overtaking(k)))
          == Then(BucketCalls(ScriptCalls(first)), RedisTokenBucket.Call(1.0, false));
    }
  }

  lemma {:induction false} OvertakingPossible(p: Policy, k: nat)
    requires p.local.capacity >= 1
    ensures Possible(p, Overtaking(k)) && NoRogue(Overtaking(k)) && Play(p, Overtaking(k)).waiting == map[]
    ensures forall r | r in Play(p, Overtaking(k)).l1 :: r < 2 * k + 2
  {
    if k > 0 {
      OvertakingPossible(p, k - 1);
      OneRequestPossible(p, Overtaking(k - 1), 2 * k, 0.0);
      OneRequestPossible(p, OneRequest(Overtaking(k - 1), 2 * k, 0.0), 2 * k + 1, 1.0);
    }
  }

  /**
   Order is needed for the interval form: the clock is read before the call travels to Redis, and when
   calls overtake each other, a cluster with Redis always up admits any number in one second.
   */
  lemma OvertakingUnbounded(p: Policy, k: nat)
    requires p.distributed.ByTokenBucket? && p.local.capacity >= 1
    requires p.distributed.limits.capacity >= 1 && p.distributed.limits.rate >= 1
    ensures Possible(p, Overtaking(k)) && NoRogue(Overtaking(k))
    ensures Failures(Overtaking(k), Interval(0.0, 1.0, true)) == 0
    ensures AdmittedByWall(p, Overtaking(k), Interval(0.0, 1.0, true)) >= k
  {
    OvertakingPossible(p, k);
    OvertakingTimes(p.distributed.limits, k, Interval(0.0, 1.0, true));
    SharedBucketCounts(p, Overtaking(k), Interval(0.0, 1.0, true), 0.0);
    OvertakenUnbounded(p.distributed.limits, k);
  }

  // ---- A key left by the other script ----

  /** The key after a number of calls. */
  function KeyAfter(c: Distributed, k: L2Key, calls: History<Call>): L2Key
  {
    match calls
    case Nothing => k
    case Then(past, call) => L2After(c, KeyAfter(c, k, past), call)
  }

  predicate UntilItExpires(calls: History<Call>)
  {
    calls.Then? ==> UntilItExpires(calls.past) && !calls.last.dropped && !calls.last.redis.Rogue?
  }

  /** A policy that changes its script finds the other script's key, and until Redis drops it, limits nothing. */
  lemma {:induction false} OtherScriptsKeyFailsOpen(c: Distributed, k: L2Key, calls: History<Call>, next: Call)
    requires (c.ByTokenBucket? && k.ZSet?) || (c.BySlidingWindow? && k.Hash?)
    requires UntilItExpires(Then(calls, next))
    ensures KeyAfter(c, k, calls) == k && L2Allows(c, KeyAfter(c, k, calls), next)
  {
    if calls.Then? { OtherScriptsKeyFailsOpen(c, k, calls.past, calls.last); }
  }

  // ---- A shared refill rate of zero ----

  /** With a rate of zero the script always errors, so the shared tier denies nothing, in any state. */
  lemma ZeroRateFailsOpen(p: Policy, s: Cluster, e: Event)
    requires p.distributed.ByTokenBucket? && p.distributed.limits.rate == 0
    ensures Admits(p, s, e) <==> e.Shared? && (e.call.redis.Rogue? ==> e.call.redis.verdict)
  {}

  /** `n` requests at one instant on one replica, each with a Redis that answers. */
  function Burst(n: nat): History<Event>
  {
    if n == 0 then Nothing
    else Then(Then(Burst(n - 1), Local(n, 0, 0.0)), Shared(n, Call(0.0, "", false, Up)))
  }

  /**
   So a positive rate is needed: with a rate of zero and Redis always up, the cluster admits as many
   requests at one instant as a local bucket holds, whatever the shared capacity.
   */
  lemma {:induction false} ZeroRateIgnoresCapacity(p: Policy, n: nat)
    requires p.distributed.ByTokenBucket? && p.distributed.limits.rate == 0
    requires n <= p.local.capacity
    ensures Possible(p, Burst(n)) && NoRogue(Burst(n))
    ensures AdmittedByWall(p, Burst(n), Interval(0.0, 0.0, true)) == n
    ensures Failures(Burst(n), Interval(0.0, 0.0, true)) == 0
    ensures Play(p, Burst(n)).waiting == map[]
    ensures Level(p.local, LocalBucket(Play(p, Burst(n)), 0), 0.0) == (p.local.capacity - n) as real
  {
    if n > 0 {
      ZeroRateIgnoresCapacity(p, n - 1);
      BurstStep(p, Play(p, Burst(n - 1)), n);
    }
  }

  lemma BurstStep(p: Policy, s: Cluster, req: nat)
    requires p.distributed.ByTokenBucket? && p.distributed.limits.rate == 0 && s.waiting == map[]
    requires 1.0 <= Level(p.local, LocalBucket(s, 0), 0.0) <= p.local.capacity as real
    ensures var local, shared := Local(req, 0, 0.0), Shared(req, Call(0.0, "", false, Up));
            var mid := Next(p, s, local); var end := Next(p, mid, shared);
            && Enabled(s, local) && Enabled(mid, shared) && Admits(p, mid, shared) && end.waiting == map[]
            && Level(p.local, LocalBucket(end, 0), 0.0) == Level(p.local, LocalBucket(s, 0), 0.0) - 1.0
  {
    assert Accrued(p.local, Max(0.0, 0.0 - 0.0)) == 0.0;
  }

  // ---- The sliding window, likewise ----

  lemma {:induction false} SharedSetIsRun(p: Policy, run: History<Event>)
    requires p.distributed.BySlidingWindow? && NoRogue(run)
    ensures !Play(p, run).l2.Hash?
    ensures MembersOf(Play(p, run).l2) == SlidingWindow.RunWithExpiry(p.distributed.window, ScriptCalls(run))
  {
    if run.Then? {
      SharedSetIsRun(p, run.past);
      if run.last.Shared? && !run.last.call.redis.Unreachable? {
        SetAfterCall(p.distributed, Play(p, run.past).l2, run.last.call);
      }
    }
  }

  lemma SetAfterCall(c: Distributed, k: L2Key, call: Call)
    requires c.BySlidingWindow? && !k.Hash? && !call.redis.Unreachable? && !call.redis.Rogue?
    ensures !L2After(c, k, call).Hash?
    ensures MembersOf(L2After(c, k, call))
         == SlidingWindow.Step(c.window, SlidingWindow.Survives(MembersOf(k), call.dropped),
                               SlidingWindow.Request(call.wall, call.id))
  {}

  /** Script calls carry ids that do not collide, and Redis drops the set only past its TTL. Any order. */
  ghost predicate WindowTraffic(w: SlidingWindow.Window, calls: History<SlidingWindow.Call>, skew: real)
  {
    && skew <= 5.0 && SlidingWindow.LegalDrops(w, calls, skew)
    && SlidingWindow.NoCollision(w, SlidingWindow.Requests(calls))
  }

  /** What a script call decides, dropped key or not, is what a set that never expires decides. */
  lemma ScriptByWindow(p: Policy, past: History<Event>, e: Event, skew: real)
    requires p.distributed.BySlidingWindow? && NoRogue(Then(past, e))
    requires e.Shared? && !e.call.redis.Unreachable?
    requires WindowTraffic(p.distributed.window, ScriptCalls(Then(past, e)), skew)
    ensures WindowTraffic(p.distributed.window, ScriptCalls(past), skew)
    ensures ScriptAllows(p.distributed, Found(Play(p, past).l2, e.call), e.call.wall)
         == Some(WindowAdmits(p.distributed.window, ScriptCalls(past), e.call.wall))
  {
    SharedSetIsRun(p, past);
    SlidingWindow.ExpiryUnobservable(p.distributed.window, ScriptCalls(Then(past, e)), skew);
  }

  predicate WindowAdmits(w: SlidingWindow.Window, calls: History<SlidingWindow.Call>, now: real)
  {
    SlidingWindow.Admits(w, SlidingWindow.Run(w, SlidingWindow.Requests(calls)), now)
  }

  /** The script's own admissions from the i-th call on. */
  function ScriptFrom(w: SlidingWindow.Window, calls: History<SlidingWindow.Call>, i: nat): nat
  {
    SlidingWindow.AdmittedFrom(w, SlidingWindow.Requests(calls), i)
  }

  lemma {:induction false} RequestsCounted(calls: History<SlidingWindow.Call>)
    ensures Length(SlidingWindow.Requests(calls)) == Length(calls)
  {
    if calls.Then? { RequestsCounted(calls.past); }
  }

  lemma ScriptFromAfter(w: SlidingWindow.Window, calls: History<SlidingWindow.Call>, c: SlidingWindow.Call, i: nat)
    ensures ScriptFrom(w, Then(calls, c), i)
         == ScriptFrom(w, calls, i) + OneIf(Length(calls) >= i && WindowAdmits(w, calls, c.request.now))
  {
    RequestsCounted(calls);
  }

  lemma {:induction false} SharedWindowFrom(p: Policy, run: History<Event>, i: nat, skew: real)
    requires p.distributed.BySlidingWindow? && NoRogue(run)
    requires WindowTraffic(p.distributed.window, ScriptCalls(run), skew)
    ensures AdmittedFrom(p, run, i) <= ScriptFrom(p.distributed.window, ScriptCalls(run), i) + FailuresFrom(run, i)
  {
    if run.Then? {
      var e := run.last;
      if e.Shared? && !e.call.redis.Unreachable? {
        ScriptByWindow(p, run.past, e, skew);
        ScriptFromAfter(p.distributed.window, ScriptCalls(run.past), ScriptCalls(run).last, i);
      }
      SharedWindowFrom(p, run.past, i, skew);
    }
  }

  /**
   With the sliding-window script, whatever the interleaving, in whatever order timestamps reach Redis
   and whenever keys expire: script calls in a row whose timestamps lie in one window admit at most
   the limit, but for unanswered calls.
   */
  lemma SharedWindowStretch(p: Policy, run: History<Event>, i: nat, lo: real, skew: real)
    requires p.distributed.BySlidingWindow? && NoRogue(run)
    requires WindowTraffic(p.distributed.window, ScriptCalls(run), skew)
    requires SlidingWindow.OneWindowFrom(p.distributed.window, SlidingWindow.Requests(ScriptCalls(run)), i, lo)
    ensures AdmittedFrom(p, run, i) <= p.distributed.window.maxRequests + FailuresFrom(run, i)
  {
    SharedWindowFrom(p, run, i, skew);
    SlidingWindow.StretchBound(p.distributed.window, SlidingWindow.Requests(ScriptCalls(run)), i, lo);
  }

  /** Admissions of the sliding window's full log, for what reached Redis. */
  function Logged(w: SlidingWindow.Window, calls: History<SlidingWindow.Call>, i: Interval): nat
  {
    SlidingWindow.AdmittedIn(SlidingWindow.FullLog(w, SlidingWindow.Requests(calls)), i.from, i.to)
  }

  /** In order, a script call extends the log exactly when the script admits. */
  lemma LogStep(w: SlidingWindow.Window, calls: History<SlidingWindow.Call>, c: SlidingWindow.Call, i: Interval)
    requires SlidingWindow.NoCollision(w, SlidingWindow.Requests(calls)) && !i.closed
    requires SlidingWindow.InOrder(SlidingWindow.Requests(Then(calls, c)))
    ensures Logged(w, Then(calls, c), i)
         == Logged(w, calls, i) + OneIf(Within(c.request.now, i) && WindowAdmits(w, calls, c.request.now))
  {
    SlidingWindow.CountNextAdmission(w, SlidingWindow.Requests(calls), c.request, i.from, i.to);
  }

  /** If timestamps reach Redis in order, the cluster's admissions are the full log, plus at most one for each unanswered call. */
  lemma {:induction false} AdmissionsAreFullLog(p: Policy, run: History<Event>, i: Interval, skew: real)
    requires p.distributed.BySlidingWindow? && NoRogue(run) && !i.closed
    requires WindowTraffic(p.distributed.window, ScriptCalls(run), skew)
    requires SlidingWindow.InOrder(SlidingWindow.Requests(ScriptCalls(run)))
    ensures Logged(p.distributed.window, ScriptCalls(run), i)
            <= AdmittedByWall(p, run, i)
            <= Logged(p.distributed.window, ScriptCalls(run), i) + Failures(run, i)
  {
    if run.Then? {
      var e := run.last;
      if e.Shared? && !e.call.redis.Unreachable? {
        ScriptByWindow(p, run.past, e, skew);
        LogStep(p.distributed.window, ScriptCalls(run.past), ScriptCalls(run).last, i);
      }
      AdmissionsAreFullLog(p, run.past, i, skew);
    }
  }

  function WindowFrom(w: SlidingWindow.Window, from: real): Interval
  {
    Interval(from, from + w.seconds as real, false)
  }

  lemma LoggedBound(w: SlidingWindow.Window, calls: History<SlidingWindow.Call>, from: real)
    ensures Logged(w, calls, WindowFrom(w, from)) <= w.maxRequests
  {
    SlidingWindow.WindowBound(w, SlidingWindow.Requests(calls), from);
  }

  /** If timestamps reach Redis in order, every window of the whole cluster is within the limit, but for unanswered calls. */
  lemma SharedWindowBound(p: Policy, run: History<Event>, from: real, skew: real)
    requires p.distributed.BySlidingWindow? && NoRogue(run)
    requires WindowTraffic(p.distributed.window, ScriptCalls(run), skew)
    requires SlidingWindow.InOrder(SlidingWindow.Requests(ScriptCalls(run)))
    ensures AdmittedByWall(p, run, WindowFrom(p.distributed.window, from))
            <= p.distributed.window.maxRequests + Failures(run, WindowFrom(p.distributed.window, from))
  {
    AdmissionsAreFullLog(p, run, WindowFrom(p.distributed.window, from), skew);
    LoggedBound(p.distributed.window, ScriptCalls(run), from);
  }

  // ---- `RateLimiter::check`, before and after its suspension ----

  datatype RateLimitOutcome = RateLimitOutcome(
    allowed: bool, remaining: int, limit: int, retryAfterMs: int, deniedBy: Option<DeniedBy>)

  datatype DeniedBy = L1Local | L2Distributed

  datatype CheckResult = Ok(outcome: RateLimitOutcome) | UnknownPolicy(name: string)

  const U64_MAX := 0xFFFF_FFFF_FFFF_FFFF

  /** What L2 reports back to the caller, besides its decision. */
  datatype L2Outcome = L2Outcome(allowed: bool, remaining: int, retryAfterMs: int)

  /** The outcome reports what the script found; a failure reports nothing left and no wait. */
  ghost predicate Reports(c: Distributed, k: L2Key, call: Call, o: L2Outcome)
  {
    var found := Found(k, call);
    if call.redis.Rogue? then o.allowed == call.redis.verdict
    else if !call.redis.Up? || ScriptAllows(c, found, call.wall) == None then o == L2Outcome(true, 0, 0)
    else
      match c
      case ByTokenBucket(l) =>
        var r := RedisTokenBucket.ReplyOf(l, HashOf(found), call.wall).outcome;
        o == L2Outcome(r.allowed, if r.remaining > 0 then r.remaining else 0, r.retryAfterMs)
      case BySlidingWindow(w) =>
        && o.remaining >= 0
        && SlidingWindow.ReplyOf(w, MembersOf(found), SlidingWindow.Request(call.wall, call.id),
                                 SlidingWindow.Outcome(o.allowed, o.remaining, o.retryAfterMs))
  }

  method CheckL2(c: Distributed, k: L2Key, call: Call) returns (after: L2Key, o: L2Outcome)
    ensures after == L2After(c, k, call)
    ensures o.allowed == L2Allows(c, k, call)
    ensures Reports(c, k, call, o)
  {
    if call.redis.Rogue? { return call.redis.key, L2Outcome(call.redis.verdict, 0, 0); }
    if call.redis.Unreachable? { return k, L2Outcome(true, 0, 0); }
    after := Found(k, call);
    if WrongType(c, after) { return after, L2Outcome(true, 0, 0); }
    match c {
      case ByTokenBucket(l) =>
        var key := new RedisTokenBucket.TokenBucketKey();
        key.hash := HashOf(after);
        var reply := key.Script(l, call.wall);
        after := BucketKey(key.hash);
        o := match reply
             case Reply(r) => L2Outcome(r.allowed, if r.remaining > 0 then r.remaining else 0, r.retryAfterMs)
             case ScriptError => L2Outcome(true, 0, 0);
      case BySlidingWindow(w) =>
        var members, r := SlidingWindow.RunScript(w, MembersOf(after), SlidingWindow.Request(call.wall, call.id));
        after := SetKey(members);
        o := L2Outcome(r.allowed, r.remaining, r.retryAfterMs);
    }
    if call.redis.ReplyLost? { o := L2Outcome(true, 0, 0); }
  }

  /** Where `check` stands after its local part: finished, or waiting for Redis with these numbers. */
  datatype Progress = Done(result: CheckResult) | AskRedis(remaining: int, limit: int)

  /** One replica's view: its local buckets by policy and key, and the Redis it shares. */
  class Limiter {
    const policies: map<string, Policy>
    var buckets: map<(string, string), Bucket>
    var redis: map<string, L2Key>

    constructor (policies: map<string, Policy>)
      ensures this.policies == policies && buckets == map[] && redis == map[]
    {
      this.policies := policies;
      buckets, redis := map[], map[];
    }

    /** This replica's bucket and Redis key are those of the cluster state `s`. */
    ghost predicate Reflects(name: string, key: string, replica: nat, s: Cluster)
      reads this
    {
      && LocalBucket(s, replica) == (if (name, key) in buckets then Some(buckets[(name, key)]) else None)
      && s.l2 == (if key in redis then redis[key] else Absent)
    }

    /**
     Up to the suspension: the cluster's `Local` step. The remaining tokens are read at `later`, from
     a second reading of the clock.
     */
    method CheckLocal(policy: Option<string>, key: string, now: real, later: real,
                      ghost replica: nat, ghost req: nat, ghost s: Cluster) returns (r: Progress)
      requires policy.Some? ==> Reflects(policy.value, key, replica, s)
      modifies this`buckets
      ensures policy == None ==>
                r == Done(Ok(RateLimitOutcome(true, U64_MAX, U64_MAX, 0, None))) && buckets == old(buckets)
      ensures policy.Some? && policy.value !in policies ==>
                r == Done(UnknownPolicy(policy.value)) && buckets == old(buckets)
      ensures policy.Some? && policy.value in policies ==>
                var p := policies[policy.value]; var t := Next(p, s, Local(req, replica, now));
                && Reflects(policy.value, key, replica, t)
                && (forall k | k != (policy.value, key) ::
                      (k in buckets <==> k in old(buckets)) && (k in buckets ==> buckets[k] == old(buckets)[k]))
                && r == if L1Passes(p, s, replica, now)
                        then AskRedis(Level(p.local, LocalBucket(t, replica), later).Floor, p.local.capacity)
                        else Done(Ok(RateLimitOutcome(false, 0, p.local.capacity, 1000, Some(L1Local))))
    {
      if policy == None { return Done(Ok(RateLimitOutcome(true, U64_MAX, U64_MAX, 0, None))); }
      var name := policy.value;
      if name !in policies { return Done(UnknownPolicy(name)); }
      var l := policies[name].local;
      FreshBucket(l, now);
      var b := if (name, key) in buckets then buckets[(name, key)] else Bucket(l.capacity as real, now);
      assert Level(l, Some(b), now) == Level(l, LocalBucket(s, replica), now);
      var allowed;
      b, allowed := Consume(l, b, now);
      buckets := buckets[(name, key) := b];
      var remaining := Level(l, Some(b), later).Floor;
      if !allowed { return Done(Ok(RateLimitOutcome(false, 0, l.capacity, 1000, Some(L1Local)))); }
      r := AskRedis(remaining, l.capacity);
    }

    /** After the suspension: the cluster's `Shared` step, and the scarcer remainder or the shared wait. */
    method CheckShared(name: string, key: string, remaining: int, limit: int, call: Call,
                       ghost replica: nat, ghost req: nat, ghost s: Cluster) returns (o: RateLimitOutcome)
      requires name in policies && Reflects(name, key, replica, s)
      modifies this`redis
      ensures Reflects(name, key, replica, Next(policies[name], s, Shared(req, call)))
      ensures redis == old(redis)[key := Next(policies[name], s, Shared(req, call)).l2]
      ensures o.allowed <==> Admits(policies[name], s, Shared(req, call))
      ensures o.limit == limit && o.deniedBy == if o.allowed then None else Some(L2Distributed)
      ensures exists l2 :: Reports(policies[name].distributed, s.l2, call, l2)
                           && o.remaining == (if !o.allowed then 0 else if remaining < l2.remaining then remaining else l2.remaining)
                           && o.retryAfterMs == if o.allowed then 0 else l2.retryAfterMs
    {
      var shared, l2 := CheckL2(policies[name].distributed, if key in redis then redis[key] else Absent, call);
      redis := redis[key := shared];
      assert Reports(policies[name].distributed, s.l2, call, l2);
      if !l2.allowed {
        return RateLimitOutcome(false, 0, limit, l2.retryAfterMs, Some(L2Distributed));
      }
      o := RateLimitOutcome(true, if remaining < l2.remaining then remaining else l2.remaining, limit, 0, None);
    }
  }
}

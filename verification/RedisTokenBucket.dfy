/**
 The Redis token-bucket script of crates/gateway-ratelimit/src/l2_redis.rs: a hash holding
 `tokens` and `last_refill`, rewritten with an expiry on every call.
 */
module RedisTokenBucket {
  import opened Numbers
  import opened TokenBucket

  datatype Outcome = Outcome(allowed: bool, remaining: int, retryAfterMs: int)

  /** What the caller gets back; a script error aborts the call after the hash was written. */
  datatype Reply = Reply(outcome: Outcome) | ScriptError

  /** Milliseconds until one token is there, given a level below one. */
  function RetryMs(l: Limits, level: real): int
    requires l.rate > 0
  {
    Ceil((1.0 - level) / l.rate as real * 1000.0)
  }

  /** Seconds until an empty bucket is full again. */
  function FillSeconds(l: Limits): real
    requires l.rate > 0
  {
    l.capacity as real / l.rate as real
  }

  /** Seconds after which Redis may drop the hash. */
  function Ttl(l: Limits): int
    requires l.rate > 0
  {
    Ceil(FillSeconds(l)) + 10
  }

  /**
   The reply of one call. With a refill rate of zero the script divides by zero, hands `inf`
   to EXPIRE, and Redis raises an error.
   */
  function ReplyOf(l: Limits, hash: Option<Bucket>, now: real): Reply
  {
    var level := Level(l, hash, now);
    if l.rate == 0 then ScriptError
    else if level >= 1.0 then Reply(Outcome(true, (level - 1.0).Floor, 0))
    else Reply(Outcome(false, level.Floor, RetryMs(l, level)))
  }

  /** One Redis key under this script; `Expire` is Redis dropping it. */
  class TokenBucketKey {
    var hash: Option<Bucket>
    var expiresAt: real

    constructor ()
      ensures hash == None
    {
      hash, expiresAt := None, 0.0;
    }

    method Script(l: Limits, now: real) returns (reply: Reply)
      modifies this
      ensures hash == Step(l, old(hash), now)
      ensures reply == ReplyOf(l, old(hash), now)
      ensures l.rate > 0 ==> expiresAt == now + Ttl(l) as real
      ensures reply.Reply? && (old(hash).Some? ==> old(hash).value.tokens >= 0.0) ==>
                ExactRemainder(l, hash, now, reply.outcome.remaining)
    {
      FreshBucket(l, now);
      if l.rate > 0 && (hash.Some? ==> hash.value.tokens >= 0.0) { ReplyRemainder(l, hash, now); }
      var tokens := match hash case Some(b) => b.tokens case None => l.capacity as real;
      var lastRefill := match hash case Some(b) => b.lastRefill case None => now;
      tokens := Level(l, Some(Bucket(tokens, lastRefill)), now);
      var allowed, retryAfterMs := false, 0;
      if tokens >= 1.0 {
        tokens := tokens - 1.0;
        allowed := true;
      } else if l.rate > 0 {
        retryAfterMs := RetryMs(l, tokens);
      }
      hash := Some(Bucket(tokens, now));
      if l.rate == 0 { return ScriptError; }
      expiresAt := now + Ttl(l) as real;
      reply := Reply(Outcome(allowed, tokens.Floor, retryAfterMs));
    }
  }

  // ---- What the numbers of a reply mean ----

  /** After a call the level is what it left, which is between zero and the capacity. */
  lemma LevelAfter(l: Limits, hash: Option<Bucket>, now: real)
    requires Level(l, hash, now) >= 0.0
    ensures Level(l, Step(l, hash, now), now) == Step(l, hash, now).value.tokens >= 0.0
  {
    assert Accrued(l, Max(0.0, now - now)) == 0.0;
  }

  /**
   The remainder is exact: of the calls that follow at the same timestamp, exactly as many as it says
   are admitted, the first ones; after a denial none is.
   */
  lemma RemainderIsExact(l: Limits, hash: Option<Bucket>, now: real, k: nat)
    requires l.rate > 0 && Level(l, hash, now) >= 0.0
    ensures ReplyOf(l, hash, now).Reply? && ReplyOf(l, Burst(l, Step(l, hash, now), now, k), now).Reply?
    ensures var o := ReplyOf(l, hash, now).outcome;
            && (ReplyOf(l, Burst(l, Step(l, hash, now), now, k), now).outcome.allowed <==> k < o.remaining)
            && o.remaining >= 0 && (!o.allowed ==> o.remaining == 0)
  {
    LevelAfter(l, hash, now);
    RemainingIsExact(l, Step(l, hash, now), now, k);
  }

  /** Of the calls that follow at this timestamp, exactly the first `n` find a token. */
  ghost predicate ExactRemainder(l: Limits, hash: Option<Bucket>, now: real, n: int)
  {
    forall k: nat :: Level(l, Burst(l, hash, now, k), now) >= 1.0 <==> k < n
  }

  lemma ReplyRemainder(l: Limits, hash: Option<Bucket>, now: real)
    requires l.rate > 0 && (hash.Some? ==> hash.value.tokens >= 0.0)
    ensures ReplyOf(l, hash, now).Reply?
    ensures ExactRemainder(l, Step(l, hash, now), now, ReplyOf(l, hash, now).outcome.remaining)
  {
    StaysNonNegative(l, hash, now);
    forall k: nat
      ensures Level(l, Burst(l, Step(l, hash, now), now, k), now) >= 1.0
              <==> k < ReplyOf(l, hash, now).outcome.remaining
    {
      RemainderIsExact(l, hash, now, k);
    }
  }

  /** The TTL is the least whole number of seconds in which an empty bucket fills, plus ten. */
  lemma TtlIsFillTime(l: Limits)
    requires l.rate > 0
    ensures Accrued(l, (Ttl(l) - 11) as real) < l.capacity as real <= Accrued(l, (Ttl(l) - 10) as real)
  {
    var n, fill, rate := (Ttl(l) - 10) as real, FillSeconds(l), l.rate as real;
    assert n - 1.0 < fill <= n;
    assert rate * fill == l.capacity as real;
    Scaled(fill, n, rate);
    Scaled(n - 1.0, fill, rate);
    assert (Ttl(l) - 11) as real == n - 1.0;
  }

  lemma Scaled(x: real, y: real, z: real)
    requires z > 0.0
    ensures x <= y ==> z * x <= z * y
    ensures x < y ==> z * x < z * y
  {
    if x < y { PositiveProduct(y - x, z); }
  }

  // ---- Expiry is unobservable ----

  /** A call, and whether Redis dropped the hash just before it. */
  datatype Call = Call(now: real, dropped: bool)

  function Times(calls: History<Call>): seq<real>
  {
    match calls
    case Nothing => []
    case Then(past, c) => Times(past) + [c.now]
  }

  function Survives(hash: Option<Bucket>, dropped: bool): Option<Bucket>
  {
    if dropped then None else hash
  }

  function RunWithExpiry(l: Limits, calls: History<Call>): Option<Bucket>
  {
    match calls
    case Nothing => None
    case Then(past, c) => Step(l, Survives(RunWithExpiry(l, past), c.dropped), c.now)
  }

  /**
   Redis drops a hash only once its TTL has passed. Redis and the gateways read different clocks,
   which may drift apart by up to `skew` seconds between the last write and the drop.
   */
  predicate LegalDrops(l: Limits, calls: History<Call>, skew: real)
    requires l.rate > 0
  {
    calls.Then? ==>
      && LegalDrops(l, calls.past, skew)
      && (calls.last.dropped && calls.past.Then? ==>
            calls.last.now - calls.past.last.now + skew >= Ttl(l) as real)
  }

  lemma FullAfterFillTime(l: Limits, b: Bucket, now: real)
    requires l.rate > 0 && b.tokens >= 0.0
    requires now - b.lastRefill >= FillSeconds(l)
    ensures Level(l, Some(b), now) == l.capacity as real
  {
    var dt := now - b.lastRefill;
    var rate := l.rate as real;
    assert FillSeconds(l) >= 0.0;
    AccruedAdds(l, FillSeconds(l), dt);
    assert Accrued(l, FillSeconds(l)) == l.capacity as real;
  }

  lemma StaysNonNegative(l: Limits, hash: Option<Bucket>, now: real)
    requires hash.Some? ==> hash.value.tokens >= 0.0
    ensures Level(l, hash, now) >= 0.0
    ensures Step(l, hash, now).value.tokens >= 0.0
  {
    if hash.Some? { AccruedAdds(l, 0.0, Max(0.0, now - hash.value.lastRefill)); }
  }

  /** Dropping an expired hash changes neither the level nor the next hash. */
  lemma DropUnobservable(l: Limits, b: Bucket, now: real, skew: real)
    requires l.rate > 0 && b.tokens >= 0.0
    requires 0.0 <= skew <= 10.0
    requires now - b.lastRefill + skew >= Ttl(l) as real
    ensures Level(l, None, now) == Level(l, Some(b), now)
    ensures Step(l, None, now) == Step(l, Some(b), now)
    ensures ReplyOf(l, None, now) == ReplyOf(l, Some(b), now)
  {
    assert now - b.lastRefill >= Ceil(FillSeconds(l)) as real;
    FullAfterFillTime(l, b, now);
  }

  /**
   A run in which Redis drops hashes at any legal moment passes through the same hashes as the run
   in which it never drops one: whatever has been called so far, the next call sees the same level
   and replies the same. The ten-second buffer in the TTL absorbs any clock skew up to ten seconds.
   */
  lemma {:induction false} ExpiryUnobservable(l: Limits, calls: History<Call>, skew: real)
    requires l.rate > 0
    requires 0.0 <= skew <= 10.0 && LegalDrops(l, calls, skew)
    ensures RunWithExpiry(l, calls) == Run(l, Times(calls))
    ensures calls.Then? ==> SameCall(l, Survives(RunWithExpiry(l, calls.past), calls.last.dropped),
                                     Run(l, Times(calls.past)), calls.last.now)
    ensures calls.Then? ==> RunWithExpiry(l, calls).value.lastRefill == calls.last.now
    ensures calls.Then? ==> RunWithExpiry(l, calls).value.tokens >= 0.0
  {
    if calls.Then? {
      ExpiryUnobservable(l, calls.past, skew);
      RunAppend(l, Times(calls.past), calls.last.now);
      var prev := RunWithExpiry(l, calls.past);
      if calls.last.dropped && prev.Some? {
        DropUnobservable(l, prev.value, calls.last.now, skew);
      }
      StaysNonNegative(l, prev, calls.last.now);
    }
  }

  /** A call finds the same in one hash as in the other. */
  predicate SameCall(l: Limits, a: Option<Bucket>, b: Option<Bucket>, now: real)
  {
    && Level(l, a, now) == Level(l, b, now)
    && Step(l, a, now) == Step(l, b, now)
    && ReplyOf(l, a, now) == ReplyOf(l, b, now)
  }

  // ---- The retry time is exact ----

  /** The hash after a sequence of polls that starts from `b`. */
  function Poll(l: Limits, b: Bucket, polls: seq<real>): Bucket
  {
    if polls == [] then b
    else Step(l, Some(Poll(l, b, polls[..|polls| - 1])), polls[|polls| - 1]).value
  }

  function LastTime(b: Bucket, polls: seq<real>): real
  {
    if polls == [] then b.lastRefill else polls[|polls| - 1]
  }

  /** Two lazy refills in a row add up to one. */
  lemma RefillsCompose(l: Limits, b: Bucket, t: real, now: real)
    requires b.lastRefill <= t <= now
    ensures Level(l, Some(Bucket(Level(l, Some(b), t), t)), now) == Level(l, Some(b), now)
  {
    AccruedAdds(l, t - b.lastRefill, now - t);
    AccruedAdds(l, 0.0, now - t);
    assert (t - b.lastRefill) + (now - t) == now - b.lastRefill;
  }

  /**
   The moment from which a request is admitted after a denial that left `b`, as long as nothing is
   admitted in between.
   */
  function ReadyAt(l: Limits, b: Bucket): real
    requires l.rate > 0
  {
    b.lastRefill + (1.0 - b.tokens) / l.rate as real
  }

  lemma PositiveProduct(x: real, y: real)
    requires x > 0.0 && y > 0.0
    ensures x * y > 0.0
  {}

  lemma ReadyIffLevel(l: Limits, b: Bucket, now: real)
    requires l.rate > 0 && l.capacity >= 1 && b.tokens < 1.0 && b.lastRefill <= now
    ensures Level(l, Some(b), now) >= 1.0 <==> now >= ReadyAt(l, b)
  {
    var rate := l.rate as real;
    var wait := (1.0 - b.tokens) / rate;
    assert Accrued(l, wait) == 1.0 - b.tokens;
    var dt := now - b.lastRefill;
    AccruedAdds(l, wait, dt);
    if dt < wait {
      AccruedAdds(l, dt, wait - dt);
      assert dt + (wait - dt) == wait;
      PositiveProduct(rate, wait - dt);
      assert b.tokens + Accrued(l, dt) < 1.0;
    }
  }

  /** No poll of the sequence was admitted. */
  ghost predicate AllDenied(l: Limits, b: Bucket, polls: seq<real>)
  {
    forall k | 0 <= k < |polls| :: Level(l, Some(Poll(l, b, polls[..k])), polls[k]) < 1.0
  }

  /** However many polls were denied in between, a later request sees the level it would have seen. */
  lemma {:induction false} PollsChangeNothing(l: Limits, b: Bucket, polls: seq<real>, now: real)
    requires NonDecreasing([b.lastRefill] + polls + [now])
    requires AllDenied(l, b, polls)
    ensures Poll(l, b, polls).lastRefill == LastTime(b, polls) <= now
    ensures Level(l, Some(Poll(l, b, polls)), now) == Level(l, Some(b), now)
  {
    var all := [b.lastRefill] + polls + [now];
    assert all[|polls|] <= all[|polls| + 1];
    assert all[|polls|] == LastTime(b, polls);
    if polls != [] {
      var n := |polls| - 1;
      var before, t := polls[..n], polls[n];
      var upTo := all[..|polls| + 1];
      assert upTo == [b.lastRefill] + before + [t];
      assert upTo + [now] == all;
      NonDecreasingPrefix(upTo, now);
      forall k | 0 <= k < n ensures Level(l, Some(Poll(l, b, before[..k])), before[k]) < 1.0 {
        assert before[..k] == polls[..k];
      }
      PollsChangeNothing(l, b, before, t);
      assert all[0] <= all[n + 1];
      RefillsCompose(l, b, t, now);
    }
  }

  /**
   After a denial at `now`, and any number of denied polls: a request more than a millisecond
   before the announced time is denied, one at or after it is admitted, and the exact moment is
   the one at which the missing fraction has accrued.
   */
  lemma RetryIsExact(l: Limits, hash: Option<Bucket>, now: real, polls: seq<real>, t: real)
    requires l.rate > 0 && l.capacity >= 1
    requires Level(l, hash, now) < 1.0
    requires NonDecreasing([now] + polls + [t])
    requires AllDenied(l, Step(l, hash, now).value, polls)
    ensures ReplyOf(l, hash, now).Reply?
    ensures var denied := Step(l, hash, now).value;
            var retry := ReplyOf(l, hash, now).outcome.retryAfterMs as real / 1000.0;
            var admitted := Level(l, Some(Poll(l, denied, polls)), t) >= 1.0;
            && (t < now + retry - 0.001 ==> !admitted)
            && (t >= now + retry ==> admitted)
            && (admitted <==> t >= ReadyAt(l, denied))
  {
    var denied := Step(l, hash, now).value;
    PollsChangeNothing(l, denied, polls, t);
    var all := [now] + polls + [t];
    assert all[0] <= all[|all| - 1];
    ReadyIffLevel(l, denied, t);
    var wait := (1.0 - denied.tokens) / l.rate as real;
    var ms := RetryMs(l, denied.tokens);
    assert ms as real - 1.0 < wait * 1000.0 <= ms as real;
  }
}

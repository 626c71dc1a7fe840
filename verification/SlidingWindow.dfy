/**
 The sliding-window script of crates/gateway-ratelimit/src/l2_redis.rs: a Redis sorted set of
 admitted requests, scored by timestamp and pruned on every call. A sorted set is a map from
 member to score; an empty one is an absent key.
 */
module SlidingWindow {
  import opened Numbers

  datatype Window = Window(maxRequests: nat, seconds: nat)

  datatype Request = Request(now: real, id: string)

  type SortedSet = map<string, real>

  datatype Outcome = Outcome(allowed: bool, remaining: nat, retryAfterMs: int)

  // ---- The script ----

  /** ZREMRANGEBYSCORE key -inf start: both ends of the range are inclusive. */
  function Prune(z: SortedSet, start: real): (kept: SortedSet)
  {
    map id | id in z && z[id] > start :: z[id]
  }

  function Kept(w: Window, z: SortedSet, now: real): SortedSet
  {
    Prune(z, now - w.seconds as real)
  }

  predicate Admits(w: Window, z: SortedSet, now: real)
  {
    |Kept(w, z, now)| < w.maxRequests
  }

  /** ZADD when there is room. */
  function Add(w: Window, kept: SortedSet, r: Request): SortedSet
  {
    if |kept| < w.maxRequests then kept[r.id := r.now] else kept
  }

  function Step(w: Window, z: SortedSet, r: Request): SortedSet
  {
    Add(w, Kept(w, z, r.now), r)
  }

  function Run(w: Window, reqs: History<Request>): SortedSet
  {
    match reqs
    case Nothing => map[]
    case Then(past, r) => Step(w, Run(w, past), r)
  }

  ghost predicate IsOldest(z: SortedSet, t: real)
  {
    && (exists id | id in z :: z[id] == t)
    && forall id | id in z :: t <= z[id]
  }

  function RetryMs(w: Window, oldest: real, now: real): int
  {
    Ceil((oldest + w.seconds as real - now) * 1000.0)
  }

  /** The script's reply. */
  ghost predicate ReplyOf(w: Window, z: SortedSet, r: Request, o: Outcome)
  {
    var kept := Kept(w, z, r.now);
    && o.allowed == Admits(w, z, r.now)
    && o.remaining == (if o.allowed then w.maxRequests - |kept| - 1 else 0)
    && (o.allowed || kept == map[] ==> o.retryAfterMs == 0)
    && (!o.allowed && kept != map[] ==>
          exists t :: IsOldest(kept, t) && o.retryAfterMs == RetryMs(w, t, r.now))
  }

  // ---- The reference: a scan of the full log of admissions ----

  /** How many logged admissions are later than `start`. */
  function InWindow(log: History<Request>, start: real): nat
  {
    match log
    case Nothing => 0
    case Then(past, r) => InWindow(past, start) + if r.now > start then 1 else 0
  }

  function Extend(w: Window, log: History<Request>, r: Request): History<Request>
  {
    if InWindow(log, r.now - w.seconds as real) < w.maxRequests then Then(log, r) else log
  }

  /** The log of all admissions ever made, decided by scanning the log itself. */
  function FullLog(w: Window, reqs: History<Request>): (log: History<Request>)
  {
    match reqs
    case Nothing => Nothing
    case Then(past, r) =>
      Extend(w, FullLog(w, past), r)
  }

  /** The last request of the history, if any, came no later than `now`. */
  predicate NotAfter(reqs: History<Request>, now: real)
  {
    reqs.Then? ==> reqs.last.now <= now
  }

  /** Timestamps never decrease. */
  predicate InOrder(reqs: History<Request>)
  {
    reqs.Then? ==> InOrder(reqs.past) && NotAfter(reqs.past, reqs.last.now)
  }

  /** No admitted request carried an id that was still in the set. */
  predicate NoCollision(w: Window, reqs: History<Request>)
  {
    reqs.Then? ==>
      && NoCollision(w, reqs.past)
      && (Admits(w, Run(w, reqs.past), reqs.last.now) ==>
            reqs.last.id !in Kept(w, Run(w, reqs.past), reqs.last.now))
  }

  /** No entry later than `start` has this id. */
  predicate NewId(log: History<Request>, start: real, id: string)
  {
    log.Then? ==> NewId(log.past, start, id) && (log.last.now > start ==> log.last.id != id)
  }

  /** The entries later than `start` have different ids. */
  predicate Distinct(log: History<Request>, start: real)
  {
    log.Then? ==> Distinct(log.past, start) && (log.last.now > start ==> NewId(log.past, start, log.last.id))
  }

  /** The entries of the log that a sorted set pruned at `start` would hold. */
  function AsSet(log: History<Request>, start: real): SortedSet
  {
    match log
    case Nothing => map[]
    case Then(past, r) =>
      if r.now > start then AsSet(past, start)[r.id := r.now] else AsSet(past, start)
  }

  lemma {:induction false} AsSetKeys(log: History<Request>, start: real, id: string)
    ensures NewId(log, start, id) <==> id !in AsSet(log, start)
  {
    if log.Then? { AsSetKeys(log.past, start, id); }
  }

  /** Some admission hides another, so the set is smaller than the scan's count, exactly when ids repeat. */
  lemma {:induction false} AsSetCounts(log: History<Request>, start: real)
    ensures |AsSet(log, start)| <= InWindow(log, start)
    ensures |AsSet(log, start)| == InWindow(log, start) <==> Distinct(log, start)
  {
    if log.Then? {
      AsSetCounts(log.past, start);
      AsSetKeys(log.past, start, log.last.id);
    }
  }

  lemma {:induction false} LaterIsNew(log: History<Request>, early: real, late: real, id: string)
    requires early <= late && NewId(log, early, id)
    ensures NewId(log, late, id)
  {
    if log.Then? { LaterIsNew(log.past, early, late, id); }
  }

  lemma {:induction false} LaterIsDistinct(log: History<Request>, early: real, late: real)
    requires early <= late && Distinct(log, early)
    ensures Distinct(log, late)
  {
    if log.Then? {
      LaterIsDistinct(log.past, early, late);
      if log.last.now > early { LaterIsNew(log.past, early, late, log.last.id); }
    }
  }

  /** Pruning again later gives what pruning once at the later moment gives. */
  lemma {:induction false} PruneAgain(log: History<Request>, early: real, late: real)
    requires Distinct(log, early)
    requires early <= late
    ensures Prune(AsSet(log, early), late) == AsSet(log, late)
  {
    if log.Then? {
      PruneAgain(log.past, early, late);
      AsSetKeys(log.past, early, log.last.id);
    }
  }

  lemma PruneShrinks(z: SortedSet, start: real)
    ensures |Prune(z, start)| <= |z|
  {
    assert Prune(z, start).Keys <= z.Keys;
    SubsetSize(Prune(z, start).Keys, z.Keys);
  }

  lemma {:induction false} SizeBounded(w: Window, reqs: History<Request>)
    ensures |Run(w, reqs)| <= w.maxRequests
  {
    if reqs.Then? {
      SizeBounded(w, reqs.past);
      PruneShrinks(Run(w, reqs.past), reqs.last.now - w.seconds as real);
    }
  }

  /**
   The refinement: at any moment from the last call on, what the next call would keep of the
   pruned set is the in-window part of the full log, entry for entry.
   */
  lemma {:induction false} RefinesFullLog(w: Window, reqs: History<Request>, now: real)
    requires InOrder(reqs) && NoCollision(w, reqs)
    requires NotAfter(reqs, now)
    ensures Kept(w, Run(w, reqs), now) == AsSet(FullLog(w, reqs), now - w.seconds as real)
    ensures Distinct(FullLog(w, reqs), now - w.seconds as real)
  {
    if reqs.Then? {
      var r, log := reqs.last, FullLog(w, reqs.past);
      var kept := Kept(w, Run(w, reqs.past), r.now);
      assert Run(w, reqs) == Add(w, kept, r);
      RefinesFullLog(w, reqs.past, r.now);
      AddAgrees(w, kept, log, r, now);
    }
  }

  /** ZADD when there is room extends the set as a scan of the log extends the log. */
  lemma AddAgrees(w: Window, kept: SortedSet, log: History<Request>, r: Request, now: real)
    requires Distinct(log, r.now - w.seconds as real) && r.now <= now
    requires kept == AsSet(log, r.now - w.seconds as real)
    requires |kept| < w.maxRequests ==> r.id !in kept
    ensures Kept(w, Add(w, kept, r), now) == AsSet(Extend(w, log, r), now - w.seconds as real)
    ensures Distinct(Extend(w, log, r), now - w.seconds as real)
  {
    var start, later := r.now - w.seconds as real, now - w.seconds as real;
    AsSetCounts(log, start);
    if |kept| < w.maxRequests {
      assert Add(w, kept, r) == AsSet(log, start)[r.id := r.now];
      assert Extend(w, log, r) == Then(log, r);
      ExtendAgrees(log, r, start, later);
    } else {
      assert Add(w, kept, r) == AsSet(log, start);
      assert Extend(w, log, r) == log;
      PruneAgain(log, start, later);
      LaterIsDistinct(log, start, later);
    }
  }

  lemma ExtendAgrees(log: History<Request>, r: Request, start: real, later: real)
    requires Distinct(log, start) && r.id !in AsSet(log, start) && start <= later
    ensures Prune(AsSet(log, start)[r.id := r.now], later) == AsSet(Then(log, r), later)
    ensures Distinct(Then(log, r), later)
  {
    AsSetKeys(log, start, r.id);
    LaterIsNew(log, start, later, r.id);
    LaterIsDistinct(log, start, later);
    PruneAgain(log, start, later);
    AddThenPrune(AsSet(log, start), r, later);
  }

  /** The next decision is the one a scan of the full log makes. */
  lemma DecidesAsFullLog(w: Window, reqs: History<Request>, now: real)
    requires InOrder(reqs) && NoCollision(w, reqs)
    requires NotAfter(reqs, now)
    ensures Admits(w, Run(w, reqs), now)
            <==> InWindow(FullLog(w, reqs), now - w.seconds as real) < w.maxRequests
  {
    CountsAsFullLog(w, reqs, now);
  }

  lemma CountsAsFullLog(w: Window, reqs: History<Request>, now: real)
    requires InOrder(reqs) && NoCollision(w, reqs)
    requires NotAfter(reqs, now)
    ensures |Kept(w, Run(w, reqs), now)| == InWindow(FullLog(w, reqs), now - w.seconds as real)
  {
    AliveIsKept(w, reqs, now);
    AliveInOrder(w, reqs, now);
  }

  lemma AddThenPrune(z: SortedSet, r: Request, start: real)
    requires r.id !in z
    ensures Prune(z[r.id := r.now], start)
         == if r.now > start then Prune(z, start)[r.id := r.now] else Prune(z, start)
  {}

  // ---- The window bound ----

  /** Logged admissions in (from, to]. */
  function AdmittedIn(log: History<Request>, from: real, to: real): nat
  {
    match log
    case Nothing => 0
    case Then(past, r) => AdmittedIn(past, from, to) + if from < r.now <= to then 1 else 0
  }

  /** The log grows exactly when the script admits. */
  lemma CountNextAdmission(w: Window, reqs: History<Request>, r: Request, from: real, to: real)
    requires InOrder(reqs) && NoCollision(w, reqs)
    requires NotAfter(reqs, r.now)
    ensures AdmittedIn(FullLog(w, Then(reqs, r)), from, to)
         == AdmittedIn(FullLog(w, reqs), from, to)
            + if from < r.now <= to && Admits(w, Run(w, reqs), r.now) then 1 else 0
  {
    DecidesAsFullLog(w, reqs, r.now);
  }

  lemma {:induction false} IntervalInsideWindow(log: History<Request>, from: real, to: real, start: real)
    requires start <= from
    ensures AdmittedIn(log, from, to) <= InWindow(log, start)
  {
    if log.Then? { IntervalInsideWindow(log.past, from, to, start); }
  }

  /** Every half-open interval as long as the window holds at most `maxRequests` admissions. */
  lemma {:induction false} WindowBound(w: Window, reqs: History<Request>, from: real)
    ensures AdmittedIn(FullLog(w, reqs), from, from + w.seconds as real) <= w.maxRequests
  {
    if reqs.Then? {
      WindowBound(w, reqs.past, from);
      if reqs.last.now <= from + w.seconds as real {
        IntervalInsideWindow(
          FullLog(w, reqs.past), from, from + w.seconds as real, reqs.last.now - w.seconds as real);
      }
    }
  }

  // ---- Timestamps in any order ----

  /**
   How many admissions a call at `peak` finds, whatever order the timestamps come in: those that
   neither this call nor any call since came a window after. An admission is decided by the same scan.
   */
  function Alive(w: Window, reqs: History<Request>, peak: real): nat
  {
    match reqs
    case Nothing => 0
    case Then(past, r) =>
      Alive(w, past, Max(peak, r.now))
      + if Alive(w, past, r.now) < w.maxRequests && r.now > peak - w.seconds as real then 1 else 0
  }

  lemma PruneTwice(z: SortedSet, a: real, b: real)
    ensures Prune(Prune(z, a), b) == Prune(z, Max(a, b))
  {}

  /** Any call finds in the set exactly as many entries as that scan counts. */
  lemma {:induction false} AliveIsKept(w: Window, reqs: History<Request>, peak: real)
    requires NoCollision(w, reqs)
    ensures |Kept(w, Run(w, reqs), peak)| == Alive(w, reqs, peak)
  {
    if reqs.Then? {
      AliveIsKept(w, reqs.past, reqs.last.now);
      AliveIsKept(w, reqs.past, Max(peak, reqs.last.now));
      KeptAfterStep(w, Run(w, reqs.past), reqs.last, peak);
    }
  }

  lemma KeptAfterStep(w: Window, z: SortedSet, r: Request, peak: real)
    requires Admits(w, z, r.now) ==> r.id !in Kept(w, z, r.now)
    ensures |Kept(w, Step(w, z, r), peak)|
         == |Kept(w, z, Max(peak, r.now))|
            + if Admits(w, z, r.now) && r.now > peak - w.seconds as real then 1 else 0
  {
    var kept, start := Kept(w, z, r.now), peak - w.seconds as real;
    PruneTwice(z, r.now - w.seconds as real, start);
    assert Prune(kept, start) == Kept(w, z, Max(peak, r.now));
    if Admits(w, z, r.now) { AddThenPrune(kept, r, start); }
  }

  /** So every decision is that of the scan, in any order of timestamps. */
  lemma DecidesAsScan(w: Window, reqs: History<Request>, now: real)
    requires NoCollision(w, reqs)
    ensures Admits(w, Run(w, reqs), now) <==> Alive(w, reqs, now) < w.maxRequests
  {
    AliveIsKept(w, reqs, now);
  }

  /** In order, that scan is the scan of the full log for the window that ends now. */
  lemma {:induction false} AliveInOrder(w: Window, reqs: History<Request>, now: real)
    requires InOrder(reqs) && NotAfter(reqs, now)
    ensures Alive(w, reqs, now) == InWindow(FullLog(w, reqs), now - w.seconds as real)
  {
    if reqs.Then? {
      AliveInOrder(w, reqs.past, reqs.last.now);
      AliveInOrder(w, reqs.past, now);
    }
  }

  /** Calls admitted from the i-th call on. */
  function AdmittedFrom(w: Window, reqs: History<Request>, i: nat): nat
  {
    match reqs
    case Nothing => 0
    case Then(past, r) =>
      AdmittedFrom(w, past, i) + if Length(past) >= i && Admits(w, Run(w, past), r.now) then 1 else 0
  }

  /** From the i-th call on, all timestamps lie in one window: (lo, lo + window]. */
  predicate OneWindowFrom(w: Window, reqs: History<Request>, i: nat, lo: real)
  {
    reqs.Then? ==>
      && OneWindowFrom(w, reqs.past, i, lo)
      && (Length(reqs.past) >= i ==> lo < reqs.last.now <= lo + w.seconds as real)
  }

  lemma {:induction false} NoneBefore(w: Window, reqs: History<Request>, i: nat)
    requires Length(reqs) <= i
    ensures AdmittedFrom(w, reqs, i) == 0
  {
    if reqs.Then? { NoneBefore(w, reqs.past, i); }
  }

  lemma StretchStep(w: Window, z: SortedSet, r: Request, lo: real)
    requires Admits(w, z, r.now) ==> r.id !in Kept(w, z, r.now)
    requires lo < r.now <= lo + w.seconds as real
    ensures |Prune(Step(w, z, r), lo)| == |Prune(z, lo)| + if Admits(w, z, r.now) then 1 else 0
  {
    PruneTwice(z, r.now - w.seconds as real, lo);
    if Admits(w, z, r.now) { AddThenPrune(Kept(w, z, r.now), r, lo); }
  }

  /** Nothing admitted in the stretch is pruned during the stretch. */
  lemma {:induction false} StretchIsKept(w: Window, reqs: History<Request>, i: nat, lo: real)
    requires NoCollision(w, reqs) && OneWindowFrom(w, reqs, i, lo)
    ensures AdmittedFrom(w, reqs, i) <= |Prune(Run(w, reqs), lo)|
  {
    if reqs.Then? {
      if Length(reqs.past) >= i {
        StretchIsKept(w, reqs.past, i, lo);
        StretchStep(w, Run(w, reqs.past), reqs.last, lo);
      } else {
        NoneBefore(w, reqs, i);
      }
    }
  }

  /** The bound that needs no order: calls in a row whose timestamps lie in one window admit at most the limit. */
  lemma StretchBound(w: Window, reqs: History<Request>, i: nat, lo: real)
    requires NoCollision(w, reqs) && OneWindowFrom(w, reqs, i, lo)
    ensures AdmittedFrom(w, reqs, i) <= w.maxRequests
  {
    StretchIsKept(w, reqs, i, lo);
    PruneShrinks(Run(w, reqs), lo);
    SizeBounded(w, reqs);
  }

  /** Calls admitted with a timestamp in (from, to]. */
  function ActualIn(w: Window, reqs: History<Request>, from: real, to: real): nat
  {
    match reqs
    case Nothing => 0
    case Then(past, r) =>
      ActualIn(w, past, from, to) + if from < r.now <= to && Admits(w, Run(w, past), r.now) then 1 else 0
  }

  function Name(k: nat): (name: string)
    ensures |name| == k
  {
    if k == 0 then "" else Name(k - 1) + "x"
  }

  function Windows(w: Window, k: nat): real
  {
    if k == 0 then 0.0 else Windows(w, k - 1) + w.seconds as real
  }

  /** `k` times: a call at 0 that was overtaken, then a call one window after the one before it. */
  function Overtaken(w: Window, k: nat): History<Request>
  {
    if k == 0 then Nothing
    else Then(Then(Overtaken(w, k - 1), First(k)), Second(w, k))
  }

  function First(k: nat): Request
  {
    Request(0.0, Name(2 * k))
  }

  function Second(w: Window, k: nat): Request
  {
    Request(Windows(w, k), Name(2 * k + 1))
  }

  /** What `k` rounds leave: the latest call only. */
  function Latest(w: Window, k: nat): SortedSet
  {
    if k == 0 then map[] else map[Name(2 * k + 1) := Windows(w, k)]
  }

  lemma {:induction false} WindowsGrow(w: Window, k: nat)
    ensures Windows(w, k) >= 0.0
  {
    if k > 0 { WindowsGrow(w, k - 1); }
  }

  lemma OneRound(w: Window, k: nat)
    requires w.maxRequests >= 2 && w.seconds >= 1 && k >= 1
    ensures var z, first, second := Latest(w, k - 1), First(k), Second(w, k);
            && Admits(w, z, 0.0) && first.id !in Kept(w, z, 0.0)
            && Admits(w, Step(w, z, first), second.now) && second.id !in Kept(w, Step(w, z, first), second.now)
            && Step(w, Step(w, z, first), second) == Latest(w, k)
  {
    var z, first := Latest(w, k - 1), First(k);
    WindowsGrow(w, k - 1);
    assert Kept(w, z, 0.0) == z;
    assert Step(w, z, first) == z[Name(2 * k) := 0.0];
    assert Kept(w, z[Name(2 * k) := 0.0], Windows(w, k)) == map[];
  }

  /**
   Order is needed for the window bound: when calls are overtaken, with any limit from two on, one
   moment admits any number, although no ids collide.
   */
  lemma {:induction false} OvertakenUnbounded(w: Window, k: nat)
    requires w.maxRequests >= 2 && w.seconds >= 1
    ensures NoCollision(w, Overtaken(w, k)) && Run(w, Overtaken(w, k)) == Latest(w, k)
    ensures ActualIn(w, Overtaken(w, k), -(w.seconds as real), 0.0) == k
  {
    if k > 0 {
      OvertakenUnbounded(w, k - 1);
      NextRound(w, Overtaken(w, k - 1), k);
    }
  }

  lemma NextRound(w: Window, past: History<Request>, k: nat)
    requires w.maxRequests >= 2 && w.seconds >= 1 && k >= 1
    requires NoCollision(w, past) && Run(w, past) == Latest(w, k - 1)
    ensures var two := Then(Then(past, First(k)), Second(w, k));
            && NoCollision(w, two) && Run(w, two) == Latest(w, k)
            && ActualIn(w, two, -(w.seconds as real), 0.0) == ActualIn(w, past, -(w.seconds as real), 0.0) + 1
  {
    OneRound(w, k);
    WindowsGrow(w, k - 1);
    TwoCalls(w, past, Latest(w, k - 1), First(k), Second(w, k), -(w.seconds as real));
  }

  /** Two admitted calls, the first of them in (from, 0] and the second after. */
  lemma TwoCalls(w: Window, past: History<Request>, z: SortedSet, a: Request, b: Request, from: real)
    requires NoCollision(w, past) && Run(w, past) == z && from < a.now <= 0.0 < b.now
    requires Admits(w, z, a.now) && a.id !in Kept(w, z, a.now)
    requires Admits(w, Step(w, z, a), b.now) && b.id !in Kept(w, Step(w, z, a), b.now)
    ensures NoCollision(w, Then(Then(past, a), b))
    ensures Run(w, Then(Then(past, a), b)) == Step(w, Step(w, z, a), b)
    ensures ActualIn(w, Then(Then(past, a), b), from, 0.0) == ActualIn(w, past, from, 0.0) + 1
  {
    assert Run(w, Then(past, a)) == Step(w, z, a);
    assert NoCollision(w, Then(past, a));
    assert ActualIn(w, Then(past, a), from, 0.0) == ActualIn(w, past, from, 0.0) + 1;
  }

  // ---- Exactly when the set counts right ----

  /** After every call so far, and at every moment since that call, the set's size is the scan's count. */
  ghost predicate CountsRight(w: Window, reqs: History<Request>)
  {
    && (reqs.Then? ==> CountsRight(w, reqs.past))
    && forall now | NotAfter(reqs, now) ::
         |Kept(w, Run(w, reqs), now)| == InWindow(FullLog(w, reqs), now - w.seconds as real)
  }

  /** The set counts as a scan of the full log does if and only if no admission's id was still in the set. */
  lemma {:induction false} CountsRightIff(w: Window, reqs: History<Request>)
    requires InOrder(reqs)
    ensures CountsRight(w, reqs) <==> NoCollision(w, reqs)
  {
    if reqs.Then? { CountsRightIff(w, reqs.past); }
    if NoCollision(w, reqs) {
      forall now | NotAfter(reqs, now)
        ensures |Kept(w, Run(w, reqs), now)| == InWindow(FullLog(w, reqs), now - w.seconds as real)
      {
        CountsAsFullLog(w, reqs, now);
      }
    } else if NoCollision(w, reqs.past) {
      CollisionUndercounts(w, reqs.past, reqs.last);
    }
  }

  /** An admission whose id is still in the set leaves the set one short. */
  lemma CollisionUndercounts(w: Window, past: History<Request>, r: Request)
    requires InOrder(Then(past, r)) && NoCollision(w, past)
    requires Admits(w, Run(w, past), r.now) && r.id in Kept(w, Run(w, past), r.now)
    ensures |Kept(w, Run(w, Then(past, r)), r.now)| + 1
         == InWindow(FullLog(w, Then(past, r)), r.now - w.seconds as real)
  {
    CountsAsFullLog(w, past, r.now);
    InOrderUpTo(past, r.now);
    ScoresUpTo(w, past, r.now);
    StepUndercounts(w, Run(w, past), FullLog(w, past), r);
  }

  lemma StepUndercounts(w: Window, z: SortedSet, log: History<Request>, r: Request)
    requires |Kept(w, z, r.now)| == InWindow(log, r.now - w.seconds as real)
    requires Admits(w, z, r.now) && r.id in Kept(w, z, r.now)
    requires forall id | id in z :: z[id] <= r.now
    ensures |Kept(w, Step(w, z, r), r.now)| + 1 == InWindow(Extend(w, log, r), r.now - w.seconds as real)
  {
    AddOverwrites(w, z, r);
  }

  lemma AddOverwrites(w: Window, z: SortedSet, r: Request)
    requires Admits(w, z, r.now) && r.id in Kept(w, z, r.now)
    requires forall id | id in z :: z[id] <= r.now
    ensures r.now > r.now - w.seconds as real
    ensures |Kept(w, Step(w, z, r), r.now)| == |Kept(w, z, r.now)|
  {
    var kept := Kept(w, z, r.now);
    assert kept[r.id := r.now].Keys == kept.Keys;
    assert Kept(w, kept[r.id := r.now], r.now) == kept[r.id := r.now];
  }

  /** Every earlier request with this id was made at this very moment: ids contain the timestamp. */
  predicate IdNamesTime(reqs: History<Request>, r: Request)
  {
    reqs.Then? ==> IdNamesTime(reqs.past, r) && (reqs.last.id == r.id ==> reqs.last.now == r.now)
  }

  /** No earlier request at this very moment has this id. */
  predicate NewAtMoment(reqs: History<Request>, r: Request)
  {
    reqs.Then? ==> NewAtMoment(reqs.past, r) && reqs.last != r
  }

  /** The ids the caller makes: key, timestamp and a random part that differs at equal timestamps. */
  predicate CallerIds(reqs: History<Request>)
  {
    reqs.Then? ==> CallerIds(reqs.past) && IdNamesTime(reqs.past, reqs.last) && NewAtMoment(reqs.past, reqs.last)
  }

  lemma {:induction false} NotYetInSet(w: Window, reqs: History<Request>, r: Request)
    requires IdNamesTime(reqs, r) && NewAtMoment(reqs, r)
    ensures r.id !in Run(w, reqs)
  {
    if reqs.Then? { NotYetInSet(w, reqs.past, r); }
  }

  /** Random parts that differ at equal timestamps are all the script needs. */
  lemma {:induction false} CallerIdsDoNotCollide(w: Window, reqs: History<Request>)
    requires CallerIds(reqs)
    ensures NoCollision(w, reqs)
  {
    if reqs.Then? {
      CallerIdsDoNotCollide(w, reqs.past);
      NotYetInSet(w, reqs.past, reqs.last);
    }
  }

  /** `n` calls with the same request. */
  function Repeat(r: Request, n: nat): History<Request>
  {
    if n == 0 then Nothing else Then(Repeat(r, n - 1), r)
  }

  /**
   When the random parts do repeat within one timestamp, no limit above one holds: any number of
   such requests are admitted, and the set holds one member for all of them.
   */
  lemma {:induction false} CollidingIdsUndercount(w: Window, r: Request, n: nat)
    requires w.maxRequests >= 2 && w.seconds >= 1
    ensures InOrder(Repeat(r, n))
    ensures |Run(w, Repeat(r, n))| == (if n == 0 then 0 else 1)
    ensures Admits(w, Run(w, Repeat(r, n)), r.now)
  {
    if n > 0 {
      CollidingIdsUndercount(w, r, n - 1);
      OneMember(w, r, n);
    }
  }

  lemma {:induction false} OneMember(w: Window, r: Request, n: nat)
    requires w.maxRequests >= 2 && w.seconds >= 1 && n >= 1
    ensures Run(w, Repeat(r, n)) == map[r.id := r.now]
    ensures Kept(w, map[r.id := r.now], r.now) == map[r.id := r.now]
  {
    if n > 1 { OneMember(w, r, n - 1); }
    assert Kept(w, map[], r.now) == map[];
  }

  // ---- Expiry is unobservable ----

  /** A call, and whether Redis dropped the key just before it. */
  datatype Call = Call(request: Request, dropped: bool)

  function Requests(calls: History<Call>): History<Request>
  {
    match calls
    case Nothing => Nothing
    case Then(past, c) => Then(Requests(past), c.request)
  }

  function Survives(z: SortedSet, dropped: bool): SortedSet
  {
    if dropped then map[] else z
  }

  function RunWithExpiry(w: Window, calls: History<Call>): SortedSet
  {
    match calls
    case Nothing => map[]
    case Then(past, c) => Step(w, Survives(RunWithExpiry(w, past), c.dropped), c.request)
  }

  /** No timestamp so far is later than `limit`. */
  predicate AllUpTo(reqs: History<Request>, limit: real)
  {
    reqs.Then? ==> AllUpTo(reqs.past, limit) && reqs.last.now <= limit
  }

  /**
   Every call sets the TTL to the window plus five seconds, so when Redis drops the key all earlier
   timestamps are that old; `skew` is by how much the clocks and the calls' way to Redis blur this.
   */
  predicate LegalDrops(w: Window, calls: History<Call>, skew: real)
  {
    calls.Then? ==>
      && LegalDrops(w, calls.past, skew)
      && (calls.last.dropped ==>
            AllUpTo(Requests(calls.past), calls.last.request.now + skew - (w.seconds as real + 5.0)))
  }

  lemma {:induction false} ScoresUpTo(w: Window, reqs: History<Request>, limit: real)
    requires AllUpTo(reqs, limit)
    ensures forall id | id in Run(w, reqs) :: Run(w, reqs)[id] <= limit
  {
    if reqs.Then? { ScoresUpTo(w, reqs.past, limit); }
  }

  lemma {:induction false} InOrderUpTo(reqs: History<Request>, now: real)
    requires InOrder(reqs) && NotAfter(reqs, now)
    ensures AllUpTo(reqs, now)
  {
    if reqs.Then? { InOrderUpTo(reqs.past, now); }
  }

  /** Once the TTL has passed, everything in the set is outside the window. */
  lemma DropUnobservable(w: Window, z: SortedSet, last: real, now: real, skew: real)
    requires skew <= 5.0 && now - last + skew >= w.seconds as real + 5.0
    requires forall id | id in z :: z[id] <= last
    ensures Kept(w, z, now) == map[] == Kept(w, map[], now)
  {}

  /**
   Dropping keys at any legal moment changes no set and no reply: whatever has been called so far,
   the next call finds what it would have found had no key ever been dropped.
   */
  lemma {:induction false} ExpiryUnobservable(w: Window, calls: History<Call>, skew: real)
    requires skew <= 5.0
    requires LegalDrops(w, calls, skew)
    ensures RunWithExpiry(w, calls) == Run(w, Requests(calls))
    ensures calls.Then? ==>
              (Admits(w, Survives(RunWithExpiry(w, calls.past), calls.last.dropped), calls.last.request.now)
               <==> Admits(w, Run(w, Requests(calls.past)), calls.last.request.now))
    ensures calls.Then? ==>
              forall o: Outcome ::
                ReplyOf(w, Survives(RunWithExpiry(w, calls.past), calls.last.dropped), calls.last.request, o)
                <==> ReplyOf(w, Run(w, Requests(calls.past)), calls.last.request, o)
  {
    if calls.Then? {
      ExpiryUnobservable(w, calls.past, skew);
      var c, z := calls.last, Run(w, Requests(calls.past));
      if c.dropped {
        var limit := c.request.now + skew - (w.seconds as real + 5.0);
        ScoresUpTo(w, Requests(calls.past), limit);
        DropUnobservable(w, z, limit, c.request.now, skew);
      }
      assert Kept(w, Survives(z, c.dropped), c.request.now) == Kept(w, z, c.request.now);
    }
  }

  // ---- The retry time is exact ----

  function Poll(w: Window, z: SortedSet, polls: History<Request>): SortedSet
  {
    match polls
    case Nothing => z
    case Then(past, r) => Step(w, Poll(w, z, past), r)
  }

  predicate AllDenied(w: Window, z: SortedSet, polls: History<Request>)
  {
    polls.Then? ==> AllDenied(w, z, polls.past) && !Admits(w, Poll(w, z, polls.past), polls.last.now)
  }

  /** A denied poll prunes nothing from a set that is exactly full. */
  lemma DeniedKeepsAll(w: Window, z: SortedSet, r: Request)
    requires |z| == w.maxRequests
    requires !Admits(w, z, r.now)
    ensures Step(w, z, r) == z
  {
    var kept := Kept(w, z, r.now);
    assert kept.Keys <= z.Keys;
    SubsetSameSize(kept.Keys, z.Keys);
    assert kept == z;
  }

  lemma {:induction false} SubsetSameSize(a: set<string>, b: set<string>)
    requires a <= b && |a| >= |b|
    ensures a == b
  {
    if x :| x in b && x !in a {
      SubsetSize(a, b - {x});
    }
  }

  lemma {:induction false} PollsChangeNothing(w: Window, z: SortedSet, polls: History<Request>)
    requires |z| == w.maxRequests
    requires AllDenied(w, z, polls)
    ensures Poll(w, z, polls) == z
  {
    if polls.Then? {
      PollsChangeNothing(w, z, polls.past);
      DeniedKeepsAll(w, z, polls.last);
    }
  }

  /**
   After a denial by a set within its limit, and any number of denied polls: a request is admitted
   if and only if the oldest entry has left its window, which is never more than a millisecond
   before the announced time and never after it.
   */
  lemma RetryIsExact(w: Window, z: SortedSet, r: Request, o: Outcome, polls: History<Request>, t: real)
    requires w.maxRequests >= 1 && |z| <= w.maxRequests
    requires ReplyOf(w, z, r, o) && !o.allowed
    requires AllDenied(w, Step(w, z, r), polls)
    ensures Poll(w, Step(w, z, r), polls) == Step(w, z, r)
    ensures var retry := o.retryAfterMs as real / 1000.0;
            var admitted := Admits(w, Poll(w, Step(w, z, r), polls), t);
            && (t < r.now + retry - 0.001 ==> !admitted)
            && (t >= r.now + retry ==> admitted)
  {
    var kept := Kept(w, z, r.now);
    PruneShrinks(z, r.now - w.seconds as real);
    assert |kept| == w.maxRequests && kept != map[];
    PollsChangeNothing(w, kept, polls);
    var oldest :| IsOldest(kept, oldest) && o.retryAfterMs == RetryMs(w, oldest, r.now);
    AdmittedOnceOldestLeaves(w, kept, oldest, t);
  }

  lemma AdmittedOnceOldestLeaves(w: Window, z: SortedSet, oldest: real, t: real)
    requires |z| == w.maxRequests
    requires IsOldest(z, oldest)
    ensures Admits(w, z, t) <==> t >= oldest + w.seconds as real
  {
    var kept := Kept(w, z, t);
    var id :| id in z && z[id] == oldest;
    if t >= oldest + w.seconds as real {
      assert kept.Keys <= z.Keys - {id};
      SubsetSize(kept.Keys, z.Keys - {id});
    } else {
      assert kept == z;
    }
  }

  // ---- What the remainder means ----

  /** Requests at one moment, each under an id that is neither in the set nor used by another of them. */
  predicate NewAt(more: History<Request>, z: SortedSet, now: real)
  {
    more.Then? ==> NewAt(more.past, z, now) && more.last.now == now && more.last.id !in z && FreshId(more.past, more.last.id)
  }

  predicate FreshId(reqs: History<Request>, id: string)
  {
    reqs.Then? ==> FreshId(reqs.past, id) && reqs.last.id != id
  }

  lemma {:induction false} FreshStaysOut(w: Window, z: SortedSet, more: History<Request>, id: string)
    requires id !in z && FreshId(more, id)
    ensures id !in Poll(w, z, more)
  {
    if more.Then? { FreshStaysOut(w, z, more.past, id); }
  }

  /** Each further call at this moment adds one entry, until the limit. */
  lemma {:induction false} FillsUp(w: Window, z: SortedSet, now: real, more: History<Request>)
    requires w.seconds >= 1 && NewAt(more, z, now) && |Kept(w, z, now)| <= w.maxRequests
    ensures |Kept(w, Poll(w, z, more), now)|
         == if |Kept(w, z, now)| + Length(more) <= w.maxRequests then |Kept(w, z, now)| + Length(more) else w.maxRequests
  {
    if more.Then? {
      FillsUp(w, z, now, more.past);
      FreshStaysOut(w, z, more.past, more.last.id);
      KeptAfterStep(w, Poll(w, z, more.past), more.last, now);
    }
  }

  /**
   The remainder is exact: of the calls that follow at the same timestamp under new ids, exactly as
   many as it says are admitted, the first ones; after a denial none is.
   */
  lemma RemainderIsExact(w: Window, z: SortedSet, r: Request, o: Outcome, more: History<Request>)
    requires w.seconds >= 1 && |z| <= w.maxRequests && ReplyOf(w, z, r, o) && r.id !in Kept(w, z, r.now)
    requires NewAt(more, Step(w, z, r), r.now)
    ensures Admits(w, Poll(w, Step(w, z, r), more), r.now) <==> Length(more) < o.remaining
    ensures !o.allowed ==> o.remaining == 0
  {
    PruneShrinks(z, r.now - w.seconds as real);
    KeptAfterStep(w, z, r, r.now);
    FillsUp(w, Step(w, z, r), r.now, more);
  }

  /** A window is cut to whole seconds; one shorter than a second limits nothing, as long as time goes on. */
  lemma SubSecondWindowAdmitsAll(w: Window, reqs: History<Request>, now: real)
    requires w.seconds == 0 && w.maxRequests >= 1 && InOrder(reqs) && NotAfter(reqs, now)
    ensures Admits(w, Run(w, reqs), now)
  {
    InOrderUpTo(reqs, now);
    ScoresUpTo(w, reqs, now);
    assert Kept(w, Run(w, reqs), now) == map[];
  }

  // ---- The script, step by step ----

  /** ZRANGE key 0 0 WITHSCORES on a non-empty set. */
  method OldestScore(z: SortedSet) returns (t: real)
    requires z != map[]
    ensures IsOldest(z, t)
  {
    var rest := z.Keys;
    var first :| first in rest;
    t := z[first];
    rest := rest - {first};
    while rest != {}
      invariant rest <= z.Keys
      invariant exists id | id in z :: z[id] == t
      invariant forall id | id in z && id !in rest :: t <= z[id]
      decreases |rest|
    {
      var id :| id in rest;
      if z[id] < t { t := z[id]; }
      rest := rest - {id};
    }
  }

  /** The body of the script, on the members of one key. */
  method RunScript(w: Window, z: SortedSet, r: Request) returns (members: SortedSet, o: Outcome)
    ensures members == Step(w, z, r)
    ensures ReplyOf(w, z, r, o)
  {
    members := Prune(z, r.now - w.seconds as real);
    var count := |members|;
    var allowed, retryAfterMs := false, 0;
    if count < w.maxRequests {
      members := members[r.id := r.now];
      allowed := true;
    } else if members != map[] {
      var oldest := OldestScore(members);
      retryAfterMs := RetryMs(w, oldest, r.now);
    }
    var left := w.maxRequests - count - (if allowed then 1 else 0);
    o := Outcome(allowed, if left > 0 then left else 0, retryAfterMs);
  }

  /**
   Unless ids have collided, the script's decision is that of the scan, which for timestamps in order
   is a scan of every admission ever made.
   */
  ghost predicate DecidesRight(w: Window, served: History<Request>, r: Request, allowed: bool)
  {
    NoCollision(w, served) ==>
      && (allowed <==> Alive(w, served, r.now) < w.maxRequests)
      && (InOrder(Then(served, r)) ==>
            (allowed <==> InWindow(FullLog(w, served), r.now - w.seconds as real) < w.maxRequests))
  }

  lemma ServesAsScan(w: Window, served: History<Request>, members: SortedSet, r: Request)
    requires members == Run(w, served)
    ensures DecidesRight(w, served, r, Admits(w, members, r.now))
    ensures |Step(w, members, r)| <= w.maxRequests
  {
    SizeBounded(w, Then(served, r));
    if NoCollision(w, served) {
      DecidesAsScan(w, served, r.now);
      if InOrder(Then(served, r)) { AliveInOrder(w, served, r.now); }
    }
  }

  /** One Redis key under this script, with the requests it has served as ghost history. */
  class SlidingWindowKey {
    const window: Window
    var members: SortedSet
    var expiresAt: real
    ghost var served: History<Request>

    ghost predicate Valid()
      reads this
    {
      members == Run(window, served)
    }

    constructor (w: Window)
      ensures Valid() && window == w && served == Nothing
    {
      window := w;
      members, expiresAt, served := map[], 0.0, Nothing;
    }

    method Script(r: Request) returns (o: Outcome)
      requires Valid()
      modifies this
      ensures Valid() && served == Then(old(served), r)
      ensures ReplyOf(window, old(members), r, o)
      ensures DecidesRight(window, old(served), r, o.allowed)
      ensures |members| <= window.maxRequests
      ensures members != map[] ==> expiresAt == r.now + window.seconds as real + 5.0
    {
      ServesAsScan(window, served, members, r);
      members, o := RunScript(window, members, r);
      if members != map[] { expiresAt := r.now + window.seconds as real + 5.0; }
      served := Then(served, r);
    }
  }
}

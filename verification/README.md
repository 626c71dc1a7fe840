# Stateform gateway: verified models

Stateform is an API gateway: data-plane replicas in Rust, one control plane in Go. This project models
the six parts of it whose correctness is a statement about whole runs, and proves those statements in
Dafny. `dafny verify dfyconfig.toml` checks everything.

| part | modules | main theorems |
|---|---|---|
| rate limiting | `TokenBucket`, `RedisTokenBucket`, `SlidingWindow`, `RateLimiter` | the lazy bucket is the unique greedy arrival-curve limiter; the pruned sorted set refines a full log; key expiry is unobservable; the cluster bounds hold in every interleaving and every order of timestamps, the local one whatever Redis does and the shared ones up to the calls Redis leaves unanswered; what the order of timestamps adds; retry times are exact |
| routing | `Paths`, `Trie`, `Router` | the tries and the three tiers equal a scan of the declared route list; spelling of paths and order of unambiguous routes do not matter |
| configuration fan-out | `FanOut` | no interleaving leaves a registered data plane behind; what exactly ends a registration; how many broadcasts at a time are free of panics |
| endpoint health and choice | `Health`, `Selection`, `Ewma` | counters are trailing runs; transitions are spaced; steady outcomes converge, and exactly which lengths of failing runs do; selection is fair, and exactly when a counter wrap spoils it |
| concurrency limits | `Concurrency` | permits are conserved, nothing deadlocks, everything is handed back; exactly when a route limit is a bulkhead |
| response cache | `Cache`, `L1Race` | every hit is genuine, private where it must be and fresh but for its own delays on the way to and from Redis, over any number of replicas; exactly when hits can be stale, when `Vary` responses are served and when the capacity holds |

Time and tokens are `real` in the rate limiter, milliseconds elsewhere. Redis is a map whose entries may
vanish once their TTL has passed. Clocks, file contents, network failures, request ids, regex captures,
header predicates, the FNV-1a hash, configuration validity and the order in which concurrent steps happen
are parameters or events that range over everything. Integer widths are written out where they matter
(32-bit weights and counters, 64-bit averages and scores).

Fan-out, concurrency limiter, cache cluster and rate-limiter cluster are transition systems whose steps
are the critical sections, the sends, the stretches between suspensions and the moments at which Redis
executes a command. The classes beside them (`FanOut.Loader`, `FanOut.Registry`, `Cache.ResponseCache`,
`RateLimiter.Limiter`) are those stretches as code, with contracts that name the step or the function
of it that they carry out.

## Where code and documentation differ

The models follow the code.

- Prefix routes on the same path tie to the last declared, because the candidate list is reversed whole
  (crates/gateway-router/src/router.rs:118), not "top-to-bottom"; the exact tier tries only the first
  route at its node (crates/gateway-router/src/trie.rs:91).
- An endpoint can go from Healthy straight to Unhealthy (crates/gateway-core/src/upstream.rs:165), unlike
  the diagram at lines 36-42. Unhealthy straight to Healthy needs a healthy threshold of zero and a
  wrapped counter, and happens: `Health.DirectRecovery`, `Health.DirectRecoveryHappens`.
- Counters wrap: which lengths of failing runs reach Unhealthy in time is `Health.FailuresConvergeIff`; successes
  can lose a probe gap at the wrap (`Health.ConvergesPastWrap`, `Health.SecondGapIsNeeded`).
- Weighted shares are not exact across a multiple of 2^32 of the counter: `Selection.CrossingIsUnfair`,
  with the exact condition in `Selection.CrossingFairIff`.
- A data plane that reconnects under a live id is cut off by the old stream's cleanup
  (`FanOut.ReconnectUnderLiveId`), and stays cut off (`FanOut.UnregisteredNeverHears`); what exactly ends a
  registration is `FanOut.RegisteredIffUnnamed`.
- Two failed sends to one stream close its channel twice, which panics the control plane
  (`FanOut.PanicIffFailedTwice`); it is free of that exactly when one broadcast sends at a time
  (`FanOut.NeverPanicsIff`).
- A request waiting for a route permit already holds a global one, so the requests of one limited route can
  take the whole global limit (`Concurrency.RouteWaitersHoldGlobalPermits`); a route limit is a bulkhead only
  where it is at least the global limit (`Concurrency.BulkheadIff`).
- A Redis refill rate of zero makes the token-bucket script fail, so the shared tier admits everything
  (`RateLimiter.ZeroRateIgnoresCapacity`).
- A gateway reads its clock before the call travels to Redis, so timestamps can reach a script out of order even
  with perfect clocks. The bounds over intervals of time need the order (`RateLimiter.OvertakingUnbounded`,
  `SlidingWindow.OvertakenUnbounded`); the bounds over stretches of script calls do not
  (`RateLimiter.SharedBucketStretch`, `RateLimiter.SharedWindowStretch`).
- Request ids hold the timestamp and 32 random bits. Ids that repeat within one timestamp are counted once, and
  then no limit above one holds (`SlidingWindow.CollidingIdsUndercount`); the exact condition is
  `SlidingWindow.CountsRightIff`.
- A sliding window is cut to whole seconds, so one shorter than a second limits nothing
  (`SlidingWindow.SubSecondWindowAdmitsAll`).
- A response without `Vary` is never cached. Responses with named `Vary` headers are found again only where some
  stored extended key happens to be the base key of some request; through such a collision others of them can be
  found too (`Cache.NamedVaryServedIff`).
- Redis measures a TTL from its own write, and a hit it answers is returned when the answer arrives, so hits can
  outlive their TTL by those two delays (`Cache.DelaysOutliveTtl`, `Cache.FreshIff`).
- `L1Cache::put` is several operations on a shared map: with two callers at a time its size has no bound at all
  (`L1Race.CapacityHoldsIff`).

## Model

| member | source | states |
|---|---|---|
| `TokenBucket.AnyOrderForm` | crates/gateway-ratelimit/src/l2_redis.rs:33-42 | For timestamps in any order, tokens after refill equal the minimum over all earlier starts of capacity plus what accrues over the steps forward since then minus the admissions since then. |
| `TokenBucket.ClosedForm` | crates/gateway-ratelimit/src/l1_local.rs:51-65 | For every run at nondecreasing times, the tokens after refill equal the minimum over all earlier starts of capacity plus accrual since that start minus admissions since it: a lower bound of each, attained by one. |
| `TokenBucket.StretchBound` | crates/gateway-ratelimit/src/l2_redis.rs:33-42 | In any order, over any stretch of requests, tokens left plus admissions never exceed capacity plus what accrues over the stretch's steps forward. |
| `TokenBucket.OvertakenUnbounded` | crates/gateway-ratelimit/src/l2_redis.rs:33-42 | Out of order, one interval of one second admits any number, for every limit with a positive rate and capacity. |
| `TokenBucket.AdmittedIffFits` | crates/gateway-ratelimit/src/l1_local.rs:51-65 | A request is admitted if and only if admitting it keeps the arrival curve of every earlier start. |
| `TokenBucket.BucketIsGreedy` | crates/gateway-ratelimit/src/l1_local.rs:51-65 | A sequence of decisions is greedy for the arrival curve, defined without any bucket, if and only if it is the bucket's. |
| `TokenBucket.ArrivalCurve` | crates/gateway-ratelimit/src/l1_local.rs:51-65 | No closed interval, wherever it starts, holds more admissions than capacity plus what accrues over its length. |
| `TokenBucket.ArrivalPotential` | crates/gateway-ratelimit/src/l1_local.rs:51-65 | Tokens left plus admissions since the start of an interval never exceed what the curve has released so far: the invariant behind the curve. |
| `TokenBucket.RemainingIsExact` | crates/gateway-ratelimit/src/l1_local.rs:51-73 | The floor of the level is exactly the number of further requests admitted at the same instant. |
| `TokenBucket.Consume` | crates/gateway-ratelimit/src/l1_local.rs:51-65 | Refill, decide, take a token: the step function the theorems are about. |
| `TokenBucket.L1LocalLimiter.Check` | crates/gateway-ratelimit/src/l1_local.rs:97-105 | Every key's bucket is the run of that key's own requests, other keys keep theirs, and the answer is whether one more admission fits every arrival curve. |
| `TokenBucket.L1LocalLimiter.Remaining` | crates/gateway-ratelimit/src/l1_local.rs:68-113 | The whole tokens of the key's run at this moment, the capacity for a key never seen. |
| `RedisTokenBucket.TokenBucketKey.Script` | crates/gateway-ratelimit/src/l2_redis.rs:22-54 | The hash, the reply and the expiry after one call, including the error of a zero refill rate after the hash was written; of the calls that follow at the same timestamp exactly the first `remaining` find a token. |
| `RedisTokenBucket.RemainderIsExact` | crates/gateway-ratelimit/src/l2_redis.rs:39-53 | After a call that replied `remaining`, exactly the next that many calls at the same timestamp are admitted; after a denial it is zero. |
| `RedisTokenBucket.TtlIsFillTime` | crates/gateway-ratelimit/src/l2_redis.rs:49-51 | The TTL is the least whole number of seconds in which an empty bucket fills, plus ten. |
| `RedisTokenBucket.DropUnobservable` | crates/gateway-ratelimit/src/l2_redis.rs:28-51 | A hash past its TTL, by a clock up to ten seconds off, gives the level, the next hash and the reply of no hash. |
| `RedisTokenBucket.ExpiryUnobservable` | crates/gateway-ratelimit/src/l2_redis.rs:28-51 | After any history in which Redis drops hashes at any legal moment, the hash is that of the history without drops, and the next call saw the same level and replied the same. |
| `RedisTokenBucket.RefillsCompose` | crates/gateway-ratelimit/src/l2_redis.rs:33-34 | Refilling twice is refilling once over the whole time. |
| `RedisTokenBucket.PollsChangeNothing` | crates/gateway-ratelimit/src/l2_redis.rs:33-50 | After any number of denied polls a later request sees the level it would have seen without them. |
| `RedisTokenBucket.ReadyIffLevel` | crates/gateway-ratelimit/src/l2_redis.rs:33-47 | A bucket short of a token admits if and only if the missing fraction divided by the rate has elapsed. |
| `RedisTokenBucket.RetryIsExact` | crates/gateway-ratelimit/src/l2_redis.rs:39-47 | After a denial and any denied polls, a request at or after the announced time is admitted, one more than a millisecond before it is denied, and the exact moment is when the missing fraction has accrued. |
| `SlidingWindow.RefinesFullLog` | crates/gateway-ratelimit/src/l2_redis.rs:76-101 | With ordered times and no admission under an id still in the set, what the next call keeps of the pruned set is the in-window part of the full log of admissions, entry for entry. |
| `SlidingWindow.DecidesAsFullLog` | crates/gateway-ratelimit/src/l2_redis.rs:76-87 | For timestamps in order, the script admits if and only if a scan of all admissions ever made finds fewer than the limit in the window. |
| `SlidingWindow.AliveIsKept` | crates/gateway-ratelimit/src/l2_redis.rs:76-101 | In any order, a call finds as many entries as a scan counts admissions that no call since has come a window after. |
| `SlidingWindow.DecidesAsScan` | crates/gateway-ratelimit/src/l2_redis.rs:76-87 | In any order, the script decides as that scan does. |
| `SlidingWindow.AliveInOrder` | crates/gateway-ratelimit/src/l2_redis.rs:76-87 | In order, that scan is the scan of the full log for the window that ends now. |
| `SlidingWindow.StretchBound` | crates/gateway-ratelimit/src/l2_redis.rs:76-90 | In any order, calls in a row whose timestamps lie in one window admit at most `max_requests`. |
| `SlidingWindow.OvertakenUnbounded` | crates/gateway-ratelimit/src/l2_redis.rs:76-90 | Out of order and without any collision of ids, one moment admits any number, for every limit from two on. |
| `SlidingWindow.SizeBounded` | crates/gateway-ratelimit/src/l2_redis.rs:79-90 | The set never holds more than `max_requests` members. |
| `SlidingWindow.WindowBound` | crates/gateway-ratelimit/src/l2_redis.rs:76-90 | Every interval (t, t + window] holds at most `max_requests` logged admissions. |
| `SlidingWindow.CountNextAdmission` | crates/gateway-ratelimit/src/l2_redis.rs:82-90 | The log grows exactly when the script admits. |
| `SlidingWindow.CountsRightIff` | crates/gateway-ratelimit/src/l2_redis.rs:79-90 | Over every ordered history: after every call and at every later moment the set's size is the scan's count, if and only if no admitted request had an id still in the set at its own time. |
| `SlidingWindow.CallerIdsDoNotCollide` | crates/gateway-ratelimit/src/l2_redis.rs:188-190 | Ids that contain their timestamp and differ at equal timestamps never collide. |
| `SlidingWindow.CollidingIdsUndercount` | crates/gateway-ratelimit/src/l2_redis.rs:87-90 | Any number of requests with one id at one instant are all admitted, under any limit above one, and leave one member. |
| `SlidingWindow.DropUnobservable` | crates/gateway-ratelimit/src/l2_redis.rs:79-101 | Once every timestamp is as old as the TTL, by a clock up to five seconds off, nothing in the set is in the window. |
| `SlidingWindow.ExpiryUnobservable` | crates/gateway-ratelimit/src/l2_redis.rs:79-101 | After any history with legal drops, in any order of timestamps, the set, the decision and every possible reply are those of the history without drops. |
| `SlidingWindow.PollsChangeNothing` | crates/gateway-ratelimit/src/l2_redis.rs:79-101 | Denied polls leave a full set exactly as it was. |
| `SlidingWindow.AdmittedOnceOldestLeaves` | crates/gateway-ratelimit/src/l2_redis.rs:91-98 | A full set admits if and only if its oldest entry has left the window. |
| `SlidingWindow.RetryIsExact` | crates/gateway-ratelimit/src/l2_redis.rs:91-98 | After a denial and any denied polls, a request at or after the announced time is admitted and one more than a millisecond before it is denied. |
| `SlidingWindow.RemainderIsExact` | crates/gateway-ratelimit/src/l2_redis.rs:82-104 | With a window of at least a second, after a call that replied `remaining`, exactly the next that many calls at the same timestamp under new ids are admitted; after a denial it is zero. |
| `SlidingWindow.SubSecondWindowAdmitsAll` | crates/gateway-ratelimit/src/l2_redis.rs:187-194 | A window shorter than a second is cut to zero and, with timestamps in order, limits nothing. |
| `SlidingWindow.OldestScore` | crates/gateway-ratelimit/src/l2_redis.rs:93-95 | The score returned occurs in the set and no score is below it. |
| `SlidingWindow.RunScript` | crates/gateway-ratelimit/src/l2_redis.rs:69-105 | Members and reply of one call: decision, remaining count and wait. |
| `SlidingWindow.SlidingWindowKey.Script` | crates/gateway-ratelimit/src/l2_redis.rs:69-105 | The key stays the run of what it served and within its limit; unless ids have collided it decides as the order-free scan, and in order as the scan of the full log. |
| `RateLimiter.LocalBucketIsRun` | crates/gateway-ratelimit/src/limiter.rs:123-137 | In any interleaving a replica's bucket is the result of its own requests alone. |
| `RateLimiter.AdmittedAtMostLocal` | crates/gateway-ratelimit/src/limiter.rs:123-160 | Requests admitted plus requests between their two checks never outnumber those the local buckets let through. |
| `RateLimiter.ClusterBound` | crates/gateway-ratelimit/src/limiter.rs:123-160 | With N replicas on unrelated monotonic clocks, whatever Redis answers, loses, refuses or makes up, the requests checked in intervals of length d are admitted at most N * (capacity + rate * d) times. |
| `RateLimiter.SharedBucketIsRun` | crates/gateway-ratelimit/src/limiter.rs:139-151 | In any interleaving, with drops, the shared hash is the run of the script calls in the order Redis ran them; local checks in between leave no trace. |
| `RateLimiter.SharedBucketCounts` | crates/gateway-ratelimit/src/limiter.rs:139-160 | In any interleaving and order of timestamps and with any legal drops, the cluster's admissions with timestamps in an interval are those of one bucket that never expires, plus at most one for each call Redis left unanswered. |
| `RateLimiter.UnansweredAreAdmitted` | crates/gateway-ratelimit/src/l2_redis.rs:158-166 | Failing open: every call Redis leaves unanswered is admitted, over every run. |
| `RateLimiter.SharedBucketStretch` | crates/gateway-ratelimit/src/limiter.rs:139-160 | From any script call to any later one, in any order of timestamps, the cluster admits at most capacity plus what accrues over the timestamps' steps forward, plus the unanswered calls. |
| `RateLimiter.SharedBucketBound` | crates/gateway-ratelimit/src/limiter.rs:139-160 | If timestamps reach Redis in order, the whole cluster obeys one bucket's arrival curve over every interval, up to the unanswered calls in it. |
| `RateLimiter.OvertakingUnbounded` | crates/gateway-ratelimit/src/l2_redis.rs:168-184 | That order is needed: with Redis always up, a cluster whose calls overtake each other admits any number within one second. |
| `RateLimiter.SharedWindowStretch` | crates/gateway-ratelimit/src/limiter.rs:139-160 | Script calls in a row whose timestamps, in any order, lie in one window admit at most `max_requests` requests of the whole cluster, plus the unanswered calls. |
| `RateLimiter.AdmissionsAreFullLog` | crates/gateway-ratelimit/src/limiter.rs:139-160 | If timestamps reach Redis in order, the cluster's admissions are the sliding window's full log, plus at most one for each unanswered call. |
| `RateLimiter.SharedWindowBound` | crates/gateway-ratelimit/src/limiter.rs:139-160 | If timestamps reach Redis in order, every window of the whole cluster holds at most `max_requests` admissions, up to the unanswered calls in it. |
| `RateLimiter.ZeroRateIgnoresCapacity` | crates/gateway-ratelimit/src/l2_redis.rs:49-51 | With a refill rate of zero and Redis always up, as many requests are admitted at one instant as a local bucket holds, whatever the shared capacity. |
| `RateLimiter.OtherScriptsKeyFailsOpen` | crates/gateway-ratelimit/src/l2_redis.rs:158-201 | A key left by the other script makes every call fail open and stays as it is, until Redis drops it. |
| `RateLimiter.CheckL2` | crates/gateway-ratelimit/src/l2_redis.rs:158-210 | Decision, reported numbers and new Redis state of one shared check: on success, after a drop, on a key of the wrong type, lost reply, unreachable Redis and script error. |
| `RateLimiter.Limiter.CheckLocal` | crates/gateway-ratelimit/src/limiter.rs:99-137 | No policy admits with unlimited numbers, an unknown policy is an error, and otherwise the replica takes the cluster's local step and goes on to Redis exactly when its bucket lets the request through. |
| `RateLimiter.Limiter.CheckShared` | crates/gateway-ratelimit/src/limiter.rs:139-160 | The replica takes the cluster's shared step; the caller gets the scarcer remainder, or the shared tier's wait. |
| `Paths.NormalisePath` | crates/gateway-router/src/router.rs:166-183 | The loop computes the recursive normal form, which has no upper-case ASCII letter, no leading and no doubled slash; a path already in that shape comes back unchanged. |
| `Paths.NormalIffUnchanged` | crates/gateway-router/src/router.rs:166-183 | A path is left as it is if and only if it has no upper-case ASCII letter, no leading slash and no doubled slash. |
| `Paths.SegmentsOfNormalised` | crates/gateway-router/src/trie.rs:104-112 | Splitting a normalised path segment by segment yields the path's lower-cased non-empty pieces. |
| `Paths.NormaliseIdempotent` | crates/gateway-router/src/router.rs:166-183 | Normalising twice is normalising once. |
| `Paths.CaseIsIgnored` | crates/gateway-router/src/router.rs:178-178 | Two paths of equal length whose characters are equal or the two cases of one ASCII letter have the same pieces. |
| `Paths.SlashRunsAreIgnored` | crates/gateway-router/src/router.rs:172-176 | Doubling a slash anywhere does not change the pieces. |
| `Paths.TrailingSlashIsIgnored` | crates/gateway-router/src/trie.rs:106-112 | A trailing slash does not change the pieces. |
| `Paths.EditsAreIgnored` | crates/gateway-router/src/router.rs:166-183 | Any number of changes of ASCII case, doubled slashes, leading slashes or a trailing slash leaves the pieces as they were. |
| `Trie.Position` | crates/gateway-router/src/trie.rs:50-50 | The linear search finds the child with the segment, and finds none only when there is none. |
| `Trie.BinarySearch` | crates/gateway-router/src/trie.rs:82-82 | On strictly sorted children the search finds the child with the segment, and finds none only when there is none. |
| `Trie.InsertKeepsSorted` | crates/gateway-router/src/trie.rs:50-58 | Sorting in a child with a new segment keeps the children strictly sorted. |
| `Trie.InsertPrefix` | crates/gateway-router/src/trie.rs:41-60 | The trie stays valid, the route is appended at exactly its own segments, and every other node keeps its routes. |
| `Trie.CollectPrefixMatches` | crates/gateway-router/src/trie.rs:67-85 | The candidates are extended with the routes of every prefix of the path, shallow to deep, each in insertion order. |
| `Trie.FindExact` | crates/gateway-router/src/trie.rs:88-101 | The first route at exactly this path, if any. |
| `Router.CollectedIsDeclared` | crates/gateway-router/src/trie.rs:67-85 | What the trie collects is the declared route list filtered depth by depth. |
| `Router.Router.AddRoute` | crates/gateway-router/src/router.rs:60-82 | Both tries and the regex list keep holding exactly the routes declared so far. |
| `Router.Router.TryExact` | crates/gateway-router/src/router.rs:100-111 | The exact tier is the first-declared exact route at this path, if it passes. |
| `Router.Router.TryPrefixes` | crates/gateway-router/src/router.rs:113-130 | The prefix tier is the scan of the declared list from the deepest prefix up, last declared first. |
| `Router.Router.TryRegexes` | crates/gateway-router/src/router.rs:132-159 | The regex tier is the first declared pattern that captures and passes. |
| `Router.Build` | crates/gateway-router/src/router.rs:55-85 | Succeeds if and only if every pattern compiles, fails on the first that does not, and otherwise holds every route. |
| `Router.FirstPassingOfReversed` | crates/gateway-router/src/router.rs:114-130 | The first that passes of the reversed candidates is the last that passes of the collected ones. |
| `Router.Router.MatchRequest` | crates/gateway-router/src/router.rs:92-162 | For every request the answer is that of scans of the declared list, and the right one as said over that list directly. |
| `Router.SpecIsRight` | crates/gateway-router/src/router.rs:92-162 | The answer is the first declared exact route for the path if it passes; without such, the passing prefix route unbeaten on depth and then on declaration; without either, the first declared regex route that captures and passes, with its own captures; and no match exactly if there is none of the three. |
| `Router.AnswerIsUnique` | crates/gateway-router/src/router.rs:92-162 | At most one declared route answers a request. |
| `Router.DeepestThenLastDeclared` | crates/gateway-router/src/router.rs:113-130 | The prefix tier's answer is the one candidate that no other beats on depth and then on declaration order; no answer means no candidate. |
| `Router.ReorderingIsUnobservable` | crates/gateway-router/src/router.rs:92-162 | Reordering routes with distinct normalised paths and no regex changes the answer to no request. |
| `Router.SpellingsRouteAlike` | crates/gateway-router/src/router.rs:166-183 | Requests whose paths differ only in spelling get the same exact and prefix answers. |
| `FanOut.RunInvariant` | control-plane/internal/grpc/server.go:60-176 | In every reachable state, every snapshot held or sent is a validated version of the loader, and every registered call has the current version, is about to, or is covered by a job in flight. |
| `FanOut.NoMissedUpdate` | control-plane/internal/grpc/server.go:72-97 | In every interleaving, with ids reused freely, once nothing is in flight every registered subscriber has been sent the loader's current snapshot. |
| `FanOut.VersionsAreUnambiguous` | control-plane/internal/config/loader.go:212-252 | Equal versions carry equal, validated texts, whichever calls they were sent to, and none is ahead of the loader. |
| `FanOut.ConnectedAreUpToDate` | control-plane/internal/grpc/server.go:72-169 | If every Subscribe used an id that no live call and no broadcast in flight uses, every open stream no send failed on is registered and current once nothing is in flight. |
| `FanOut.RegisteredIffUnnamed` | control-plane/internal/grpc/server.go:72-169 | Over every run: a call is registered if and only if no later Subscribe, cleanup or finished broadcast named its id. |
| `FanOut.LosesRegistration` | control-plane/internal/grpc/server.go:72-81 | A step ends a registration if and only if it names its id. |
| `FanOut.ForgottenForever` | control-plane/internal/grpc/server.go:72-136 | A call that is neither registered nor pending in a broadcast stays so, and what it was sent never grows. |
| `FanOut.UnregisteredNeverHears` | control-plane/internal/grpc/server.go:126-136 | An open stream that is unregistered when nothing is in flight is never sent a later version, however the run goes on. |
| `FanOut.ReconnectUnderLiveId` | control-plane/internal/grpc/server.go:72-81 | A run in which the old stream's cleanup removes the new registration and the next version never arrives. |
| `FanOut.PanicIffFailedTwice` | control-plane/internal/grpc/server.go:146-158 | The control plane panics if and only if two sends to one call fail. |
| `FanOut.SerialBroadcastsNeverPanic` | control-plane/internal/grpc/server.go:126-169 | As long as broadcasts do not overlap, no run panics. |
| `FanOut.ClosedIffFailed` | control-plane/internal/grpc/server.go:146-158 | Over every run a call's channel is closed if and only if some send to it has failed. |
| `FanOut.OverlappingBroadcastsPanic` | control-plane/internal/grpc/server.go:146-158 | A run with two broadcasts sending at once that closes one channel twice. |
| `FanOut.NeverPanicsIff` | control-plane/internal/grpc/server.go:126-169 | With at most w broadcasts sending at a time no run panics, if and only if w is at most one. |
| `FanOut.Loader.WriteConfig` | control-plane/internal/config/loader.go:246-252 | The locked part is the protocol's write step, in whatever state the lock is obtained. |
| `FanOut.Registry.CollectAll` | control-plane/internal/grpc/server.go:129-141 | The copy holds every registered subscriber, one per id: it is what the protocol's broadcast still has to send to, and empty exactly when that broadcast ends at once. |
| `FanOut.Registry.RemoveFailed` | control-plane/internal/grpc/server.go:164-169 | The deletion loop is the protocol's last step of a broadcast: exactly the failed ids are gone. |
| `Health.EndpointHealth.MarkFailure` | crates/gateway-core/src/upstream.rs:152-180 | The next state and the returned health after a failed probe, counters modulo 2^32. |
| `Health.EndpointHealth.MarkSuccess` | crates/gateway-core/src/upstream.rs:184-212 | The next state and the returned health after a successful probe. |
| `Health.CountersAreTrailingRuns` | crates/gateway-core/src/upstream.rs:153-186 | Over every history each counter is the length of the trailing run of like outcomes, modulo 2^32. |
| `Health.TransitionsAreSpaced` | crates/gateway-core/src/upstream.rs:157-217 | With any clock, transition k and a later one m are at least m - k cooldowns apart. |
| `Health.TransitionCauses` | crates/gateway-core/src/upstream.rs:165-207 | What a transition implies about the outcomes before it: a trailing run of at least the threshold for Unhealthy and Healthy, an elapsed cooldown, and Healthy from Degraded but for one corner. |
| `Health.DirectRecovery` | crates/gateway-core/src/upstream.rs:197-205 | An Unhealthy endpoint becomes Healthy in one step if and only if the cooldown has passed, the healthy threshold is zero and the success counter has just wrapped. |
| `Health.DirectRecoveryHappens` | crates/gateway-core/src/upstream.rs:197-205 | A run that ends in that step. |
| `Health.Converges` | crates/gateway-core/src/upstream.rs:152-212 | With a monotone clock and gaps at most D, from any history, a run of equal outcomes is at its goal at every probe that is 20 s plus D into the run and at which the length of the run modulo 2^32 is at or past the threshold; for successes, short of 2^32. |
| `Health.ConvergesPastWrap` | crates/gateway-core/src/upstream.rs:152-212 | For successes too without a bound on the run, with 2 D in place of D. |
| `Health.SecondGapIsNeeded` | crates/gateway-core/src/upstream.rs:197-205 | For every healthy threshold from one on, a run of successes past a wrap that is 20 s plus D long, at the threshold, and not Healthy. |
| `Health.FailuresConvergeIff` | crates/gateway-core/src/upstream.rs:152-180 | Every run of n failures that is 20 s plus D long has reached Unhealthy, if and only if n is at most two, or n modulo 2^32 is at or past the threshold, or n is 2^32 and the threshold at most two. |
| `Health.GoalIsStable` | crates/gateway-core/src/upstream.rs:152-212 | Once there, it stays there for as long as the outcomes do, with any clock. |
| `Selection.PickWeighted` | crates/gateway-core/src/upstream.rs:247-268 | Without 32-bit overflow the index returned is the one whose share holds the counter's position, so the fallback is unreachable; a wrapped sum of zero returns the first and leaves the counter. |
| `Selection.SumWeights` | crates/gateway-core/src/upstream.rs:257-257 | The sum is the total weight modulo 2^32. |
| `Selection.ScanShares` | crates/gateway-core/src/upstream.rs:261-266 | The accumulating scan returns the index whose share holds the position, without overflow. |
| `Selection.FairTurn` | crates/gateway-core/src/upstream.rs:257-265 | Any full turn of consecutive ring positions, wherever it starts, gives each index exactly its weight. |
| `Selection.WeightedFairness` | crates/gateway-core/src/upstream.rs:247-268 | Of total-weight many consecutive counter values that do not cross a multiple of 2^32, exactly an endpoint's effective weight fall in its share. |
| `Selection.PickMany` | crates/gateway-core/src/upstream.rs:247-267 | Calling the round-robin arm total-weight many times in a row, without crossing, returns each index exactly its weight times. |
| `Selection.SelectTurn` | crates/gateway-core/src/upstream.rs:233-292 | `select_endpoint` called for a full turn with health and weights fixed returns every Healthy endpoint exactly its weight times, every Degraded one half as often (rounded down) but once at least, an Unhealthy one never. |
| `Selection.CrossingIsUnfair` | crates/gateway-core/src/upstream.rs:260-260 | Three equal weights and a turn that crosses: one endpoint twice, another never. |
| `Selection.CrossingFairIff` | crates/gateway-core/src/upstream.rs:260-260 | A turn that crosses is fair to an endpoint if and only if its share overlaps the stretch of positions before the crossing as much as it overlaps the last positions of a turn, which the crossing skips. |
| `Selection.DivisorIsFair` | crates/gateway-core/src/upstream.rs:260-260 | A total weight that divides 2^32 makes every turn fair. |
| `Selection.PickLeast` | crates/gateway-core/src/upstream.rs:271-281 | The first of the smallest keys. |
| `Selection.ScoreIsLoad` | crates/gateway-core/src/upstream.rs:273-278 | The key is connections times latency (unmeasured counting as one), doubled if Degraded, and past 64 bits exactly the maximum. |
| `Selection.DegradedYields` | crates/gateway-core/src/upstream.rs:275-278 | A least-loaded Degraded endpoint beats a Healthy one with no more connections and no more latency only if it is idle or past 64 bits. |
| `Selection.RingIsModulus` | crates/gateway-core/src/upstream.rs:285-289 | The ring index is (hash / virtual nodes) modulo the number of endpoints. |
| `Selection.HashesSplitEvenly` | crates/gateway-core/src/upstream.rs:285-289 | Any full ring of consecutive hashes gives every endpoint its number of virtual nodes. |
| `Selection.Choose` | crates/gateway-core/src/upstream.rs:244-291 | Among the available endpoints each algorithm returns the position it promises. |
| `Selection.Select` | crates/gateway-core/src/upstream.rs:233-292 | Every algorithm returns an available endpoint exactly when there is one, chosen as that algorithm promises; under least connections no available endpoint carries less load; only round robin moves the counter. |
| `Selection.AvailableHasWeight` | crates/gateway-config/src/validation.rs:23-30 | Validated weights give every non-empty available set a positive total. |
| `Ewma.Latency.Record` | crates/gateway-core/src/upstream.rs:445-454 | Absent 64-bit overflow the new value lies between the old one and the sample; from zero it is the sample; past overflow the sum wraps. |
| `Ewma.SettledExactly` | crates/gateway-core/src/upstream.rs:445-454 | The fixed points under a sample are the sample and the four non-zero values below it. |
| `Ewma.UpdateApproaches` | crates/gateway-core/src/upstream.rs:445-454 | Every other update shrinks the gap and never overshoots. |
| `Ewma.Converges` | crates/gateway-core/src/upstream.rs:445-454 | A constant sample settles the average within as many updates as the initial gap, at most four below the sample, for good. |
| `Concurrency.PermitsAreConserved` | crates/gateway-core/src/concurrency.rs:93-156 | In every reachable state free plus held permits make up the limit, globally and on every limited route, on success, timeout and drop paths. |
| `Concurrency.NoDeadlock` | crates/gateway-core/src/concurrency.rs:93-141 | With limits of at least one, every reachable state with an unfinished request has an enabled step that is not a timeout. |
| `Concurrency.RunsEnd` | crates/gateway-core/src/concurrency.rs:93-156 | Without arrivals every step uses up part of a bounded amount of work. |
| `Concurrency.QuiescenceFreesEverything` | crates/gateway-core/src/concurrency.rs:93-156 | Once arrivals stop, runs are bounded, and where they end every request has finished and every permit is free. |
| `Concurrency.LimitsHold` | crates/gateway-core/src/concurrency.rs:93-141 | Never more than the limit hold a global or a route permit. |
| `Concurrency.ServedIffGranted` | crates/gateway-core/src/concurrency.rs:93-156 | Over every run a finished request was served if and only if it had been granted every permit it needs. |
| `Concurrency.RouteWaitersHoldGlobalPermits` | crates/gateway-core/src/concurrency.rs:98-123 | For every configuration and limited route, a run in which that route's waiters alone hold any number of global permits up to all of them. |
| `Concurrency.BulkheadIff` | crates/gateway-core/src/concurrency.rs:93-141 | In all reachable states a route's requests hold at most the route's limit of global permits, if and only if the global limit is no larger than that. |
| `Cache.RunInvariant` | crates/gateway-cache/src/cache.rs:70-193 | In every reachable state every entry of every tier, every write in flight and every answer on its way back is genuine, under its own key, and not shared if private. |
| `Cache.FreshAndPrivate` | crates/gateway-cache/src/cache.rs:70-193 | Over every run, a hit answers a cacheable request with a 2xx response with a Vary header an earlier store made, not no-store or no-cache, younger than the route's TTL and than `s-maxage`, or without it `max-age`, plus its own write delay and its own read delay (none if the local tier serves it); and one whose upstream said `private` only at the replica that stored it. |
| `Cache.OnlyShareableIsShared` | crates/gateway-cache/src/cache.rs:187-193 | In every reachable state nothing whose upstream said `private` and nothing with a TTL of zero is in Redis, on its way there or on its way back. |
| `Cache.DelaysOutliveTtl` | crates/gateway-cache/src/cache.rs:109-124 | For every TTL, write delay and read delay, a run that attains that bound. |
| `Cache.FreshIff` | crates/gateway-cache/src/cache.rs:109-124 | Every hit with given delays is younger than its TTL if and only if both delays are zero. |
| `Cache.TtlIsMinimum` | crates/gateway-cache/src/control.rs:89-103 | The resolved TTL is the smaller of the route's and `s-maxage`, or without it `max-age`, or without either the route's; there is none exactly for no-store and no-cache. |
| `Cache.StoredIsServed` | crates/gateway-cache/src/entry.rs:67-73 | A response with an empty Vary list is served back by its replica's local tier exactly until its TTL has passed in whole seconds. |
| `Cache.PromotedIsServed` | crates/gateway-cache/src/cache.rs:119-122 | What Redis served once under a base key, the replica then serves on its own until it expires. |
| `Cache.VariantsKeptApart` | crates/gateway-cache/src/key.rs:54-84 | Under one base key two requests share a variant exactly when the named headers read the same in both, and a variant is never under the base key. |
| `Cache.VariantIsPreferred` | crates/gateway-cache/src/cache.rs:112-117 | Once Redis has answered for both keys the variant is served where there is one, the base entry only in its place. |
| `Cache.NamedVaryIsNeverServed` | crates/gateway-cache/src/cache.rs:96-125 | In every run in which no stored extended key equals a base key that a lookup starts from, every hit has an empty Vary list and was stored under exactly that request's base key. |
| `Cache.NamedVaryServedIff` | crates/gateway-cache/src/cache.rs:96-125 | For any shareable exchanges stored and any requests looked up: some run of them returns a response with named Vary headers, if and only if some stored extended key is some looked-up base key. |
| `Cache.L1Cache.Get` | crates/gateway-cache/src/l1_local.rs:39-52 | Returns an unexpired entry, and removes an expired one. |
| `Cache.L1Cache.Put` | crates/gateway-cache/src/l1_local.rs:55-61 | For one caller at a time: inserts, drops exactly one entry if at capacity and none otherwise, and stays within the capacity. |
| `Cache.L1Cache.EvictOne` | crates/gateway-cache/src/l1_local.rs:81-87 | Removes exactly one entry, if there is one. |
| `Cache.InsertedIsEviction` | crates/gateway-cache/src/l1_local.rs:55-61 | That insertion is the unbounded one of the cluster model, followed by at most one eviction. |
| `Cache.ResponseCache.BeginLookUp` | crates/gateway-cache/src/cache.rs:70-101 | Up to the first read of L1: bypass exactly without configuration or for an uncacheable request, else the key of the second read or the key to ask Redis for; an expired entry is gone. |
| `Cache.ResponseCache.RereadLocal` | crates/gateway-cache/src/cache.rs:101-106 | The second read of L1, at its own moment: the answer, or on to Redis; an expired entry is gone. |
| `Cache.ResponseCache.BaseArrives` | crates/gateway-cache/src/cache.rs:109-125 | Between the two GETs: miss, promoted hit, or the key to ask for next. |
| `Cache.ResponseCache.VaryArrives` | crates/gateway-cache/src/cache.rs:113-123 | After the second GET: the varied entry, or the base entry in its place, promoted and returned. |
| `Cache.ResponseCache.StoreResponse` | crates/gateway-cache/src/cache.rs:136-193 | Stored exactly if a writable configuration, a 2xx status, a Vary list and neither no-store nor no-cache; then in L1 always, and a SETEX is sent exactly if the directive `private` is absent and the TTL positive. |
| `L1Race.OneAtATimeIsBounded` | crates/gateway-cache/src/l1_local.rs:55-61 | With one `put` in progress at a time, and expiry in between, the map stays within its capacity (one entry if that is zero). |
| `L1Race.TwoAtATimeGrow` | crates/gateway-cache/src/l1_local.rs:55-87 | With two at a time the map reaches any size: two calls can pick and remove the same victim. |
| `L1Race.CapacityHoldsIff` | crates/gateway-cache/src/l1_local.rs:55-87 | The size is bounded, by the capacity or by anything above it, if and only if there is one `put` at a time. |

## Left out

- TLS, HTTP serving, upstream calls, Redis connections, gRPC transport, Kubernetes informers: I/O and libraries.
- Authentication (JWT, API keys, mTLS): rests on external cryptography.
- Metrics, logging, dashboards and the admin handlers; an admin reload is one more reload job.
- Regex matching, method and header predicates, the FNV-1a hash: parameters that range over every function.
- The text of `Cache-Control` and `Vary`, and the formatting of cache keys: parsed values, a base key and an arbitrary suffix stand for them. Key strings are not injective in the code, so a hit is tied to a key string and not to a request.
- `invalidate`: appears only as eviction and as Redis dropping a key; it covers no Vary variants in the code.
- Sub-second route TTLs: the entry and SETEX keep whole seconds, and the model starts from those.
- Retry back-off and its jitter, and graceful drain: the code does not give the advertised guarantees.
- Order of delivery: concurrent broadcasts can reach a subscriber out of version order, and the highest version need not hold the newest file, since the file is read before the lock; neither is claimed.
- The field checks of the Go `validate`: an arbitrary predicate on texts. The `uint64` version is unbounded.
- Rounding of 64-bit floats in buckets and Lua numbers: `real` arithmetic.
- Hot reload of rate limits starts local buckets afresh: the cluster bound is for one configuration.
- The `Retry-After` header rounds down, so only `retry_after_ms` is covered.
- Which waiter a semaphore serves next: left open, so nothing is claimed about fairness among waiters.
- Trie.InsertPrefix: works on node values and returns the new trie; the in-place update of nodes is not captured.
- TokenBucket.L1LocalLimiter.Check: buckets are values in the map, so mutation through a map reference is not captured.
- Cache.L1Cache.Get: one step, where the code looks at its clock between reading and removing an entry; `L1Race` looks at the steps of `put` only, on keys and not on entries.
- Selection.Select: asks for at least one virtual node, since the code divides by that number and panics on zero.
- Concurrency.PermitsAreConserved: semaphores are counts in a transition system, not objects.
- Ewma.Converges: assumes no 64-bit overflow; `Ewma.Latency.Record` gives the wrapped value beyond it.

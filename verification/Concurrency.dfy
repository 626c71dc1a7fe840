/**
 The two-level concurrency limiter of crates/gateway-core/src/concurrency.rs. `acquire` suspends at
 each semaphore, so a request is a sequence of steps that interleave with those of every other
 request; which waiter a semaphore serves next is left open.
 */
module Concurrency {
  import opened Numbers

  datatype Phase =
    | WaitingGlobal                 // suspended at the global semaphore
    | WaitingRoute                  // holds a global permit, suspended at its route's semaphore
    | Running                       // holds its ConcurrencyPermit
    | Finished(served: bool)        // permit dropped, or answered 503

  datatype Request = Request(route: string, phase: Phase)

  /** `routes` holds limits of the routes that configure one. */
  datatype Limits = Limits(global: nat, routes: map<string, nat>)

  datatype State = State(globalFree: nat, routeFree: map<string, nat>, requests: map<nat, Request>)

  datatype Event =
    | Arrive(id: nat, route: string)
    | TakeGlobal(id: nat)           // the global permit is granted; without a route limit, done acquiring
    | TakeRoute(id: nat)
    | GiveUp(id: nat)               // timeout, closed semaphore, or the caller dropping the future
    | Release(id: nat)              // the ConcurrencyPermit is dropped

  function Start(l: Limits): State
  {
    State(l.global, l.routes, map[])
  }

  predicate In(s: State, id: nat, phase: Phase)
  {
    id in s.requests && s.requests[id].phase == phase
  }

  predicate Enabled(l: Limits, s: State, e: Event)
  {
    match e
    case Arrive(id, _) => id !in s.requests
    case TakeGlobal(id) => In(s, id, WaitingGlobal) && s.globalFree > 0
    case TakeRoute(id) =>
      In(s, id, WaitingRoute) && s.requests[id].route in s.routeFree && s.routeFree[s.requests[id].route] > 0
    case GiveUp(id) => In(s, id, WaitingGlobal) || In(s, id, WaitingRoute)
    case Release(id) => In(s, id, Running)
  }

  function Move(s: State, id: nat, phase: Phase): State
    requires id in s.requests
  {
    s.(requests := s.requests[id := s.requests[id].(phase := phase)])
  }

  function Next(l: Limits, s: State, e: Event): State
    requires Enabled(l, s, e)
  {
    match e
    case Arrive(id, route) => s.(requests := s.requests[id := Request(route, WaitingGlobal)])
    case TakeGlobal(id) =>
      Move(s, id, if s.requests[id].route in l.routes then WaitingRoute else Running)
        .(globalFree := s.globalFree - 1)
    case TakeRoute(id) =>
      var route := s.requests[id].route;
      Move(s, id, Running).(routeFree := s.routeFree[route := s.routeFree[route] - 1])
    case GiveUp(id) =>
      // an early return drops whatever permits were already acquired
      Move(s, id, Finished(false))
        .(globalFree := s.globalFree + if s.requests[id].phase.WaitingRoute? then 1 else 0)
    case Release(id) =>
      var route := s.requests[id].route;
      Move(s, id, Finished(true))
        .(globalFree := s.globalFree + 1,
          routeFree := if route in s.routeFree then s.routeFree[route := s.routeFree[route] + 1] else s.routeFree)
  }

  datatype Outcome = Reached(state: State) | Impossible

  /** Where a sequence of events leads from `s`, if each of them can happen in turn. */
  function Execute(l: Limits, s: State, events: seq<Event>): Outcome
  {
    if events == [] then Reached(s)
    else
      match Execute(l, s, events[..|events| - 1])
      case Impossible => Impossible
      case Reached(t) =>
        if Enabled(l, t, events[|events| - 1]) then Reached(Next(l, t, events[|events| - 1])) else Impossible
  }

  // ---- Conservation ----

  ghost function InPhase(s: State, phase: Phase): set<nat>
  {
    set id | id in s.requests && s.requests[id].phase == phase
  }

  /** Requests holding a global permit: those running and those queueing for a route. */
  ghost function GlobalHolders(s: State): set<nat>
  {
    set id | id in s.requests && (s.requests[id].phase.WaitingRoute? || s.requests[id].phase.Running?)
  }

  ghost function RouteHolders(s: State, route: string): set<nat>
  {
    set id | id in s.requests && s.requests[id] == Request(route, Running)
  }

  /** Free permits plus held permits make up the limit, globally and on every limited route. */
  ghost predicate Conserved(l: Limits, s: State)
  {
    && s.globalFree + |GlobalHolders(s)| == l.global
    && s.routeFree.Keys == l.routes.Keys
    && (forall route | route in l.routes :: s.routeFree[route] + |RouteHolders(s, route)| == l.routes[route])
    && (forall id | id in s.requests && s.requests[id].phase.WaitingRoute? :: s.requests[id].route in l.routes)
  }

  predicate HoldsGlobal(s: State, id: nat)
  {
    id in s.requests && (s.requests[id].phase.WaitingRoute? || s.requests[id].phase.Running?)
  }

  /** Changing one request changes the number of global holders by that request only. */
  lemma GlobalHoldersAfter(s: State, t: State, id: nat)
    requires id in t.requests && t.requests == s.requests[id := t.requests[id]]
    ensures |GlobalHolders(t)| == |GlobalHolders(s)| - (if HoldsGlobal(s, id) then 1 else 0)
                                                     + (if HoldsGlobal(t, id) then 1 else 0)
  {
    var rest := GlobalHolders(s) - {id};
    assert GlobalHolders(s) == if HoldsGlobal(s, id) then rest + {id} else rest;
    assert GlobalHolders(t) == if HoldsGlobal(t, id) then rest + {id} else rest;
  }

  lemma GlobalStep(l: Limits, s: State, e: Event)
    requires Conserved(l, s) && Enabled(l, s, e)
    ensures Next(l, s, e).globalFree + |GlobalHolders(Next(l, s, e))| == l.global
  {
    GlobalHoldersAfter(s, Next(l, s, e), e.id);
  }

  /** Changing one request adds or removes that request only. */
  lemma RouteHoldersAfter(s: State, t: State, id: nat, route: string)
    requires id in t.requests && t.requests == s.requests[id := t.requests[id]]
    ensures RouteHolders(t, route)
         == if t.requests[id] == Request(route, Running) then RouteHolders(s, route) + {id}
            else RouteHolders(s, route) - {id}
  {}

  lemma RouteStep(l: Limits, s: State, e: Event, route: string)
    requires Conserved(l, s) && Enabled(l, s, e) && route in l.routes
    ensures route in Next(l, s, e).routeFree
    ensures Next(l, s, e).routeFree[route] + |RouteHolders(Next(l, s, e), route)| == l.routes[route]
  {
    var t := Next(l, s, e);
    RouteHoldersAfter(s, t, e.id, route);
    var here := RouteHolders(s, route);
    assert e.id in here <==> e.id in s.requests && s.requests[e.id] == Request(route, Running);
    match e {
      case Arrive(_, _) =>
        assert here - {e.id} == here;
      case TakeGlobal(_) =>
        assert here - {e.id} == here;
      case TakeRoute(id) =>
        if s.requests[id].route != route { assert here - {id} == here; }
      case GiveUp(_) =>
        assert here - {e.id} == here;
      case Release(id) =>
        if s.requests[id].route != route { assert here - {id} == here; }
    }
  }

  lemma ConservedStep(l: Limits, s: State, e: Event)
    requires Conserved(l, s) && Enabled(l, s, e)
    ensures Conserved(l, Next(l, s, e))
  {
    GlobalStep(l, s, e);
    forall route | route in l.routes
      ensures route in Next(l, s, e).routeFree
      ensures Next(l, s, e).routeFree[route] + |RouteHolders(Next(l, s, e), route)| == l.routes[route]
    {
      RouteStep(l, s, e, route);
    }
  }

  lemma ConservedAtStart(l: Limits)
    ensures Conserved(l, Start(l))
  {
    assert GlobalHolders(Start(l)) == {};
    forall route ensures RouteHolders(Start(l), route) == {} {}
  }

  /** On every path, success, timeout or drop, no permit is lost and none is invented. */
  lemma {:induction false} PermitsAreConserved(l: Limits, events: seq<Event>)
    requires Execute(l, Start(l), events).Reached?
    ensures Conserved(l, Execute(l, Start(l), events).state)
  {
    if events == [] {
      ConservedAtStart(l);
    } else {
      var n := |events| - 1;
      PermitsAreConserved(l, events[..n]);
      ConservedStep(l, Execute(l, Start(l), events[..n]).state, events[n]);
    }
  }

  // ---- Progress ----

  predicate AtLeastOne(l: Limits)
  {
    l.global >= 1 && forall route | route in l.routes :: l.routes[route] >= 1
  }

  predicate Unfinished(s: State, id: nat)
  {
    id in s.requests && !s.requests[id].phase.Finished?
  }

  /** An enabled step that is neither an arrival nor a request giving up. */
  ghost predicate CanProgress(l: Limits, s: State)
  {
    exists id | id in s.requests ::
      Enabled(l, s, TakeGlobal(id)) || Enabled(l, s, TakeRoute(id)) || Enabled(l, s, Release(id))
  }

  lemma ProgressStep(l: Limits, s: State, id: nat)
    requires Conserved(l, s) && AtLeastOne(l) && Unfinished(s, id)
    ensures CanProgress(l, s)
  {
    if r :| r in s.requests && s.requests[r].phase.Running? {
      assert Enabled(l, s, Release(r));
    } else if w :| w in s.requests && s.requests[w].phase.WaitingRoute? {
      var route := s.requests[w].route;
      assert RouteHolders(s, route) == {};
      assert Enabled(l, s, TakeRoute(w));
    } else {
      assert GlobalHolders(s) == {};
      assert Enabled(l, s, TakeGlobal(id));
    }
  }

  /** No deadlock: in every reachable state with an unfinished request, some step other than giving up is enabled. */
  lemma NoDeadlock(l: Limits, events: seq<Event>, id: nat)
    requires AtLeastOne(l) && Execute(l, Start(l), events).Reached?
    requires Unfinished(Execute(l, Start(l), events).state, id)
    ensures CanProgress(l, Execute(l, Start(l), events).state)
  {
    PermitsAreConserved(l, events);
    ProgressStep(l, Execute(l, Start(l), events).state, id);
  }

  /** Steps the requests in flight can still take. */
  ghost function Work(s: State): nat
  {
    3 * |InPhase(s, WaitingGlobal)| + 2 * |InPhase(s, WaitingRoute)| + |InPhase(s, Running)|
  }

  lemma InPhaseAfter(s: State, t: State, id: nat, phase: Phase)
    requires id in s.requests && id in t.requests && t.requests == s.requests[id := t.requests[id]]
    ensures |InPhase(t, phase)|
         == |InPhase(s, phase)| - (if s.requests[id].phase == phase then 1 else 0)
                                + (if t.requests[id].phase == phase then 1 else 0)
  {
    var rest := InPhase(s, phase) - {id};
    assert InPhase(s, phase) == if s.requests[id].phase == phase then rest + {id} else rest;
    assert InPhase(t, phase) == if t.requests[id].phase == phase then rest + {id} else rest;
  }

  lemma WorkShrinks(l: Limits, s: State, e: Event)
    requires Enabled(l, s, e) && !e.Arrive?
    ensures Work(Next(l, s, e)) < Work(s)
  {
    var t := Next(l, s, e);
    InPhaseAfter(s, t, e.id, WaitingGlobal);
    InPhaseAfter(s, t, e.id, WaitingRoute);
    InPhaseAfter(s, t, e.id, Running);
  }

  lemma {:induction false} RunsEnd(l: Limits, s: State, events: seq<Event>)
    requires Execute(l, s, events).Reached?
    requires forall k | 0 <= k < |events| :: !events[k].Arrive?
    ensures |events| + Work(Execute(l, s, events).state) <= Work(s)
  {
    if events != [] {
      var n := |events| - 1;
      RunsEnd(l, s, events[..n]);
      WorkShrinks(l, Execute(l, s, events[..n]).state, events[n]);
    }
  }

  /**
   Everything is served and handed back: once arrivals stop, a run takes at most three steps per
   request in flight, and where it cannot go on without giving up, every request has finished and
   every permit is free again.
   */
  lemma QuiescenceFreesEverything(l: Limits, earlier: seq<Event>, events: seq<Event>)
    requires AtLeastOne(l) && Execute(l, Start(l), earlier).Reached?
    requires Execute(l, Execute(l, Start(l), earlier).state, events).Reached?
    requires forall k | 0 <= k < |events| :: !events[k].Arrive?
    ensures |events| <= Work(Execute(l, Start(l), earlier).state)
    ensures var end := Execute(l, Execute(l, Start(l), earlier).state, events).state;
            !CanProgress(l, end) ==>
              (forall id | id in end.requests :: end.requests[id].phase.Finished?)
              && end.globalFree == l.global && end.routeFree == l.routes
  {
    var start := Execute(l, Start(l), earlier).state;
    RunsEnd(l, start, events);
    PermitsAreConserved(l, earlier);
    ConservedRun(l, start, events);
    var end := Execute(l, start, events).state;
    if !CanProgress(l, end) {
      forall id | id in end.requests ensures end.requests[id].phase.Finished? {
        if Unfinished(end, id) { ProgressStep(l, end, id); }
      }
      assert GlobalHolders(end) == {};
      forall route | route in l.routes ensures end.routeFree[route] == l.routes[route] {
        assert RouteHolders(end, route) == {};
      }
    }
  }

  lemma {:induction false} ConservedRun(l: Limits, s: State, events: seq<Event>)
    requires Conserved(l, s) && Execute(l, s, events).Reached?
    ensures Conserved(l, Execute(l, s, events).state)
  {
    if events != [] {
      var n := |events| - 1;
      ConservedRun(l, s, events[..n]);
      ConservedStep(l, Execute(l, s, events[..n]).state, events[n]);
    }
  }

  // ---- Who is served ----

  /** The event gives the request its last permit: the route's, or the global one where no route limit is set. */
  predicate Grants(l: Limits, s: State, e: Event, id: nat)
  {
    || e == TakeRoute(id)
    || (e == TakeGlobal(id) && id in s.requests && s.requests[id].route !in l.routes)
  }

  ghost predicate WasGranted(l: Limits, events: seq<Event>, id: nat)
  {
    events != [] &&
      var n := |events| - 1;
      || WasGranted(l, events[..n], id)
      || (Execute(l, Start(l), events[..n]).Reached? && Grants(l, Execute(l, Start(l), events[..n]).state, events[n], id))
  }

  predicate HasAll(s: State, id: nat)
  {
    id in s.requests && (s.requests[id].phase.Running? || s.requests[id].phase == Finished(true))
  }

  lemma HasAllStep(l: Limits, s: State, e: Event, id: nat)
    requires Enabled(l, s, e)
    ensures HasAll(Next(l, s, e), id) <==> HasAll(s, id) || Grants(l, s, e, id)
  {}

  lemma {:induction false} HasAllIffGranted(l: Limits, events: seq<Event>, id: nat)
    requires Execute(l, Start(l), events).Reached?
    ensures HasAll(Execute(l, Start(l), events).state, id) <==> WasGranted(l, events, id)
  {
    if events != [] {
      var n := |events| - 1;
      HasAllIffGranted(l, events[..n], id);
      HasAllStep(l, Execute(l, Start(l), events[..n]).state, events[n], id);
    }
  }

  /** Over every run: a finished request was served if and only if it had been granted every permit it needs. */
  lemma ServedIffGranted(l: Limits, events: seq<Event>, id: nat, served: bool)
    requires Execute(l, Start(l), events).Reached?
    requires In(Execute(l, Start(l), events).state, id, Finished(served))
    ensures served <==> WasGranted(l, events, id)
  {
    HasAllIffGranted(l, events, id);
  }

  // ---- The bulkhead ----

  /** No more than a route's limit run on it, and no more than the global limit hold any permit. */
  lemma LimitsHold(l: Limits, events: seq<Event>, route: string)
    requires Execute(l, Start(l), events).Reached?
    ensures |GlobalHolders(Execute(l, Start(l), events).state)| <= l.global
    ensures route in l.routes ==> |RouteHolders(Execute(l, Start(l), events).state, route)| <= l.routes[route]
  {
    PermitsAreConserved(l, events);
  }

  lemma Extend(l: Limits, events: seq<Event>, s: State, e: Event) returns (t: State)
    requires Execute(l, Start(l), events) == Reached(s) && Enabled(l, s, e)
    ensures t == Next(l, s, e)
    ensures Execute(l, Start(l), events + [e]) == Reached(t)
  {
    assert (events + [e])[..|events|] == events;
    t := Next(l, s, e);
  }

  /** Requests of one route that hold a global permit, running or queueing for the route. */
  ghost function RouteShare(s: State, route: string): set<nat>
  {
    set id | id in s.requests && s.requests[id].route == route && HoldsGlobal(s, id)
  }

  /** Requests 0 to n - 1, all queueing for one route. */
  function Waiting(route: string, n: nat): (requests: map<nat, Request>)
    ensures forall id: nat :: id in requests <==> id < n
    ensures forall id | id in requests :: requests[id] == Request(route, WaitingRoute)
  {
    if n == 0 then map[] else Waiting(route, n - 1)[n - 1 := Request(route, WaitingRoute)]
  }

  /** The state in which `n` requests of one route queue for it and nobody else is there. */
  function Queued(l: Limits, route: string, n: nat): State
    requires n <= l.global
  {
    State(l.global - n, l.routes, Waiting(route, n))
  }

  lemma QueueOneMore(l: Limits, route: string, n: nat, events: seq<Event>) returns (longer: seq<Event>)
    requires route in l.routes && n < l.global
    requires Execute(l, Start(l), events) == Reached(Queued(l, route, n))
    ensures Execute(l, Start(l), longer) == Reached(Queued(l, route, n + 1))
  {
    var s := Extend(l, events, Queued(l, route, n), Arrive(n, route));
    var t := Extend(l, events + [Arrive(n, route)], s, TakeGlobal(n));
    longer := events + [Arrive(n, route)] + [TakeGlobal(n)];
    assert t.requests == Waiting(route, n + 1);
  }

  /**
   Waiters hold global permits: the requests of any one limited route can take the whole global
   limit while they queue, so that no request of any other route gets in.
   */
  lemma {:induction false} RouteWaitersHoldGlobalPermits(l: Limits, route: string, n: nat) returns (events: seq<Event>)
    requires route in l.routes && n <= l.global
    ensures Execute(l, Start(l), events) == Reached(Queued(l, route, n))
    ensures |RouteShare(Queued(l, route, n), route)| == n
  {
    QueuedShare(l, route, n);
    if n == 0 {
      events := [];
      assert Start(l) == Queued(l, route, 0);
    } else {
      events := RouteWaitersHoldGlobalPermits(l, route, n - 1);
      events := QueueOneMore(l, route, n - 1, events);
    }
  }

  lemma QueuedShare(l: Limits, route: string, n: nat)
    requires n <= l.global
    ensures |RouteShare(Queued(l, route, n), route)| == n
  {
    assert RouteShare(Queued(l, route, n), route) == Upto(n);
  }

  lemma ShareWithinGlobal(l: Limits, route: string, events: seq<Event>)
    requires Execute(l, Start(l), events).Reached?
    ensures |RouteShare(Execute(l, Start(l), events).state, route)| <= l.global
  {
    var s := Execute(l, Start(l), events).state;
    SubsetSize(RouteShare(s, route), GlobalHolders(s));
    LimitsHold(l, events, route);
  }

  /** In no reachable state do this route's requests take more of the global limit than the route's own limit. */
  ghost predicate Bulkhead(l: Limits, route: string)
    requires route in l.routes
  {
    forall events | Execute(l, Start(l), events).Reached? ::
      |RouteShare(Execute(l, Start(l), events).state, route)| <= l.routes[route]
  }

  /** A route limit is a bulkhead only where it is no limit at all. */
  lemma BulkheadIff(l: Limits, route: string)
    requires route in l.routes
    ensures Bulkhead(l, route) <==> l.global <= l.routes[route]
  {
    if l.global <= l.routes[route] {
      forall events | Execute(l, Start(l), events).Reached?
        ensures |RouteShare(Execute(l, Start(l), events).state, route)| <= l.routes[route]
      {
        ShareWithinGlobal(l, route, events);
      }
    } else {
      var events := RouteWaitersHoldGlobalPermits(l, route, l.global);
      assert Execute(l, Start(l), events).Reached?;
    }
  }
}

/**
 `L1Cache::put` of crates/gateway-cache/src/l1_local.rs under concurrent callers. The map is shared and
 has no lock around `put`: measuring, picking a victim, removing it and inserting are steps of their
 own, between which other callers take theirs. Keys stand for entries; `width` bounds how many calls
 of `put` are in progress at a time.
 */
module L1Race {
  import opened Numbers

  datatype PutStage =
    | Measured(full: bool)          // `len` compared with the capacity
    | Picked(victim: nat)           // `evict_one` has chosen a key and let go of its shard
    | Cleared                       // eviction done

  datatype InProgress = InProgress(key: nat, stage: PutStage)

  datatype State = State(store: set<nat>, puts: map<nat, InProgress>)

  datatype Event =
    | Measure(id: nat, key: nat)
    | Pick(id: nat, victim: nat)
    | FindEmpty(id: nat)            // `evict_one` on an empty map does nothing
    | Remove(id: nat)
    | Insert(id: nat)
    | Expire(key: nat)              // lazy removal by `get`, or `invalidate`

  const EMPTY := State({}, map[])

  predicate Is(s: State, id: nat, stage: PutStage)
  {
    id in s.puts && s.puts[id].stage == stage
  }

  predicate Enabled(width: nat, s: State, e: Event)
  {
    match e
    case Measure(id, _) => id !in s.puts && |s.puts| < width
    case Pick(id, victim) => Is(s, id, Measured(true)) && victim in s.store
    case FindEmpty(id) => Is(s, id, Measured(true)) && s.store == {}
    case Remove(id) => id in s.puts && s.puts[id].stage.Picked?
    case Insert(id) => Is(s, id, Measured(false)) || Is(s, id, Cleared)
    case Expire(_) => true
  }

  function SetStage(s: State, id: nat, stage: PutStage): State
    requires id in s.puts
  {
    s.(puts := s.puts[id := s.puts[id].(stage := stage)])
  }

  function Next(capacity: nat, width: nat, s: State, e: Event): State
    requires Enabled(width, s, e)
  {
    match e
    case Measure(id, key) => s.(puts := s.puts[id := InProgress(key, Measured(|s.store| >= capacity))])
    case Pick(id, victim) => SetStage(s, id, Picked(victim))
    case FindEmpty(id) => SetStage(s, id, Cleared)
    case Remove(id) => SetStage(s, id, Cleared).(store := s.store - {s.puts[id].stage.victim})
    case Insert(id) => State(s.store + {s.puts[id].key}, s.puts - {id})
    case Expire(key) => s.(store := s.store - {key})
  }

  datatype Outcome = Reached(state: State) | Impossible

  function Execute(capacity: nat, width: nat, run: History<Event>): Outcome
  {
    match run
    case Nothing => Reached(EMPTY)
    case Then(past, e) =>
      match Execute(capacity, width, past)
      case Impossible => Impossible
      case Reached(s) => if Enabled(width, s, e) then Reached(Next(capacity, width, s, e)) else Impossible
  }

  // ---- One caller at a time ----

  function Room(capacity: nat): nat
  {
    if capacity == 0 then 1 else capacity
  }

  /** What the map's size may be while one call is in this stage. */
  predicate StageFits(capacity: nat, store: set<nat>, stage: PutStage)
  {
    match stage
    case Measured(full) => if full then |store| <= Room(capacity) else |store| < Room(capacity)
    case Picked(victim) => |store| <= Room(capacity) && (victim !in store ==> |store| < Room(capacity))
    case Cleared => |store| < Room(capacity)
  }

  ghost predicate Fits(capacity: nat, s: State)
  {
    && |s.store| <= Room(capacity) && |s.puts| <= 1
    && forall id | id in s.puts :: StageFits(capacity, s.store, s.puts[id].stage)
  }

  lemma OnlyOne(s: State, i: nat, j: nat)
    requires |s.puts| <= 1 && i in s.puts && j in s.puts
    ensures i == j
  {
    var rest := s.puts.Keys - {i};
    assert |s.puts.Keys| == |rest| + 1;
    assert rest == {};
  }

  lemma RemoveShrinks(store: set<nat>, key: nat)
    ensures |store - {key}| <= |store| && (key in store ==> |store - {key}| == |store| - 1)
  {
    if key !in store { assert store - {key} == store; }
  }

  lemma FitsStep(capacity: nat, s: State, e: Event)
    requires Fits(capacity, s) && Enabled(1, s, e)
    ensures Fits(capacity, Next(capacity, 1, s, e))
  {
    var t := Next(capacity, 1, s, e);
    assert |t.puts| <= 1 by { PutsStep(capacity, s, e); }
    if e.Expire? { RemoveShrinks(s.store, e.key); }
    if e.Remove? { RemoveShrinks(s.store, s.puts[e.id].stage.victim); }
    forall id | id in t.puts ensures StageFits(capacity, t.store, t.puts[id].stage) {
      if !e.Measure? && !e.Expire? { OnlyOne(s, id, e.id); }
    }
  }

  lemma PutsStep(capacity: nat, s: State, e: Event)
    requires |s.puts| <= 1 && Enabled(1, s, e)
    ensures |Next(capacity, 1, s, e).puts| <= 1
  {
    var t := Next(capacity, 1, s, e);
    match e {
      case Measure(id, _) => assert s.puts == map[]; assert t.puts.Keys == {id};
      case Insert(id) => assert t.puts.Keys == s.puts.Keys - {id};
      case Expire(_) => assert t.puts == s.puts;
      case _ => assert t.puts.Keys == s.puts.Keys;
    }
  }

  /** With one caller at a time the map never holds more than its capacity, or one entry if that is zero. */
  lemma {:induction false} OneAtATimeIsBounded(capacity: nat, run: History<Event>)
    requires Execute(capacity, 1, run).Reached?
    ensures Fits(capacity, Execute(capacity, 1, run).state)
  {
    if run.Then? {
      OneAtATimeIsBounded(capacity, run.past);
      FitsStep(capacity, Execute(capacity, 1, run.past).state, run.last);
    }
  }

  // ---- Two callers ----

  lemma Extend(capacity: nat, width: nat, run: History<Event>, s: State, e: Event, t: State)
    requires Execute(capacity, width, run) == Reached(s) && Enabled(width, s, e) && Next(capacity, width, s, e) == t
    ensures Execute(capacity, width, Then(run, e)) == Reached(t)
  {}

  /** While there is room, one call adds one entry. */
  lemma PutOne(capacity: nat, width: nat, run: History<Event>, n: nat)
    requires width >= 1 && n < capacity
    requires Execute(capacity, width, run) == Reached(State(Upto(n), map[]))
    ensures Execute(capacity, width, Then(Then(run, Measure(0, n)), Insert(0))) == Reached(State(Upto(n + 1), map[]))
  {
    var s := State(Upto(n), map[0 := InProgress(n, Measured(false))]);
    Extend(capacity, width, run, State(Upto(n), map[]), Measure(0, n), s);
    assert Upto(n) + {n} == Upto(n + 1) && s.puts - {0} == map[];
    Extend(capacity, width, Then(run, Measure(0, n)), s, Insert(0), State(Upto(n + 1), map[]));
  }

  /** Two calls, for keys 0 and `n`, in these stages. */
  function Both(n: nat, first: PutStage, second: PutStage): map<nat, InProgress>
  {
    map[0 := InProgress(0, first), 1 := InProgress(n, second)]
  }

  lemma FirstMoves(store: set<nat>, n: nat, first: PutStage, second: PutStage, stage: PutStage)
    ensures SetStage(State(store, Both(n, first, second)), 0, stage) == State(store, Both(n, stage, second))
  {}

  lemma SecondMoves(store: set<nat>, n: nat, first: PutStage, second: PutStage, stage: PutStage)
    ensures SetStage(State(store, Both(n, first, second)), 1, stage) == State(store, Both(n, first, stage))
  {}

  /** Both find the map full. */
  lemma BothMeasure(capacity: nat, width: nat, run: History<Event>, store: set<nat>, n: nat)
    requires width >= 2 && capacity <= |store|
    requires Execute(capacity, width, run) == Reached(State(store, map[]))
    ensures Execute(capacity, width, Then(Then(run, Measure(0, 0)), Measure(1, n)))
         == Reached(State(store, Both(n, Measured(true), Measured(true))))
  {
    var one := State(store, map[0 := InProgress(0, Measured(true))]);
    Extend(capacity, width, run, State(store, map[]), Measure(0, 0), one);
    assert one.puts.Keys == {0};
    assert one.puts[1 := InProgress(n, Measured(true))] == Both(n, Measured(true), Measured(true));
    Extend(capacity, width, Then(run, Measure(0, 0)), one, Measure(1, n),
           State(store, Both(n, Measured(true), Measured(true))));
  }

  /** Both pick the same victim. */
  lemma BothPick(capacity: nat, width: nat, run: History<Event>, store: set<nat>, n: nat)
    requires 0 in store
    requires Execute(capacity, width, run) == Reached(State(store, Both(n, Measured(true), Measured(true))))
    ensures Execute(capacity, width, Then(Then(run, Pick(0, 0)), Pick(1, 0)))
         == Reached(State(store, Both(n, Picked(0), Picked(0))))
  {
    FirstMoves(store, n, Measured(true), Measured(true), Picked(0));
    SecondMoves(store, n, Picked(0), Measured(true), Picked(0));
    Extend(capacity, width, run, State(store, Both(n, Measured(true), Measured(true))), Pick(0, 0),
           State(store, Both(n, Picked(0), Measured(true))));
    Extend(capacity, width, Then(run, Pick(0, 0)), State(store, Both(n, Picked(0), Measured(true))), Pick(1, 0),
           State(store, Both(n, Picked(0), Picked(0))));
  }

  /** Both remove it, of which the second finds nothing. */
  lemma BothRemove(capacity: nat, width: nat, run: History<Event>, store: set<nat>, n: nat)
    requires Execute(capacity, width, run) == Reached(State(store, Both(n, Picked(0), Picked(0))))
    ensures Execute(capacity, width, Then(Then(run, Remove(0)), Remove(1)))
         == Reached(State(store - {0}, Both(n, Cleared, Cleared)))
  {
    FirstMoves(store, n, Picked(0), Picked(0), Cleared);
    SecondMoves(store - {0}, n, Cleared, Picked(0), Cleared);
    assert store - {0} - {0} == store - {0};
    Extend(capacity, width, run, State(store, Both(n, Picked(0), Picked(0))), Remove(0),
           State(store - {0}, Both(n, Cleared, Picked(0))));
    Extend(capacity, width, Then(run, Remove(0)), State(store - {0}, Both(n, Cleared, Picked(0))), Remove(1),
           State(store - {0}, Both(n, Cleared, Cleared)));
  }

  /** Both insert. */
  lemma BothInsert(capacity: nat, width: nat, run: History<Event>, store: set<nat>, n: nat)
    requires Execute(capacity, width, run) == Reached(State(store - {0}, Both(n, Cleared, Cleared))) && 0 in store
    ensures Execute(capacity, width, Then(Then(run, Insert(0)), Insert(1))) == Reached(State(store + {n}, map[]))
  {
    var one := State(store, map[1 := InProgress(n, Cleared)]);
    assert store - {0} + {0} == store;
    assert Both(n, Cleared, Cleared) - {0} == one.puts;
    Extend(capacity, width, run, State(store - {0}, Both(n, Cleared, Cleared)), Insert(0), one);
    assert one.puts - {1} == map[];
    Extend(capacity, width, Then(run, Insert(0)), one, Insert(1), State(store + {n}, map[]));
  }

  /** Two calls that evict the same victim leave the map one larger. */
  lemma RaceTwo(capacity: nat, width: nat, run: History<Event>, store: set<nat>, n: nat) returns (longer: History<Event>)
    requires width >= 2 && capacity <= |store| && 0 in store
    requires Execute(capacity, width, run) == Reached(State(store, map[]))
    ensures Execute(capacity, width, longer) == Reached(State(store + {n}, map[]))
  {
    BothMeasure(capacity, width, run, store, n);
    longer := Then(Then(run, Measure(0, 0)), Measure(1, n));
    BothPick(capacity, width, longer, store, n);
    longer := Then(Then(longer, Pick(0, 0)), Pick(1, 0));
    BothRemove(capacity, width, longer, store, n);
    longer := Then(Then(longer, Remove(0)), Remove(1));
    BothInsert(capacity, width, longer, store, n);
    longer := Then(Then(longer, Insert(0)), Insert(1));
  }

  /** An empty map of capacity zero: the first entry goes in without a victim. */
  lemma PutFirst(capacity: nat, width: nat) returns (run: History<Event>)
    requires width >= 1
    ensures Execute(capacity, width, run) == Reached(State(Upto(1), map[]))
  {
    assert Upto(0) == {};
    if capacity > 0 {
      PutOne(capacity, width, Nothing, 0);
      run := Then(Then(Nothing, Measure(0, 0)), Insert(0));
    } else {
      run := Then(Then(Then(Nothing, Measure(0, 0)), FindEmpty(0)), Insert(0));
      var s1, s2 := State({}, map[0 := InProgress(0, Measured(true))]), State({}, map[0 := InProgress(0, Cleared)]);
      Extend(capacity, width, Nothing, EMPTY, Measure(0, 0), s1);
      Extend(capacity, width, run.past.past, s1, FindEmpty(0), s2);
      Extend(capacity, width, run.past, s2, Insert(0), State({0}, map[]));
      assert Upto(1) == {0};
    }
  }

  /** With two callers at a time the map grows to any size, whatever its capacity. */
  lemma {:induction false} TwoAtATimeGrow(capacity: nat, width: nat, n: nat) returns (run: History<Event>)
    requires width >= 2 && n >= 1
    ensures Execute(capacity, width, run) == Reached(State(Upto(n), map[]))
  {
    if n == 1 {
      run := PutFirst(capacity, width);
    } else {
      run := TwoAtATimeGrow(capacity, width, n - 1);
      if n - 1 < capacity {
        PutOne(capacity, width, run, n - 1);
        run := Then(Then(run, Measure(0, n - 1)), Insert(0));
      } else {
        run := RaceTwo(capacity, width, run, Upto(n - 1), n - 1);
      }
    }
  }

  /** No run with this many callers at a time exceeds this size. */
  ghost predicate BoundedBy(capacity: nat, width: nat, bound: nat)
  {
    forall run | Execute(capacity, width, run).Reached? :: |Execute(capacity, width, run).state.store| <= bound
  }

  /** The capacity bounds the map, or anything does, if and only if there is one caller at a time. */
  lemma CapacityHoldsIff(capacity: nat, width: nat, bound: nat)
    requires width >= 1 && bound >= Room(capacity)
    ensures BoundedBy(capacity, width, bound) <==> width == 1
  {
    if width == 1 {
      forall run | Execute(capacity, width, run).Reached?
        ensures |Execute(capacity, width, run).state.store| <= bound
      {
        OneAtATimeIsBounded(capacity, run);
      }
    } else {
      var run := TwoAtATimeGrow(capacity, width, bound + 1);
      assert Execute(capacity, width, run).Reached?;
    }
  }
}

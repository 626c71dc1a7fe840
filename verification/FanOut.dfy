/**
 The control plane's fan-out: the loader of control-plane/internal/config/loader.go and the
 subscription server of control-plane/internal/grpc/server.go, as atomic steps. A step is one
 critical section, one stream send, or one read of the loader; everything else may happen in between.

 A reload job is any caller of reload-then-broadcast: the Reload RPC, the admin API or the
 Kubernetes watcher. A call is one Subscribe RPC. Calls are identified by a number of their own,
 because two calls may carry the same instance id.
 */
module FanOut {

  datatype Snapshot = Snapshot(version: nat, yaml: string)

  datatype Phase =
    | Registered                       // in the map, current snapshot not read yet
    | Holding(snapshot: Snapshot)      // snapshot read, not sent yet
    | Streaming                        // initial snapshot sent, blocked on the stream
    | Returning                        // about to run the deferred delete
    | Ended

  datatype Call = Call(instance: string, phase: Phase, doneClosed: bool, sent: set<Snapshot>)

  datatype Job =
    | FileRead(raw: string)            // file read and validated, lock not taken yet
    | Wrote                            // version written, Current() not read yet
    | GotCurrent(snapshot: Snapshot)   // BroadcastSnapshot called, subscribers not collected yet
    | Sending(snapshot: Snapshot, pending: set<nat>, failed: set<string>)

  datatype State = State(
    version: nat, rawYAML: string,
    written: seq<string>,              // every YAML text the loader ever held, oldest first
    subscribers: map<string, nat>,
    calls: map<nat, Call>,
    jobs: map<nat, Job>,
    crashed: bool)

  datatype Event =
    | ReadFile(job: nat, raw: string)
    | WriteVersion(job: nat)
    | ReadCurrent(job: nat)
    | Collect(job: nat)
    | SendOk(job: nat, call: nat)
    | SendFail(job: nat, call: nat)
    | Finish(job: nat)
    | Subscribe(call: nat, instance: string)
    | ReadInitial(call: nat)
    | SendInitialOk(call: nat)
    | SendInitialFail(call: nat)
    | Disconnect(call: nat)
    | Cleanup(call: nat)

  function Current(s: State): Snapshot
  {
    Snapshot(s.version, s.rawYAML)
  }

  predicate CallIs(s: State, call: nat, phase: Phase)
  {
    call in s.calls && s.calls[call].phase == phase
  }

  /** Which events can happen. `valid` says which texts pass parsing and validation. */
  predicate Enabled(valid: string -> bool, s: State, e: Event)
  {
    && !s.crashed
    && match e
       case ReadFile(j, raw) => j !in s.jobs && valid(raw)
       case WriteVersion(j) => j in s.jobs && s.jobs[j].FileRead?
       case ReadCurrent(j) => j in s.jobs && s.jobs[j].Wrote?
       case Collect(j) => j in s.jobs && s.jobs[j].GotCurrent?
       case SendOk(j, c) =>
         j in s.jobs && s.jobs[j].Sending? && c in s.jobs[j].pending && c in s.calls && !s.calls[c].phase.Ended?
       case SendFail(j, c) => j in s.jobs && s.jobs[j].Sending? && c in s.jobs[j].pending && c in s.calls
       case Finish(j) => j in s.jobs && s.jobs[j].Sending? && s.jobs[j].pending == {}
       case Subscribe(c, _) => c !in s.calls
       case ReadInitial(c) => CallIs(s, c, Registered)
       case SendInitialOk(c) => c in s.calls && s.calls[c].phase.Holding?
       case SendInitialFail(c) => c in s.calls && s.calls[c].phase.Holding?
       case Disconnect(c) => CallIs(s, c, Streaming)
       case Cleanup(c) => CallIs(s, c, Returning)
  }

  function SetPhase(s: State, c: nat, phase: Phase): State
    requires c in s.calls
  {
    s.(calls := s.calls[c := s.calls[c].(phase := phase)])
  }

  function SetJob(s: State, j: nat, job: Job): State
  {
    s.(jobs := s.jobs[j := job])
  }

  function Next(valid: string -> bool, s: State, e: Event): State
    requires Enabled(valid, s, e)
  {
    match e
    case ReadFile(j, raw) => SetJob(s, j, FileRead(raw))
    case WriteVersion(j) =>
      var raw := s.jobs[j].raw;
      SetJob(s, j, Wrote).(version := s.version + 1, rawYAML := raw, written := s.written + [raw])
    case ReadCurrent(j) => SetJob(s, j, GotCurrent(Current(s)))
    case Collect(j) =>
      if s.subscribers == map[] then s.(jobs := s.jobs - {j})
      else SetJob(s, j, Sending(s.jobs[j].snapshot, s.subscribers.Values, {}))
    case SendOk(j, c) =>
      var job := s.jobs[j];
      SetJob(s, j, job.(pending := job.pending - {c}))
        .(calls := s.calls[c := s.calls[c].(sent := s.calls[c].sent + {job.snapshot})])
    case SendFail(j, c) =>
      var job := s.jobs[j];
      if s.calls[c].doneClosed then s.(crashed := true)  // close of a closed channel panics
      else
        SetJob(s, j, job.(pending := job.pending - {c}, failed := job.failed + {s.calls[c].instance}))
          .(calls := s.calls[c := s.calls[c].(doneClosed := true)])
    case Finish(j) => s.(subscribers := s.subscribers - s.jobs[j].failed, jobs := s.jobs - {j})
    case Subscribe(c, instance) =>
      s.(subscribers := s.subscribers[instance := c], calls := s.calls[c := Call(instance, Registered, false, {})])
    case ReadInitial(c) => SetPhase(s, c, Holding(Current(s)))
    case SendInitialOk(c) =>
      var call := s.calls[c];
      s.(calls := s.calls[c := call.(phase := Streaming, sent := call.sent + {call.phase.snapshot})])
    case SendInitialFail(c) => SetPhase(s, c, Returning)
    case Disconnect(c) => SetPhase(s, c, Returning)
    case Cleanup(c) => SetPhase(s, c, Ended).(subscribers := s.subscribers - {s.calls[c].instance})
  }

  /** The state after NewLoader succeeded on `raw`. */
  function Start(raw: string): State
  {
    State(1, raw, [raw], map[], map[], map[], false)
  }

  datatype Outcome = Reached(state: State) | Impossible

  /** Where a sequence of events leads from startup, if each of them can happen in turn. */
  function Execute(valid: string -> bool, raw: string, events: seq<Event>): Outcome
  {
    if events == [] then (if valid(raw) then Reached(Start(raw)) else Impossible)
    else
      match Execute(valid, raw, events[..|events| - 1])
      case Impossible => Impossible
      case Reached(s) =>
        var e := events[|events| - 1];
        if Enabled(valid, s, e) then Reached(Next(valid, s, e)) else Impossible
  }

  // ---- Snapshots are authentic ----

  predicate Authentic(s: State, snap: Snapshot)
  {
    1 <= snap.version <= |s.written| && snap.yaml == s.written[snap.version - 1]
  }

  ghost predicate LoaderInv(valid: string -> bool, s: State)
  {
    && s.version == |s.written| && Authentic(s, Current(s))
    && forall i | 0 <= i < |s.written| :: valid(s.written[i])
  }

  ghost predicate CallAuthentic(s: State, call: Call)
  {
    && (call.phase.Holding? ==> Authentic(s, call.phase.snapshot))
    && forall snap | snap in call.sent :: Authentic(s, snap)
  }

  ghost predicate JobAuthentic(valid: string -> bool, s: State, job: Job)
  {
    match job
    case FileRead(raw) => valid(raw)
    case Wrote => true
    case GotCurrent(snap) => Authentic(s, snap)
    case Sending(snap, pending, _) => Authentic(s, snap) && pending <= s.calls.Keys
  }

  ghost predicate AuthenticInv(valid: string -> bool, s: State)
  {
    && LoaderInv(valid, s)
    && (forall c | c in s.calls :: CallAuthentic(s, s.calls[c]))
    && (forall j | j in s.jobs :: JobAuthentic(valid, s, s.jobs[j]))
  }

  // ---- No registered subscriber misses the current version ----

  /** This job will still bring the current snapshot to the call, or remove the call's registration. */
  predicate JobCovers(s: State, job: Job, c: nat)
    requires c in s.calls
  {
    match job
    case FileRead(_) => false
    case Wrote => true
    case GotCurrent(snap) => snap == Current(s)
    case Sending(snap, pending, failed) =>
      (snap == Current(s) && c in pending) || s.calls[c].instance in failed
  }

  ghost predicate Covered(s: State, c: nat)
    requires c in s.calls
  {
    var call := s.calls[c];
    || Current(s) in call.sent
    || call.phase.Registered? || call.phase == Holding(Current(s)) || call.phase.Returning?
    || exists j | j in s.jobs :: JobCovers(s, s.jobs[j], c)
  }

  ghost predicate RegistrationInv(s: State)
  {
    forall i | i in s.subscribers ::
      && s.subscribers[i] in s.calls
      && s.calls[s.subscribers[i]].instance == i
      && !s.calls[s.subscribers[i]].phase.Ended?
  }

  ghost predicate CoverInv(s: State)
  {
    RegistrationInv(s) && forall i | i in s.subscribers :: Covered(s, s.subscribers[i])
  }

  lemma LoaderStep(valid: string -> bool, s: State, e: Event)
    requires LoaderInv(valid, s) && Enabled(valid, s, e)
    requires forall j | j in s.jobs :: JobAuthentic(valid, s, s.jobs[j])
    ensures LoaderInv(valid, Next(valid, s, e))
    ensures s.written <= Next(valid, s, e).written
  {
    if e.WriteVersion? { assert JobAuthentic(valid, s, s.jobs[e.job]); }
  }

  lemma CallAuthenticStep(valid: string -> bool, s: State, e: Event, c: nat)
    requires Authentic(s, Current(s)) && Enabled(valid, s, e)
    requires c in s.calls ==> CallAuthentic(s, s.calls[c])
    requires e.SendOk? ==> Authentic(s, s.jobs[e.job].snapshot)
    requires c in Next(valid, s, e).calls && s.written <= Next(valid, s, e).written
    ensures CallAuthentic(Next(valid, s, e), Next(valid, s, e).calls[c])
  {
    var t := Next(valid, s, e);
    forall snap | snap in t.calls[c].sent ensures Authentic(s, snap) {}
  }

  lemma JobAuthenticStep(valid: string -> bool, s: State, e: Event, j: nat)
    requires Authentic(s, Current(s)) && Enabled(valid, s, e)
    requires j in s.jobs ==> JobAuthentic(valid, s, s.jobs[j])
    requires s.subscribers.Values <= s.calls.Keys
    requires j in Next(valid, s, e).jobs && s.written <= Next(valid, s, e).written
    ensures JobAuthentic(valid, Next(valid, s, e), Next(valid, s, e).jobs[j])
  {}

  lemma AuthenticStep(valid: string -> bool, s: State, e: Event)
    requires AuthenticInv(valid, s) && RegistrationInv(s) && Enabled(valid, s, e)
    ensures AuthenticInv(valid, Next(valid, s, e))
  {
    var t := Next(valid, s, e);
    LoaderStep(valid, s, e);
    assert e.SendOk? ==> JobAuthentic(valid, s, s.jobs[e.job]);
    forall c | c in t.calls ensures CallAuthentic(t, t.calls[c]) {
      CallAuthenticStep(valid, s, e, c);
    }
    forall j | j in t.jobs ensures JobAuthentic(valid, t, t.jobs[j]) {
      JobAuthenticStep(valid, s, e, j);
    }
  }

  lemma RegistrationStep(valid: string -> bool, s: State, e: Event)
    requires RegistrationInv(s) && Enabled(valid, s, e)
    ensures RegistrationInv(Next(valid, s, e))
  {}

  lemma CoverStep(valid: string -> bool, s: State, e: Event)
    requires AuthenticInv(valid, s) && CoverInv(s) && Enabled(valid, s, e)
    ensures CoverInv(Next(valid, s, e))
  {
    RegistrationStep(valid, s, e);
    var t := Next(valid, s, e);
    forall i | i in t.subscribers ensures Covered(t, t.subscribers[i]) {
      var c := t.subscribers[i];
      if !e.Subscribe? || c != e.call {
        assert i in s.subscribers && s.subscribers[i] == c;
        assert Covered(s, c);
        CoveredStep(valid, s, e, i, c);
      }
    }
  }

  /** Each event keeps a call covered as long as it stays registered. */
  lemma CoveredStep(valid: string -> bool, s: State, e: Event, i: string, c: nat)
    requires Enabled(valid, s, e) && RegistrationInv(s)
    requires i in s.subscribers && s.subscribers[i] == c && Covered(s, c)
    requires i in Next(valid, s, e).subscribers && Next(valid, s, e).subscribers[i] == c
    ensures c in Next(valid, s, e).calls && Covered(Next(valid, s, e), c)
  {
    var t := Next(valid, s, e);
    if e.WriteVersion? {
      assert JobCovers(t, t.jobs[e.job], c);
    } else if exists j | j in s.jobs :: JobCovers(s, s.jobs[j], c) {
      var j :| j in s.jobs && JobCovers(s, s.jobs[j], c);
      JobCoversStep(valid, s, e, c, j);
    }
  }

  /** A covering job covers until it has delivered, unless its last step deletes the registration. */
  lemma JobCoversStep(valid: string -> bool, s: State, e: Event, c: nat, j: nat)
    requires Enabled(valid, s, e) && !e.WriteVersion? && c in s.calls && c in s.subscribers.Values
    requires !(e.Subscribe? && e.call == c)
    requires j in s.jobs && JobCovers(s, s.jobs[j], c)
    requires !(e == Finish(j) && s.calls[c].instance in s.jobs[j].failed)
    ensures c in Next(valid, s, e).calls
    ensures var t := Next(valid, s, e);
      Current(t) in t.calls[c].sent || (j in t.jobs && JobCovers(t, t.jobs[j], c))
  {}

  lemma {:induction false} RunInvariant(valid: string -> bool, raw: string, events: seq<Event>)
    requires Execute(valid, raw, events).Reached?
    ensures AuthenticInv(valid, Execute(valid, raw, events).state)
    ensures CoverInv(Execute(valid, raw, events).state)
  {
    if events != [] {
      var n := |events| - 1;
      RunInvariant(valid, raw, events[..n]);
      var before := Execute(valid, raw, events[..n]).state;
      AuthenticStep(valid, before, events[n]);
      CoverStep(valid, before, events[n]);
    }
  }

  /** Nothing is in flight: no reload job, and no Subscribe call on its way in or out. */
  ghost predicate Quiescent(s: State)
  {
    && s.jobs == map[]
    && forall c | c in s.calls :: s.calls[c].phase.Streaming? || s.calls[c].phase.Ended?
  }

  /**
   No missed update: in every interleaving, once nothing is in flight, every registered subscriber
   has been sent the loader's current snapshot, text and all. Instance ids may be reused freely.
   */
  lemma NoMissedUpdate(valid: string -> bool, raw: string, events: seq<Event>, s: State)
    requires Execute(valid, raw, events) == Reached(s) && Quiescent(s)
    ensures forall i | i in s.subscribers ::
              s.subscribers[i] in s.calls && Current(s) in s.calls[s.subscribers[i]].sent
  {
    RunInvariant(valid, raw, events);
    forall i | i in s.subscribers
      ensures s.subscribers[i] in s.calls && Current(s) in s.calls[s.subscribers[i]].sent
    {
      assert Covered(s, s.subscribers[i]);
    }
  }

  /** Whatever was sent is a version the loader held, with the text it held then. */
  lemma SentIsAuthentic(valid: string -> bool, raw: string, events: seq<Event>, s: State, c: nat, x: Snapshot)
    requires Execute(valid, raw, events) == Reached(s) && c in s.calls && x in s.calls[c].sent
    ensures Authentic(s, x) && LoaderInv(valid, s)
  {
    RunInvariant(valid, raw, events);
    assert CallAuthentic(s, s.calls[c]);
  }

  /** Equal versions carry equal, validated texts, whichever calls they were sent to. */
  lemma VersionsAreUnambiguous(valid: string -> bool, raw: string, events: seq<Event>, s: State,
                               c: nat, d: nat, x: Snapshot, y: Snapshot)
    requires Execute(valid, raw, events) == Reached(s)
    requires c in s.calls && d in s.calls && x in s.calls[c].sent && y in s.calls[d].sent
    ensures x.version == y.version ==> x == y
    ensures 1 <= x.version <= s.version && valid(x.yaml)
    ensures x.version == s.version ==> x == Current(s)
  {
    assert Authentic(s, x) && LoaderInv(valid, s) by { SentIsAuthentic(valid, raw, events, s, c, x); }
    assert Authentic(s, y) by { SentIsAuthentic(valid, raw, events, s, d, y); }
  }

  // ---- Connected subscribers stay registered, if ids are fresh ----

  /** No live call and no broadcast in flight still uses this instance id. */
  ghost predicate FreshId(s: State, instance: string)
  {
    && (forall c | c in s.calls && !s.calls[c].phase.Ended? :: s.calls[c].instance != instance)
    && (forall j | j in s.jobs && s.jobs[j].Sending? ::
          && instance !in s.jobs[j].failed
          && forall c | c in s.jobs[j].pending && c in s.calls :: s.calls[c].instance != instance)
  }

  /** Every Subscribe of the run used a fresh id. */
  ghost predicate FreshIds(valid: string -> bool, raw: string, events: seq<Event>)
  {
    forall k | 0 <= k < |events| && events[k].Subscribe? ::
      Execute(valid, raw, events[..k]).Reached? ==>
        FreshId(Execute(valid, raw, events[..k]).state, events[k].instance)
  }

  predicate Live(s: State, c: nat)
  {
    c in s.calls && !s.calls[c].phase.Ended?
  }

  predicate IsRegistered(s: State, c: nat)
  {
    c in s.calls && s.calls[c].instance in s.subscribers && s.subscribers[s.calls[c].instance] == c
  }

  ghost predicate DistinctLive(s: State)
  {
    forall c, d | Live(s, c) && Live(s, d) && s.calls[c].instance == s.calls[d].instance :: c == d
  }

  ghost predicate LiveRegistered(s: State)
  {
    forall c | Live(s, c) :: IsRegistered(s, c) || s.calls[c].doneClosed
  }

  /** A broadcast about to delete an id deletes no open channel. */
  ghost predicate FailedClosed(s: State)
  {
    forall j, c | j in s.jobs && s.jobs[j].Sending? && Live(s, c) && s.calls[c].instance in s.jobs[j].failed ::
      s.calls[c].doneClosed
  }

  ghost predicate PendingOwnsId(s: State)
  {
    forall j, p, c | j in s.jobs && s.jobs[j].Sending? && p in s.jobs[j].pending && p in s.calls && Live(s, c)
                     && s.calls[p].instance == s.calls[c].instance ::
      p == c
  }

  ghost predicate FreshInv(s: State)
  {
    RegistrationInv(s) && DistinctLive(s) && LiveRegistered(s) && FailedClosed(s) && PendingOwnsId(s)
  }

  lemma DistinctLiveStep(valid: string -> bool, s: State, e: Event)
    requires DistinctLive(s) && Enabled(valid, s, e)
    requires e.Subscribe? ==> FreshId(s, e.instance)
    ensures DistinctLive(Next(valid, s, e))
  {}

  lemma LiveRegisteredStep(valid: string -> bool, s: State, e: Event)
    requires FreshInv(s) && Enabled(valid, s, e)
    requires e.Subscribe? ==> FreshId(s, e.instance)
    ensures LiveRegistered(Next(valid, s, e))
  {
    var t := Next(valid, s, e);
    forall c | Live(t, c) ensures IsRegistered(t, c) || t.calls[c].doneClosed {
      if c in s.calls { assert Live(s, c) && t.calls[c].instance == s.calls[c].instance; }
    }
  }

  lemma FailedClosedStep(valid: string -> bool, s: State, e: Event)
    requires FailedClosed(s) && PendingOwnsId(s) && Enabled(valid, s, e)
    requires e.Subscribe? ==> FreshId(s, e.instance)
    ensures FailedClosed(Next(valid, s, e))
  {
    var t := Next(valid, s, e);
    forall j, c | j in t.jobs && t.jobs[j].Sending? && Live(t, c) && t.calls[c].instance in t.jobs[j].failed
      ensures t.calls[c].doneClosed
    {
      assert j in s.jobs;
      if c in s.calls { assert Live(s, c) && t.calls[c].instance == s.calls[c].instance; }
    }
  }

  /** A broadcast starts with the registered calls only, and each of those is alive. */
  lemma CollectedAreLive(s: State, p: nat)
    requires RegistrationInv(s) && p in s.subscribers.Values
    ensures Live(s, p)
  {
    var i :| i in s.subscribers && s.subscribers[i] == p;
  }

  lemma PendingOwnsIdStep(valid: string -> bool, s: State, e: Event)
    requires FreshInv(s) && Enabled(valid, s, e)
    requires e.Subscribe? ==> FreshId(s, e.instance)
    ensures PendingOwnsId(Next(valid, s, e))
  {
    var t := Next(valid, s, e);
    forall j, p, c | j in t.jobs && t.jobs[j].Sending? && p in t.jobs[j].pending && p in t.calls && Live(t, c)
                     && t.calls[p].instance == t.calls[c].instance
      ensures p == c
    {
      PendingStep(valid, s, e, j, p, c);
    }
  }

  lemma PendingStep(valid: string -> bool, s: State, e: Event, j: nat, p: nat, c: nat)
    requires RegistrationInv(s) && DistinctLive(s) && PendingOwnsId(s) && Enabled(valid, s, e)
    requires e.Subscribe? ==> FreshId(s, e.instance)
    requires var t := Next(valid, s, e);
      j in t.jobs && t.jobs[j].Sending? && p in t.jobs[j].pending && p in t.calls && Live(t, c)
      && t.calls[p].instance == t.calls[c].instance
    ensures p == c
  {
    if e.Collect? && e.job == j {
      CollectedAreLive(s, p);
    } else {
      StillPending(valid, s, e, j, p);
    }
  }

  lemma StillPending(valid: string -> bool, s: State, e: Event, j: nat, p: nat)
    requires Enabled(valid, s, e) && !(e.Collect? && e.job == j)
    requires j in Next(valid, s, e).jobs && Next(valid, s, e).jobs[j].Sending? && p in Next(valid, s, e).jobs[j].pending
    ensures j in s.jobs && s.jobs[j].Sending? && p in s.jobs[j].pending
  {}

  lemma FreshStep(valid: string -> bool, s: State, e: Event)
    requires FreshInv(s) && Enabled(valid, s, e)
    requires e.Subscribe? ==> FreshId(s, e.instance)
    ensures FreshInv(Next(valid, s, e))
  {
    RegistrationStep(valid, s, e);
    DistinctLiveStep(valid, s, e);
    LiveRegisteredStep(valid, s, e);
    FailedClosedStep(valid, s, e);
    PendingOwnsIdStep(valid, s, e);
  }

  lemma {:induction false} FreshRun(valid: string -> bool, raw: string, events: seq<Event>)
    requires Execute(valid, raw, events).Reached? && FreshIds(valid, raw, events)
    ensures FreshInv(Execute(valid, raw, events).state)
  {
    if events != [] {
      var n := |events| - 1;
      forall k | 0 <= k < n && events[..n][k].Subscribe?
        ensures Execute(valid, raw, events[..n][..k]).Reached? ==>
                  FreshId(Execute(valid, raw, events[..n][..k]).state, events[..n][k].instance)
      {
        assert events[..n][..k] == events[..k];
      }
      FreshRun(valid, raw, events[..n]);
      FreshStep(valid, Execute(valid, raw, events[..n]).state, events[n]);
    }
  }

  /**
   With fresh ids the guarantee reaches every connected data plane: once nothing is in flight, every
   open stream no send has failed on is registered and has been sent the current snapshot.
   */
  lemma ConnectedAreUpToDate(valid: string -> bool, raw: string, events: seq<Event>, s: State, c: nat)
    requires Execute(valid, raw, events) == Reached(s) && FreshIds(valid, raw, events) && Quiescent(s)
    requires CallIs(s, c, Streaming) && !s.calls[c].doneClosed
    ensures IsRegistered(s, c) && Current(s) in s.calls[c].sent
  {
    FreshRun(valid, raw, events);
    assert Live(s, c);
    NoMissedUpdate(valid, raw, events, s);
  }

  /** The event subscribes, cleans up or removes this id, whichever call holds it. */
  predicate Names(s: State, e: Event, instance: string)
  {
    || (e.Subscribe? && e.instance == instance)
    || (e.Cleanup? && e.call in s.calls && s.calls[e.call].instance == instance)
    || (e.Finish? && e.job in s.jobs && s.jobs[e.job].Sending? && instance in s.jobs[e.job].failed)
  }

  /** A registration is lost by exactly the events that name its id. */
  lemma LosesRegistration(valid: string -> bool, s: State, e: Event, c: nat)
    requires Enabled(valid, s, e) && IsRegistered(s, c)
    ensures IsRegistered(Next(valid, s, e), c) <==> !Names(s, e, s.calls[c].instance)
  {}

  lemma NeverRegains(valid: string -> bool, s: State, e: Event, c: nat)
    requires Enabled(valid, s, e) && c in s.calls && !IsRegistered(s, c)
    ensures !IsRegistered(Next(valid, s, e), c)
  {}

  lemma KeepsInstance(valid: string -> bool, s: State, e: Event, c: nat)
    requires Enabled(valid, s, e) && c in s.calls
    ensures c in Next(valid, s, e).calls && Next(valid, s, e).calls[c].instance == s.calls[c].instance
  {}

  /** No event after the k-th named this id. */
  ghost predicate Unnamed(valid: string -> bool, raw: string, events: seq<Event>, k: nat, instance: string)
  {
    |events| <= k + 1 ||
      var n := |events| - 1;
      && Unnamed(valid, raw, events[..n], k, instance)
      && (Execute(valid, raw, events[..n]).Reached? ==>
            !Names(Execute(valid, raw, events[..n]).state, events[n], instance))
  }

  /**
   Over every run: a call is registered if and only if no Subscribe, cleanup or finished broadcast
   after its own Subscribe named its id.
   */
  lemma {:induction false} RegisteredIffUnnamed(valid: string -> bool, raw: string, events: seq<Event>, k: nat,
                                                c: nat, instance: string)
    requires Execute(valid, raw, events).Reached?
    requires k < |events| && events[k] == Subscribe(c, instance)
    ensures c in Execute(valid, raw, events).state.calls
    ensures Execute(valid, raw, events).state.calls[c].instance == instance
    ensures IsRegistered(Execute(valid, raw, events).state, c) <==> Unnamed(valid, raw, events, k, instance)
  {
    var n := |events| - 1;
    if k < n {
      RegisteredIffUnnamed(valid, raw, events[..n], k, c, instance);
      var s := Execute(valid, raw, events[..n]).state;
      KeepsInstance(valid, s, events[n], c);
      if IsRegistered(s, c) {
        LosesRegistration(valid, s, events[n], c);
      } else {
        NeverRegains(valid, s, events[n], c);
      }
    }
  }

  /** The server has no way left to reach this call. */
  ghost predicate Forgotten(s: State, c: nat)
  {
    && c in s.calls && !s.calls[c].phase.Registered? && !s.calls[c].phase.Holding?
    && c !in s.subscribers.Values
    && forall j | j in s.jobs && s.jobs[j].Sending? :: c !in s.jobs[j].pending
  }

  lemma ForgottenStep(valid: string -> bool, s: State, e: Event, c: nat)
    requires Enabled(valid, s, e) && Forgotten(s, c)
    ensures Forgotten(Next(valid, s, e), c)
    ensures Next(valid, s, e).calls[c].sent == s.calls[c].sent
  {
    var t := Next(valid, s, e);
    forall j | j in t.jobs && t.jobs[j].Sending? ensures c !in t.jobs[j].pending {
      if c in t.jobs[j].pending && !(e.Collect? && e.job == j) { StillPending(valid, s, e, j, c); }
    }
  }

  lemma {:induction false} ForgottenForever(valid: string -> bool, raw: string, events: seq<Event>, more: seq<Event>, c: nat)
    requires Execute(valid, raw, events).Reached? && Forgotten(Execute(valid, raw, events).state, c)
    requires Execute(valid, raw, events + more).Reached?
    ensures Forgotten(Execute(valid, raw, events + more).state, c)
    ensures Execute(valid, raw, events + more).state.calls[c].sent == Execute(valid, raw, events).state.calls[c].sent
  {
    if more == [] {
      assert events + more == events;
    } else {
      var n := |more| - 1;
      assert (events + more)[..|events| + n] == events + more[..n];
      ForgottenForever(valid, raw, events, more[..n], c);
      ForgottenStep(valid, Execute(valid, raw, events + more[..n]).state, more[n], c);
    }
  }

  /**
   Registration is exactly what keeps a stream informed: an open stream that is not registered when
   nothing is in flight is never sent any later version, however the run goes on.
   */
  lemma UnregisteredNeverHears(valid: string -> bool, raw: string, events: seq<Event>, more: seq<Event>,
                               s: State, t: State, c: nat)
    requires Execute(valid, raw, events) == Reached(s) && Quiescent(s)
    requires CallIs(s, c, Streaming) && !IsRegistered(s, c)
    requires Execute(valid, raw, events + more) == Reached(t) && t.version > s.version
    ensures c in t.calls && Current(t) !in t.calls[c].sent
  {
    RunInvariant(valid, raw, events);
    assert Forgotten(s, c);
    ForgottenForever(valid, raw, events, more, c);
    if Current(t) in s.calls[c].sent { SentIsAuthentic(valid, raw, events, s, c, Current(t)); }
  }

  // ---- Stepping through concrete runs ----

  lemma Extend(valid: string -> bool, raw: string, events: seq<Event>, s: State, e: Event) returns (t: State)
    requires Execute(valid, raw, events) == Reached(s) && Enabled(valid, s, e)
    ensures t == Next(valid, s, e)
    ensures Execute(valid, raw, events + [e]) == Reached(t)
  {
    assert (events + [e])[..|events|] == events;
    t := Next(valid, s, e);
  }

  /** A Subscribe call that runs undisturbed until it blocks on its stream. */
  lemma Connect(valid: string -> bool, raw: string, events: seq<Event>, s: State, c: nat, id: string)
    returns (run: seq<Event>, t: State)
    requires Execute(valid, raw, events) == Reached(s) && !s.crashed && c !in s.calls
    ensures Execute(valid, raw, run) == Reached(t)
    ensures t == s.(subscribers := s.subscribers[id := c],
                    calls := s.calls[c := Call(id, Streaming, false, {Current(s)})])
  {
    run, t := events, s;
    t := Extend(valid, raw, run, t, Subscribe(c, id)); run := run + [Subscribe(c, id)];
    t := Extend(valid, raw, run, t, ReadInitial(c)); run := run + [ReadInitial(c)];
    t := Extend(valid, raw, run, t, SendInitialOk(c)); run := run + [SendInitialOk(c)];
    assert t.calls[c].sent == {Current(s)};
    assert t.calls == s.calls[c := Call(id, Streaming, false, {Current(s)})];
  }

  /** A reload while nobody is registered. */
  lemma QuietReload(valid: string -> bool, raw: string, events: seq<Event>, s: State, newer: string)
    returns (run: seq<Event>, t: State)
    requires Execute(valid, raw, events) == Reached(s) && !s.crashed && s.subscribers == map[] && s.jobs == map[]
    requires valid(newer)
    ensures Execute(valid, raw, run) == Reached(t)
    ensures t == s.(version := s.version + 1, rawYAML := newer, written := s.written + [newer])
  {
    run, t := events, s;
    t := Extend(valid, raw, run, t, ReadFile(7, newer)); run := run + [ReadFile(7, newer)];
    t := Extend(valid, raw, run, t, WriteVersion(7)); run := run + [WriteVersion(7)];
    t := Extend(valid, raw, run, t, ReadCurrent(7)); run := run + [ReadCurrent(7)];
    t := Extend(valid, raw, run, t, Collect(7)); run := run + [Collect(7)];
  }

  /**
   Fresh ids are needed: a data plane that reconnects before its old stream is cleaned up loses its
   registration to that cleanup, and the next version never reaches it.
   */
  lemma ReconnectUnderLiveId(valid: string -> bool, raw: string, id: string, newer: string)
    returns (events: seq<Event>, s: State)
    requires valid(raw) && valid(newer)
    ensures Execute(valid, raw, events) == Reached(s) && Quiescent(s) && !s.crashed
    ensures CallIs(s, 1, Streaming) && !s.calls[1].doneClosed
    ensures !IsRegistered(s, 1) && Current(s) !in s.calls[1].sent
  {
    events, s := Connect(valid, raw, [], Start(raw), 0, id);
    events, s := Connect(valid, raw, events, s, 1, id);
    s := Extend(valid, raw, events, s, Disconnect(0)); events := events + [Disconnect(0)];
    s := Extend(valid, raw, events, s, Cleanup(0)); events := events + [Cleanup(0)];
    events, s := QuietReload(valid, raw, events, s, newer);
  }

  // ---- The panic ----

  /** Broadcasts do not overlap: subscribers are collected only while no other job is sending. */
  ghost predicate Serial(s: State, e: Event)
  {
    e.Collect? ==> forall j | j in s.jobs && j != e.job :: !s.jobs[j].Sending?
  }

  ghost predicate SerialRun(valid: string -> bool, raw: string, events: seq<Event>)
  {
    forall k | 0 <= k < |events| ::
      Execute(valid, raw, events[..k]).Reached? ==> Serial(Execute(valid, raw, events[..k]).state, events[k])
  }

  ghost predicate SerialInv(s: State)
  {
    && !s.crashed && RegistrationInv(s)
    && (forall j, k | j in s.jobs && k in s.jobs && s.jobs[j].Sending? && s.jobs[k].Sending? :: j == k)
    && (forall j, c | j in s.jobs && s.jobs[j].Sending? && c in s.jobs[j].pending && c in s.calls ::
          !s.calls[c].doneClosed)
    && (forall i | i in s.subscribers && s.calls[s.subscribers[i]].doneClosed ::
          exists j | j in s.jobs :: s.jobs[j].Sending? && i in s.jobs[j].failed)
  }

  lemma SerialStep(valid: string -> bool, s: State, e: Event)
    requires SerialInv(s) && Enabled(valid, s, e) && Serial(s, e)
    ensures SerialInv(Next(valid, s, e))
  {
    RegistrationStep(valid, s, e);
    var t := Next(valid, s, e);
    forall j, k | j in t.jobs && k in t.jobs && t.jobs[j].Sending? && t.jobs[k].Sending? ensures j == k {
      OneSender(valid, s, e, j, k);
    }
    forall j, c | j in t.jobs && t.jobs[j].Sending? && c in t.jobs[j].pending && c in t.calls
      ensures !t.calls[c].doneClosed
    {
      PendingStaysOpen(valid, s, e, j, c);
    }
    forall i | i in t.subscribers && t.calls[t.subscribers[i]].doneClosed
      ensures exists j | j in t.jobs :: t.jobs[j].Sending? && i in t.jobs[j].failed
    {
      ClosedIsListed(valid, s, e, i);
    }
  }

  lemma OneSender(valid: string -> bool, s: State, e: Event, j: nat, k: nat)
    requires SerialInv(s) && Enabled(valid, s, e) && Serial(s, e)
    requires j in Next(valid, s, e).jobs && Next(valid, s, e).jobs[j].Sending?
    requires k in Next(valid, s, e).jobs && Next(valid, s, e).jobs[k].Sending?
    ensures j == k
  {}

  lemma PendingStaysOpen(valid: string -> bool, s: State, e: Event, j: nat, c: nat)
    requires SerialInv(s) && Enabled(valid, s, e) && Serial(s, e)
    requires j in Next(valid, s, e).jobs && Next(valid, s, e).jobs[j].Sending?
    requires c in Next(valid, s, e).jobs[j].pending && c in Next(valid, s, e).calls
    ensures !Next(valid, s, e).calls[c].doneClosed
  {
    if e.Collect? && e.job == j {
      CollectedAreLive(s, c);
    } else {
      StillPending(valid, s, e, j, c);
    }
  }

  lemma ClosedIsListed(valid: string -> bool, s: State, e: Event, i: string)
    requires SerialInv(s) && Enabled(valid, s, e) && RegistrationInv(Next(valid, s, e))
    requires i in Next(valid, s, e).subscribers && Next(valid, s, e).calls[Next(valid, s, e).subscribers[i]].doneClosed
    ensures exists j | j in Next(valid, s, e).jobs ::
              Next(valid, s, e).jobs[j].Sending? && i in Next(valid, s, e).jobs[j].failed
  {
    var t := Next(valid, s, e);
    if i in s.subscribers && s.subscribers[i] == t.subscribers[i] && s.calls[s.subscribers[i]].doneClosed {
      var j :| j in s.jobs && s.jobs[j].Sending? && i in s.jobs[j].failed;
      assert j in t.jobs && t.jobs[j].Sending? && i in t.jobs[j].failed;
    } else {
      assert e.SendFail?;
      assert t.jobs[e.job].Sending? && i in t.jobs[e.job].failed;
    }
  }

  /** As long as broadcasts do not overlap, a failed send closes each channel once and nothing panics. */
  lemma {:induction false} SerialBroadcastsNeverPanic(valid: string -> bool, raw: string, events: seq<Event>)
    requires Execute(valid, raw, events).Reached? && SerialRun(valid, raw, events)
    ensures SerialInv(Execute(valid, raw, events).state)
    ensures !Execute(valid, raw, events).state.crashed
  {
    if events != [] {
      var n := |events| - 1;
      forall k | 0 <= k < n
        ensures Execute(valid, raw, events[..n][..k]).Reached? ==>
                  Serial(Execute(valid, raw, events[..n][..k]).state, events[..n][k])
      {
        assert events[..n][..k] == events[..k];
      }
      SerialBroadcastsNeverPanic(valid, raw, events[..n]);
      SerialStep(valid, Execute(valid, raw, events[..n]).state, events[n]);
    }
  }

  /** Some send to this call has failed. */
  predicate FailedOn(events: seq<Event>, c: nat)
  {
    exists k | 0 <= k < |events| :: events[k].SendFail? && events[k].call == c
  }

  predicate FailedTwice(events: seq<Event>)
  {
    exists k | 0 <= k < |events| :: events[k].SendFail? && FailedOn(events[..k], events[k].call)
  }

  lemma FailedOnAppend(events: seq<Event>, e: Event, c: nat)
    ensures FailedOn(events + [e], c) <==> FailedOn(events, c) || (e.SendFail? && e.call == c)
  {
    var all := events + [e];
    if FailedOn(events, c) {
      var k :| 0 <= k < |events| && events[k].SendFail? && events[k].call == c;
      assert all[k] == events[k];
    } else if e.SendFail? && e.call == c {
      assert all[|events|] == e;
    }
  }

  lemma FailedTwiceAppend(events: seq<Event>, e: Event)
    ensures FailedTwice(events + [e]) <==> FailedTwice(events) || (e.SendFail? && FailedOn(events, e.call))
  {
    var all := events + [e];
    assert all[..|events|] == events;
    assert forall k | 0 <= k < |events| :: all[..k] == events[..k] && all[k] == events[k];
    if FailedTwice(events) {
      var k :| 0 <= k < |events| && events[k].SendFail? && FailedOn(events[..k], events[k].call);
      assert all[k].SendFail? && FailedOn(all[..k], all[k].call);
    } else if e.SendFail? && FailedOn(events, e.call) {
      assert all[|events|].SendFail? && FailedOn(all[..|events|], all[|events|].call);
    }
  }

  ghost predicate IsClosed(s: State, c: nat)
  {
    c in s.calls && s.calls[c].doneClosed
  }

  lemma ClosedStep(valid: string -> bool, s: State, e: Event, c: nat)
    requires Enabled(valid, s, e)
    ensures IsClosed(Next(valid, s, e), c) <==> IsClosed(s, c) || (e.SendFail? && e.call == c)
  {}

  lemma {:induction false} ClosedIffFailed(valid: string -> bool, raw: string, events: seq<Event>, c: nat)
    requires Execute(valid, raw, events).Reached?
    ensures FailedOn(events, c) <==> IsClosed(Execute(valid, raw, events).state, c)
  {
    if events != [] {
      var n := |events| - 1;
      assert events[..n] + [events[n]] == events;
      ClosedIffFailed(valid, raw, events[..n], c);
      FailedOnAppend(events[..n], events[n], c);
      ClosedStep(valid, Execute(valid, raw, events[..n]).state, events[n], c);
    }
  }

  /** The process panics exactly when two sends to one call fail. */
  lemma {:induction false} PanicIffFailedTwice(valid: string -> bool, raw: string, events: seq<Event>)
    requires Execute(valid, raw, events).Reached?
    ensures Execute(valid, raw, events).state.crashed <==> FailedTwice(events)
  {
    if events != [] {
      var n := |events| - 1;
      assert events[..n] + [events[n]] == events;
      PanicIffFailedTwice(valid, raw, events[..n]);
      FailedTwiceAppend(events[..n], events[n]);
      if events[n].SendFail? { ClosedIffFailed(valid, raw, events[..n], events[n].call); }
    }
  }

  ghost function SendingJobs(s: State): set<nat>
  {
    set j | j in s.jobs && s.jobs[j].Sending?
  }

  /** At no time do more than `width` broadcasts send at once: each starts while fewer than that are sending. */
  ghost predicate WidthRun(valid: string -> bool, raw: string, events: seq<Event>, width: nat)
  {
    events == [] ||
      var n := |events| - 1;
      && WidthRun(valid, raw, events[..n], width)
      && (events[n].Collect? && Execute(valid, raw, events[..n]).Reached? ==>
            |SendingJobs(Execute(valid, raw, events[..n]).state)| < width)
  }

  lemma NobodySends(s: State)
    requires |SendingJobs(s)| < 1
    ensures forall j | j in s.jobs :: !s.jobs[j].Sending?
  {
    forall j | j in s.jobs ensures !s.jobs[j].Sending? {
      assert SendingJobs(s) == {};
      assert j !in SendingJobs(s);
    }
  }

  lemma {:induction false} WidthOneIsSerial(valid: string -> bool, raw: string, events: seq<Event>, width: nat)
    requires WidthRun(valid, raw, events, width) && width <= 1
    ensures SerialRun(valid, raw, events)
  {
    if events != [] {
      var n := |events| - 1;
      WidthOneIsSerial(valid, raw, events[..n], width);
      forall k | 0 <= k < |events|
        ensures Execute(valid, raw, events[..k]).Reached? ==> Serial(Execute(valid, raw, events[..k]).state, events[k])
      {
        if k < n {
          assert events[..n][..k] == events[..k] && events[..n][k] == events[k];
        } else if events[n].Collect? && Execute(valid, raw, events[..n]).Reached? {
          NobodySends(Execute(valid, raw, events[..n]).state);
        }
      }
    }
  }

  /** One more event of a run of this width. */
  lemma ExtendWidth(valid: string -> bool, raw: string, events: seq<Event>, s: State, e: Event, width: nat)
    returns (longer: seq<Event>, t: State)
    requires Execute(valid, raw, events) == Reached(s) && WidthRun(valid, raw, events, width)
    requires Enabled(valid, s, e) && (e.Collect? ==> |SendingJobs(s)| < width)
    ensures t == Next(valid, s, e)
    ensures Execute(valid, raw, longer) == Reached(t) && WidthRun(valid, raw, longer, width)
  {
    longer := events + [e];
    assert longer[..|events|] == events;
    t := Next(valid, s, e);
  }

  /** Two reload jobs that have both taken the current snapshot, with one subscriber registered. */
  lemma TwoReady(valid: string -> bool, raw: string, id: string, width: nat) returns (events: seq<Event>, s: State)
    requires valid(raw)
    ensures Execute(valid, raw, events) == Reached(s) && WidthRun(valid, raw, events, width) && !s.crashed
    ensures s.subscribers == map[id := 0] && s.calls == map[0 := Call(id, Registered, false, {})]
    ensures s.jobs.Keys == {7, 8} && s.jobs[7].GotCurrent? && s.jobs[8].GotCurrent?
  {
    events, s := [], Start(raw);
    events, s := ExtendWidth(valid, raw, events, s, Subscribe(0, id), width);
    events, s := ExtendWidth(valid, raw, events, s, ReadFile(7, raw), width);
    events, s := ExtendWidth(valid, raw, events, s, ReadFile(8, raw), width);
    events, s := ExtendWidth(valid, raw, events, s, WriteVersion(7), width);
    events, s := ExtendWidth(valid, raw, events, s, WriteVersion(8), width);
    events, s := ExtendWidth(valid, raw, events, s, ReadCurrent(7), width);
    events, s := ExtendWidth(valid, raw, events, s, ReadCurrent(8), width);
  }

  /** Two overlapping broadcasts that both fail on one subscriber close its channel twice. */
  lemma OverlappingBroadcastsPanic(valid: string -> bool, raw: string, id: string, width: nat)
    returns (events: seq<Event>, s: State)
    requires valid(raw) && width >= 2
    ensures Execute(valid, raw, events) == Reached(s) && WidthRun(valid, raw, events, width) && s.crashed
  {
    events, s := TwoReady(valid, raw, id, width);
    assert id in s.subscribers.Keys;
    assert s.subscribers.Values == {0};
    assert SendingJobs(s) == {};
    events, s := ExtendWidth(valid, raw, events, s, Collect(7), width);
    assert SendingJobs(s) == {7};
    events, s := ExtendWidth(valid, raw, events, s, Collect(8), width);
    events, s := ExtendWidth(valid, raw, events, s, SendFail(7, 0), width);
    events, s := ExtendWidth(valid, raw, events, s, SendFail(8, 0), width);
  }

  ghost predicate NeverPanics(valid: string -> bool, raw: string, width: nat)
  {
    forall events | Execute(valid, raw, events).Reached? && WidthRun(valid, raw, events, width) ::
      !Execute(valid, raw, events).state.crashed
  }

  /** The control plane is free of panics exactly when at most one broadcast sends at a time. */
  lemma NeverPanicsIff(valid: string -> bool, raw: string, width: nat)
    requires valid(raw)
    ensures NeverPanics(valid, raw, width) <==> width <= 1
  {
    if width <= 1 {
      forall events | Execute(valid, raw, events).Reached? && WidthRun(valid, raw, events, width)
        ensures !Execute(valid, raw, events).state.crashed
      {
        WidthOneIsSerial(valid, raw, events, width);
        SerialBroadcastsNeverPanic(valid, raw, events);
      }
    } else {
      var events, s := OverlappingBroadcastsPanic(valid, raw, "", width);
      assert Execute(valid, raw, events).Reached? && WidthRun(valid, raw, events, width);
    }
  }

  // ---- The critical sections themselves ----

  /** `Loader`: the fields behind its lock. */
  class Loader {
    var version: nat
    var rawYAML: string

    /** The fields are those of the protocol's state. */
    predicate Reflects(s: State)
      reads this
    {
      version == s.version && rawYAML == s.rawYAML
    }

    constructor (raw: string)
      ensures Reflects(Start(raw))
    {
      version, rawYAML := 1, raw;
    }

    /** `Current`, under the read lock: the snapshot a job or a call takes in its next step. */
    method CurrentSnapshot(ghost s: State) returns (snap: Snapshot)
      requires Reflects(s)
      ensures snap == Current(s)
    {
      snap := Snapshot(version, rawYAML);
    }

    /**
     The first half of `reload`, before the lock: a text goes on to the second half exactly when the
     file could be read and is valid, which is when the protocol's `ReadFile` step is enabled.
     */
    method ReadConfig(readable: bool, raw: string, valid: string -> bool, ghost s: State, ghost job: nat) returns (ok: bool)
      requires !s.crashed && job !in s.jobs
      ensures ok <==> readable && Enabled(valid, s, ReadFile(job, raw))
    {
      ok := readable && valid(raw);
    }

    /** The second half, under the lock: the protocol's `WriteVersion` step, whatever happened since the read. */
    method WriteConfig(raw: string, ghost valid: string -> bool, ghost s: State, ghost job: nat)
      requires Reflects(s) && Enabled(valid, s, WriteVersion(job)) && s.jobs[job].raw == raw
      modifies this
      ensures Reflects(Next(valid, s, WriteVersion(job)))
    {
      rawYAML := raw;
      version := version + 1;
    }
  }

  function Elements(ids: seq<string>): set<string>
  {
    set i | i in ids
  }

  /** The server's `subscribers` map behind its lock. Each critical section is one step of the protocol. */
  class Registry {
    var subscribers: map<string, nat>

    predicate Reflects(s: State)
      reads this
    {
      subscribers == s.subscribers
    }

    constructor (ghost raw: string)
      ensures Reflects(Start(raw))
    {
      subscribers := map[];
    }

    method Register(instance: string, call: nat, ghost valid: string -> bool, ghost s: State)
      requires Reflects(s) && Enabled(valid, s, Subscribe(call, instance))
      modifies this
      ensures Reflects(Next(valid, s, Subscribe(call, instance)))
    {
      subscribers := subscribers[instance := call];
    }

    /** The deferred delete: it knows the id only, so whoever holds the id loses it. */
    method Unregister(instance: string, ghost call: nat, ghost valid: string -> bool, ghost s: State)
      requires Reflects(s) && Enabled(valid, s, Cleanup(call)) && s.calls[call].instance == instance
      modifies this
      ensures Reflects(Next(valid, s, Cleanup(call)))
      ensures forall c | c in s.calls && s.calls[c].instance == instance :: !IsRegistered(Next(valid, s, Cleanup(call)), c)
    {
      subscribers := subscribers - {instance};
    }

    /** The copy made under the read lock: what the broadcast still has to send to, each subscriber once per id. */
    method CollectAll(ghost valid: string -> bool, ghost s: State, ghost job: nat) returns (subs: seq<nat>)
      requires Reflects(s) && Enabled(valid, s, Collect(job))
      ensures |subs| == |subscribers|
      ensures subs == [] <==> job !in Next(valid, s, Collect(job)).jobs
      ensures subs != [] ==>
                Next(valid, s, Collect(job)).jobs[job] == Sending(s.jobs[job].snapshot, set c | c in subs, {})
    {
      subs := [];
      var rest := subscribers.Keys;
      while rest != {}
        invariant rest <= subscribers.Keys
        invariant forall c :: c in subs <==> exists i | i in subscribers && i !in rest :: subscribers[i] == c
        invariant |subs| + |rest| == |subscribers|
        decreases |rest|
      {
        var i :| i in rest;
        subs := subs + [subscribers[i]];
        rest := rest - {i};
      }
      assert (set c | c in subs) == subscribers.Values;
    }

    /** The deletion loop at the end of a broadcast. */
    method RemoveFailed(failed: seq<string>, ghost valid: string -> bool, ghost s: State, ghost job: nat)
      requires Reflects(s) && Enabled(valid, s, Finish(job)) && s.jobs[job].failed == Elements(failed)
      modifies this
      ensures Reflects(Next(valid, s, Finish(job)))
    {
      for k := 0 to |failed|
        invariant subscribers == old(subscribers) - Elements(failed[..k])
      {
        assert Elements(failed[..k + 1]) == Elements(failed[..k]) + {failed[k]};
        subscribers := subscribers - {failed[k]};
      }
      assert failed[..|failed|] == failed;
    }
  }
}

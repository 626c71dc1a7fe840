/**
 Endpoint health of crates/gateway-core/src/upstream.rs: three states, consecutive-outcome counters
 and a flapping cooldown. Probes of one endpoint are sequential. Times are milliseconds.
 */
module Health {

  datatype Health = Unhealthy | Healthy | Degraded

  const COOLDOWN: nat := 10_000
  const U32: nat := 0x1_0000_0000

  datatype Thresholds = Thresholds(healthy: nat, unhealthy: nat)

  datatype Probe = Probe(ok: bool, now: nat)

  /** Counters are 32-bit and wrap. */
  datatype State = State(health: Health, failures: nat, successes: nat, lastChange: nat)

  const INITIAL := State(Healthy, 0, 0, 0)

  /** `now.saturating_sub(last) < FLAP_COOLDOWN_MS`. */
  predicate InCooldown(last: nat, now: nat)
  {
    (if now >= last then now - last else 0) < COOLDOWN
  }

  function FailureTarget(th: Thresholds, current: Health, failures: nat): Health
  {
    if failures >= th.unhealthy then Unhealthy
    else if current == Healthy then Degraded
    else current
  }

  function SuccessTarget(th: Thresholds, current: Health, successes: nat): Health
  {
    if current == Unhealthy && successes >= 1 then Degraded
    else if successes >= th.healthy && current != Healthy then Healthy
    else current
  }

  function Target(th: Thresholds, s: State, p: Probe): Health
  {
    if p.ok then SuccessTarget(th, s.health, (s.successes + 1) % U32)
    else FailureTarget(th, s.health, (s.failures + 1) % U32)
  }

  function Step(th: Thresholds, s: State, p: Probe): State
  {
    var counted := if p.ok then s.(successes := (s.successes + 1) % U32, failures := 0)
                   else s.(failures := (s.failures + 1) % U32, successes := 0);
    var target := Target(th, s, p);
    if InCooldown(s.lastChange, p.now) || target == s.health then counted
    else counted.(health := target, lastChange := p.now)
  }

  function Run(th: Thresholds, probes: seq<Probe>): State
  {
    if probes == [] then INITIAL
    else Step(th, Run(th, probes[..|probes| - 1]), probes[|probes| - 1])
  }

  /** `EndpointState`: the health fields. */
  class EndpointHealth {
    var health: Health
    var consecutiveFailures: nat
    var consecutiveSuccesses: nat
    var lastStateChangeMs: nat

    function View(): State
      reads this
    {
      State(health, consecutiveFailures, consecutiveSuccesses, lastStateChangeMs)
    }

    constructor ()
      ensures View() == INITIAL
    {
      health, consecutiveFailures, consecutiveSuccesses, lastStateChangeMs := Healthy, 0, 0, 0;
    }

    method MarkFailure(th: Thresholds, now: nat) returns (result: Health)
      modifies this
      ensures View() == Step(th, old(View()), Probe(false, now))
      ensures result == health
    {
      consecutiveFailures := (consecutiveFailures + 1) % U32;
      consecutiveSuccesses := 0;
      var current := health;
      if InCooldown(lastStateChangeMs, now) { return current; }
      var newState := if consecutiveFailures >= th.unhealthy then Unhealthy
                      else if current == Healthy then Degraded
                      else current;
      if newState != current {
        health, lastStateChangeMs := newState, now;
      }
      result := newState;
    }

    method MarkSuccess(th: Thresholds, now: nat) returns (result: Health)
      modifies this
      ensures View() == Step(th, old(View()), Probe(true, now))
      ensures result == health
    {
      consecutiveSuccesses := (consecutiveSuccesses + 1) % U32;
      consecutiveFailures := 0;
      var current := health;
      if InCooldown(lastStateChangeMs, now) { return current; }
      var newState := if current == Unhealthy && consecutiveSuccesses >= 1 then Degraded
                      else if consecutiveSuccesses >= th.healthy && current != Healthy then Healthy
                      else current;
      if newState != current {
        health, lastStateChangeMs := newState, now;
      }
      result := newState;
    }
  }

  // ---- History: what the counters and the transitions mean ----

  /** Length of the run of outcomes `ok` at the end of the history. */
  function Trailing(probes: seq<Probe>, ok: bool): nat
  {
    if probes == [] || probes[|probes| - 1].ok != ok then 0
    else 1 + Trailing(probes[..|probes| - 1], ok)
  }

  /** Timestamps of all transitions, oldest first. */
  function Transitions(th: Thresholds, probes: seq<Probe>): seq<nat>
  {
    if probes == [] then []
    else
      var before, p := probes[..|probes| - 1], probes[|probes| - 1];
      var s := Run(th, before);
      Transitions(th, before) + if Step(th, s, p).health != s.health then [p.now] else []
  }

  /** The counters are the trailing runs, modulo 2^32. */
  lemma {:induction false} CountersAreTrailingRuns(th: Thresholds, probes: seq<Probe>)
    ensures Run(th, probes).failures == Trailing(probes, false) % U32
    ensures Run(th, probes).successes == Trailing(probes, true) % U32
  {
    if probes != [] {
      CountersAreTrailingRuns(th, probes[..|probes| - 1]);
      WrappedAtMost(Trailing(probes[..|probes| - 1], false) + 1);
      WrappedAtMost(Trailing(probes[..|probes| - 1], true) + 1);
    }
  }

  /** Every two timestamps are a cooldown apart for each step between them. */
  ghost predicate Spaced(ts: seq<nat>)
  {
    forall k, m | 0 <= k <= m < |ts| :: ts[m] >= ts[k] + (m - k) * COOLDOWN
  }

  lemma SpacedAppend(ts: seq<nat>, t: nat)
    requires Spaced(ts) && (ts != [] ==> t >= ts[|ts| - 1] + COOLDOWN)
    ensures Spaced(ts + [t])
  {
    var all := ts + [t];
    forall k, m | 0 <= k <= m < |all| ensures all[m] >= all[k] + (m - k) * COOLDOWN {
      if m == |ts| && k < m {
        assert ts[m - 1] >= ts[k] + (m - 1 - k) * COOLDOWN;
      }
    }
  }

  /** Transitions are at least a cooldown apart, and the first at least a cooldown after zero, whatever the clock does. */
  lemma {:induction false} TransitionsAreSpaced(th: Thresholds, probes: seq<Probe>)
    ensures Run(th, probes).lastChange
         == if Transitions(th, probes) == [] then 0 else Transitions(th, probes)[|Transitions(th, probes)| - 1]
    ensures Spaced([0] + Transitions(th, probes))
  {
    if probes != [] {
      var n := |probes| - 1;
      var ts, s := Transitions(th, probes[..n]), Run(th, probes[..n]);
      TransitionsAreSpaced(th, probes[..n]);
      if Step(th, s, probes[n]).health != s.health {
        SpacedAppend([0] + ts, probes[n].now);
        assert [0] + (ts + [probes[n].now]) == [0] + ts + [probes[n].now];
      } else {
        assert ts + [] == ts;
      }
    }
  }

  /**
   What each transition required of the outcomes before it. Healthy is entered from Degraded only,
   but for one corner: a healthy threshold of zero, met by a success counter that has just wrapped.
   */
  lemma TransitionCauses(th: Thresholds, probes: seq<Probe>, p: Probe)
    ensures var was := Run(th, probes).health; var is_ := Run(th, probes + [p]).health;
            was != is_ ==>
              && (is_ == Unhealthy ==> !p.ok && Trailing(probes + [p], false) >= th.unhealthy)
              && (is_ == Healthy ==> p.ok && Trailing(probes + [p], true) >= th.healthy)
              && (is_ == Healthy ==> was == Degraded
                                     || (th.healthy == 0 && Trailing(probes + [p], true) % U32 == 0))
              && (is_ == Degraded ==> (was == Healthy <==> !p.ok))
              && p.now >= Run(th, probes).lastChange + COOLDOWN
  {
    RunAppend(th, probes, p);
    TrailingAppend(th, probes, p);
    StepCauses(th, Run(th, probes), p);
    WrappedAtMost(Trailing(probes + [p], p.ok));
  }

  /** The counter after one more probe is the trailing run after it, modulo 2^32. */
  lemma TrailingAppend(th: Thresholds, probes: seq<Probe>, p: Probe)
    ensures Counter(Run(th, probes + [p]), p.ok) == Trailing(probes + [p], p.ok) % U32
  {
    CountersAreTrailingRuns(th, probes + [p]);
  }

  /** What a transition needs of the counters. */
  lemma StepCauses(th: Thresholds, s: State, p: Probe)
    ensures var t := Step(th, s, p);
            t.health != s.health ==>
              && (t.health == Unhealthy ==> !p.ok && t.failures >= th.unhealthy)
              && (t.health == Healthy ==> p.ok && t.successes >= th.healthy)
              && (t.health == Healthy ==> s.health == Degraded || (th.healthy == 0 && t.successes == 0))
              && (t.health == Degraded ==> (s.health == Healthy <==> !p.ok))
              && p.now >= s.lastChange + COOLDOWN
  {}

  /** The corner, exactly: when a success takes an endpoint from Unhealthy straight to Healthy. */
  lemma DirectRecovery(th: Thresholds, probes: seq<Probe>, p: Probe)
    requires Run(th, probes).health == Unhealthy
    ensures Run(th, probes + [p]).health == Healthy
            <==> && p.ok && p.now >= Run(th, probes).lastChange + COOLDOWN
                 && th.healthy == 0 && Trailing(probes + [p], true) % U32 == 0
  {
    assert (probes + [p])[..|probes|] == probes;
    CountersAreTrailingRuns(th, probes);
    WrappedAtMost(Trailing(probes, true) + 1);
  }

  /** `n` equal probes. */
  function Same(p: Probe, n: nat): seq<Probe>
  {
    if n == 0 then [] else Same(p, n - 1) + [p]
  }

  lemma RunAppend(th: Thresholds, probes: seq<Probe>, p: Probe)
    ensures Run(th, probes + [p]) == Step(th, Run(th, probes), p)
  {
    assert (probes + [p])[..|probes|] == probes;
  }

  function StepMany(th: Thresholds, s: State, p: Probe, n: nat): State
  {
    if n == 0 then s else Step(th, StepMany(th, s, p, n - 1), p)
  }

  lemma {:induction false} RunSame(th: Thresholds, probes: seq<Probe>, p: Probe, n: nat)
    ensures Run(th, probes + Same(p, n)) == StepMany(th, Run(th, probes), p, n)
  {
    if n == 0 {
      assert probes + Same(p, 0) == probes;
    } else {
      var before := probes + Same(p, n - 1);
      assert probes + Same(p, n) == before + [p];
      RunSame(th, probes, p, n - 1);
      RunAppend(th, before, p);
    }
  }

  /** Probes during the cooldown only count. */
  lemma {:induction false} OnlyCounts(th: Thresholds, s: State, p: Probe, n: nat)
    requires InCooldown(s.lastChange, p.now) && n >= 1
    ensures StepMany(th, s, p, n).health == s.health && StepMany(th, s, p, n).lastChange == s.lastChange
    ensures Counter(StepMany(th, s, p, n), p.ok) == (Counter(s, p.ok) + n) % U32
  {
    if n == 1 {
      assert StepMany(th, s, p, 0) == s;
      CoolStep(th, s, p);
    } else {
      OnlyCounts(th, s, p, n - 1);
      CoolStep(th, StepMany(th, s, p, n - 1), p);
      CountOn(Counter(s, p.ok), n);
    }
  }

  lemma CoolStep(th: Thresholds, s: State, p: Probe)
    requires InCooldown(s.lastChange, p.now)
    ensures Step(th, s, p).health == s.health && Step(th, s, p).lastChange == s.lastChange
    ensures Counter(Step(th, s, p), p.ok) == (Counter(s, p.ok) + 1) % U32
  {}

  lemma CountOn(c: nat, n: nat)
    requires n >= 1
    ensures ((c + (n - 1)) % U32 + 1) % U32 == (c + n) % U32
  {}

  /** The corner is reached: a run that ends in a step from Unhealthy straight to Healthy. */
  lemma DirectRecoveryHappens() returns (th: Thresholds, probes: seq<Probe>, p: Probe)
    ensures Run(th, probes).health == Unhealthy && Run(th, probes + [p]).health == Healthy
  {
    th := Thresholds(0, 1);
    var first := [Probe(false, 10_000)];
    RunAppend(th, [], Probe(false, 10_000));
    assert [] + [Probe(false, 10_000)] == first;
    assert Run(th, first) == State(Unhealthy, 1, 0, 10_000);
    probes := first + Same(Probe(true, 10_000), U32 - 1);
    RunSame(th, first, Probe(true, 10_000), U32 - 1);
    OnlyCounts(th, Run(th, first), Probe(true, 10_000), U32 - 1);
    p := Probe(true, 20_000);
    RunAppend(th, probes, p);
  }

  lemma WrappedAtMost(n: nat)
    ensures n % U32 <= n
    ensures n >= 1 ==> ((n - 1) % U32 + 1) % U32 == n % U32
  {}

  // ---- Convergence ----

  /** The state a run of equal outcomes drives an endpoint to. */
  function Goal(ok: bool): Health
  {
    if ok then Healthy else Unhealthy
  }

  /** Clock monotone over the whole history, outcomes all `ok` from `from` on, gaps at most `gap`. */
  ghost predicate SteadyRun(probes: seq<Probe>, from: nat, ok: bool, gap: nat)
  {
    && from < |probes|
    && (forall i, j | 0 <= i <= j < |probes| :: probes[i].now <= probes[j].now)
    && (forall i | from <= i < |probes| :: probes[i].ok == ok)
    && (forall i | from < i < |probes| :: probes[i].now <= probes[i - 1].now + gap)
  }

  /** Where an endpoint can be during the run: at the goal, halfway since a bounded time, or still cooling down. */
  ghost predicate OnTheWay(s: State, start: nat, now: nat, ok: bool, gap: nat)
  {
    || s.health == Goal(ok)
    || (s.health == Degraded && s.lastChange <= start + COOLDOWN + gap)
    || (s.lastChange <= start && now < s.lastChange + COOLDOWN)
  }

  lemma {:induction false} LastChangeIsPast(th: Thresholds, probes: seq<Probe>)
    requires forall i, j | 0 <= i <= j < |probes| :: probes[i].now <= probes[j].now
    ensures probes != [] ==> Run(th, probes).lastChange <= probes[|probes| - 1].now
    ensures probes == [] ==> Run(th, probes).lastChange == 0
  {
    if probes != [] { LastChangeIsPast(th, probes[..|probes| - 1]); }
  }

  /** The counter an outcome feeds. */
  function Counter(s: State, ok: bool): nat
  {
    if ok then s.successes else s.failures
  }

  /** One counted outcome, with the counter short of wrapping. */
  predicate Unwrapped(s: State, ok: bool)
  {
    Counter(s, ok) + 1 < U32
  }

  lemma FirstStep(th: Thresholds, s: State, p: Probe, gap: nat)
    requires s.lastChange <= p.now && (p.ok ==> Unwrapped(s, p.ok))
    ensures OnTheWay(Step(th, s, p), p.now, p.now, p.ok, gap)
  {}

  lemma NextStep(th: Thresholds, s: State, start: nat, before: nat, p: Probe, gap: nat)
    requires start <= before <= p.now <= before + gap && (p.ok ==> Unwrapped(s, p.ok))
    requires OnTheWay(s, start, before, p.ok, gap)
    ensures OnTheWay(Step(th, s, p), start, p.now, p.ok, gap)
  {}

  lemma TrailingUnwrapped(th: Thresholds, probes: seq<Probe>, ok: bool)
    requires probes != [] && probes[|probes| - 1].ok == ok
    requires Trailing(probes, ok) < U32
    ensures Counter(Run(th, probes[..|probes| - 1]), ok) + 1 == Trailing(probes, ok)
    ensures Trailing(probes[..|probes| - 1], ok) < Trailing(probes, ok)
  {
    CountersAreTrailingRuns(th, probes[..|probes| - 1]);
  }

  lemma {:induction false} StaysOnTheWay(th: Thresholds, probes: seq<Probe>, from: nat, ok: bool, gap: nat)
    requires SteadyRun(probes, from, ok, gap)
    requires ok ==> Trailing(probes, ok) < U32
    ensures OnTheWay(Run(th, probes), probes[from].now, probes[|probes| - 1].now, ok, gap)
    decreases |probes|
  {
    var n := |probes| - 1;
    var before, p := probes[..n], probes[n];
    if ok { TrailingUnwrapped(th, probes, ok); }
    LastChangeIsPast(th, before);
    if n == from {
      if n > 0 { assert probes[n - 1].now <= probes[n].now; }
      FirstStep(th, Run(th, before), p, gap);
    } else {
      ShorterSteadyRun(probes, from, ok, gap);
      StaysOnTheWay(th, before, from, ok, gap);
      assert probes[from].now <= probes[n - 1].now <= probes[n].now <= probes[n - 1].now + gap;
      NextStep(th, Run(th, before), probes[from].now, probes[n - 1].now, p, gap);
    }
  }

  function Threshold(th: Thresholds, ok: bool): nat
  {
    if ok then th.healthy else th.unhealthy
  }

  lemma LastStep(th: Thresholds, s: State, start: nat, before: nat, p: Probe, gap: nat)
    requires OnTheWay(s, start, before, p.ok, gap)
    requires start + 2 * COOLDOWN + gap <= p.now <= before + gap
    requires (Counter(s, p.ok) + 1) % U32 >= Threshold(th, p.ok)
    ensures Step(th, s, p).health == Goal(p.ok)
  {}

  /**
   Convergence: from any history, a run of equal outcomes has reached its goal at every probe that is
   two cooldowns and one probe gap into the run and at which the counter, which is the length of the
   run modulo 2^32, is at or past the threshold; for successes, short of the first wrap.
   */
  lemma Converges(th: Thresholds, probes: seq<Probe>, from: nat, ok: bool, gap: nat)
    requires SteadyRun(probes, from, ok, gap)
    requires Threshold(th, ok) <= Trailing(probes, ok) % U32 && (ok ==> Trailing(probes, ok) < U32)
    requires probes[|probes| - 1].now >= probes[from].now + 2 * COOLDOWN + gap
    ensures Run(th, probes).health == Goal(ok)
  {
    var n := |probes| - 1;
    WayBeforeLast(th, probes, from, ok, gap);
    NextCount(th, probes, ok);
    LastOf(th, probes, probes[from].now, gap);
  }

  lemma LastOf(th: Thresholds, probes: seq<Probe>, start: nat, gap: nat)
    requires |probes| >= 2
    requires var n := |probes| - 1; var p := probes[n]; var s := Run(th, probes[..n]);
             && OnTheWay(s, start, probes[n - 1].now, p.ok, gap)
             && start + 2 * COOLDOWN + gap <= p.now <= probes[n - 1].now + gap
             && (Counter(s, p.ok) + 1) % U32 >= Threshold(th, p.ok)
    ensures Run(th, probes).health == Goal(probes[|probes| - 1].ok)
  {
    var n := |probes| - 1;
    var s := Run(th, probes[..n]);
    assert Run(th, probes) == Step(th, s, probes[n]);
    LastStep(th, s, start, probes[n - 1].now, probes[n], gap);
  }

  lemma WayBeforeLast(th: Thresholds, probes: seq<Probe>, from: nat, ok: bool, gap: nat)
    requires SteadyRun(probes, from, ok, gap) && (ok ==> Trailing(probes, ok) < U32)
    requires probes[|probes| - 1].now > probes[from].now
    ensures var n := |probes| - 1;
            && n > from && probes[n].ok == ok && probes[n].now <= probes[n - 1].now + gap
            && OnTheWay(Run(th, probes[..n]), probes[from].now, probes[n - 1].now, ok, gap)
  {
    if ok { TrailingUnwrapped(th, probes, ok); }
    ShorterSteadyRun(probes, from, ok, gap);
    StaysOnTheWay(th, probes[..|probes| - 1], from, ok, gap);
  }

  lemma ShorterSteadyRun(probes: seq<Probe>, from: nat, ok: bool, gap: nat)
    requires SteadyRun(probes, from, ok, gap) && from < |probes| - 1
    ensures SteadyRun(probes[..|probes| - 1], from, ok, gap)
    ensures probes[|probes| - 1].now <= probes[|probes| - 2].now + gap
  {}

  /**
   Where an endpoint can be in a run of any length. When the success counter wraps to zero, an
   Unhealthy endpoint misses that one step up.
   */
  ghost predicate OnTheLongWay(s: State, start: nat, now: nat, ok: bool, gap: nat)
  {
    || s.health == Goal(ok)
    || (s.health == Degraded && s.lastChange <= start + COOLDOWN + 2 * gap)
    || (s.lastChange <= start && now < s.lastChange + COOLDOWN)
    || (ok && s.successes == 0 && s.lastChange <= start && now <= start + COOLDOWN + gap)
  }

  lemma LongFirstStep(th: Thresholds, s: State, p: Probe, gap: nat)
    requires s.lastChange <= p.now
    ensures OnTheLongWay(Step(th, s, p), p.now, p.now, p.ok, gap)
  {}

  lemma LongNextStep(th: Thresholds, s: State, start: nat, before: nat, p: Probe, gap: nat)
    requires start <= before <= p.now <= before + gap
    requires OnTheLongWay(s, start, before, p.ok, gap)
    ensures OnTheLongWay(Step(th, s, p), start, p.now, p.ok, gap)
  {}

  lemma {:induction false} StaysOnTheLongWay(th: Thresholds, probes: seq<Probe>, from: nat, ok: bool, gap: nat)
    requires SteadyRun(probes, from, ok, gap)
    ensures OnTheLongWay(Run(th, probes), probes[from].now, probes[|probes| - 1].now, ok, gap)
    decreases |probes|
  {
    var n := |probes| - 1;
    LastChangeIsPast(th, probes[..n]);
    if n == from {
      if n > 0 { assert probes[n - 1].now <= probes[n].now; }
      LongFirstStep(th, Run(th, probes[..n]), probes[n], gap);
    } else {
      ShorterSteadyRun(probes, from, ok, gap);
      StaysOnTheLongWay(th, probes[..n], from, ok, gap);
      assert probes[from].now <= probes[n - 1].now <= probes[n].now;
      LongNextStep(th, Run(th, probes[..n]), probes[from].now, probes[n - 1].now, probes[n], gap);
    }
  }

  lemma LongLastStep(th: Thresholds, s: State, start: nat, before: nat, p: Probe, gap: nat)
    requires OnTheLongWay(s, start, before, p.ok, gap)
    requires start + 2 * COOLDOWN + 2 * gap <= p.now <= before + gap
    requires (Counter(s, p.ok) + 1) % U32 >= Threshold(th, p.ok)
    ensures Step(th, s, p).health == Goal(p.ok)
  {}

  lemma NextCount(th: Thresholds, probes: seq<Probe>, ok: bool)
    requires probes != [] && probes[|probes| - 1].ok == ok
    ensures (Counter(Run(th, probes[..|probes| - 1]), ok) + 1) % U32 == Trailing(probes, ok) % U32
  {
    CountersAreTrailingRuns(th, probes[..|probes| - 1]);
    WrappedAtMost(Trailing(probes, ok));
  }

  /**
   Convergence of successes too without a bound on the run: however often the counter has wrapped, one
   gap more is enough.
   */
  lemma ConvergesPastWrap(th: Thresholds, probes: seq<Probe>, from: nat, ok: bool, gap: nat)
    requires SteadyRun(probes, from, ok, gap)
    requires Threshold(th, ok) <= Trailing(probes, ok) % U32
    requires probes[|probes| - 1].now >= probes[from].now + 2 * COOLDOWN + 2 * gap
    ensures Run(th, probes).health == Goal(ok)
  {
    var n := |probes| - 1;
    LongWayBeforeLast(th, probes, from, ok, gap);
    NextCount(th, probes, ok);
    LongLastOf(th, probes, probes[from].now, gap);
  }

  lemma LongLastOf(th: Thresholds, probes: seq<Probe>, start: nat, gap: nat)
    requires |probes| >= 2
    requires var n := |probes| - 1; var p := probes[n]; var s := Run(th, probes[..n]);
             && OnTheLongWay(s, start, probes[n - 1].now, p.ok, gap)
             && start + 2 * COOLDOWN + 2 * gap <= p.now <= probes[n - 1].now + gap
             && (Counter(s, p.ok) + 1) % U32 >= Threshold(th, p.ok)
    ensures Run(th, probes).health == Goal(probes[|probes| - 1].ok)
  {
    var n := |probes| - 1;
    var s := Run(th, probes[..n]);
    assert Run(th, probes) == Step(th, s, probes[n]);
    LongLastStep(th, s, start, probes[n - 1].now, probes[n], gap);
  }

  lemma LongWayBeforeLast(th: Thresholds, probes: seq<Probe>, from: nat, ok: bool, gap: nat)
    requires SteadyRun(probes, from, ok, gap)
    requires probes[|probes| - 1].now > probes[from].now
    ensures var n := |probes| - 1;
            && n > from && probes[n].ok == ok && probes[n].now <= probes[n - 1].now + gap
            && OnTheLongWay(Run(th, probes[..n]), probes[from].now, probes[n - 1].now, ok, gap)
  {
    ShorterSteadyRun(probes, from, ok, gap);
    StaysOnTheLongWay(th, probes[..|probes| - 1], from, ok, gap);
  }

  lemma {:induction false} SameProbes(p: Probe, n: nat)
    ensures |Same(p, n)| == n && forall i | 0 <= i < n :: Same(p, n)[i] == p
  {
    if n > 0 { SameProbes(p, n - 1); }
  }

  lemma {:induction false} TrailingAll(probes: seq<Probe>, ok: bool)
    requires forall i | 0 <= i < |probes| :: probes[i].ok == ok
    ensures Trailing(probes, ok) == |probes|
  {
    if probes != [] { TrailingAll(probes[..|probes| - 1], ok); }
  }

  // ---- Exactly which lengths of failing runs converge ----

  /** Every run of this many failures that is two cooldowns and a gap long has reached Unhealthy. */
  ghost predicate FailuresConverge(th: Thresholds, len: nat)
  {
    forall probes, from, gap | SteadyRun(probes, from, false, gap) && LongEnough(probes, from, gap) ::
      Trailing(probes, false) == len ==> Run(th, probes).health == Unhealthy
  }

  predicate LongEnough(probes: seq<Probe>, from: nat, gap: nat)
  {
    from < |probes| && probes[|probes| - 1].now >= probes[from].now + 2 * COOLDOWN + gap
  }

  lemma {:induction false} TrailingCovers(probes: seq<Probe>, from: nat, ok: bool)
    requires from <= |probes| && forall i | from <= i < |probes| :: probes[i].ok == ok
    ensures Trailing(probes, ok) >= |probes| - from
  {
    if from < |probes| { TrailingCovers(probes[..|probes| - 1], from, ok); }
  }

  /** Two probes are a gap apart at most. */
  lemma NeedsThree(probes: seq<Probe>, from: nat, gap: nat)
    requires SteadyRun(probes, from, false, gap) && LongEnough(probes, from, gap)
    ensures Trailing(probes, false) >= 3
  {
    TrailingCovers(probes, from, false);
  }

  /** With a threshold of two at most, the second failure of a run that finds the cooldown over is enough. */
  lemma {:induction false} EarlyWay(th: Thresholds, probes: seq<Probe>, from: nat, gap: nat)
    requires SteadyRun(probes, from, false, gap) && th.unhealthy <= 2 && Trailing(probes, false) < U32
    ensures Run(th, probes).health == Unhealthy || Run(th, probes).lastChange <= probes[from].now
    decreases |probes|
  {
    var n := |probes| - 1;
    var s := Run(th, probes[..n]);
    assert Run(th, probes) == Step(th, s, probes[n]);
    TrailingUnwrapped(th, probes, false);
    if n == from {
      LastChangeIsPast(th, probes[..n]);
      if n > 0 { assert probes[n - 1].now <= probes[n].now; }
    } else {
      TrailingCovers(probes, from, false);
      ShorterSteadyRun(probes, from, false, gap);
      EarlyWay(th, probes[..n], from, gap);
      EarlyKeeps(th, s, probes[from].now, probes[n]);
    }
  }

  lemma EarlyKeeps(th: Thresholds, s: State, start: nat, p: Probe)
    requires s.health == Unhealthy || s.lastChange <= start
    requires !p.ok && th.unhealthy <= s.failures + 1 < U32
    ensures Step(th, s, p).health == Unhealthy || Step(th, s, p).lastChange <= start
  {}

  lemma EarlyStep(th: Thresholds, s: State, start: nat, p: Probe)
    requires s.health == Unhealthy || s.lastChange <= start
    requires !p.ok && p.now >= start + COOLDOWN && th.unhealthy <= s.failures + 1 < U32
    ensures Step(th, s, p).health == Unhealthy
  {}

  lemma EarlyBefore(th: Thresholds, probes: seq<Probe>, from: nat, gap: nat)
    requires SteadyRun(probes, from, false, gap) && th.unhealthy <= 2 && Trailing(probes, false) < U32
    requires from < |probes| - 1
    ensures var s := Run(th, probes[..|probes| - 1]); s.health == Unhealthy || s.lastChange <= probes[from].now
  {
    TrailingUnwrapped(th, probes, false);
    ShorterSteadyRun(probes, from, false, gap);
    EarlyWay(th, probes[..|probes| - 1], from, gap);
  }

  lemma CountBefore(th: Thresholds, probes: seq<Probe>, from: nat)
    requires from < |probes| - 1 && Trailing(probes, false) < U32
    requires forall i | from <= i < |probes| :: !probes[i].ok
    ensures 2 <= Run(th, probes[..|probes| - 1]).failures + 1 < U32
  {
    TrailingUnwrapped(th, probes, false);
    TrailingCovers(probes, from, false);
  }

  lemma EarlyGoal(th: Thresholds, probes: seq<Probe>, from: nat, gap: nat)
    requires SteadyRun(probes, from, false, gap) && th.unhealthy <= 2 && Trailing(probes, false) < U32
    requires from < |probes| - 1 && probes[|probes| - 1].now >= probes[from].now + COOLDOWN
    ensures Run(th, probes).health == Unhealthy
  {
    var n := |probes| - 1;
    EarlyBefore(th, probes, from, gap);
    CountBefore(th, probes, from);
    EarlyStep(th, Run(th, probes[..n]), probes[from].now, probes[n]);
  }

  /** The one length at which the counter is zero and the goal reached all the same. */
  lemma ExactWrapConverges(th: Thresholds, probes: seq<Probe>, from: nat, gap: nat)
    requires SteadyRun(probes, from, false, gap) && LongEnough(probes, from, gap)
    requires th.unhealthy <= 2 && Trailing(probes, false) == U32
    ensures Run(th, probes).health == Unhealthy
  {
    var n := |probes| - 1;
    ShorterSteadyRun(probes, from, false, gap);
    assert probes[n - 1].now >= probes[from].now + 2 * COOLDOWN;
    EarlyGoal(th, probes[..n], from, gap);
  }

  /** `m - 1` failures at once, the m-th and all but the last twenty seconds later, the last again twenty seconds later. */
  function Delayed(m: nat, len: nat): seq<Probe>
    requires 2 <= m < len
  {
    Same(Probe(false, 0), m - 1) + Same(Probe(false, 20_000), len - m) + [Probe(false, 40_000)]
  }

  lemma DelayedIsSteady(m: nat, len: nat)
    requires 2 <= m < len
    ensures |Delayed(m, len)| == len && SteadyRun(Delayed(m, len), 0, false, 2 * COOLDOWN)
    ensures LongEnough(Delayed(m, len), 0, 2 * COOLDOWN) && Trailing(Delayed(m, len), false) == len
  {
    SameProbes(Probe(false, 0), m - 1);
    SameProbes(Probe(false, 20_000), len - m);
    TrailingAll(Delayed(m, len), false);
  }

  /** A step that steps down only, because the counter is short of the threshold. */
  lemma StepsDown(th: Thresholds, s: State, now: nat)
    requires s.health == Healthy && !InCooldown(s.lastChange, now) && (s.failures + 1) % U32 < th.unhealthy
    ensures Step(th, s, Probe(false, now)) == State(Degraded, (s.failures + 1) % U32, 0, now)
  {}

  lemma {:induction false} RunFromStart(th: Thresholds, p: Probe, n: nat)
    ensures Run(th, Same(p, n)) == StepMany(th, INITIAL, p, n)
  {
    if n > 0 {
      RunFromStart(th, p, n - 1);
      RunAppend(th, Same(p, n - 1), p);
    }
  }

  lemma FirstBatch(th: Thresholds, n: nat)
    requires n >= 1
    ensures var s := Run(th, Same(Probe(false, 0), n)); s.health == Healthy && s.lastChange == 0 && s.failures == n % U32
  {
    RunFromStart(th, Probe(false, 0), n);
    OnlyCounts(th, INITIAL, Probe(false, 0), n);
  }

  /** The second batch steps down at its first probe and then only counts. */
  lemma SecondBatch(th: Thresholds, s: State, n: nat, m: nat)
    requires s.health == Healthy && s.lastChange == 0 && s.failures == (m - 1) % U32 && m >= 1 && n >= 1
    requires m % U32 < th.unhealthy
    ensures var t := StepMany(th, s, Probe(false, 20_000), n);
            t.health == Degraded && t.lastChange == 20_000 && t.failures == (m + n - 1) % U32
  {
    var p := Probe(false, 20_000);
    CountOn(0, m);
    StepsDown(th, s, 20_000);
    var first := Step(th, s, p);
    StepManyFront(th, s, p, n - 1);
    if n > 1 {
      OnlyCounts(th, first, p, n - 1);
      CountBoth(m, n - 1);
    }
  }

  lemma CountBoth(a: nat, b: nat)
    ensures (a % U32 + b) % U32 == (a + b) % U32
  {}

  lemma {:induction false} StepManyFront(th: Thresholds, s: State, p: Probe, n: nat)
    ensures StepMany(th, s, p, n + 1) == StepMany(th, Step(th, s, p), p, n)
  {
    if n > 0 { StepManyFront(th, s, p, n - 1); }
  }

  lemma StaysDegraded(th: Thresholds, s: State, len: nat)
    requires s.health == Degraded && s.failures == (len - 1) % U32 && len >= 1 && len % U32 < th.unhealthy
    ensures Step(th, s, Probe(false, 40_000)).health == Degraded
  {
    CountOn(0, len);
  }

  lemma DelayedIsDegraded(th: Thresholds, m: nat, len: nat)
    requires 2 <= m < len && m % U32 < th.unhealthy && len % U32 < th.unhealthy
    ensures Run(th, Delayed(m, len)).health == Degraded
  {
    var a := Same(Probe(false, 0), m - 1);
    var b := a + Same(Probe(false, 20_000), len - m);
    assert Run(th, b).health == Degraded && Run(th, b).failures == (len - 1) % U32 by {
      FirstBatch(th, m - 1);
      RunSame(th, a, Probe(false, 20_000), len - m);
      SecondBatch(th, Run(th, a), len - m, m);
    }
    RunAppend(th, b, Probe(false, 40_000));
    StaysDegraded(th, Run(th, b), len);
  }

  lemma DelayedFails(th: Thresholds, m: nat, len: nat)
    requires 2 <= m < len && m % U32 < th.unhealthy && len % U32 < th.unhealthy
    ensures !FailuresConverge(th, len)
  {
    DelayedIsSteady(m, len);
    DelayedIsDegraded(th, m, len);
  }

  lemma Remainders(len: nat)
    requires len >= 1
    ensures len % U32 >= 1 ==> (len - 1) % U32 == len % U32 - 1
    ensures len % U32 == 0 ==> len >= U32 && (len - U32) % U32 == 0 && (len - U32 + 2) % U32 == 2
    ensures len % U32 == 0 && len != U32 ==> len - U32 >= 2
  {}

  /**
   Exactly which lengths converge: those whose remainder modulo 2^32 is at or past the threshold, those
   too short to last that long at all, and 2^32 itself under a threshold of at most two.
   */
  lemma FailuresConvergeIff(th: Thresholds, len: nat)
    requires th.unhealthy < U32
    ensures FailuresConverge(th, len)
            <==> len <= 2 || len % U32 >= th.unhealthy || (len == U32 && th.unhealthy <= 2)
  {
    if len <= 2 || len % U32 >= th.unhealthy || (len == U32 && th.unhealthy <= 2) {
      forall probes, from, gap | SteadyRun(probes, from, false, gap) && LongEnough(probes, from, gap)
        ensures Trailing(probes, false) == len ==> Run(th, probes).health == Unhealthy
      {
        NeedsThree(probes, from, gap);
        if Trailing(probes, false) == len {
          if len % U32 >= th.unhealthy { Converges(th, probes, from, false, gap); }
          else { ExactWrapConverges(th, probes, from, gap); }
        }
      }
    } else {
      Remainders(len);
      if len % U32 >= 1 { DelayedFails(th, len - 1, len); }
      else if th.unhealthy >= 3 { DelayedFails(th, len - U32 + 2, len); }
      else { DelayedFails(th, len - U32, len); }
    }
  }

  // ---- Successes lose a gap at the wrap ----

  /** One failure; successes up to the wrap in the same moment; the wrap; and then as many as the threshold asks for. */
  function Missed(h: nat): seq<Probe>
  {
    [Probe(false, 10_000)] + Same(Probe(true, 10_000), U32 - 1) + [Probe(true, 30_000)] + Same(Probe(true, 50_000), h)
  }

  lemma MissedIsSteady(h: nat)
    requires h >= 1
    ensures |Missed(h)| == U32 + h + 1
    ensures SteadyRun(Missed(h), 1, true, 2 * COOLDOWN) && LongEnough(Missed(h), 1, 2 * COOLDOWN)
  {
    SameProbes(Probe(true, 10_000), U32 - 1);
    SameProbes(Probe(true, 50_000), h);
  }

  lemma {:induction false} TrailingTail(probes: seq<Probe>, from: nat)
    requires from < |probes| && !probes[from].ok && forall i | from < i < |probes| :: probes[i].ok
    ensures Trailing(probes, true) == |probes| - 1 - from
  {
    if from < |probes| - 1 { TrailingTail(probes[..|probes| - 1], from); }
  }

  lemma MissedUpToWrap(th: Thresholds)
    requires th.unhealthy <= 1 && th.healthy >= 1
    ensures var wrap := [Probe(false, 10_000)] + Same(Probe(true, 10_000), U32 - 1) + [Probe(true, 30_000)];
            Run(th, wrap) == State(Unhealthy, 0, 0, 10_000)
  {
    var first := [Probe(false, 10_000)];
    RunAppend(th, [], Probe(false, 10_000));
    assert [] + [Probe(false, 10_000)] == first;
    assert Run(th, first) == State(Unhealthy, 1, 0, 10_000);
    var many := first + Same(Probe(true, 10_000), U32 - 1);
    RunSame(th, first, Probe(true, 10_000), U32 - 1);
    OnlyCounts(th, Run(th, first), Probe(true, 10_000), U32 - 1);
    RunAppend(th, many, Probe(true, 30_000));
  }

  lemma MissedIsDegraded(th: Thresholds)
    requires th.unhealthy <= 1 && 1 <= th.healthy < U32
    ensures Run(th, Missed(th.healthy)).health == Degraded
  {
    var wrap := [Probe(false, 10_000)] + Same(Probe(true, 10_000), U32 - 1) + [Probe(true, 30_000)];
    var p := Probe(true, 50_000);
    MissedUpToWrap(th);
    RunSame(th, wrap, p, th.healthy);
    var first := Step(th, Run(th, wrap), p);
    assert first == State(Degraded, 0, 1, 50_000);
    StepManyFront(th, Run(th, wrap), p, th.healthy - 1);
    if th.healthy > 1 { OnlyCounts(th, first, p, th.healthy - 1); }
  }

  /** The second gap is needed: past a wrap, a run of successes can be at the threshold one gap in and not Healthy. */
  lemma SecondGapIsNeeded(th: Thresholds)
    requires th.unhealthy <= 1 && 1 <= th.healthy < U32
    ensures SteadyRun(Missed(th.healthy), 1, true, 2 * COOLDOWN) && LongEnough(Missed(th.healthy), 1, 2 * COOLDOWN)
    ensures Trailing(Missed(th.healthy), true) % U32 == th.healthy
    ensures Run(th, Missed(th.healthy)).health != Healthy
  {
    MissedIsSteady(th.healthy);
    MissedIsDegraded(th);
    MissedCount(th.healthy);
  }

  lemma MissedCount(h: nat)
    requires 1 <= h < U32
    ensures Trailing(Missed(h), true) % U32 == h
  {
    MissedIsSteady(h);
    TrailingTail(Missed(h), 0);
    assert Trailing(Missed(h), true) == U32 + h;
  }

  /** Once at its goal, an endpoint stays there for as long as the outcomes do, with any clock. */
  lemma {:induction false} GoalIsStable(th: Thresholds, probes: seq<Probe>, more: seq<Probe>, ok: bool)
    requires Run(th, probes).health == Goal(ok)
    requires forall i | 0 <= i < |more| :: more[i].ok == ok
    ensures Run(th, probes + more).health == Goal(ok)
  {
    if more == [] {
      assert probes + more == probes;
    } else {
      var n := |more| - 1;
      GoalIsStable(th, probes, more[..n], ok);
      assert (probes + more)[..|probes + more| - 1] == probes + more[..n];
    }
  }
}

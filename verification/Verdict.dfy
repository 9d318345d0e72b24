/** The verdict on a run's numbers: whether they measure what its scenario describes. */
module Verdict {
  import opened Flights
  import opened Runner
  import opened Wrappers

  /** How many events of the kinds that tell a decayed run from a good one. */
  datatype Quality = Quality(verificationFailures: nat, selectorFallbacks: nat, staleSelectors: nat, verified: bool)

  function Count(events: seq<Event>, kind: Event -> bool): nat {
    if events == [] then 0
    else Count(events[..|events| - 1], kind) + if kind(events[|events| - 1]) then 1 else 0
  }

  function RunQuality(events: seq<Event>): Quality {
    var failures := Count(events, (e: Event) => e.VerificationFailed?);
    var stale := Count(events, (e: Event) => e.SelectorStale?);
    Quality(failures, Count(events, (e: Event) => e.SelectorFallback?), stale, failures == 0 && stale == 0)
  }

  lemma {:induction false} CountIsZero(events: seq<Event>, kind: Event -> bool)
    ensures Count(events, kind) == 0 <==> forall i :: 0 <= i < |events| ==> !kind(events[i])
  {
    if events != [] {
      CountIsZero(events[..|events| - 1], kind);
    }
  }

  lemma {:induction false} CountConcat(a: seq<Event>, b: seq<Event>, kind: Event -> bool)
    ensures Count(a + b, kind) == Count(a, kind) + Count(b, kind)
  {
    if b == [] {
      assert a + b == a;
    } else {
      CountConcat(a, b[..|b| - 1], kind);
      assert (a + b)[..|a + b| - 1] == a + b[..|b| - 1];
    }
  }

  /** Each event more counts for one of its own kind. */
  lemma QualityCounts(events: seq<Event>, e: Event)
    ensures var before, after := RunQuality(events), RunQuality(events + [e]);
            && after.verificationFailures == before.verificationFailures + (if e.VerificationFailed? then 1 else 0)
            && after.selectorFallbacks == before.selectorFallbacks + (if e.SelectorFallback? then 1 else 0)
            && after.staleSelectors == before.staleSelectors + (if e.SelectorStale? then 1 else 0)
    ensures RunQuality([]) == Quality(0, 0, 0, true)
  {
    assert (events + [e])[..|events|] == events;
  }

  /** The step could not be carried out, or was carried out by a coordinate that was not meant to be used. */
  predicate Damning(coordinateOnly: bool, result: StepResult) {
    || result.RaisedVerification?
    || (result.Returned? && result.lookup.Some? && result.lookup.value.byCoordinates && !coordinateOnly)
  }

  /** What one finished step leaves on a run's record clears its verdict exactly when its result is damning. */
  lemma VerifiedIff(step: nat, coordinateOnly: bool, result: StepResult)
    ensures RunQuality(OutcomeEvents(step, coordinateOnly, result)).verified <==> !Damning(coordinateOnly, result)
  {
    hide RunQuality;
    var events := OutcomeEvents(step, coordinateOnly, result);
    VerifiedMeans(events);
    if result.RaisedVerification? {
      assert events[0].VerificationFailed?;
    } else if result.Returned? && result.lookup.Some? && result.lookup.value.byCoordinates && !coordinateOnly {
      assert events[1].SelectorStale?;
    }
  }

  /** No event says that the run measured something else than its scenario describes. */
  ghost predicate Clean(events: seq<Event>) {
    All(events, HARMLESS)
  }

  const HARMLESS := (e: Event) => !e.VerificationFailed? && !e.SelectorStale?

  lemma VerifiedMeans(events: seq<Event>)
    ensures RunQuality(events).verified <==> Clean(events)
  {
    hide Count;
    CountIsZero(events, (e: Event) => e.VerificationFailed?);
    CountIsZero(events, (e: Event) => e.SelectorStale?);
  }

  /** A run is vouched for exactly when each part of its record is. */
  lemma VerifiedConcat(a: seq<Event>, b: seq<Event>)
    ensures RunQuality(a + b).verified <==> RunQuality(a).verified && RunQuality(b).verified
  {
    hide RunQuality;
    VerifiedMeans(a);
    VerifiedMeans(b);
    VerifiedMeans(a + b);
    AllConcat(a, b, HARMLESS);
  }

  /** A timeout clears nothing. */
  lemma TimeoutIsHarmless(step: nat)
    ensures RunQuality([AdapterTimeout(step)]).verified
  {
    hide RunQuality;
    VerifiedMeans([AdapterTimeout(step)]);
  }

  // ---- the verdict on a whole run -----------------------------------------------------------

  /** The step's result came back while it was in flight and not yet reported late. */
  predicate HeardFrom(c: Config, s: State, results: map<nat, StepResult>, step: nat) {
    && step in Keys(s.scenarioActive) && step !in s.scenarioTimedOut
    && step in results && step < |c.steps|
  }

  /** No result that is heard from this state is damning. */
  ghost predicate Unharmed(c: Config, s: State, results: map<nat, StepResult>) {
    forall step: nat :: HeardFrom(c, s, results, step) ==> !Damning(c.steps[step].coordinateOnly, results[step])
  }

  lemma ResultIsClean(c: Config, results: map<nat, StepResult>, step: nat)
    requires step in StepResults(c, results)
    ensures step in results && step < |c.steps|
    ensures All(StepResults(c, results)[step], HARMLESS) <==> !Damning(c.steps[step].coordinateOnly, results[step])
  {
    hide RunQuality, OutcomeEvents, All;
    VerifiedIff(step, c.steps[step].coordinateOnly, results[step]);
    VerifiedMeans(OutcomeEvents(step, c.steps[step].coordinateOnly, results[step]));
  }

  lemma HeardAreClean(c: Config, s: State, results: map<nat, StepResult>)
    ensures (forall step :: Heard(s.scenarioActive, s.scenarioTimedOut, StepResults(c, results), step) ==>
                              All(StepResults(c, results)[step], HARMLESS))
            <==> Unharmed(c, s, results)
  {
    hide All, Damning, OutcomeEvents, Keys;
    var finished := StepResults(c, results);
    forall step: nat
      ensures Heard(s.scenarioActive, s.scenarioTimedOut, finished, step) <==> HeardFrom(c, s, results, step)
      ensures step in finished ==>
                (All(finished[step], HARMLESS) <==> !Damning(c.steps[step].coordinateOnly, results[step]))
    {
      if step in finished {
        ResultIsClean(c, results, step);
      }
    }
  }

  lemma CollectIsHarmless(collector: string, result: CollectResult)
    ensures All(CollectEvents(collector, result), HARMLESS)
  {}

  lemma CollectorsAreHarmless(results: map<string, CollectResult>, flights: seq<Flight<string>>, late: set<string>)
    ensures forall name :: Heard(flights, late, CollectorResults(results), name) ==>
                             All(CollectorResults(results)[name], HARMLESS)
  {
    hide All, CollectEvents, Keys;
    forall name | name in results
      ensures All(CollectorResults(results)[name], HARMLESS)
    {
      CollectIsHarmless(name, results[name]);
    }
  }

  lemma CollectorsSweptStayClean(c: Config, s: State, t: Tick)
    requires Distinct(s.active)
    ensures Clean(CollectorsSwept(c, s, t).events) <==> Clean(s.events)
  {
    hide All, Distinct, Sweep, CollectorResults, Heard;
    var results := CollectorResults(t.collectors);
    CollectorsAreHarmless(t.collectors, s.active, s.timedOut);
    SweepAll(s.active, s.timedOut, results, COLLECTOR_TIMEOUT, t.now, c.collectorTimeout, HARMLESS);
    AllConcat(s.events, Sweep(s.active, s.timedOut, results, COLLECTOR_TIMEOUT, t.now, c.collectorTimeout).events,
              HARMLESS);
  }

  lemma StepsSweptStayClean(c: Config, s: State, t: Tick)
    requires Distinct(s.scenarioActive)
    ensures Clean(StepsSwept(c, s, t).events) <==> Clean(s.events) && Unharmed(c, s, t.steps)
  {
    hide All, Distinct, Sweep, StepResults, Heard, Unharmed;
    var results := StepResults(c, t.steps);
    HeardAreClean(c, s, t.steps);
    SweepAll(s.scenarioActive, s.scenarioTimedOut, results, STEP_TIMEOUT, t.now, c.actionTimeout, HARMLESS);
    AllConcat(s.events, Sweep(s.scenarioActive, s.scenarioTimedOut, results, STEP_TIMEOUT,
                            t.now, c.actionTimeout).events,
              HARMLESS);
  }

  lemma {:induction false} SubmittingWritesNothing(c: Config, s: State, upto: nat, now: real)
    requires upto <= |c.collectors|
    ensures var r := CollectorsSubmitted(c, s, upto, now);
            && r.events == s.events && r.scenarioActive == s.scenarioActive && r.scenarioTimedOut == s.scenarioTimedOut
  {
    if upto > 0 {
      hide Keys;
      SubmittingWritesNothing(c, s, upto - 1, now);
    }
  }

  lemma {:induction false} LaunchingWritesNothing(c: Config, s: State, now: real)
    ensures StepsLaunched(c, s, now).events == s.events
    decreases |c.steps| - s.nextStep
  {
    if s.nextStep < |c.steps| && now - c.started >= c.steps[s.nextStep].at {
      LaunchingWritesNothing(c, Launched(s, Flight(s.nextStep, now)), now);
    }
  }

  lemma SameFlights(c: Config, s: State, r: State, results: map<nat, StepResult>)
    requires s.scenarioActive == r.scenarioActive && s.scenarioTimedOut == r.scenarioTimedOut
    ensures Unharmed(c, s, results) == Unharmed(c, r, results)
  {
    hide Damning, Keys;
    assert forall step: nat :: HeardFrom(c, s, results, step) == HeardFrom(c, r, results, step);
  }

  lemma TickStaysClean(c: Config, s: State, t: Tick)
    requires CollectorsBalance(s) && StepsBalance(s)
    ensures Clean(Ticked(c, s, t).events)
            <==> Clean(s.events) && (CancelPolled(c, s, t).stop || Unharmed(c, s, t.steps))
  {
    var polled := CancelPolled(c, s, t).(clock := t.now);
    DistinctFlights(s);
    hide Clean, Unharmed, Sweep, CollectorsSubmitted, StepsLaunched, CollectorsBalance, StepsBalance, Distinct;
    if !polled.stop {
      var swept := CollectorsSwept(c, polled, t);
      CollectorsSweptStayClean(c, polled, t);
      var submitted := CollectorsSubmitted(c, swept, |c.collectors|, t.now);
      SubmittingWritesNothing(c, swept, |c.collectors|, t.now);
      StepsSweptStayClean(c, submitted, t);
      SameFlights(c, s, submitted, t.steps);
      LaunchingWritesNothing(c, StepsSwept(c, submitted, t), t.now);
    }
  }

  lemma DistinctFlights(s: State)
    requires CollectorsBalance(s) && StepsBalance(s)
    ensures Distinct(s.active) && Distinct(s.scenarioActive)
  {
    hide Settled, Keys;
  }

  /** The k-th pass takes place and is not the one that sees the cancel. */
  predicate Takes(c: Config, ticks: seq<Tick>, k: nat)
    requires k < |ticks|
  {
    var s := TickedAll(c, ticks[..k]);
    !s.stop && !CancelPolled(c, s, ticks[k]).stop
  }

  /** In no pass of the run is a damning result heard. */
  ghost predicate NeverHarmed(c: Config, ticks: seq<Tick>) {
    forall k :: 0 <= k < |ticks| && Takes(c, ticks, k) ==> Unharmed(c, TickedAll(c, ticks[..k]), ticks[k].steps)
  }

  lemma NeverHarmedNext(c: Config, ticks: seq<Tick>)
    requires ticks != []
    ensures var n := |ticks| - 1;
            NeverHarmed(c, ticks)
            <==> && NeverHarmed(c, ticks[..n])
                 && (Takes(c, ticks, n) ==> Unharmed(c, TickedAll(c, ticks[..n]), ticks[n].steps))
  {
    hide Unharmed, TickedAll, CancelPolled;
    var n := |ticks| - 1;
    forall k | 0 <= k < n
      ensures ticks[..n][..k] == ticks[..k] && ticks[..n][k] == ticks[k]
      ensures Takes(c, ticks[..n], k) == Takes(c, ticks, k)
    {
      assert ticks[..n][..k] == ticks[..k];
    }
  }

  lemma {:induction false} RunStaysClean(c: Config, ticks: seq<Tick>)
    ensures Clean(TickedAll(c, ticks).events) <==> NeverHarmed(c, ticks)
  {
    if ticks != [] {
      hide Clean, Ticked, NeverHarmed, CollectorsBalance, StepsBalance, Unharmed, CancelPolled;
      var n := |ticks| - 1;
      RunStaysClean(c, ticks[..n]);
      NeverHarmedNext(c, ticks);
      RunBalances(c, ticks[..n]);
      if !TickedAll(c, ticks[..n]).stop {
        TickStaysClean(c, TickedAll(c, ticks[..n]), ticks[n]);
      }
    }
  }

  /** The whole run, loop and drain, is vouched for if and only if no step that was in flight and not yet
      reported late came back with a failed verification, or found by a coordinate it should not need.
      Steps that time out, are cancelled or raise anything else do not count against it. */
  lemma RunVerifiedIff(c: Config, ticks: seq<Tick>, collectors: map<string, CollectResult>, steps: map<nat, StepResult>)
    ensures RunQuality(Finished(c, TickedAll(c, ticks), collectors, steps).events).verified
            <==> NeverHarmed(c, ticks) && Unharmed(c, TickedAll(c, ticks), steps)
  {
    RunStaysClean(c, ticks);
    hide TickedAll, RunQuality, NeverHarmed, Unharmed, All, Heard, Drained, StepResults, CollectorResults;
    var s := TickedAll(c, ticks);
    VerifiedMeans(Finished(c, s, collectors, steps).events);
    var fromCollectors := Drained(s.active, s.timedOut, CollectorResults(collectors));
    var fromSteps := Drained(s.scenarioActive, s.scenarioTimedOut, StepResults(c, steps));
    AllConcat(s.events + fromCollectors, fromSteps, HARMLESS);
    AllConcat(s.events, fromCollectors, HARMLESS);
    CollectorsAreHarmless(collectors, s.active, s.timedOut);
    DrainAll(s.active, s.timedOut, CollectorResults(collectors), HARMLESS);
    HeardAreClean(c, s, steps);
    DrainAll(s.scenarioActive, s.scenarioTimedOut, StepResults(c, steps), HARMLESS);
  }

  /** The result of a step already reported late never changes the verdict, whatever it is. */
  lemma LateResultsDoNotCount(c: Config, s: State, results: map<nat, StepResult>, others: map<nat, StepResult>)
    requires forall step :: step !in s.scenarioTimedOut ==>
               (step in results <==> step in others) && (step in results ==> results[step] == others[step])
    ensures Unharmed(c, s, results) == Unharmed(c, s, others)
  {
    hide Damning, Keys;
    assert forall step: nat :: HeardFrom(c, s, results, step) == HeardFrom(c, s, others, step);
  }

  /** A run none of whose steps ever came back is vouched for. */
  lemma SilentRunIsVerified(c: Config, ticks: seq<Tick>, collectors: map<string, CollectResult>)
    requires forall k :: 0 <= k < |ticks| ==> ticks[k].steps == map[]
    ensures RunQuality(Finished(c, TickedAll(c, ticks), collectors, map[]).events).verified
  {
    hide TickedAll, RunQuality, Finished, Takes;
    RunVerifiedIff(c, ticks, collectors, map[]);
  }
}

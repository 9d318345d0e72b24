/** When work in flight is late, and when it is submitted at all: said of the passes, not of the runner's tables. */
module Timeouts {
  import opened Flights
  import opened Runner
  import opened Wrappers

  /** The state that pass k finds. */
  function Before(c: Config, ticks: seq<Tick>, k: nat): State
    requires k <= |ticks|
  {
    TickedAll(c, ticks[..k])
  }

  /** Pass k takes place: neither it nor one before it sees a cancel. */
  predicate TakesPlace(c: Config, ticks: seq<Tick>, k: nat)
    requires k < |ticks|
  {
    !Before(c, ticks, k + 1).stop
  }

  lemma NextState(c: Config, ticks: seq<Tick>, k: nat)
    requires k < |ticks|
    ensures Before(c, ticks, k + 1)
            == if Before(c, ticks, k).stop then Before(c, ticks, k) else Ticked(c, Before(c, ticks, k), ticks[k])
  {
    assert ticks[..k + 1][..k] == ticks[..k];
  }

  lemma EarlierPasses(c: Config, ticks: seq<Tick>, j: nat, k: nat)
    requires j <= k < |ticks| && TakesPlace(c, ticks, k)
    ensures TakesPlace(c, ticks, j)
  {
    if Before(c, ticks, j + 1).stop {
      assert ticks[..k + 1][..j + 1] == ticks[..j + 1];
      StoppedForGood(c, ticks[..k + 1], j + 1);
    }
  }

  // ---- scenario steps: one pass ----------------------------------------------------------------

  /** The result of the step has come back by this pass. */
  predicate CameBack(c: Config, t: Tick, step: nat) {
    step in t.steps && step < |c.steps|
  }

  lemma {:induction false} LaunchedAre(c: Config, s: State, now: real)
    ensures var r := StepsLaunched(c, s, now);
            && s.nextStep <= r.nextStep
            && (forall f :: f in r.scenarioActive
                  <==> f in s.scenarioActive || (s.nextStep <= f.key < r.nextStep && f.submitted == now))
            && r.scenarioTimedOut == s.scenarioTimedOut && r.events == s.events && r.stop == s.stop
            && r.active == s.active && r.collected == s.collected && r.due == s.due && r.timedOut == s.timedOut
    decreases |c.steps| - s.nextStep
  {
    if s.nextStep < |c.steps| && now - c.started >= c.steps[s.nextStep].at {
      var one := Launched(s, Flight(s.nextStep, now));
      assert forall f :: f in one.scenarioActive <==> f in s.scenarioActive || f == Flight(s.nextStep, now);
      LaunchedAre(c, one, now);
    }
  }

  lemma {:induction false} SubmittingLeavesSteps(c: Config, s: State, upto: nat, now: real)
    requires upto <= |c.collectors|
    ensures var r := CollectorsSubmitted(c, s, upto, now);
            && r.scenarioActive == s.scenarioActive && r.scenarioTimedOut == s.scenarioTimedOut
            && r.nextStep == s.nextStep && r.events == s.events && r.stop == s.stop && r.timedOut == s.timedOut
  {
    if upto > 0 {
      hide Keys;
      SubmittingLeavesSteps(c, s, upto - 1, now);
    }
  }

  lemma NoStepTimeoutInResults(c: Config, t: Tick, step: nat)
    ensures forall key :: key in StepResults(c, t.steps) ==> AdapterTimeout(step) !in StepResults(c, t.steps)[key]
    ensures forall name :: name in CollectorResults(t.collectors) ==>
              AdapterTimeout(step) !in CollectorResults(t.collectors)[name]
  {}

  /** What one pass that takes place does to the steps in flight and to their timeouts. */
  ghost predicate StepsPassed(c: Config, s: State, t: Tick, r: State) {
    && (forall f :: f in r.scenarioActive
          <==> || (f in s.scenarioActive && !CameBack(c, t, f.key))
               || (s.nextStep <= f.key < r.nextStep && f.submitted == t.now))
    && (forall step: nat :: AdapterTimeout(step) in r.events
          <==> || AdapterTimeout(step) in s.events
               || (step !in s.scenarioTimedOut && !CameBack(c, t, step)
                   && exists f :: f in s.scenarioActive && f.key == step && t.now - f.submitted >= c.actionTimeout))
    && (forall step: nat :: step in r.scenarioTimedOut ==>
          step in s.scenarioTimedOut || AdapterTimeout(step) in r.events)
    && s.nextStep <= r.nextStep
  }

  lemma PassOverSteps(c: Config, s: State, t: Tick)
    requires Distinct(s.active) && Distinct(s.scenarioActive) && s.scenarioTimedOut <= Keys(s.scenarioActive)
    requires !Ticked(c, s, t).stop
    ensures StepsPassed(c, s, t, Ticked(c, s, t))
  {
    hide CollectorsSubmitted, StepsLaunched, Sweep, CollectorResults, StepResults, Distinct;
    var polled := CancelPolled(c, s, t).(clock := t.now);
    var swept := CollectorsSwept(c, polled, t);
    var submitted := CollectorsSubmitted(c, swept, |c.collectors|, t.now);
    SubmittingLeavesSteps(c, swept, |c.collectors|, t.now);
    var checked := StepsSwept(c, submitted, t);
    LaunchedAre(c, checked, t.now);
    SweepIsRight(s.active, s.timedOut, CollectorResults(t.collectors), COLLECTOR_TIMEOUT, t.now, c.collectorTimeout);
    SweepIsRight(s.scenarioActive, s.scenarioTimedOut, StepResults(c, t.steps), STEP_TIMEOUT, t.now, c.actionTimeout);
    forall step: nat
      ensures AdapterTimeout(step) !in Sweep(s.active, s.timedOut, CollectorResults(t.collectors), COLLECTOR_TIMEOUT,
                                             t.now, c.collectorTimeout).events
    {
      NoStepTimeoutInResults(c, t, step);
    }
    forall step: nat
      ensures AdapterTimeout(step) in Sweep(s.scenarioActive, s.scenarioTimedOut, StepResults(c, t.steps),
                                            STEP_TIMEOUT, t.now, c.actionTimeout).events
              <==> step !in s.scenarioTimedOut && !CameBack(c, t, step)
                   && exists f :: f in s.scenarioActive && f.key == step && t.now - f.submitted >= c.actionTimeout
    {
      StepWrites(c, s, t, step);
    }
    assert forall step: nat :: step in StepResults(c, t.steps) <==> CameBack(c, t, step) by {
      ResultsAre(c, t);
    }
  }

  lemma ResultsAre(c: Config, t: Tick)
    ensures forall step: nat :: step in StepResults(c, t.steps) <==> CameBack(c, t, step)
    ensures forall name :: name in CollectorResults(t.collectors) <==> name in t.collectors
  {}

  lemma StepWrites(c: Config, s: State, t: Tick, step: nat)
    requires Distinct(s.scenarioActive)
    ensures AdapterTimeout(step) in Sweep(s.scenarioActive, s.scenarioTimedOut, StepResults(c, t.steps),
                                          STEP_TIMEOUT, t.now, c.actionTimeout).events
            <==> step !in s.scenarioTimedOut && !CameBack(c, t, step)
                 && exists f :: f in s.scenarioActive && f.key == step && t.now - f.submitted >= c.actionTimeout
  {
    hide Sweep, Distinct, StepResults;
    SweepIsRight(s.scenarioActive, s.scenarioTimedOut, StepResults(c, t.steps), STEP_TIMEOUT, t.now, c.actionTimeout);
    NoStepTimeoutInResults(c, t, step);
    ResultsAre(c, t);
  }

  // ---- scenario steps: a whole run ---------------------------------------------------------------

  /** Pass l submits the step. */
  predicate LaunchedIn(c: Config, ticks: seq<Tick>, l: nat, step: nat)
    requires l < |ticks|
  {
    TakesPlace(c, ticks, l) && Before(c, ticks, l).nextStep <= step < Before(c, ticks, l + 1).nextStep
  }

  /** Submitted in pass l, and no pass after that and up to pass k has found its result. */
  ghost predicate OutSince(c: Config, ticks: seq<Tick>, l: nat, k: nat, step: nat)
    requires k < |ticks|
  {
    l < k && LaunchedIn(c, ticks, l, step) && forall j :: l < j <= k ==> !CameBack(c, ticks[j], step)
  }

  /** What pass k finds in flight was submitted in an earlier pass, and has not come back between the two. */
  ghost predicate FoundBy(c: Config, ticks: seq<Tick>, l: nat, k: nat, f: Flight<nat>)
    requires k <= |ticks|
  {
    && l < k && LaunchedIn(c, ticks, l, f.key) && f.submitted == ticks[l].now
    && forall j :: l < j < k ==> !CameBack(c, ticks[j], f.key)
  }

  lemma Balanced(c: Config, ticks: seq<Tick>, k: nat)
    requires k <= |ticks|
    ensures var s := Before(c, ticks, k);
            && Distinct(s.active) && s.timedOut <= Keys(s.active)
            && Distinct(s.scenarioActive) && s.scenarioTimedOut <= Keys(s.scenarioActive)
  {
    hide TickedAll, Settled, Open, Submissions;
    RunBalances(c, ticks[..k]);
  }

  lemma PassOf(c: Config, ticks: seq<Tick>, k: nat)
    requires k < |ticks| && TakesPlace(c, ticks, k)
    ensures StepsPassed(c, Before(c, ticks, k), ticks[k], Before(c, ticks, k + 1))
    ensures Before(c, ticks, k + 1) == Ticked(c, Before(c, ticks, k), ticks[k]) && !Before(c, ticks, k).stop
  {
    hide TickedAll, Ticked, StepsPassed, Distinct, Keys;
    NextState(c, ticks, k);
    Balanced(c, ticks, k);
    PassOverSteps(c, Before(c, ticks, k), ticks[k]);
  }

  /** A submission is still out one pass later if it was and has not come back, or is that pass's own. */
  lemma FoundNext(c: Config, ticks: seq<Tick>, n: nat, k: nat, f: Flight<nat>)
    requires n < |ticks| && k == n + 1
    ensures (exists l :: 0 <= l < k && FoundBy(c, ticks, l, k, f))
            <==> || ((exists l :: 0 <= l < n && FoundBy(c, ticks, l, n, f)) && !CameBack(c, ticks[n], f.key))
                 || (LaunchedIn(c, ticks, n, f.key) && f.submitted == ticks[n].now)
  {
    hide LaunchedIn, CameBack;
    if l :| 0 <= l < n && FoundBy(c, ticks, l, n, f) {
      assert !CameBack(c, ticks[n], f.key) ==> FoundBy(c, ticks, l, k, f);
    }
    if LaunchedIn(c, ticks, n, f.key) && f.submitted == ticks[n].now {
      assert FoundBy(c, ticks, n, k, f);
    }
    if l :| 0 <= l < k && FoundBy(c, ticks, l, k, f) {
      assert l < n ==> FoundBy(c, ticks, l, n, f);
    }
  }

  lemma {:induction false} InFlightIff(c: Config, ticks: seq<Tick>, k: nat, f: Flight<nat>)
    requires k <= |ticks| && (k == 0 || TakesPlace(c, ticks, k - 1))
    ensures f in Before(c, ticks, k).scenarioActive <==> exists l :: 0 <= l < k && FoundBy(c, ticks, l, k, f)
  {
    hide TickedAll;
    if k > 0 {
      hide LaunchedIn, Before, TakesPlace;
      var n := k - 1;
      if n > 0 {
        EarlierPasses(c, ticks, n - 1, n);
      }
      InFlightIff(c, ticks, n, f);
      PassOf(c, ticks, n);
      assert LaunchedIn(c, ticks, n, f.key)
             <==> Before(c, ticks, n).nextStep <= f.key < Before(c, ticks, n + 1).nextStep by {
        IsLaunchedIn(c, ticks, n, f.key);
      }
      FoundNext(c, ticks, n, k, f);
      hide FoundBy, CameBack;
    } else {
      assert ticks[..0] == [];
      NothingYet(c);
    }
  }

  lemma NothingYet(c: Config)
    ensures var s := TickedAll(c, []); s.scenarioActive == [] && s.active == [] && s.events == [] && s.collected == []
    ensures TickedAll(c, []).due == map[] && TickedAll(c, []).scenarioTimedOut == {} && TickedAll(c, []).timedOut == {}
  {}

  lemma IsLaunchedIn(c: Config, ticks: seq<Tick>, n: nat, step: nat)
    requires n < |ticks| && TakesPlace(c, ticks, n)
    ensures LaunchedIn(c, ticks, n, step)
            <==> Before(c, ticks, n).nextStep <= step < Before(c, ticks, n + 1).nextStep
  {}

  /** Pass k takes place, finds the step still out, and `actionTimeout` or more has gone by since its submission. */
  ghost predicate Overdue(c: Config, ticks: seq<Tick>, l: nat, k: nat, step: nat)
    requires k < |ticks|
  {
    TakesPlace(c, ticks, k) && OutSince(c, ticks, l, k, step) && ticks[k].now - ticks[l].now >= c.actionTimeout
  }

  lemma StepEntry(c: Config, ticks: seq<Tick>, k: nat, f: Flight<nat>)
    requires k < |ticks| && TakesPlace(c, ticks, k)
    ensures f in Before(c, ticks, k).scenarioActive && !CameBack(c, ticks[k], f.key)
            <==> exists l :: 0 <= l < k && OutSince(c, ticks, l, k, f.key) && f.submitted == ticks[l].now
  {
    hide Before, TakesPlace, LaunchedIn, CameBack;
    if k > 0 {
      EarlierPasses(c, ticks, k - 1, k);
    }
    InFlightIff(c, ticks, k, f);
    if l :| 0 <= l < k && FoundBy(c, ticks, l, k, f) {
      assert !CameBack(c, ticks[k], f.key) ==> OutSince(c, ticks, l, k, f.key);
    }
    if l :| 0 <= l < k && OutSince(c, ticks, l, k, f.key) && f.submitted == ticks[l].now {
      assert FoundBy(c, ticks, l, k, f);
    }
  }

  lemma OverdueEntries(c: Config, ticks: seq<Tick>, k: nat, step: nat)
    requires k < |ticks| && TakesPlace(c, ticks, k)
    ensures !CameBack(c, ticks[k], step)
            && (exists f :: f in Before(c, ticks, k).scenarioActive && f.key == step
                            && ticks[k].now - f.submitted >= c.actionTimeout)
            <==> exists l :: 0 <= l < k && Overdue(c, ticks, l, k, step)
  {
    hide Before, TakesPlace, OutSince, CameBack;
    forall f
      ensures f in Before(c, ticks, k).scenarioActive && !CameBack(c, ticks[k], f.key)
              <==> exists l :: 0 <= l < k && OutSince(c, ticks, l, k, f.key) && f.submitted == ticks[l].now
    {
      StepEntry(c, ticks, k, f);
    }
    forall l | 0 <= l < k && OutSince(c, ticks, l, k, step)
      ensures Flight(step, ticks[l].now) in Before(c, ticks, k).scenarioActive && !CameBack(c, ticks[k], step)
    {
      assert Flight(step, ticks[l].now).key == step;
    }
    if f :| f in Before(c, ticks, k).scenarioActive && f.key == step && !CameBack(c, ticks[k], step)
            && ticks[k].now - f.submitted >= c.actionTimeout
    {
      var l :| 0 <= l < k && OutSince(c, ticks, l, k, f.key) && f.submitted == ticks[l].now;
      assert Overdue(c, ticks, l, k, step);
    }
    if l :| 0 <= l < k && Overdue(c, ticks, l, k, step) {
      assert Flight(step, ticks[l].now) in Before(c, ticks, k).scenarioActive;
    }
  }

  lemma {:induction false} LateIsOnRecord(c: Config, ticks: seq<Tick>, k: nat, step: nat)
    requires k <= |ticks|
    ensures step in Before(c, ticks, k).scenarioTimedOut ==> AdapterTimeout(step) in Before(c, ticks, k).events
  {
    if k > 0 {
      LateIsOnRecord(c, ticks, k - 1, step);
      NextState(c, ticks, k - 1);
      hide TickedAll;
      if TakesPlace(c, ticks, k - 1) {
        PassOf(c, ticks, k - 1);
      } else if !Before(c, ticks, k - 1).stop {
        StoppingPass(c, Before(c, ticks, k - 1), ticks[k - 1]);
      }
    } else {
      assert ticks[..0] == [];
    }
  }

  /** A pass that sees the cancel does nothing else. */
  lemma StoppingPass(c: Config, s: State, t: Tick)
    requires Ticked(c, s, t).stop
    ensures var r := Ticked(c, s, t);
            && r.events == s.events && r.scenarioTimedOut == s.scenarioTimedOut && r.timedOut == s.timedOut
            && r.scenarioActive == s.scenarioActive && r.active == s.active && r.collected == s.collected
            && r.due == s.due && r.nextStep == s.nextStep
  {
    hide CollectorsSubmitted, StepsLaunched, Sweep, CollectorResults, StepResults;
    var polled := CancelPolled(c, s, t).(clock := t.now);
    if !polled.stop {
      var swept := CollectorsSwept(c, polled, t);
      SubmittingLeavesSteps(c, swept, |c.collectors|, t.now);
      LaunchedAre(c, StepsSwept(c, CollectorsSubmitted(c, swept, |c.collectors|, t.now), t), t.now);
    }
  }

  /** A step is reported to have timed out if and only if some pass that takes place finds it without a result
      `actionTimeout` or more after the pass that submitted it. */
  lemma {:induction false} StepTimesOutIff(c: Config, ticks: seq<Tick>, k: nat, step: nat)
    requires k <= |ticks|
    ensures AdapterTimeout(step) in Before(c, ticks, k).events
            <==> exists l, n :: (0 <= l < n < k && Overdue(c, ticks, l, n, step))
  {
    if k == 0 {
      assert ticks[..0] == [];
      NothingYet(c);
    } else {
      var n := k - 1;
      hide TickedAll;
      StepTimesOutIff(c, ticks, n, step);
      LateIsOnRecord(c, ticks, n, step);
      NextState(c, ticks, n);
      if TakesPlace(c, ticks, n) {
        PassOf(c, ticks, n);
        OverdueEntries(c, ticks, n, step);
      } else {
        if !Before(c, ticks, n).stop {
          StoppingPass(c, Before(c, ticks, n), ticks[n]);
        }
      }
      hide Before, TakesPlace, OutSince, CameBack;
    }
  }

  /** The end of the run reports no step late that the loop did not. */
  lemma DrainTimesNothingOut(c: Config, ticks: seq<Tick>, collectors: map<string, CollectResult>,
                             steps: map<nat, StepResult>, step: nat)
    ensures AdapterTimeout(step) in Finished(c, TickedAll(c, ticks), collectors, steps).events
            <==> AdapterTimeout(step) in TickedAll(c, ticks).events
  {
    hide TickedAll, Drained, CollectorResults, StepResults;
    var s := TickedAll(c, ticks);
    NoStepTimeoutInResults(c, Tick(0.0, false, collectors, steps), step);
    DrainIsRight(s.active, s.timedOut, CollectorResults(collectors), AdapterTimeout(step));
    DrainIsRight(s.scenarioActive, s.scenarioTimedOut, StepResults(c, steps), AdapterTimeout(step));
  }

  // ---- collectors: one pass ------------------------------------------------------------------------

  /** When a collector is due: an interval after its last submission, and from the start when it has none. */
  function DueFrom(c: Config, collected: seq<Submission>, name: string): real {
    if collected == [] then c.started else
      var last := collected[|collected| - 1];
      if last.name == name then last.at + last.interval else DueFrom(c, collected[..|collected| - 1], name)
  }

  ghost predicate DueIsKept(c: Config, s: State) {
    forall name :: DueAt(c, s, name) == DueFrom(c, s.collected, name)
  }

  /** The collector is among the submissions that are in `after` and not in `before`. */
  ghost predicate Submitted(before: seq<Submission>, after: seq<Submission>, name: string) {
    exists i :: |before| <= i < |after| && after[i].name == name
  }

  predicate Named(collectors: seq<Collector>, name: string) {
    exists i :: 0 <= i < |collectors| && collectors[i].name == name
  }

  /** What the submitting part of a pass does. */
  ghost predicate SubmittedRight(c: Config, s: State, upto: nat, now: real, r: State)
    requires upto <= |c.collectors|
  {
    && s.collected <= r.collected
    && (forall i :: |s.collected| <= i < |r.collected| ==> r.collected[i].at == now)
    && (forall f :: f in r.active
          <==> f in s.active || (f.submitted == now && Submitted(s.collected, r.collected, f.key)))
    && (forall name :: Submitted(s.collected, r.collected, name)
          <==> Named(c.collectors[..upto], name) && now >= DueAt(c, s, name) && name !in Keys(s.active))
    && (forall name :: !Submitted(s.collected, r.collected, name) ==> DueAt(c, r, name) == DueAt(c, s, name))
  }

  lemma OneSubmission(c: Config, s: State, upto: nat, now: real, p: State)
    requires upto < |c.collectors| && SubmittedRight(c, s, upto, now, p)
    ensures SubmittedRight(c, s, upto + 1, now, CollectorSubmitted(c, p, c.collectors[upto], now))
  {
    var collector := c.collectors[upto];
    var name, r := collector.name, CollectorSubmitted(c, p, collector, now);
    assert c.collectors[..upto + 1] == c.collectors[..upto] + [collector];
    NamedNext(c.collectors[..upto], collector);
    assert name in Keys(p.active) <==> name in Keys(s.active) || Submitted(s.collected, p.collected, name) by {
      if Submitted(s.collected, p.collected, name) {
        assert Flight(name, now) in p.active;
      }
    }
    if r != p {
      forall other
        ensures Submitted(s.collected, r.collected, other)
                <==> Submitted(s.collected, p.collected, other) || other == name
      {
        SubmittedNext(s.collected, p.collected, Submission(name, now, collector.interval), other);
      }
      assert forall f :: f in r.active <==> f in p.active || f == Flight(name, now);
    }
    hide Submitted, Named, Keys;
  }

  lemma NamedNext(collectors: seq<Collector>, collector: Collector)
    ensures forall name :: Named(collectors + [collector], name) <==> Named(collectors, name) || name == collector.name
  {
    var more := collectors + [collector];
    assert more[|collectors|] == collector;
    assert forall i :: 0 <= i < |collectors| ==> more[i] == collectors[i];
  }

  lemma SubmittedNext(before: seq<Submission>, after: seq<Submission>, e: Submission, name: string)
    requires before <= after
    ensures Submitted(before, after + [e], name) <==> Submitted(before, after, name) || name == e.name
  {
    var more := after + [e];
    assert more[|after|] == e;
    assert forall i :: 0 <= i < |after| ==> more[i] == after[i];
  }

  lemma {:induction false} SubmissionsAre(c: Config, s: State, upto: nat, now: real)
    requires upto <= |c.collectors|
    ensures SubmittedRight(c, s, upto, now, CollectorsSubmitted(c, s, upto, now))
  {
    hide SubmittedRight, CollectorSubmitted;
    if upto == 0 {
      NoSubmission(c, s, now);
    } else {
      SubmissionsAre(c, s, upto - 1, now);
      OneSubmission(c, s, upto - 1, now, CollectorsSubmitted(c, s, upto - 1, now));
    }
  }

  lemma NoSubmission(c: Config, s: State, now: real)
    ensures SubmittedRight(c, s, 0, now, s)
  {}

  lemma OneSubmissionKeepsDue(c: Config, s: State, collector: Collector, now: real)
    requires DueIsKept(c, s)
    ensures DueIsKept(c, CollectorSubmitted(c, s, collector, now))
  {
    hide Keys;
    var e := Submission(collector.name, now, collector.interval);
    assert (s.collected + [e])[..|s.collected|] == s.collected;
    forall name
      ensures DueFrom(c, s.collected + [e], name)
              == if name == e.name then now + e.interval else DueFrom(c, s.collected, name)
    {
      assert (s.collected + [e])[|s.collected|] == e;
    }
    assert forall name :: DueAt(c, s, name) == DueFrom(c, s.collected, name);
    hide DueFrom;
  }

  lemma {:induction false} SubmissionsKeepDue(c: Config, s: State, upto: nat, now: real)
    requires upto <= |c.collectors| && DueIsKept(c, s)
    ensures DueIsKept(c, CollectorsSubmitted(c, s, upto, now))
  {
    if upto > 0 {
      hide DueIsKept, CollectorSubmitted;
      SubmissionsKeepDue(c, s, upto - 1, now);
      OneSubmissionKeepsDue(c, CollectorsSubmitted(c, s, upto - 1, now), c.collectors[upto - 1], now);
    }
  }

  /** In flight before the pass, and the pass does not find its result. */
  ghost predicate StaysOut(s: State, t: Tick, name: string) {
    name !in t.collectors && exists f :: f in s.active && f.key == name
  }

  /** What one pass that takes place does to the collectors in flight, to their timeouts and to their submissions. */
  ghost predicate CollectorsPassed(c: Config, s: State, t: Tick, r: State) {
    && s.collected <= r.collected
    && (forall f :: f in r.active
          <==> || (f in s.active && f.key !in t.collectors)
               || (f.submitted == t.now && Submitted(s.collected, r.collected, f.key)))
    && (forall name :: CollectorTimeout(name) in r.events
          <==> || CollectorTimeout(name) in s.events
               || (name !in s.timedOut && name !in t.collectors
                   && exists f :: f in s.active && f.key == name && t.now - f.submitted >= c.collectorTimeout))
    && (forall name :: name in r.timedOut ==> name in s.timedOut || CollectorTimeout(name) in r.events)
    && (forall name :: Submitted(s.collected, r.collected, name)
          <==> && Named(c.collectors, name) && t.now >= DueFrom(c, s.collected, name) && !StaysOut(s, t, name))
    && DueIsKept(c, r)
  }

  lemma NoCollectorTimeoutInResults(c: Config, t: Tick, name: string)
    ensures forall key :: key in StepResults(c, t.steps) ==> CollectorTimeout(name) !in StepResults(c, t.steps)[key]
    ensures forall key :: key in CollectorResults(t.collectors) ==>
              CollectorTimeout(name) !in CollectorResults(t.collectors)[key]
  {}

  lemma CollectorWrites(c: Config, s: State, t: Tick, name: string)
    requires Distinct(s.active)
    ensures CollectorTimeout(name) in Sweep(s.active, s.timedOut, CollectorResults(t.collectors), COLLECTOR_TIMEOUT,
                                            t.now, c.collectorTimeout).events
            <==> name !in s.timedOut && name !in t.collectors
                 && exists f :: f in s.active && f.key == name && t.now - f.submitted >= c.collectorTimeout
  {
    hide Sweep, Distinct, CollectorResults;
    SweepIsRight(s.active, s.timedOut, CollectorResults(t.collectors), COLLECTOR_TIMEOUT, t.now, c.collectorTimeout);
    NoCollectorTimeoutInResults(c, t, name);
    ResultsAre(c, t);
  }

  /** The sweep of the collectors, the first part of a pass. */
  lemma CollectorsAreSwept(c: Config, s: State, t: Tick)
    requires Distinct(s.active) && s.timedOut <= Keys(s.active)
    ensures var r := CollectorsSwept(c, s, t);
            && (forall f :: f in r.active <==> f in s.active && f.key !in t.collectors)
            && (forall name :: name in Keys(r.active) <==> StaysOut(s, t, name))
            && (forall name :: CollectorTimeout(name) in r.events
                  <==> || CollectorTimeout(name) in s.events
                       || (name !in s.timedOut && name !in t.collectors
                           && exists f :: f in s.active && f.key == name && t.now - f.submitted >= c.collectorTimeout))
            && (forall name :: name in r.timedOut ==> name in s.timedOut || CollectorTimeout(name) in r.events)
            && r.collected == s.collected && r.due == s.due
  {
    hide Sweep, Distinct, CollectorResults;
    SweepIsRight(s.active, s.timedOut, CollectorResults(t.collectors), COLLECTOR_TIMEOUT, t.now, c.collectorTimeout);
    ResultsAre(c, t);
    forall name
      ensures CollectorTimeout(name) in Sweep(s.active, s.timedOut, CollectorResults(t.collectors), COLLECTOR_TIMEOUT,
                                              t.now, c.collectorTimeout).events
              <==> name !in s.timedOut && name !in t.collectors
                   && exists f :: f in s.active && f.key == name && t.now - f.submitted >= c.collectorTimeout
    {
      CollectorWrites(c, s, t, name);
    }
  }

  lemma StepsSweepLeavesCollectors(c: Config, s: State, t: Tick, name: string)
    requires Distinct(s.scenarioActive)
    ensures CollectorTimeout(name) in StepsSwept(c, s, t).events <==> CollectorTimeout(name) in s.events
  {
    hide Sweep, Distinct, StepResults;
    SweepIsRight(s.scenarioActive, s.scenarioTimedOut, StepResults(c, t.steps), STEP_TIMEOUT, t.now, c.actionTimeout);
    NoCollectorTimeoutInResults(c, t, name);
  }

  /** The first two parts of a pass are all of it for the collectors. */
  lemma CollectorHalf(c: Config, s: State, t: Tick)
    requires Distinct(s.active) && s.timedOut <= Keys(s.active) && DueIsKept(c, s)
    ensures CollectorsPassed(c, s, t, CollectorsSubmitted(c, CollectorsSwept(c, s, t), |c.collectors|, t.now))
  {
    var swept := CollectorsSwept(c, s, t);
    var r := CollectorsSubmitted(c, swept, |c.collectors|, t.now);
    hide CollectorsSubmitted, CollectorsSwept, Distinct, Submitted, Named, Keys, DueFrom;
    CollectorsAreSwept(c, s, t);
    SubmittingLeavesSteps(c, swept, |c.collectors|, t.now);
    SubmissionsAre(c, swept, |c.collectors|, t.now);
    assert DueIsKept(c, swept);
    SubmissionsKeepDue(c, swept, |c.collectors|, t.now);
    assert c.collectors[..|c.collectors|] == c.collectors;
  }

  lemma CarriesOver(c: Config, s: State, t: Tick, before: State, after: State)
    requires CollectorsPassed(c, s, t, before)
    requires after.active == before.active && after.collected == before.collected && after.due == before.due
    requires after.timedOut == before.timedOut
    requires forall name :: CollectorTimeout(name) in after.events <==> CollectorTimeout(name) in before.events
    ensures CollectorsPassed(c, s, t, after)
  {
    hide Submitted, Named, DueFrom;
  }

  lemma SameForCollectors(c: Config, s: State, p: State, t: Tick, r: State)
    requires CollectorsPassed(c, p, t, r) && p.active == s.active && p.collected == s.collected
    requires p.timedOut == s.timedOut && p.events == s.events
    ensures CollectorsPassed(c, s, t, r)
  {
    hide Submitted, Named, DueFrom, DueIsKept;
  }

  lemma PassOverCollectors(c: Config, s: State, t: Tick)
    requires Distinct(s.active) && s.timedOut <= Keys(s.active) && Distinct(s.scenarioActive) && DueIsKept(c, s)
    requires !Ticked(c, s, t).stop
    ensures CollectorsPassed(c, s, t, Ticked(c, s, t))
  {
    var polled := CancelPolled(c, s, t).(clock := t.now);
    assert DueIsKept(c, polled);
    hide CollectorsSubmitted, StepsLaunched, CollectorsSwept, StepsSwept, Distinct, Keys, CollectorsPassed, DueIsKept;
    var swept := CollectorsSwept(c, polled, t);
    var submitted := CollectorsSubmitted(c, swept, |c.collectors|, t.now);
    var checked := StepsSwept(c, submitted, t);
    CollectorHalf(c, polled, t);
    SameForCollectors(c, s, polled, t, submitted);
    SubmittingLeavesSteps(c, swept, |c.collectors|, t.now);
    SweptSteps(c, polled, t);
    StepsSweepIs(c, submitted, t);
    forall name
      ensures CollectorTimeout(name) in checked.events <==> CollectorTimeout(name) in submitted.events
    {
      StepsSweepLeavesCollectors(c, submitted, t, name);
    }
    LaunchedAre(c, checked, t.now);
    CarriesOver(c, s, t, submitted, Ticked(c, s, t));
  }

  lemma StepsSweepIs(c: Config, s: State, t: Tick)
    ensures var r := StepsSwept(c, s, t);
            r.active == s.active && r.collected == s.collected && r.due == s.due && r.timedOut == s.timedOut
  {}

  lemma SweptSteps(c: Config, s: State, t: Tick)
    ensures CollectorsSwept(c, s, t).scenarioActive == s.scenarioActive
  {}

  // ---- collectors: a whole run ---------------------------------------------------------------------

  /** Pass l submits the collector. */
  ghost predicate SubmittedIn(c: Config, ticks: seq<Tick>, l: nat, name: string)
    requires l < |ticks|
  {
    TakesPlace(c, ticks, l) && Submitted(Before(c, ticks, l).collected, Before(c, ticks, l + 1).collected, name)
  }

  /** Submitted in pass l, and no pass after that and up to pass k has found its result. */
  ghost predicate CollectorOutSince(c: Config, ticks: seq<Tick>, l: nat, k: nat, name: string)
    requires k < |ticks|
  {
    l < k && SubmittedIn(c, ticks, l, name) && forall j :: l < j <= k ==> name !in ticks[j].collectors
  }

  ghost predicate CollectorFoundBy(c: Config, ticks: seq<Tick>, l: nat, k: nat, f: Flight<string>)
    requires k <= |ticks|
  {
    && l < k && SubmittedIn(c, ticks, l, f.key) && f.submitted == ticks[l].now
    && forall j :: l < j < k ==> f.key !in ticks[j].collectors
  }

  lemma {:induction false} DueThroughout(c: Config, ticks: seq<Tick>, k: nat)
    requires k <= |ticks|
    ensures DueIsKept(c, Before(c, ticks, k))
  {
    hide TickedAll, DueFrom;
    if k == 0 {
      assert ticks[..0] == [];
      NothingDue(c);
    } else {
      DueThroughout(c, ticks, k - 1);
      NextState(c, ticks, k - 1);
      Balanced(c, ticks, k - 1);
      var s, t := Before(c, ticks, k - 1), ticks[k - 1];
      hide Ticked, Before, Distinct, Keys;
      if !s.stop {
        if Ticked(c, s, t).stop {
          StoppingPass(c, s, t);
        } else {
          PassOverCollectors(c, s, t);
        }
      }
    }
  }

  lemma NothingDue(c: Config)
    ensures DueIsKept(c, TickedAll(c, []))
  {}

  lemma CollectorPassOf(c: Config, ticks: seq<Tick>, k: nat)
    requires k < |ticks| && TakesPlace(c, ticks, k)
    ensures CollectorsPassed(c, Before(c, ticks, k), ticks[k], Before(c, ticks, k + 1))
  {
    hide TickedAll, Ticked, CollectorsPassed, Distinct, Keys, DueIsKept;
    NextState(c, ticks, k);
    Balanced(c, ticks, k);
    DueThroughout(c, ticks, k);
    PassOverCollectors(c, Before(c, ticks, k), ticks[k]);
  }

  lemma {:induction false} CollectorInFlightIff(c: Config, ticks: seq<Tick>, k: nat, f: Flight<string>)
    requires k <= |ticks| && (k == 0 || TakesPlace(c, ticks, k - 1))
    ensures f in Before(c, ticks, k).active <==> exists l :: 0 <= l < k && CollectorFoundBy(c, ticks, l, k, f)
  {
    hide TickedAll;
    if k > 0 {
      var n := k - 1;
      if n > 0 {
        EarlierPasses(c, ticks, n - 1, n);
      }
      CollectorInFlightIff(c, ticks, n, f);
      CollectorPassOf(c, ticks, n);
      assert SubmittedIn(c, ticks, n, f.key)
             <==> Submitted(Before(c, ticks, n).collected, Before(c, ticks, n + 1).collected, f.key);
      hide SubmittedIn, Before, TakesPlace, Submitted, DueFrom, DueIsKept;
      if l :| 0 <= l < n && CollectorFoundBy(c, ticks, l, n, f) {
        assert f.key !in ticks[n].collectors ==> CollectorFoundBy(c, ticks, l, k, f);
      }
      if SubmittedIn(c, ticks, n, f.key) && f.submitted == ticks[n].now {
        assert CollectorFoundBy(c, ticks, n, k, f);
      }
      if l :| 0 <= l < k && CollectorFoundBy(c, ticks, l, k, f) {
        assert l < n ==> CollectorFoundBy(c, ticks, l, n, f);
      }
    } else {
      assert ticks[..0] == [];
      NothingYet(c);
    }
  }

  /** Pass k takes place, finds the collector still out, and `collectorTimeout` or more has gone by since its
      submission. */
  ghost predicate CollectorOverdue(c: Config, ticks: seq<Tick>, l: nat, k: nat, name: string)
    requires k < |ticks|
  {
    && TakesPlace(c, ticks, k) && CollectorOutSince(c, ticks, l, k, name)
    && ticks[k].now - ticks[l].now >= c.collectorTimeout
  }

  lemma CollectorEntry(c: Config, ticks: seq<Tick>, k: nat, f: Flight<string>)
    requires k < |ticks| && TakesPlace(c, ticks, k)
    ensures f in Before(c, ticks, k).active && f.key !in ticks[k].collectors
            <==> exists l :: 0 <= l < k && CollectorOutSince(c, ticks, l, k, f.key) && f.submitted == ticks[l].now
  {
    if k > 0 {
      EarlierPasses(c, ticks, k - 1, k);
    }
    CollectorInFlightIff(c, ticks, k, f);
    hide Before, TakesPlace, SubmittedIn;
    if l :| 0 <= l < k && CollectorFoundBy(c, ticks, l, k, f) {
      assert f.key !in ticks[k].collectors ==> CollectorOutSince(c, ticks, l, k, f.key);
    }
    if l :| 0 <= l < k && CollectorOutSince(c, ticks, l, k, f.key) && f.submitted == ticks[l].now {
      assert CollectorFoundBy(c, ticks, l, k, f);
    }
  }

  lemma CollectorEntries(c: Config, ticks: seq<Tick>, k: nat, name: string)
    requires k < |ticks| && TakesPlace(c, ticks, k)
    ensures name !in ticks[k].collectors
            && (exists f :: f in Before(c, ticks, k).active && f.key == name
                            && ticks[k].now - f.submitted >= c.collectorTimeout)
            <==> exists l :: 0 <= l < k && CollectorOverdue(c, ticks, l, k, name)
    ensures StaysOut(Before(c, ticks, k), ticks[k], name)
            <==> exists l :: 0 <= l < k && CollectorOutSince(c, ticks, l, k, name)
  {
    hide Before, TakesPlace, CollectorOutSince;
    forall f
      ensures f in Before(c, ticks, k).active && f.key !in ticks[k].collectors
              <==> exists l :: 0 <= l < k && CollectorOutSince(c, ticks, l, k, f.key) && f.submitted == ticks[l].now
    {
      CollectorEntry(c, ticks, k, f);
    }
    forall l | 0 <= l < k && CollectorOutSince(c, ticks, l, k, name)
      ensures Flight(name, ticks[l].now) in Before(c, ticks, k).active && name !in ticks[k].collectors
    {
      assert Flight(name, ticks[l].now).key == name;
    }
    if f :| f in Before(c, ticks, k).active && f.key == name && name !in ticks[k].collectors
            && ticks[k].now - f.submitted >= c.collectorTimeout
    {
      var l :| 0 <= l < k && CollectorOutSince(c, ticks, l, k, f.key) && f.submitted == ticks[l].now;
      assert CollectorOverdue(c, ticks, l, k, name);
    }
    if l :| 0 <= l < k && CollectorOverdue(c, ticks, l, k, name) {
      assert Flight(name, ticks[l].now) in Before(c, ticks, k).active;
    }
  }

  lemma {:induction false} LateCollectorIsOnRecord(c: Config, ticks: seq<Tick>, k: nat, name: string)
    requires k <= |ticks|
    ensures name in Before(c, ticks, k).timedOut ==> CollectorTimeout(name) in Before(c, ticks, k).events
  {
    if k > 0 {
      LateCollectorIsOnRecord(c, ticks, k - 1, name);
      NextState(c, ticks, k - 1);
      hide TickedAll, Submitted, DueFrom, DueIsKept;
      if TakesPlace(c, ticks, k - 1) {
        CollectorPassOf(c, ticks, k - 1);
      } else if !Before(c, ticks, k - 1).stop {
        StoppingPass(c, Before(c, ticks, k - 1), ticks[k - 1]);
      }
    } else {
      assert ticks[..0] == [];
    }
  }

  /** A collector is reported to have timed out if and only if some pass that takes place finds it without a result
      `collectorTimeout` or more after a pass that submitted it. */
  lemma {:induction false} CollectorTimesOutIff(c: Config, ticks: seq<Tick>, k: nat, name: string)
    requires k <= |ticks|
    ensures CollectorTimeout(name) in Before(c, ticks, k).events
            <==> exists l, n :: (0 <= l < n < k && CollectorOverdue(c, ticks, l, n, name))
  {
    if k == 0 {
      assert ticks[..0] == [];
      NothingYet(c);
    } else {
      var n := k - 1;
      hide TickedAll, Submitted, DueFrom, DueIsKept;
      CollectorTimesOutIff(c, ticks, n, name);
      LateCollectorIsOnRecord(c, ticks, n, name);
      NextState(c, ticks, n);
      if TakesPlace(c, ticks, n) {
        CollectorPassOf(c, ticks, n);
        CollectorEntries(c, ticks, n, name);
      } else {
        if !Before(c, ticks, n).stop {
          StoppingPass(c, Before(c, ticks, n), ticks[n]);
        }
      }
      hide Before, TakesPlace, CollectorOutSince;
    }
  }

  /** A pass that takes place submits exactly the collectors that are due, an interval after their last submission,
      and are not still out. */
  lemma CollectorSubmittedIff(c: Config, ticks: seq<Tick>, k: nat, name: string)
    requires k < |ticks| && TakesPlace(c, ticks, k)
    ensures SubmittedIn(c, ticks, k, name)
            <==> && Named(c.collectors, name) && ticks[k].now >= DueFrom(c, Before(c, ticks, k).collected, name)
                 && !exists l :: 0 <= l < k && CollectorOutSince(c, ticks, l, k, name)
  {
    hide TickedAll, Submitted, DueFrom, DueIsKept, Named, Before;
    CollectorPassOf(c, ticks, k);
    CollectorEntries(c, ticks, k, name);
  }
}

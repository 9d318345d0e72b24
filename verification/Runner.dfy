/** The control loop of a measured run: collectors on their intervals, scenario steps on their times,
    timeouts, cancellation, checkpoints and the final drain. */
module Runner {
  import opened Flights
  import opened Sorting
  import Tables
  import opened Wrappers

  // ---- outcomes -----------------------------------------------------------------------

  datatype Event =
    | AdapterAction(step: nat)
    | AdapterError(step: nat)
    | VerificationFailed(step: nat)
    | AdapterTimeout(step: nat)
    | UiIntrospection(step: nat)
    | SelectorFallback(step: nat, expected: bool)
    | SelectorStale(step: nat)
    | Collected(collector: string, samples: nat)
    | CollectorError(collector: string)
    | CollectorTimeout(collector: string)

  /** What an adapter reports about finding its target, and how many screen dumps that took. */
  datatype Lookup = Lookup(byCoordinates: bool, dumps: nat)

  datatype StepResult = RaisedVerification(dumps: nat) | RaisedOther | Returned(lookup: Option<Lookup>)

  datatype CollectResult = Samples(count: nat) | CollectRaised

  /** A finished scenario step as events. */
  function OutcomeEvents(step: nat, coordinateOnly: bool, result: StepResult): seq<Event> {
    match result
    case RaisedVerification(dumps) =>
      [VerificationFailed(step)] + if dumps > 0 then [UiIntrospection(step)] else []
    case RaisedOther => [AdapterError(step)]
    case Returned(None) => [AdapterAction(step)]
    case Returned(Some(lookup)) =>
      (if lookup.byCoordinates
       then [SelectorFallback(step, coordinateOnly)] + if coordinateOnly then [] else [SelectorStale(step)]
       else [])
      + (if lookup.dumps > 0 then [UiIntrospection(step)] else [])
      + [AdapterAction(step)]
  }

  function CollectEvents(collector: string, result: CollectResult): seq<Event> {
    match result
    case Samples(count) => [Collected(collector, count)]
    case CollectRaised => [CollectorError(collector)]
  }

  /** The submitted step an event is the one outcome of. */
  function StepSettled(e: Event): Option<nat> {
    match e
    case AdapterAction(step) => Some(step)
    case AdapterError(step) => Some(step)
    case VerificationFailed(step) => Some(step)
    case AdapterTimeout(step) => Some(step)
    case _ => None
  }

  function CollectorSettled(e: Event): Option<string> {
    match e
    case Collected(collector, _) => Some(collector)
    case CollectorError(collector) => Some(collector)
    case CollectorTimeout(collector) => Some(collector)
    case _ => None
  }

  const STEP_SETTLED := (e: Event) => StepSettled(e)
  const COLLECTOR_SETTLED := (e: Event) => CollectorSettled(e)
  const STEP_TIMEOUT := (step: nat) => AdapterTimeout(step)
  const COLLECTOR_TIMEOUT := (collector: string) => CollectorTimeout(collector)

  // ---- state ----------------------------------------------------------------------------

  datatype Collector = Collector(name: string, interval: real)
  datatype ScenarioStep = ScenarioStep(at: real, coordinateOnly: bool)

  const STEP_TIME := (s: ScenarioStep) => s.at

  /** The steps are the scenario's, sorted by their time. */
  datatype Config = Config(
    collectors: seq<Collector>, steps: seq<ScenarioStep>, collectorTimeout: real, actionTimeout: real,
    cancelInterval: real, heartbeatInterval: real, started: real)

  datatype Submission = Submission(name: string, at: real, interval: real)

  /** The last four fields only record: what was submitted when, when checkpoints were written, and the time
      of the last pass. A collector without an entry in `due` is due from the start. */
  datatype State = State(
    active: seq<Flight<string>>, timedOut: set<string>, due: map<string, real>,
    scenarioActive: seq<Flight<nat>>, scenarioTimedOut: set<nat>, nextStep: nat,
    stop: bool, lastCancelCheck: real, lastHeartbeat: real, events: seq<Event>,
    collected: seq<Submission>, launched: seq<Flight<nat>>, checkpoints: seq<real>, clock: real)

  /** One pass of the loop: the time it reads, whether a cancel is on record, and which work has come back. */
  datatype Tick = Tick(
    now: real, cancelRequested: bool, collectors: map<string, CollectResult>, steps: map<nat, StepResult>)

  function Initial(c: Config): State {
    State([], {}, map[], [], {}, 0, false, c.started, c.started, [], [], [], [], c.started)
  }

  function CollectorResults(results: map<string, CollectResult>): map<string, seq<Event>> {
    map name | name in results :: CollectEvents(name, results[name])
  }

  function StepResults(c: Config, results: map<nat, StepResult>): map<nat, seq<Event>> {
    map step | step in results && step < |c.steps| :: OutcomeEvents(step, c.steps[step].coordinateOnly, results[step])
  }

  // ---- the parts of a pass -----------------------------------------------------------------

  function CancelPolled(c: Config, s: State, t: Tick): State {
    if t.now - s.lastCancelCheck >= c.cancelInterval
    then s.(lastCancelCheck := t.now, stop := s.stop || t.cancelRequested)
    else s
  }

  function CollectorsSwept(c: Config, s: State, t: Tick): State {
    var swept := Sweep(s.active, s.timedOut, CollectorResults(t.collectors), COLLECTOR_TIMEOUT,
        t.now, c.collectorTimeout);
    s.(active := swept.still, timedOut := swept.late, events := s.events + swept.events)
  }

  function DueAt(c: Config, s: State, name: string): real {
    if name in s.due then s.due[name] else c.started
  }

  function CollectorSubmitted(c: Config, s: State, collector: Collector, now: real): State {
    if now >= DueAt(c, s, collector.name) && collector.name !in Keys(s.active) then
      s.(active := s.active + [Flight(collector.name, now)],
         due := s.due[collector.name := now + collector.interval],
         collected := s.collected + [Submission(collector.name, now, collector.interval)])
    else s
  }

  function CollectorsSubmitted(c: Config, s: State, upto: nat, now: real): State
    requires upto <= |c.collectors|
  {
    if upto == 0 then s
    else CollectorSubmitted(c, CollectorsSubmitted(c, s, upto - 1, now), c.collectors[upto - 1], now)
  }

  function StepsSwept(c: Config, s: State, t: Tick): State {
    var swept := Sweep(s.scenarioActive, s.scenarioTimedOut, StepResults(c, t.steps), STEP_TIMEOUT,
        t.now, c.actionTimeout);
    s.(scenarioActive := swept.still, scenarioTimedOut := swept.late, events := s.events + swept.events)
  }

  function Launched(s: State, f: Flight<nat>): State {
    s.(scenarioActive := s.scenarioActive + [f], launched := s.launched + [f], nextStep := s.nextStep + 1)
  }

  function StepsLaunched(c: Config, s: State, now: real): State
    decreases |c.steps| - s.nextStep
  {
    if s.nextStep < |c.steps| && now - c.started >= c.steps[s.nextStep].at then
      StepsLaunched(c, Launched(s, Flight(s.nextStep, now)), now)
    else s
  }

  function Checkpointed(c: Config, s: State, now: real): State {
    if now - s.lastHeartbeat >= c.heartbeatInterval
    then s.(lastHeartbeat := now, checkpoints := s.checkpoints + [now])
    else s
  }

  /** One pass; a cancel that is seen ends it before anything else. */
  function Ticked(c: Config, s: State, t: Tick): State {
    var polled := CancelPolled(c, s, t).(clock := t.now);
    if polled.stop then polled
    else
      var submitted := CollectorsSubmitted(c, CollectorsSwept(c, polled, t), |c.collectors|, t.now);
      Checkpointed(c, StepsLaunched(c, StepsSwept(c, submitted, t), t.now), t.now)
  }

  /** The passes until the run is told to stop. */
  function TickedAll(c: Config, ticks: seq<Tick>): State {
    if ticks == [] then Initial(c) else
      var s := TickedAll(c, ticks[..|ticks| - 1]);
      if s.stop then s else Ticked(c, s, ticks[|ticks| - 1])
  }

  /** The end of the run: work that is not in `collectors` or `steps` was cancelled before it started. */
  function Finished(c: Config, s: State, collectors: map<string, CollectResult>, steps: map<nat, StepResult>): State {
    s.(events := s.events + Drained(s.active, s.timedOut, CollectorResults(collectors))
                 + Drained(s.scenarioActive, s.scenarioTimedOut, StepResults(c, steps)))
  }

  datatype RunStatus = Completed | Interrupted

  // ---- the runner -----------------------------------------------------------------------------

  class TestRunner {
    const config: Config
    var active: seq<Flight<string>>
    var timedOut: set<string>
    var due: map<string, real>
    var scenarioActive: seq<Flight<nat>>
    var scenarioTimedOut: set<nat>
    var nextStep: nat
    var stop: bool
    var lastCancelCheck: real
    var lastHeartbeat: real
    var events: seq<Event>
    ghost var collected: seq<Submission>
    ghost var launched: seq<Flight<nat>>
    ghost var checkpoints: seq<real>
    ghost var clock: real

    ghost function View(): State
      reads this
    {
      State(active, timedOut, due, scenarioActive, scenarioTimedOut, nextStep, stop, lastCancelCheck, lastHeartbeat,
            events, collected, launched, checkpoints, clock)
    }

    constructor (collectors: seq<Collector>, scenario: seq<ScenarioStep>, collectorTimeout: real, actionTimeout: real,
                 cancelInterval: real, heartbeatInterval: real, started: real)
      ensures config == Config(collectors, SortBy(scenario, STEP_TIME), collectorTimeout,
                               actionTimeout, cancelInterval, heartbeatInterval, started)
      ensures View() == Initial(config)
    {
      config := Config(collectors, SortBy(scenario, STEP_TIME), collectorTimeout, actionTimeout,
                       cancelInterval, heartbeatInterval, started);
      active, timedOut, due, scenarioActive, scenarioTimedOut, nextStep := [], {}, map[], [], {}, 0;
      stop, lastCancelCheck, lastHeartbeat, events := false, started, started, [];
      collected, launched, checkpoints, clock := [], [], [], started;
    }

    method SweepCollectors(t: Tick)
      modifies this
      ensures View() == CollectorsSwept(config, old(View()), t)
    {
      var written;
      active, timedOut, written :=
        SweepInOrder(active, timedOut, CollectorResults(t.collectors), COLLECTOR_TIMEOUT,
                     t.now, config.collectorTimeout);
      events := events + written;
    }

    method SubmitCollectors(now: real)
      modifies this
      ensures View() == CollectorsSubmitted(config, old(View()), |config.collectors|, now)
    {
      hide Keys;
      for k := 0 to |config.collectors|
        invariant View() == CollectorsSubmitted(config, old(View()), k, now)
      {
        var collector := config.collectors[k];
        var dueAt := if collector.name in due then due[collector.name] else config.started;
        if now >= dueAt && collector.name !in Keys(active) {
          active := active + [Flight(collector.name, now)];
          due := due[collector.name := now + collector.interval];
          collected := collected + [Submission(collector.name, now, collector.interval)];
        }
      }
    }

    method SweepSteps(t: Tick)
      modifies this
      ensures View() == StepsSwept(config, old(View()), t)
    {
      var written;
      scenarioActive, scenarioTimedOut, written :=
        SweepInOrder(scenarioActive, scenarioTimedOut, StepResults(config, t.steps), STEP_TIMEOUT,
                     t.now, config.actionTimeout);
      events := events + written;
    }

    method LaunchSteps(now: real)
      modifies this
      ensures View() == StepsLaunched(config, old(View()), now)
    {
      while nextStep < |config.steps| && now - config.started >= config.steps[nextStep].at
        invariant StepsLaunched(config, View(), now) == StepsLaunched(config, old(View()), now)
        decreases |config.steps| - nextStep
      {
        scenarioActive := scenarioActive + [Flight(nextStep, now)];
        launched := launched + [Flight(nextStep, now)];
        nextStep := nextStep + 1;
      }
    }

    method Pass(t: Tick)
      modifies this
      ensures View() == Ticked(config, old(View()), t)
    {
      hide CollectorsSwept, CollectorsSubmitted, StepsSwept, StepsLaunched;
      clock := t.now;
      if t.now - lastCancelCheck >= config.cancelInterval {
        lastCancelCheck := t.now;
        if t.cancelRequested {
          stop := true;
        }
      }
      if stop {
        return;
      }
      SweepCollectors(t);
      SubmitCollectors(t.now);
      SweepSteps(t);
      LaunchSteps(t.now);
      if t.now - lastHeartbeat >= config.heartbeatInterval {
        lastHeartbeat := t.now;
        checkpoints := checkpoints + [t.now];
      }
    }

    /** The loop and the drain; `collectors` and `steps` are what came back while waiting at the end. */
    method Run(ticks: seq<Tick>, collectors: map<string, CollectResult>, steps: map<nat, StepResult>)
      returns (status: RunStatus)
      requires View() == Initial(config)
      modifies this
      ensures View() == Finished(config, TickedAll(config, ticks), collectors, steps)
      ensures status == if TickedAll(config, ticks).stop then Interrupted else Completed
    {
      hide Ticked;
      for k := 0 to |ticks|
        invariant View() == TickedAll(config, ticks[..k])
      {
        assert ticks[..k + 1][..k] == ticks[..k];
        if stop {
          StoppedForGood(config, ticks, k);
          break;
        }
        Pass(ticks[k]);
      }
      assert ticks[..|ticks|] == ticks;
      var drained := Drain(active, timedOut, CollectorResults(collectors));
      events := events + drained;
      drained := Drain(scenarioActive, scenarioTimedOut, StepResults(config, steps));
      events := events + drained;
      return if stop then Interrupted else Completed;
    }
  }

  lemma {:induction false} StoppedForGood(c: Config, ticks: seq<Tick>, k: nat)
    requires k <= |ticks| && TickedAll(c, ticks[..k]).stop
    ensures TickedAll(c, ticks) == TickedAll(c, ticks[..k])
  {
    if k < |ticks| {
      assert ticks[..|ticks| - 1][..k] == ticks[..k];
      StoppedForGood(c, ticks[..|ticks| - 1], k);
    } else {
      assert ticks[..k] == ticks;
    }
  }

  // ---- accounting ----------------------------------------------------------------------------

  /** How often a collector was submitted. */
  function Submissions(collected: seq<Submission>, name: string): nat {
    if collected == [] then 0
    else Submissions(collected[..|collected| - 1], name) + if collected[|collected| - 1].name == name then 1 else 0
  }

  /** Every submission of a collector is settled by one event, or still open. */
  ghost predicate CollectorsBalance(s: State) {
    && Distinct(s.active) && s.timedOut <= Keys(s.active)
    && forall name :: Settled(s.events, COLLECTOR_SETTLED, name) + Open(s.active, s.timedOut, name)
                      == Submissions(s.collected, name)
  }

  /** Every step submitted so far is settled by one event, or still open; no other step is either. */
  ghost predicate StepsBalance(s: State) {
    && Distinct(s.scenarioActive) && s.scenarioTimedOut <= Keys(s.scenarioActive)
    && (forall step :: step in Keys(s.scenarioActive) ==> step < s.nextStep)
    && forall step: nat :: Settled(s.events, STEP_SETTLED, step) + Open(s.scenarioActive, s.scenarioTimedOut, step)
                           == if step < s.nextStep then 1 else 0
  }

  lemma OutcomeSettles(step: nat, coordinateOnly: bool, result: StepResult, other: nat, collector: string)
    ensures var events := OutcomeEvents(step, coordinateOnly, result);
            && Settled(events, STEP_SETTLED, other) == (if other == step then 1 else 0)
            && Settled(events, COLLECTOR_SETTLED, collector) == 0
  {
    hide StepSettled, CollectorSettled, Settled;
    Outcomes(step, coordinateOnly);
    if result.Returned? && result.lookup.Some? {
      LookupSettles(step, coordinateOnly, result.lookup.value, STEP_SETTLED, other);
      LookupSettles(step, coordinateOnly, result.lookup.value, COLLECTOR_SETTLED, collector);
    } else {
      var events := OutcomeEvents(step, coordinateOnly, result);
      SettledFew(events, STEP_SETTLED, other);
      SettledFew(events, COLLECTOR_SETTLED, collector);
    }
  }

  /** Which events a finished step leaves: an action if it returned, a failed verification or an error by what
      it raised, a fallback if it was found by its coordinate, stale unless that was intended, and the cost of
      the screen dumps whether or not it found what it looked for. */
  lemma OutcomeKinds(step: nat, coordinateOnly: bool, result: StepResult)
    ensures var events := OutcomeEvents(step, coordinateOnly, result);
            var blind := result.Returned? && result.lookup.Some? && result.lookup.value.byCoordinates;
            && (AdapterAction(step) in events <==> result.Returned?)
            && (VerificationFailed(step) in events <==> result.RaisedVerification?)
            && (AdapterError(step) in events <==> result.RaisedOther?)
            && (forall expected :: SelectorFallback(step, expected) in events <==> blind && expected == coordinateOnly)
            && (SelectorStale(step) in events <==> blind && !coordinateOnly)
            && (UiIntrospection(step) in events <==> match result
                  case RaisedVerification(dumps) => dumps > 0
                  case RaisedOther => false
                  case Returned(lookup) => lookup.Some? && lookup.value.dumps > 0)
  {
    var events := OutcomeEvents(step, coordinateOnly, result);
    if result.Returned? && result.lookup.Some? {
      var lookup := result.lookup.value;
      var found := if lookup.byCoordinates
        then [SelectorFallback(step, coordinateOnly)] + if coordinateOnly then [] else [SelectorStale(step)]
        else [];
      var looked := if lookup.dumps > 0 then [UiIntrospection(step)] else [];
      assert events == found + looked + [AdapterAction(step)];
      assert forall e :: e in events <==> e in found || e in looked || e == AdapterAction(step);
    }
  }

  /** A collector that returned leaves its samples, all of them, and one that raised an error; nothing else. */
  lemma CollectKinds(collector: string, result: CollectResult)
    ensures var events := CollectEvents(collector, result);
            && |events| == 1
            && (events[0] == CollectorError(collector) <==> result == CollectRaised)
            && (forall n :: events[0] == Collected(collector, n) <==> result == Samples(n))
  {}

  /** Of a lookup's events only the last one can settle anything. */
  lemma LookupSettles<K>(step: nat, coordinateOnly: bool, lookup: Lookup, settles: Event -> Option<K>, key: K)
    requires settles(SelectorFallback(step, coordinateOnly)) == settles(SelectorStale(step)) == None
    requires settles(UiIntrospection(step)) == None
    ensures Settled(OutcomeEvents(step, coordinateOnly, Returned(Some(lookup))), settles, key)
            == if settles(AdapterAction(step)) == Some(key) then 1 else 0
  {
    hide Settled;
    var found := if lookup.byCoordinates
      then [SelectorFallback(step, coordinateOnly)] + if coordinateOnly then [] else [SelectorStale(step)]
      else [];
    var looked := if lookup.dumps > 0 then [UiIntrospection(step)] else [];
    SettledParts(found, looked, AdapterAction(step), settles, key);
  }

  lemma Outcomes(step: nat, expected: bool)
    ensures StepSettled(SelectorFallback(step, expected)) == StepSettled(SelectorStale(step)) == None
    ensures StepSettled(UiIntrospection(step)) == None
    ensures StepSettled(AdapterAction(step)) == StepSettled(AdapterError(step)) == Some(step)
    ensures StepSettled(VerificationFailed(step)) == Some(step)
    ensures CollectorSettled(SelectorFallback(step, expected)) == CollectorSettled(SelectorStale(step)) == None
    ensures CollectorSettled(UiIntrospection(step)) == CollectorSettled(AdapterAction(step)) == None
    ensures CollectorSettled(AdapterError(step)) == CollectorSettled(VerificationFailed(step)) == None
  {}

  lemma SettledFew<K, E>(events: seq<E>, settles: E -> Option<K>, key: K)
    requires |events| <= 2
    ensures Settled(events, settles, key)
            == (if |events| > 0 && settles(events[0]) == Some(key) then 1 else 0)
               + (if |events| > 1 && settles(events[1]) == Some(key) then 1 else 0)
  {
    if |events| == 2 {
      var front := events[..1];
      assert front[..0] == [];
    } else if |events| == 1 {
      assert events[..0] == [];
    }
  }

  lemma SettledParts<K, E>(a: seq<E>, b: seq<E>, e: E, settles: E -> Option<K>, key: K)
    requires |a| <= 2 && |b| <= 1
    ensures Settled(a + b + [e], settles, key)
            == (if |a| > 0 && settles(a[0]) == Some(key) then 1 else 0)
               + (if |a| > 1 && settles(a[1]) == Some(key) then 1 else 0)
               + (if |b| > 0 && settles(b[0]) == Some(key) then 1 else 0)
               + (if settles(e) == Some(key) then 1 else 0)
  {
    hide Settled;
    SettledOne(a + b, e, settles, key);
    SettledConcat(a, b, settles, key);
    SettledFew(a, settles, key);
    SettledFew(b, settles, key);
  }

  lemma CollectSettles(collector: string, result: CollectResult, other: string, step: nat)
    ensures var events := CollectEvents(collector, result);
            && Settled(events, COLLECTOR_SETTLED, other) == (if other == collector then 1 else 0)
            && Settled(events, STEP_SETTLED, step) == 0
  {
    var events := CollectEvents(collector, result);
    assert events[..0] == [];
  }

  lemma ResultsSettleTheirOwn(c: Config, collectors: map<string, CollectResult>, steps: map<nat, StepResult>)
    ensures SettlesItsOwn(CollectorResults(collectors), COLLECTOR_SETTLED)
    ensures Silent(CollectorResults(collectors), STEP_SETTLED)
    ensures SettlesItsOwn(StepResults(c, steps), STEP_SETTLED)
    ensures Silent(StepResults(c, steps), COLLECTOR_SETTLED)
  {
    hide OutcomeEvents, CollectEvents, Settled;
    forall name, other | name in collectors
      ensures Settled(CollectorResults(collectors)[name], COLLECTOR_SETTLED, other) == if other == name then 1 else 0
    {
      CollectSettles(name, collectors[name], other, 0);
    }
    forall name, step: nat | name in collectors
      ensures Settled(CollectorResults(collectors)[name], STEP_SETTLED, step) == 0
    {
      CollectSettles(name, collectors[name], name, step);
    }
    forall step: nat, other: nat | step in StepResults(c, steps)
      ensures Settled(StepResults(c, steps)[step], STEP_SETTLED, other) == if other == step then 1 else 0
    {
      OutcomeSettles(step, c.steps[step].coordinateOnly, steps[step], other, "");
    }
    forall step: nat, name | step in StepResults(c, steps)
      ensures Settled(StepResults(c, steps)[step], COLLECTOR_SETTLED, name) == 0
    {
      OutcomeSettles(step, c.steps[step].coordinateOnly, steps[step], step, name);
    }
  }

  lemma CollectorsSweptBalances(c: Config, s: State, t: Tick)
    requires CollectorsBalance(s) && StepsBalance(s)
    ensures CollectorsBalance(CollectorsSwept(c, s, t)) && StepsBalance(CollectorsSwept(c, s, t))
  {
    hide Settled, Distinct, Keys, Sweep, CollectorResults;
    var results := CollectorResults(t.collectors);
    ResultsSettleTheirOwn(c, t.collectors, map[]);
    SweepKeeps(s.active, s.timedOut, results, COLLECTOR_TIMEOUT, t.now, c.collectorTimeout, COLLECTOR_SETTLED);
    var swept := Sweep(s.active, s.timedOut, results, COLLECTOR_TIMEOUT, t.now, c.collectorTimeout);
    forall name
      ensures Settled(s.events + swept.events, COLLECTOR_SETTLED, name)
              == Settled(s.events, COLLECTOR_SETTLED, name) + Settled(swept.events, COLLECTOR_SETTLED, name)
    {
      SettledConcat(s.events, swept.events, COLLECTOR_SETTLED, name);
    }
    forall step: nat
      ensures Settled(s.events + swept.events, STEP_SETTLED, step) == Settled(s.events, STEP_SETTLED, step)
    {
      SettledConcat(s.events, swept.events, STEP_SETTLED, step);
      SweepIsSilent(s.active, s.timedOut, results, COLLECTOR_TIMEOUT, t.now, c.collectorTimeout, STEP_SETTLED, step);
    }
  }

  lemma StepsSweptBalances(c: Config, s: State, t: Tick)
    requires CollectorsBalance(s) && StepsBalance(s)
    ensures CollectorsBalance(StepsSwept(c, s, t)) && StepsBalance(StepsSwept(c, s, t))
  {
    hide Settled, Distinct, Keys, Sweep, StepResults;
    var results := StepResults(c, t.steps);
    ResultsSettleTheirOwn(c, map[], t.steps);
    SweepKeeps(s.scenarioActive, s.scenarioTimedOut, results, STEP_TIMEOUT, t.now, c.actionTimeout, STEP_SETTLED);
    var swept := Sweep(s.scenarioActive, s.scenarioTimedOut, results, STEP_TIMEOUT, t.now, c.actionTimeout);
    forall step: nat
      ensures Settled(s.events + swept.events, STEP_SETTLED, step)
              == Settled(s.events, STEP_SETTLED, step) + Settled(swept.events, STEP_SETTLED, step)
    {
      SettledConcat(s.events, swept.events, STEP_SETTLED, step);
    }
    forall name
      ensures Settled(s.events + swept.events, COLLECTOR_SETTLED, name) == Settled(s.events, COLLECTOR_SETTLED, name)
    {
      SettledConcat(s.events, swept.events, COLLECTOR_SETTLED, name);
      SweepIsSilent(s.scenarioActive, s.scenarioTimedOut, results, STEP_TIMEOUT, t.now, c.actionTimeout,
                    COLLECTOR_SETTLED, name);
    }
  }

  lemma SubmissionsNext(collected: seq<Submission>, e: Submission, name: string)
    ensures Submissions(collected + [e], name) == Submissions(collected, name) + if e.name == name then 1 else 0
  {
    assert (collected + [e])[..|collected|] == collected;
  }

  lemma SubmittedBalances(c: Config, s: State, collector: Collector, now: real)
    requires CollectorsBalance(s) && StepsBalance(s)
    ensures CollectorsBalance(CollectorSubmitted(c, s, collector, now))
            && StepsBalance(CollectorSubmitted(c, s, collector, now))
  {
    hide Settled, Distinct, Keys, Submissions;
    KeysNext(s.active, Flight(collector.name, now));
    forall name
      ensures Submissions(s.collected + [Submission(collector.name, now, collector.interval)], name)
              == Submissions(s.collected, name) + if collector.name == name then 1 else 0
    {
      SubmissionsNext(s.collected, Submission(collector.name, now, collector.interval), name);
    }
  }

  lemma {:induction false} AllSubmittedBalances(c: Config, s: State, upto: nat, now: real)
    requires upto <= |c.collectors| && CollectorsBalance(s) && StepsBalance(s)
    ensures CollectorsBalance(CollectorsSubmitted(c, s, upto, now))
            && StepsBalance(CollectorsSubmitted(c, s, upto, now))
  {
    if upto > 0 {
      hide CollectorsBalance, StepsBalance, CollectorSubmitted;
      AllSubmittedBalances(c, s, upto - 1, now);
      SubmittedBalances(c, CollectorsSubmitted(c, s, upto - 1, now), c.collectors[upto - 1], now);
    }
  }

  lemma LaunchedBalances(s: State, now: real)
    requires CollectorsBalance(s) && StepsBalance(s)
    ensures CollectorsBalance(Launched(s, Flight(s.nextStep, now)))
            && StepsBalance(Launched(s, Flight(s.nextStep, now)))
  {
    hide Settled, Distinct, Keys, Submissions;
    KeysNext(s.scenarioActive, Flight(s.nextStep, now));
  }

  lemma {:induction false} AllLaunchedBalances(c: Config, s: State, now: real)
    requires CollectorsBalance(s) && StepsBalance(s)
    ensures CollectorsBalance(StepsLaunched(c, s, now)) && StepsBalance(StepsLaunched(c, s, now))
    decreases |c.steps| - s.nextStep
  {
    hide CollectorsBalance, StepsBalance;
    if s.nextStep < |c.steps| && now - c.started >= c.steps[s.nextStep].at {
      LaunchedBalances(s, now);
      AllLaunchedBalances(c, Launched(s, Flight(s.nextStep, now)), now);
    }
  }

  lemma OtherFieldsBalance(s: State, t: State)
    requires s.active == t.active && s.timedOut == t.timedOut && s.scenarioActive == t.scenarioActive
    requires s.scenarioTimedOut == t.scenarioTimedOut && s.nextStep == t.nextStep
    requires s.events == t.events && s.collected == t.collected
    ensures CollectorsBalance(s) == CollectorsBalance(t) && StepsBalance(s) == StepsBalance(t)
  {
    hide Settled, Distinct, Keys, Submissions, Open;
  }

  lemma TickBalances(c: Config, s: State, t: Tick)
    requires CollectorsBalance(s) && StepsBalance(s)
    ensures CollectorsBalance(Ticked(c, s, t)) && StepsBalance(Ticked(c, s, t))
  {
    hide CollectorsBalance, StepsBalance, CollectorsSwept, CollectorsSubmitted, StepsSwept, StepsLaunched;
    var polled := CancelPolled(c, s, t).(clock := t.now);
    OtherFieldsBalance(s, polled);
    if !polled.stop {
      var swept := CollectorsSwept(c, polled, t);
      CollectorsSweptBalances(c, polled, t);
      var submitted := CollectorsSubmitted(c, swept, |c.collectors|, t.now);
      AllSubmittedBalances(c, swept, |c.collectors|, t.now);
      var checked := StepsSwept(c, submitted, t);
      StepsSweptBalances(c, submitted, t);
      var launched := StepsLaunched(c, checked, t.now);
      AllLaunchedBalances(c, checked, t.now);
      OtherFieldsBalance(launched, Checkpointed(c, launched, t.now));
    }
  }

  lemma {:induction false} RunBalances(c: Config, ticks: seq<Tick>)
    ensures CollectorsBalance(TickedAll(c, ticks)) && StepsBalance(TickedAll(c, ticks))
  {
    if ticks != [] {
      hide CollectorsBalance, StepsBalance, Ticked;
      RunBalances(c, ticks[..|ticks| - 1]);
      if !TickedAll(c, ticks[..|ticks| - 1]).stop {
        TickBalances(c, TickedAll(c, ticks[..|ticks| - 1]), ticks[|ticks| - 1]);
      }
    }
  }

  /** The step was submitted, was neither done nor late when the loop ended, and was then cancelled. */
  predicate StepDropped(s: State, steps: map<nat, StepResult>, step: nat) {
    Open(s.scenarioActive, s.scenarioTimedOut, step) == 1 && step !in steps
  }

  predicate CollectorDropped(s: State, collectors: map<string, CollectResult>, name: string) {
    Open(s.active, s.timedOut, name) == 1 && name !in collectors
  }

  /** Over the whole run, loop and drain: every step that was submitted has exactly one of adapter_action,
      adapter_error, verification_failed and adapter_timeout, unless it was cancelled before it started; every
      other step has none. The same holds of every collector's submissions. */
  lemma EverySubmissionIsSettled(
      c: Config, ticks: seq<Tick>, collectors: map<string, CollectResult>, steps: map<nat, StepResult>,
      step: nat, name: string)
    requires step < |c.steps|
    ensures var s := TickedAll(c, ticks);
            var events := Finished(c, s, collectors, steps).events;
            && Settled(events, STEP_SETTLED, step)
               == (if step < s.nextStep && !StepDropped(s, steps, step) then 1 else 0)
            && Settled(events, COLLECTOR_SETTLED, name)
               == Submissions(s.collected, name) - (if CollectorDropped(s, collectors, name) then 1 else 0)
  {
    RunBalances(c, ticks);
    hide TickedAll, Settled, Distinct, Keys, Submissions, Drained;
    var s := TickedAll(c, ticks);
    ResultsSettleTheirOwn(c, collectors, steps);
    var fromCollectors := Drained(s.active, s.timedOut, CollectorResults(collectors));
    var fromSteps := Drained(s.scenarioActive, s.scenarioTimedOut, StepResults(c, steps));
    SettledConcat(s.events + fromCollectors, fromSteps, STEP_SETTLED, step);
    SettledConcat(s.events, fromCollectors, STEP_SETTLED, step);
    SettledConcat(s.events + fromCollectors, fromSteps, COLLECTOR_SETTLED, name);
    SettledConcat(s.events, fromCollectors, COLLECTOR_SETTLED, name);
    DrainSettles(s.active, s.timedOut, CollectorResults(collectors), COLLECTOR_SETTLED, name);
    DrainIsSilent(s.active, s.timedOut, CollectorResults(collectors), STEP_SETTLED, step);
    DrainSettles(s.scenarioActive, s.scenarioTimedOut, StepResults(c, steps), STEP_SETTLED, step);
    DrainIsSilent(s.scenarioActive, s.scenarioTimedOut, StepResults(c, steps), COLLECTOR_SETTLED, name);
  }

  // ---- rates -----------------------------------------------------------------------------------

  /** The clock never runs backwards: each pass reads a time no earlier than the one before, and no more than
      `gap` later. */
  ghost predicate Paced(c: Config, ticks: seq<Tick>, gap: real) {
    forall i :: 0 <= i < |ticks| ==> InTime(c, ticks, gap, i)
  }

  predicate InTime(c: Config, ticks: seq<Tick>, gap: real, i: nat)
    requires i < |ticks|
  {
    LastPass(c, ticks, i) <= ticks[i].now <= LastPass(c, ticks, i) + gap
  }

  function LastPass(c: Config, ticks: seq<Tick>, i: nat): real
    requires i <= |ticks|
  {
    if i == 0 then c.started else ticks[i - 1].now
  }

  lemma PacedFront(c: Config, ticks: seq<Tick>, gap: real)
    requires Paced(c, ticks, gap) && ticks != []
    ensures Paced(c, ticks[..|ticks| - 1], gap)
  {
    var front := ticks[..|ticks| - 1];
    forall i | 0 <= i < |front|
      ensures InTime(c, front, gap, i)
    {
      assert InTime(c, ticks, gap, i);
      assert LastPass(c, front, i) == LastPass(c, ticks, i) && front[i] == ticks[i];
    }
  }

  /** Steps are submitted once each, in their order, and none before its time. */
  ghost predicate OnSchedule(c: Config, s: State) {
    && s.nextStep == |s.launched| <= |c.steps|
    && forall i :: 0 <= i < |s.launched| ==>
         && s.launched[i].key == i
         && s.launched[i].submitted - c.started >= c.steps[i].at
         && s.launched[i].submitted <= s.clock
         && (i > 0 ==> s.launched[i - 1].submitted <= s.launched[i].submitted)
  }

  /** Two submissions of one collector are at least the earlier one's interval apart, and the next one will be. */
  ghost predicate Spaced(c: Config, s: State) {
    && (forall i, j :: 0 <= i < j < |s.collected| && s.collected[i].name == s.collected[j].name ==>
          s.collected[j].at >= s.collected[i].at + s.collected[i].interval)
    && (forall i :: 0 <= i < |s.collected| ==>
          var e := s.collected[i];
          s.clock >= e.at + e.interval || DueAt(c, s, e.name) >= e.at + e.interval)
  }

  function Times(k: nat, interval: real): real {
    k as real * interval
  }

  lemma OneMore(k: nat, interval: real)
    ensures Times(k + 1, interval) == Times(k, interval) + interval && Times(0, interval) == 0.0
  {}

  /** So many checkpoints took so long. */
  ghost predicate Beats(c: Config, s: State) {
    && c.started <= s.lastHeartbeat <= s.clock
    && Times(|s.checkpoints|, c.heartbeatInterval) <= s.lastHeartbeat - c.started
    && s.lastHeartbeat == if s.checkpoints == [] then c.started else s.checkpoints[|s.checkpoints| - 1]
  }

  /** The checkpoint before the i-th, or the start. */
  function LastBeat(c: Config, checkpoints: seq<real>, i: nat): real
    requires i <= |checkpoints|
  {
    if i == 0 then c.started else checkpoints[i - 1]
  }

  /** Neither between two checkpoints nor since the last one has more than an interval and a gap gone by. */
  ghost predicate Fresh(c: Config, s: State, gap: real) {
    && (forall i :: 0 <= i < |s.checkpoints| ==>
          s.checkpoints[i] - LastBeat(c, s.checkpoints, i) <= c.heartbeatInterval + gap)
    && s.clock - s.lastHeartbeat <= if s.stop then c.heartbeatInterval + gap else c.heartbeatInterval
  }

  ghost predicate Rates(c: Config, s: State) {
    OnSchedule(c, s) && Spaced(c, s) && Beats(c, s)
  }

  lemma CollectorSubmittedSpaces(c: Config, s: State, collector: Collector)
    requires Spaced(c, s)
    ensures Spaced(c, CollectorSubmitted(c, s, collector, s.clock))
  {
    hide Keys;
  }

  lemma {:induction false} CollectorsSubmittedSpace(c: Config, s: State, upto: nat)
    requires upto <= |c.collectors| && Spaced(c, s)
    ensures Spaced(c, CollectorsSubmitted(c, s, upto, s.clock))
    ensures var r := CollectorsSubmitted(c, s, upto, s.clock);
            r == s.(active := r.active, due := r.due, collected := r.collected)
  {
    if upto > 0 {
      hide Spaced, Keys;
      CollectorsSubmittedSpace(c, s, upto - 1);
      CollectorSubmittedSpaces(c, CollectorsSubmitted(c, s, upto - 1, s.clock), c.collectors[upto - 1]);
    }
  }

  lemma LaunchedOnSchedule(c: Config, s: State)
    requires OnSchedule(c, s) && s.nextStep < |c.steps| && s.clock - c.started >= c.steps[s.nextStep].at
    ensures OnSchedule(c, Launched(s, Flight(s.nextStep, s.clock)))
  {}

  lemma {:induction false} StepsLaunchedOnSchedule(c: Config, s: State)
    requires OnSchedule(c, s)
    ensures var r := StepsLaunched(c, s, s.clock);
            && OnSchedule(c, r)
            && r == s.(scenarioActive := r.scenarioActive, launched := r.launched, nextStep := r.nextStep)
            && (r.nextStep < |c.steps| ==> s.clock - c.started < c.steps[r.nextStep].at)
    decreases |c.steps| - s.nextStep
  {
    if s.nextStep < |c.steps| && s.clock - c.started >= c.steps[s.nextStep].at {
      LaunchedOnSchedule(c, s);
      hide OnSchedule;
      StepsLaunchedOnSchedule(c, Launched(s, Flight(s.nextStep, s.clock)));
    }
  }

  /** A pass that takes place writes a checkpoint exactly when the last one is an interval or more ago. */
  lemma CheckpointIff(c: Config, s: State, t: Tick)
    requires !Ticked(c, s, t).stop
    ensures var r := Ticked(c, s, t);
            if t.now >= s.lastHeartbeat + c.heartbeatInterval
            then r.checkpoints == s.checkpoints + [t.now] && r.lastHeartbeat == t.now
            else r.checkpoints == s.checkpoints && r.lastHeartbeat == s.lastHeartbeat
  {
    hide CollectorsSubmitted, StepsLaunched, CollectorResults, StepResults, Sweep;
    var polled := CancelPolled(c, s, t).(clock := t.now);
    var swept := CollectorsSwept(c, polled, t);
    SubmittingKeepsBeats(c, swept, |c.collectors|, t.now);
    LaunchingKeepsBeats(c, StepsSwept(c, CollectorsSubmitted(c, swept, |c.collectors|, t.now), t), t.now);
  }

  lemma CheckpointedBeats(c: Config, s: State)
    requires Beats(c, s)
    ensures Beats(c, Checkpointed(c, s, s.clock))
  {
    hide Times;
    OneMore(|s.checkpoints|, c.heartbeatInterval);
  }

  /** Everything due by the time of the pass has been submitted. */
  ghost predicate Prompt(c: Config, s: State) {
    s.nextStep < |c.steps| ==> s.clock - c.started < c.steps[s.nextStep].at
  }

  lemma SameSchedule(c: Config, s: State, r: State)
    requires OnSchedule(c, s) && s.clock <= r.clock && r.launched == s.launched && r.nextStep == s.nextStep
    ensures OnSchedule(c, r)
  {}

  lemma SameSpacing(c: Config, s: State, r: State)
    requires Spaced(c, s) && s.clock <= r.clock && r.collected == s.collected && r.due == s.due
    ensures Spaced(c, r)
  {}

  lemma SameBeats(c: Config, s: State, r: State)
    requires Beats(c, s) && s.clock <= r.clock && r.checkpoints == s.checkpoints && r.lastHeartbeat == s.lastHeartbeat
    ensures Beats(c, r)
  {
    hide Times;
  }

  lemma TickKeepsRates(c: Config, s: State, t: Tick)
    requires Rates(c, s) && s.clock <= t.now
    ensures Rates(c, Ticked(c, s, t)) && Ticked(c, s, t).clock == t.now
    ensures Ticked(c, s, t).stop || Prompt(c, Ticked(c, s, t))
  {
    hide CollectorsSubmitted, StepsLaunched, CollectorResults, StepResults, Sweep, OnSchedule, Spaced, Beats;
    var polled := CancelPolled(c, s, t).(clock := t.now);
    if polled.stop {
      SameSchedule(c, s, polled);
      SameSpacing(c, s, polled);
      SameBeats(c, s, polled);
    } else {
      var swept := CollectorsSwept(c, polled, t);
      SameSpacing(c, s, swept);
      CollectorsSubmittedSpace(c, swept, |c.collectors|);
      var submitted := CollectorsSubmitted(c, swept, |c.collectors|, t.now);
      var checked := StepsSwept(c, submitted, t);
      SameSchedule(c, s, checked);
      StepsLaunchedOnSchedule(c, checked);
      var launched := StepsLaunched(c, checked, t.now);
      SameBeats(c, s, launched);
      CheckpointedBeats(c, launched);
      SameSchedule(c, launched, Checkpointed(c, launched, t.now));
      SameSpacing(c, submitted, Checkpointed(c, launched, t.now));
    }
  }

  /** What holds of every run, whatever comes back when, as long as the clock does not run backwards. */
  lemma {:induction false} RunKeepsRates(c: Config, ticks: seq<Tick>, gap: real)
    requires Paced(c, ticks, gap)
    ensures var s := TickedAll(c, ticks);
            && Rates(c, s)
            && (s.stop || s.clock == LastPass(c, ticks, |ticks|))
            && (s.stop || ticks == [] || Prompt(c, s))
  {
    if ticks == [] {
      OneMore(0, c.heartbeatInterval);
    } else {
      hide Rates, Ticked, Prompt, Paced;
      var front := ticks[..|ticks| - 1];
      PacedFront(c, ticks, gap);
      RunKeepsRates(c, front, gap);
      NextPass(c, ticks, gap);
      if !TickedAll(c, front).stop {
        TickKeepsRates(c, TickedAll(c, front), ticks[|ticks| - 1]);
      }
    }
  }

  /** While the run goes on, the steps submitted are exactly those whose time has come. */
  lemma SubmittedWhenDue(c: Config, ticks: seq<Tick>, gap: real, step: nat)
    requires Paced(c, ticks, gap) && ticks != [] && !TickedAll(c, ticks).stop && step < |c.steps|
    requires forall i, j :: 0 <= i < j < |c.steps| ==> c.steps[i].at <= c.steps[j].at
    ensures step < TickedAll(c, ticks).nextStep <==> c.steps[step].at <= ticks[|ticks| - 1].now - c.started
  {
    hide TickedAll, Paced;
    RunKeepsRates(c, ticks, gap);
    var s := TickedAll(c, ticks);
    if step < s.nextStep {
      assert s.launched[step].submitted <= s.clock;
    } else {
      assert c.steps[s.nextStep].at <= c.steps[step].at;
    }
  }

  /** So many checkpoints never come in less than so many intervals. */
  lemma CheckpointRate(c: Config, ticks: seq<Tick>, gap: real)
    requires Paced(c, ticks, gap)
    ensures var s := TickedAll(c, ticks);
            |s.checkpoints| as real * c.heartbeatInterval <= s.clock - c.started
  {
    hide TickedAll, Paced;
    RunKeepsRates(c, ticks, gap);
  }

  lemma TickKeepsFresh(c: Config, s: State, t: Tick, gap: real)
    requires Beats(c, s) && Fresh(c, s, gap) && !s.stop
    requires s.clock <= t.now <= s.clock + gap && c.heartbeatInterval >= 0.0
    ensures Fresh(c, Ticked(c, s, t), gap)
  {
    hide CollectorsSubmitted, StepsLaunched, CollectorResults, StepResults, Sweep, Times;
    var polled := CancelPolled(c, s, t).(clock := t.now);
    if !polled.stop {
      var submitted := CollectorsSubmitted(c, CollectorsSwept(c, polled, t), |c.collectors|, t.now);
      var launched := StepsLaunched(c, StepsSwept(c, submitted, t), t.now);
      SubmittingKeepsBeats(c, CollectorsSwept(c, polled, t), |c.collectors|, t.now);
      LaunchingKeepsBeats(c, StepsSwept(c, submitted, t), t.now);
      assert launched.checkpoints == s.checkpoints && launched.lastHeartbeat == s.lastHeartbeat;
      assert !launched.stop;
      NextBeat(c, s, t.now, gap);
    }
  }

  lemma NextBeat(c: Config, s: State, now: real, gap: real)
    requires Beats(c, s) && Fresh(c, s, gap) && !s.stop && s.clock <= now <= s.clock + gap
    ensures var more := s.checkpoints + [now];
            forall i :: 0 <= i < |more| ==> more[i] - LastBeat(c, more, i) <= c.heartbeatInterval + gap
  {
    hide Times;
    var more := s.checkpoints + [now];
    forall i | 0 <= i < |more|
      ensures more[i] - LastBeat(c, more, i) <= c.heartbeatInterval + gap
    {
      if i < |s.checkpoints| {
        assert more[i] == s.checkpoints[i] && LastBeat(c, more, i) == LastBeat(c, s.checkpoints, i);
      } else {
        assert LastBeat(c, more, i) == s.lastHeartbeat;
      }
    }
  }

  lemma {:induction false} SubmittingKeepsBeats(c: Config, s: State, upto: nat, now: real)
    requires upto <= |c.collectors|
    ensures var r := CollectorsSubmitted(c, s, upto, now);
            && r.checkpoints == s.checkpoints && r.lastHeartbeat == s.lastHeartbeat
            && r.lastCancelCheck == s.lastCancelCheck && r.stop == s.stop && r.clock == s.clock
  {
    if upto > 0 {
      hide Keys;
      SubmittingKeepsBeats(c, s, upto - 1, now);
    }
  }

  lemma {:induction false} LaunchingKeepsBeats(c: Config, s: State, now: real)
    ensures var r := StepsLaunched(c, s, now);
            && r.checkpoints == s.checkpoints && r.lastHeartbeat == s.lastHeartbeat
            && r.lastCancelCheck == s.lastCancelCheck && r.stop == s.stop && r.clock == s.clock
    decreases |c.steps| - s.nextStep
  {
    if s.nextStep < |c.steps| && now - c.started >= c.steps[s.nextStep].at {
      LaunchingKeepsBeats(c, Launched(s, Flight(s.nextStep, now)), now);
    }
  }

  /** While the loop runs and no pass comes more than `gap` after the one before, neither two checkpoints nor the
      last one and the clock are further apart than the interval and one gap. */
  lemma {:induction false} HeartbeatStaysFresh(c: Config, ticks: seq<Tick>, gap: real)
    requires Paced(c, ticks, gap) && gap >= 0.0 && c.heartbeatInterval >= 0.0
    ensures Fresh(c, TickedAll(c, ticks), gap)
    ensures c.heartbeatInterval == 1.0 && gap < 119.0 ==>
              TickedAll(c, ticks).clock - TickedAll(c, ticks).lastHeartbeat < Tables.ABANDONED_RUN_SECONDS
  {
    hide Ticked, Fresh, Rates, Paced;
    if ticks == [] {
      FreshAtStart(c, gap);
    } else {
      var front := ticks[..|ticks| - 1];
      PacedFront(c, ticks, gap);
      HeartbeatStaysFresh(c, front, gap);
      RunKeepsRates(c, front, gap);
      NextPass(c, ticks, gap);
      if !TickedAll(c, front).stop {
        RatesBeat(c, TickedAll(c, front));
        TickKeepsFresh(c, TickedAll(c, front), ticks[|front|], gap);
      }
    }
    FreshEnough(c, TickedAll(c, ticks), gap);
  }

  lemma FreshAtStart(c: Config, gap: real)
    requires c.heartbeatInterval >= 0.0
    ensures Fresh(c, Initial(c), gap)
  {}

  lemma RatesBeat(c: Config, s: State)
    requires Rates(c, s)
    ensures Beats(c, s)
  {}

  lemma NextPass(c: Config, ticks: seq<Tick>, gap: real)
    requires Paced(c, ticks, gap) && ticks != []
    ensures var n := |ticks| - 1;
            LastPass(c, ticks[..n], n) <= ticks[n].now <= LastPass(c, ticks[..n], n) + gap
  {
    assert InTime(c, ticks, gap, |ticks| - 1);
    assert LastPass(c, ticks[..|ticks| - 1], |ticks| - 1) == LastPass(c, ticks, |ticks| - 1);
  }

  lemma FreshEnough(c: Config, s: State, gap: real)
    requires Fresh(c, s, gap) && gap >= 0.0
    ensures s.clock - s.lastHeartbeat <= c.heartbeatInterval + gap
  {}

  /** The run's row after its checkpoints: before the first one it is the row as it was claimed. */
  function Stored(c: Config, row: Tables.Run, checkpoints: seq<real>): Tables.Run {
    if checkpoints == [] then row else
      var last := checkpoints[|checkpoints| - 1];
      Tables.UpdatedRun(Stored(c, row, checkpoints[..|checkpoints| - 1]), last, Tables.Running,
                        Some(last - c.started), None)
  }

  lemma StoredIsSeen(c: Config, row: Tables.Run, checkpoints: seq<real>)
    requires row.status == Tables.Running
    ensures Stored(c, row, checkpoints).status == Tables.Running
    ensures Tables.LastSeen(Stored(c, row, checkpoints))
            == if checkpoints == [] then Tables.LastSeen(row) else Some(checkpoints[|checkpoints| - 1])
    ensures checkpoints != [] ==>
              Stored(c, row, checkpoints).checkpoint == Some(checkpoints[|checkpoints| - 1] - c.started)
  {}

  /** At any moment after the last pass, the drain and the quieting of the device included, the sign of life in
      the table is at most this old: what it was when the loop started if no checkpoint was written yet, one
      interval, the longest pass, and the time since the last pass. As long as that stays within 120 seconds no
      sweep takes the run for abandoned. */
  lemma SignOfLifeAges(c: Config, ticks: seq<Tick>, gap: real, row: Tables.Run, at: real)
    requires Paced(c, ticks, gap) && gap >= 0.0 && c.heartbeatInterval >= 0.0
    requires row.status == Tables.Running && Tables.LastSeen(row).Some? && Tables.LastSeen(row).value <= c.started
    requires TickedAll(c, ticks).clock <= at
    ensures var s := TickedAll(c, ticks);
            var lead := if s.checkpoints == [] then c.started - Tables.LastSeen(row).value else 0.0;
            var age := lead + c.heartbeatInterval + gap + (at - s.clock);
            var stored := Stored(c, row, s.checkpoints);
            && Tables.LastSeen(stored).Some? && at - Tables.LastSeen(stored).value <= age
            && (age <= Tables.ABANDONED_RUN_SECONDS ==> !Tables.RunStale(stored, at - Tables.ABANDONED_RUN_SECONDS))
  {
    HeartbeatStaysFresh(c, ticks, gap);
    RunKeepsRates(c, ticks, gap);
    StoredIsSeen(c, row, TickedAll(c, ticks).checkpoints);
    hide TickedAll, Stored, Paced, Times, OnSchedule, Spaced;
  }

  // ---- cancelling ---------------------------------------------------------------------------------

  lemma TickPolls(c: Config, s: State, t: Tick)
    requires s.clock <= t.now && s.lastCancelCheck <= s.clock
    ensures var r := Ticked(c, s, t);
            && r.lastCancelCheck <= r.clock == t.now
            && r.stop == (s.stop || (t.cancelRequested && t.now - s.lastCancelCheck >= c.cancelInterval))
            && (t.cancelRequested ==> r.stop || r.lastCancelCheck == s.lastCancelCheck)
  {
    hide CollectorsSubmitted, StepsLaunched, CollectorResults, StepResults, Sweep;
    var polled := CancelPolled(c, s, t).(clock := t.now);
    if !polled.stop {
      var submitted := CollectorsSubmitted(c, CollectorsSwept(c, polled, t), |c.collectors|, t.now);
      SubmittingKeepsBeats(c, CollectorsSwept(c, polled, t), |c.collectors|, t.now);
      LaunchingKeepsBeats(c, StepsSwept(c, submitted, t), t.now);
    }
  }

  lemma {:induction false} PolledInThePast(c: Config, ticks: seq<Tick>, gap: real)
    requires Paced(c, ticks, gap)
    ensures TickedAll(c, ticks).lastCancelCheck <= TickedAll(c, ticks).clock
  {
    hide Ticked, Paced, Rates, Prompt;
    if ticks != [] {
      var front := ticks[..|ticks| - 1];
      PacedFront(c, ticks, gap);
      PolledInThePast(c, front, gap);
      RunKeepsRates(c, front, gap);
      NextPass(c, ticks, gap);
      if !TickedAll(c, front).stop {
        TickPolls(c, TickedAll(c, front), ticks[|front|]);
      }
    }
  }

  lemma {:induction false} NotPolledSince(c: Config, ticks: seq<Tick>, gap: real, k: nat)
    requires Paced(c, ticks, gap) && k <= |ticks|
    requires forall i :: k <= i < |ticks| ==> ticks[i].cancelRequested
    ensures TickedAll(c, ticks).stop || TickedAll(c, ticks).lastCancelCheck <= LastPass(c, ticks, k)
  {
    hide Ticked, Paced, Rates, Prompt;
    if k == |ticks| {
      PolledInThePast(c, ticks, gap);
      RunKeepsRates(c, ticks, gap);
    } else {
      var front := ticks[..|ticks| - 1];
      PacedFront(c, ticks, gap);
      NotPolledSince(c, front, gap, k);
      assert LastPass(c, front, k) == LastPass(c, ticks, k);
      PolledInThePast(c, front, gap);
      RunKeepsRates(c, front, gap);
      NextPass(c, ticks, gap);
      if !TickedAll(c, front).stop {
        TickPolls(c, TickedAll(c, front), ticks[|front|]);
      }
    }
  }

  /** A cancel that is on record from pass k on stops the run by the first pass that comes an interval of
      cancel checks after the pass before k; from then on nothing is submitted, nor anything else done. */
  lemma CancelStopsRun(c: Config, ticks: seq<Tick>, gap: real, k: nat)
    requires Paced(c, ticks, gap) && k < |ticks|
    requires forall i :: k <= i < |ticks| ==> ticks[i].cancelRequested
    requires ticks[|ticks| - 1].now - LastPass(c, ticks, k) >= c.cancelInterval
    ensures TickedAll(c, ticks).stop
    ensures forall more: seq<Tick> :: TickedAll(c, ticks + more) == TickedAll(c, ticks)
  {
    var front := ticks[..|ticks| - 1];
    PacedFront(c, ticks, gap);
    hide Ticked, Paced, Rates, Prompt;
    NotPolledSince(c, front, gap, k);
    assert LastPass(c, front, k) == LastPass(c, ticks, k);
    PolledInThePast(c, front, gap);
    RunKeepsRates(c, front, gap);
    NextPass(c, ticks, gap);
    if !TickedAll(c, front).stop {
      TickPolls(c, TickedAll(c, front), ticks[|front|]);
    }
    forall more: seq<Tick>
      ensures TickedAll(c, ticks + more) == TickedAll(c, ticks)
    {
      assert (ticks + more)[..|ticks|] == ticks;
      StoppedForGood(c, ticks + more, |ticks|);
    }
  }
}

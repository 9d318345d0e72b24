/** Walking one scenario on a device and grading how each of its targets was found. */
module Grading {
  import opened Sorting
  import opened Wrappers

  datatype Status = Matched | Fallback | Missing | Error | NotApplicable | Unreliable | ByDesign

  predicate Degraded(s: Status) {
    s in {Fallback, Missing, Error}
  }

  /** What a tap on it leaves behind: the app is no longer known to be on the intended screen. */
  predicate LosesTheScreen(s: Status) {
    s in {Fallback, ByDesign, Missing, Error}
  }

  /** Selectors are numbered in the order they are tried. */
  datatype Target = Target(name: string, selectors: nat, hasCoordinate: bool, coordinateOnly: bool)

  /** One screen dump: it fails, or shows some number of nodes, among them one for each selector of the
      target at hand that is in `found`. */
  datatype Reading = DumpFailed | Nodes(count: nat, found: set<nat>)

  datatype VerifyOutcome = VerificationError | OtherError | Returned(verified: Option<bool>)

  datatype VerifyResult = Passed | Failed | Unknown

  /** What the device does while a tap is performed. */
  datatype Observation = Observation(
    locked: Option<bool>, first: Reading, second: Reading, third: Reading, tapFails: bool)

  datatype Step =
    | TapElement(at: real, target: Target, seen: Observation)
    | Verify(at: real, action: string, outcome: VerifyOutcome)
    | Navigate(at: real)

  datatype TargetCheck = TargetCheck(scenario: string, at: real, target: string, status: Status)

  datatype VerificationCheck = VerificationCheck(scenario: string, at: real, action: string, result: VerifyResult)

  datatype ScenarioReport = ScenarioReport(
    scenario: string, targets: seq<TargetCheck>, verifications: seq<VerificationCheck>)
  {
    predicate Ok() {
      && (forall i :: 0 <= i < |targets| ==> !Degraded(targets[i].status))
      && (forall i :: 0 <= i < |verifications| ==> verifications[i].result != Failed)
    }
  }

  // ---- one target --------------------------------------------------------------------

  /** The first read that fails or agrees with the one before on the number of nodes decides; with none, the last
      one does. No attempts at all leave an empty screen that no dump failed on. */
  method SettledNodes(readings: seq<Reading>) returns (found: set<nat>, dumpFailed: bool, ghost at: nat)
    ensures readings == [] ==> found == {} && !dumpFailed
    ensures readings != [] ==>
              && at < |readings|
              && (forall j :: 0 <= j < at ==> readings[j].Nodes?)
              && (forall j :: 0 < j < at ==> readings[j].count != readings[j - 1].count)
              && (at < |readings| - 1 ==>
                    readings[at].DumpFailed? || (at > 0 && readings[at].count == readings[at - 1].count))
              && dumpFailed == readings[at].DumpFailed?
              && found == if readings[at].Nodes? then readings[at].found else {}
  {
    var previous := None;
    found, at := {}, 0;
    for i := 0 to |readings|
      invariant i == 0 ==> previous == None && found == {}
      invariant i > 0 ==> readings[i - 1].Nodes? && previous == Some(readings[i - 1].count)
                          && found == readings[i - 1].found
      invariant forall j :: 0 <= j < i ==> readings[j].Nodes?
      invariant forall j :: 0 < j < i ==> readings[j].count != readings[j - 1].count
    {
      if readings[i].DumpFailed? {
        return {}, true, i;
      }
      found := readings[i].found;
      if previous == Some(readings[i].count) {
        return found, false, i;
      }
      previous := Some(readings[i].count);
    }
    return found, false, if readings == [] then 0 else |readings| - 1;
  }

  /** The polling of SettledNodes over the three attempts a target gets. */
  function Settled(seen: Observation): Reading {
    if seen.first.DumpFailed? || seen.second.DumpFailed? then DumpFailed
    else if seen.first.count == seen.second.count then seen.second
    else seen.third
  }

  /** A screen is read when the first two dumps succeed: as the second of two that agree on how many nodes there
      are, or as the third dump when they do not. */
  lemma SettledMeans(seen: Observation)
    ensures seen.first == DumpFailed || seen.second == DumpFailed ==> Settled(seen) == DumpFailed
    ensures seen.first.Nodes? && seen.second.Nodes? ==>
              Settled(seen) == if seen.first.count == seen.second.count then seen.second else seen.third
  {}

  datatype Resolution = BySelector(index: nat) | ByCoordinates

  /** The first selector that finds a node, else the coordinate, else nothing. */
  method Resolve(target: Target, found: set<nat>) returns (resolution: Option<Resolution>)
    ensures resolution == Resolved(target, found)
  {
    for index := 0 to target.selectors
      invariant forall i :: 0 <= i < index ==> i !in found
    {
      if index in found {
        FirstFound(target.selectors, found, index);
        return Some(BySelector(index));
      }
    }
    return if target.hasCoordinate then Some(ByCoordinates) else None;
  }

  function Resolved(target: Target, found: set<nat>): Option<Resolution> {
    if i :| 0 <= i < target.selectors && i in found && forall j :: 0 <= j < i ==> j !in found then Some(BySelector(i))
    else if target.hasCoordinate then Some(ByCoordinates)
    else None
  }

  lemma FirstFound(selectors: nat, found: set<nat>, index: nat)
    requires index < selectors && index in found && forall i :: 0 <= i < index ==> i !in found
    ensures forall i :: 0 <= i < selectors && i in found && (forall j :: 0 <= j < i ==> j !in found) ==> i == index
  {}

  function StatusOf(target: Target, introspectable: bool, seen: Observation): Status {
    if !introspectable then NotApplicable else
      var settled := Settled(seen);
      match Resolved(target, if settled.Nodes? then settled.found else {})
      case None => Missing
      case Some(resolution) =>
        if seen.tapFails then Error
        else if resolution.BySelector? then Matched
        else if target.coordinateOnly && settled.Nodes? then ByDesign
        else Fallback
  }

  method CheckTarget(scenario: string, at: real, target: Target, introspectable: bool, seen: Observation)
    returns (check: TargetCheck)
    ensures check == TargetCheck(scenario, at, target.name, StatusOf(target, introspectable, seen))
  {
    if !introspectable {
      return TargetCheck(scenario, at, target.name, NotApplicable);
    }
    hide Resolved;
    var readings := [seen.first, seen.second, seen.third];
    var found, dumpFailed, _ := SettledNodes(readings);
    assert readings[0] == seen.first && readings[1] == seen.second && readings[2] == seen.third;
    var resolution := Resolve(target, found);
    var status :=
      if resolution == None then Missing
      else if seen.tapFails then Error
      else if resolution.value.BySelector? then Matched
      else if target.coordinateOnly && !dumpFailed then ByDesign
      else Fallback;
    return TargetCheck(scenario, at, target.name, status);
  }

  /** A selector of the target finds a node on a screen that could be read. */
  predicate Found(target: Target, seen: Observation) {
    Settled(seen).Nodes? && exists i :: 0 <= i < target.selectors && i in Settled(seen).found
  }

  /** What each grade says about the device, whichever selector it was that matched: nothing to tap is
      missing whatever the tap would do, a tap that fails is an error however the target was found, and only
      a target that is found by no selector is fallen back on, by design if the screen could be read. */
  lemma GradeMeans(target: Target, seen: Observation)
    ensures StatusOf(target, true, seen)
            == if !Found(target, seen) && !target.hasCoordinate then Missing
               else if seen.tapFails then Error
               else if Found(target, seen) then Matched
               else if target.coordinateOnly && Settled(seen).Nodes? then ByDesign
               else Fallback
  {
    var settled := Settled(seen);
    var found := if settled.Nodes? then settled.found else {};
    if i :| 0 <= i < target.selectors && i in found {
      var first := LeastFound(target.selectors, found, i);
      FirstFound(target.selectors, found, first);
      assert Resolved(target, found) == Some(BySelector(first));
    }
  }

  lemma {:induction false} LeastFound(selectors: nat, found: set<nat>, index: nat) returns (first: nat)
    requires index < selectors && index in found
    ensures first < selectors && first in found && forall j :: 0 <= j < first ==> j !in found
  {
    if j :| 0 <= j < index && j in found {
      first := LeastFound(selectors, found, j);
    } else {
      first := index;
    }
  }

  /** A screen that could not be read is never held against a target drawn by the app itself as if it
      had been looked for: with a coordinate it is graded as fallen back, without one as missing. */
  lemma UnreadScreen(target: Target, seen: Observation)
    requires Settled(seen).DumpFailed? && !seen.tapFails
    ensures StatusOf(target, true, seen) == if target.hasCoordinate then Fallback else Missing
  {}

  // ---- one scenario --------------------------------------------------------------------

  function ResultOf(outcome: VerifyOutcome): VerifyResult {
    match outcome
    case VerificationError => Failed
    case OtherError => Unknown
    case Returned(None) => Unknown
    case Returned(Some(_)) => Passed
  }

  /** The check that a verification step leaves: failed when the step said so, passed when it reported a state,
      unknown when it broke or reported none. */
  ghost predicate Records(check: VerificationCheck, scenario: string, step: Step) {
    && step.Verify? && check.scenario == scenario && check.at == step.at && check.action == step.action
    && (check.result == Failed <==> step.outcome == VerificationError)
    && (check.result == Passed <==> step.outcome.Returned? && step.outcome.verified.Some?)
    && (check.result == Unknown <==> step.outcome == OtherError || step.outcome == Returned(None))
  }

  /** How many of the steps are of a kind. */
  function CountSteps(steps: seq<Step>, kind: Step -> bool): nat {
    if steps == [] then 0
    else CountSteps(steps[..|steps| - 1], kind) + if kind(steps[|steps| - 1]) then 1 else 0
  }

  /** Each verification step leaves its check, in the order of the steps, and nothing else leaves one. */
  lemma {:induction false} VerificationsAre(scenario: string, steps: seq<Step>)
    ensures |Verifications(scenario, steps)| == CountSteps(steps, (s: Step) => s.Verify?)
    ensures forall k :: 0 <= k < |steps| && steps[k].Verify? ==>
              var before := CountSteps(steps[..k], (s: Step) => s.Verify?);
              && before < |Verifications(scenario, steps)|
              && Records(Verifications(scenario, steps)[before], scenario, steps[k])
  {
    if steps != [] {
      var front := steps[..|steps| - 1];
      VerificationsAre(scenario, front);
      forall k | 0 <= k < |steps| && steps[k].Verify?
        ensures var before := CountSteps(steps[..k], (s: Step) => s.Verify?);
                before < |Verifications(scenario, steps)|
                && Records(Verifications(scenario, steps)[before], scenario, steps[k])
      {
        if k < |front| {
          assert front[..k] == steps[..k] && front[k] == steps[k];
        } else {
          assert steps[..k] == front;
        }
      }
    }
  }

  function Taps(steps: seq<Step>): seq<Step> {
    if steps == [] then [] else
      var last := steps[|steps| - 1];
      Taps(steps[..|steps| - 1]) + if last.TapElement? then [last] else []
  }

  function Verifications(scenario: string, steps: seq<Step>): seq<VerificationCheck> {
    if steps == [] then [] else
      var last := steps[|steps| - 1];
      Verifications(scenario, steps[..|steps| - 1])
      + if last.Verify? then [VerificationCheck(scenario, last.at, last.action, ResultOf(last.outcome))] else []
  }

  /** The taps are the steps that tap an element, in their order. */
  lemma {:induction false} TapsAre(steps: seq<Step>)
    ensures |Taps(steps)| == CountSteps(steps, (s: Step) => s.TapElement?)
    ensures forall k :: 0 <= k < |steps| && steps[k].TapElement? ==>
              var before := CountSteps(steps[..k], (s: Step) => s.TapElement?);
              before < |Taps(steps)| && Taps(steps)[before] == steps[k]
  {
    if steps != [] {
      var front := steps[..|steps| - 1];
      TapsAre(front);
      forall k | 0 <= k < |steps| && steps[k].TapElement?
        ensures var before := CountSteps(steps[..k], (s: Step) => s.TapElement?);
                before < |Taps(steps)| && Taps(steps)[before] == steps[k]
      {
        if k < |front| {
          assert front[..k] == steps[..k] && front[k] == steps[k];
        } else {
          assert steps[..k] == front;
        }
      }
    }
  }

  /** The first `graded` taps were graded, each by what the device showed, and none of them found the
      device locked; all but perhaps the last of these kept the screen; the rest are not graded. */
  ghost predicate GradedUntil(checks: seq<TargetCheck>, scenario: string, taps: seq<Step>,
        introspectable: bool, graded: nat) {
    && |checks| == |taps| >= graded
    && (forall i :: 0 <= i < |taps| ==>
          && taps[i].TapElement? && checks[i].scenario == scenario
          && checks[i].at == taps[i].at && checks[i].target == taps[i].target.name)
    && (forall i :: 0 <= i < graded ==>
          && taps[i].TapElement? && taps[i].seen.locked != Some(true)
          && checks[i].status == StatusOf(taps[i].target, introspectable, taps[i].seen)
          && (i < graded - 1 ==> !LosesTheScreen(checks[i].status)))
    && (forall i :: graded <= i < |taps| ==> checks[i].status == Unreliable)
  }

  /** Why grading stopped after `graded` taps: the last of them lost the screen, or the next one found the
      device locked. */
  ghost predicate ScreenLost(checks: seq<TargetCheck>, taps: seq<Step>, graded: nat) {
    || (0 < graded <= |checks| && LosesTheScreen(checks[graded - 1].status))
    || (graded < |taps| && taps[graded].TapElement? && taps[graded].seen.locked == Some(true))
  }

  lemma NextTap(checks: seq<TargetCheck>, scenario: string, taps: seq<Step>, introspectable: bool, graded: nat,
                tap: Step, check: TargetCheck, lost: bool)
    requires GradedUntil(checks, scenario, taps, introspectable, graded) && tap.TapElement?
    requires ScreenLost(checks, taps, graded) || graded == |checks|
    requires lost <==> ScreenLost(checks, taps, graded) || tap.seen.locked == Some(true)
    requires check == TargetCheck(scenario, tap.at, tap.target.name,
                                  if lost then Unreliable else StatusOf(tap.target, introspectable, tap.seen))
    ensures var next := if lost then graded else graded + 1;
            && GradedUntil(checks + [check], scenario, taps + [tap], introspectable, next)
            && (ScreenLost(checks + [check], taps + [tap], next) <==> lost || LosesTheScreen(check.status))
            && (lost || next == |checks| + 1)
  {
    hide StatusOf, LosesTheScreen;
  }

  const STEP_TIME := (s: Step) => s.at

  /** Only a keyguard that is surely up stops the grading: an unknown one does not. */
  method CheckScenario(scenario: string, script: seq<Step>, introspectable: bool)
    returns (report: ScenarioReport, ghost graded: nat)
    ensures report.scenario == scenario
    ensures report.verifications == Verifications(scenario, SortBy(script, STEP_TIME))
    ensures var taps := Taps(SortBy(script, STEP_TIME));
            && GradedUntil(report.targets, scenario, taps, introspectable, graded)
            && (graded < |taps| ==> ScreenLost(report.targets, taps, graded))
  {
    hide StatusOf, SortBy, LosesTheScreen, GradedUntil, ScreenLost;
    var steps := SortBy(script, STEP_TIME);
    var targets, verifications, lostTheScreen := [], [], false;
    graded := 0;
    NothingTapped(scenario, introspectable);
    for k := 0 to |steps|
      invariant GradedUntil(targets, scenario, Taps(steps[..k]), introspectable, graded)
      invariant lostTheScreen <==> ScreenLost(targets, Taps(steps[..k]), graded)
      invariant lostTheScreen || graded == |targets|
      invariant verifications == Verifications(scenario, steps[..k])
    {
      var step := steps[k];
      assert steps[..k + 1][..k] == steps[..k] && steps[..k + 1][k] == step;
      assert Taps(steps[..k]) + [] == Taps(steps[..k]);
      match step {
        case TapElement(at, target, seen) =>
          if !lostTheScreen && seen.locked == Some(true) {
            lostTheScreen := true;
          }
          ghost var lost := lostTheScreen || seen.locked == Some(true);
          var check;
          if lostTheScreen {
            check := TargetCheck(scenario, at, target.name, Unreliable);
          } else {
            check := CheckTarget(scenario, at, target, introspectable, seen);
            lostTheScreen := LosesTheScreen(check.status);
          }
          NextTap(targets, scenario, Taps(steps[..k]), introspectable, graded, step, check, lost);
          targets := targets + [check];
          graded := if lost then graded else graded + 1;
        case Verify(at, action, outcome) =>
          verifications := verifications + [VerificationCheck(scenario, at, action, ResultOf(outcome))];
        case Navigate(_) =>
      }
    }
    assert steps[..|steps|] == steps;
    report := ScenarioReport(scenario, targets, verifications);
    Counted(targets, scenario, Taps(steps), introspectable, graded);
  }

  lemma NothingTapped(scenario: string, introspectable: bool)
    ensures GradedUntil([], scenario, [], introspectable, 0) && !ScreenLost([], [], 0)
  {}

  lemma Counted(checks: seq<TargetCheck>, scenario: string, taps: seq<Step>, introspectable: bool, graded: nat)
    requires GradedUntil(checks, scenario, taps, introspectable, graded)
    ensures |checks| == |taps|
  {}

  /** The statuses of a report read (MATCHED or NOT_APPLICABLE)*, at most one that loses the screen,
      then UNRELIABLE*; so at most one check of a report is degraded. */
  lemma StatusesRead(checks: seq<TargetCheck>, scenario: string, taps: seq<Step>, introspectable: bool, graded: nat)
    requires GradedUntil(checks, scenario, taps, introspectable, graded)
    ensures forall i :: 0 <= i < |checks| && i < graded - 1 ==> checks[i].status in {Matched, NotApplicable}
    ensures graded > 0 ==> checks[graded - 1].status != Unreliable
    ensures forall i :: graded <= i < |checks| ==> checks[i].status == Unreliable
    ensures forall i, j :: 0 <= i < j < |checks| ==> !Degraded(checks[i].status) || !Degraded(checks[j].status)
    ensures forall i, j :: 0 <= i < j < |checks| && LosesTheScreen(checks[i].status) ==> checks[j].status == Unreliable
  {
    hide Settled, Resolved;
  }

  /** A platform that publishes no user interface has nothing graded against it. */
  lemma NotIntrospectable(checks: seq<TargetCheck>, scenario: string, taps: seq<Step>, graded: nat)
    requires GradedUntil(checks, scenario, taps, false, graded)
    requires graded < |taps| ==> ScreenLost(checks, taps, graded)
    ensures forall i :: 0 <= i < |checks| ==> checks[i].status in {NotApplicable, Unreliable}
    ensures (forall i :: 0 <= i < |taps| && taps[i].TapElement? ==> taps[i].seen.locked != Some(true))
            ==> graded == |taps|
  {}
}

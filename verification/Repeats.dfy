/** Per-scenario stability of a repeat campaign. */
module Repeats {
  import opened Analyzer
  import opened Sorting
  import Statistics
  import opened Tables
  import opened Wrappers

  datatype Child = Child(id: string, device: string, scenario: Option<string>, status: Status)

  /** A baseline's statistics, with its metrics in their order. */
  datatype Baseline = Baseline(names: seq<string>, stats: map<string, MetricStats>)

  /** What storage knows: the verdict on a run's events, the statistics of its samples, and the baseline of a
      device and scenario. */
  datatype Records = Records(
    verified: string -> bool, statsOf: string -> map<string, MetricStats>,
    baselineOf: (string, string) -> Option<Baseline>)
  {
    ghost predicate Valid() {
      forall device, scenario :: baselineOf(device, scenario).Some? ==>
        var b := baselineOf(device, scenario).value; forall name :: name in b.names ==> name in b.stats
    }
  }

  /** NULL and the empty string are one scenario. */
  const SCENARIO := (r: Child) => if r.scenario.Some? then r.scenario.value else ""

  const ERRORED := (r: Child) => r.status == Failed || r.status == Interrupted
  const PENDING := (r: Child) => !Terminal(r.status)
  const FINISHED := (r: Child) => r.status == Completed

  function Ids(runs: seq<Child>): set<string> {
    set r | r in runs :: r.id
  }

  /** Finished, but not vouched for. */
  function UnverifiedOf(runs: seq<Child>, rec: Records): seq<Child> {
    Filter(Filter(runs, FINISHED), (r: Child) => !rec.verified(r.id))
  }

  /** Finished, and not among the unverified by id. */
  function CompletedOf(runs: seq<Child>, rec: Records): seq<Child> {
    var ids := Ids(UnverifiedOf(runs, rec));
    Filter(Filter(runs, FINISHED), (r: Child) => r.id !in ids)
  }

  /** Some metric that the baseline and the run both have moved beyond the threshold. */
  predicate Regressed(baseline: Option<Baseline>, stats: map<string, MetricStats>, threshold: real) {
    && baseline.Some?
    && var b := baseline.value;
       exists name :: (&& name in b.names && name in b.stats && name in stats
                       && ComparisonOf(name, b.stats[name].mean, stats[name].mean, threshold).regressed)
  }

  /** The same in numbers: a shared metric's mean moved, either way, by more than the threshold's share of the
      baseline's mean, or at all from a mean of zero. */
  lemma RegressedMeans(baseline: Option<Baseline>, stats: map<string, MetricStats>, threshold: real)
    requires baseline.Some? ==> forall name :: name in baseline.value.names ==> name in baseline.value.stats
    ensures Regressed(baseline, stats, threshold)
            <==> && baseline.Some?
                 && exists name :: name in baseline.value.names && name in stats
                                   && Moved(baseline.value.stats[name].mean, stats[name].mean, threshold)
  {
    hide ComparisonOf;
    if baseline.Some? {
      forall name | name in baseline.value.names && name in stats
        ensures ComparisonOf(name, baseline.value.stats[name].mean, stats[name].mean, threshold).regressed
                <==> Moved(baseline.value.stats[name].mean, stats[name].mean, threshold)
      {
        RegressedIff(name, baseline.value.stats[name].mean, stats[name].mean, threshold);
      }
    }
  }

  predicate Moved(before: real, after: real, threshold: real) {
    if before == 0.0 then after != 0.0 else Abs(after - before) * 100.0 > threshold * Abs(before)
  }

  predicate RunRegressed(rec: Records, scenario: string, threshold: real, r: Child) {
    Regressed(rec.baselineOf(r.device, scenario), rec.statsOf(r.id), threshold)
  }

  function RegressedOf(rec: Records, scenario: string, threshold: real): Child -> bool {
    (r: Child) => RunRegressed(rec, scenario, threshold, r)
  }

  datatype Stability = Stability(
    scenario: string, total: nat, pending: nat, completed: nat, unverified: nat, errored: nat, regressed: nat,
    passRate: Option<real>, flaky: bool)

  function StabilityOf(scenario: string, runs: seq<Child>, rec: Records, threshold: real): Stability {
    var completed := CompletedOf(runs, rec);
    var errored, regressed := |Filter(runs, ERRORED)|, |Filter(completed, RegressedOf(rec, scenario, threshold))|;
    var finished, passed := |completed| + errored, |completed| - regressed;
    Stability(
      scenario, |runs|, |Filter(runs, PENDING)|, |completed|, |UnverifiedOf(runs, rec)|, errored, regressed,
      if finished == 0 then None else Some(passed as real / finished as real * 100.0),
      finished > 1 && 0 < passed < finished)
  }

  method Analyse(scenario: string, runs: seq<Child>, rec: Records, threshold: real) returns (s: Stability)
    requires rec.Valid()
    ensures s == StabilityOf(scenario, runs, rec, threshold)
  {
    hide Filter, Regressed, Terminal;
    var errored, pending := Filter(runs, ERRORED), Filter(runs, PENDING);
    var unverified, completed := UnverifiedOf(runs, rec), CompletedOf(runs, rec);
    var regressed := [];
    FilterNothing(completed, RegressedOf(rec, scenario, threshold));
    for k := 0 to |completed|
      invariant regressed == Filter(completed[..k], RegressedOf(rec, scenario, threshold))
    {
      FilterNext(completed, k, RegressedOf(rec, scenario, threshold));
      var worse := AnyRegressed(rec.baselineOf(completed[k].device, scenario), rec.statsOf(completed[k].id), threshold);
      if worse {
        regressed := regressed + [completed[k]];
      }
    }
    assert completed[..|completed|] == completed;
    var finished, passed := |completed| + |errored|, |completed| - |regressed|;
    s := Stability(
      scenario, |runs|, |pending|, |completed|, |unverified|, |errored|, |regressed|,
      if finished == 0 then None else Some(passed as real / finished as real * 100.0),
      finished > 1 && 0 < passed < finished);
  }

  method AnyRegressed(baseline: Option<Baseline>, stats: map<string, MetricStats>, threshold: real)
      returns (worse: bool)
    requires baseline.Some? ==> forall name :: name in baseline.value.names ==> name in baseline.value.stats
    ensures worse == Regressed(baseline, stats, threshold)
  {
    if baseline == None {
      return false;
    }
    hide ComparisonOf;
    var names := baseline.value.names;
    var comparisons := Compare(names, baseline.value.stats, stats, threshold);
    worse := exists i :: 0 <= i < |comparisons| && comparisons[i].regressed;
    forall name
      ensures name in Shared(names, stats) <==> name in names && name in stats
    {
      SharedAre(names, stats, name);
    }
    assert forall i :: 0 <= i < |comparisons| ==> Shared(names, stats)[i] in Shared(names, stats);
  }

  lemma {:induction false} SharedAre(names: seq<string>, candidate: map<string, MetricStats>, name: string)
    ensures name in Shared(names, candidate) <==> name in names && name in candidate
  {
    if names != [] {
      SharedAre(names[..|names| - 1], candidate, name);
      assert names == names[..|names| - 1] + [names[|names| - 1]];
    }
  }

  lemma FilterNothing<T>(s: seq<T>, p: T -> bool)
    ensures Filter(s[..0], p) == []
  {}

  lemma FilterNext<T>(s: seq<T>, k: nat, p: T -> bool)
    requires k < |s|
    ensures Filter(s[..k + 1], p) == Filter(s[..k], p) + if p(s[k]) then [s[k]] else []
  {
    assert s[..k + 1][..k] == s[..k];
  }

  /** One analysis for every scenario, in alphabetical order. */
  method RepeatAnalysis(runs: seq<Child>, rec: Records, threshold: real) returns (scenarios: seq<Stability>)
    requires rec.Valid()
    ensures forall i :: 0 <= i < |scenarios| ==>
              scenarios[i] == StabilityOf(scenarios[i].scenario,
                  Of(runs, scenarios[i].scenario, SCENARIO), rec, threshold)
    ensures forall i, j :: 0 <= i < j < |scenarios| ==> Before(scenarios[i].scenario, scenarios[j].scenario)
    ensures Covers(scenarios, Names(runs, SCENARIO))
  {
    hide StabilityOf, Before, Names, Of;
    var names, grouped := Group(runs, SCENARIO);
    var order := Alphabetical(names);
    AlphabeticalOrders(names);
    StrictlyOrdered(names, order);
    scenarios := [];
    for k := 0 to |order|
      invariant |scenarios| == k
      invariant forall i :: 0 <= i < k ==>
                  && scenarios[i].scenario == order[i]
                  && scenarios[i] == StabilityOf(order[i], Of(runs, order[i], SCENARIO), rec, threshold)
    {
      var s := Analyse(order[k], grouped[order[k]], rec, threshold);
      NameOfStability(order[k], grouped[order[k]], rec, threshold);
      scenarios := scenarios + [s];
    }
    AllNamed(scenarios, order, Names(runs, SCENARIO));
  }

  ghost predicate Covers(scenarios: seq<Stability>, names: set<string>) {
    forall name :: name in names <==> exists i :: 0 <= i < |scenarios| && scenarios[i].scenario == name
  }

  lemma AllNamed(scenarios: seq<Stability>, order: seq<string>, names: set<string>)
    requires |scenarios| == |order| && forall i :: 0 <= i < |order| ==> scenarios[i].scenario == order[i]
    requires forall name :: name in names <==> name in order
    ensures Covers(scenarios, names)
  {}

  lemma NameOfStability(scenario: string, runs: seq<Child>, rec: Records, threshold: real)
    ensures StabilityOf(scenario, runs, rec, threshold).scenario == scenario
  {
    hide Filter, UnverifiedOf, CompletedOf;
  }

  lemma StrictlyOrdered(names: seq<string>, order: seq<string>)
    requires multiset(order) == multiset(names) && |order| == |names|
    requires forall i, j :: 0 <= i < j < |names| ==> names[i] != names[j]
    requires forall i, j :: 0 <= i < j < |order| ==> !Before(order[j], order[i])
    ensures forall i, j :: 0 <= i < j < |order| ==> Before(order[i], order[j])
  {
    DistinctOnce(names);
    forall i, j | 0 <= i < j < |order|
      ensures Before(order[i], order[j])
    {
      BeforeIsTotal(order[i], order[j]);
      if order[i] == order[j] {
        TwiceCounts(order, i, j);
      }
    }
  }

  lemma {:induction false} DistinctOnce(names: seq<string>)
    requires forall i, j :: 0 <= i < j < |names| ==> names[i] != names[j]
    ensures forall name :: multiset(names)[name] <= 1
  {
    if names != [] {
      var front, last := names[..|names| - 1], names[|names| - 1];
      DistinctOnce(front);
      assert names == front + [last];
      assert last !in front;
    }
  }

  lemma TwiceCounts(names: seq<string>, i: nat, j: nat)
    requires i < j < |names| && names[i] == names[j]
    ensures multiset(names)[names[i]] >= 2
  {
    assert names == names[..j] + [names[j]] + names[j + 1..];
    assert names[i] in names[..j];
  }

  // ---- accounting -------------------------------------------------------------------------

  lemma {:induction false} FilterHolds<T>(s: seq<T>, p: T -> bool, x: T)
    ensures x in Filter(s, p) <==> x in s && p(x)
    ensures |Filter(s, p)| <= |s|
  {
    if s != [] {
      FilterHolds(s[..|s| - 1], p, x);
      assert s == s[..|s| - 1] + [s[|s| - 1]];
    }
  }

  lemma {:induction false} SameFilter<T>(s: seq<T>, p: T -> bool, q: T -> bool)
    requires forall x :: x in s ==> p(x) == q(x)
    ensures Filter(s, p) == Filter(s, q)
  {
    if s != [] {
      assert forall x :: x in s[..|s| - 1] ==> x in s;
      SameFilter(s[..|s| - 1], p, q);
    }
  }

  function Not<T>(p: T -> bool): T -> bool {
    (x: T) => !p(x)
  }

  lemma NonEmpty<T>(s: seq<T>)
    ensures |s| > 0 <==> exists x :: x in s
  {
    if |s| > 0 {
      assert s[0] in s;
    }
  }

  lemma {:induction false} FilterSplits<T>(s: seq<T>, p: T -> bool)
    ensures |Filter(s, p)| + |Filter(s, Not(p))| == |s|
  {
    if s != [] {
      FilterSplits(s[..|s| - 1], p);
    }
  }

  /** The completed runs are the finished ones that were vouched for. */
  lemma CompletedAreVerified(runs: seq<Child>, rec: Records)
    ensures CompletedOf(runs, rec) == Filter(Filter(runs, FINISHED), (r: Child) => rec.verified(r.id))
    ensures |CompletedOf(runs, rec)| + |UnverifiedOf(runs, rec)| == |Filter(runs, FINISHED)|
  {
    hide Filter;
    var finished, unverified := Filter(runs, FINISHED), UnverifiedOf(runs, rec);
    var ids := Ids(unverified);
    var outside, vouched, not := (r: Child) => r.id !in ids,
        (r: Child) => rec.verified(r.id), (r: Child) => !rec.verified(r.id);
    assert unverified == Filter(finished, not);
    forall r | r in finished
      ensures outside(r) == vouched(r)
    {
      FilterHolds(finished, not, r);
      if r.id in ids {
        var other :| other in unverified && other.id == r.id;
        FilterHolds(finished, not, other);
      }
    }
    SameFilter(finished, outside, vouched);
    FilterSplits(finished, vouched);
    SameFilter(finished, Not(vouched), not);
  }

  lemma {:induction false} StatusesPartition(runs: seq<Child>)
    ensures |Filter(runs, PENDING)| + |Filter(runs, FINISHED)| + |Filter(runs, ERRORED)| == |runs|
  {
    if runs != [] {
      StatusesPartition(runs[..|runs| - 1]);
    }
  }

  /** Every run of a scenario is counted once: pending, completed, unverified or errored; only completed ones
      can have regressed. */
  lemma EveryRunIsCounted(scenario: string, runs: seq<Child>, rec: Records, threshold: real)
    ensures var s := StabilityOf(scenario, runs, rec, threshold);
            && s.total == s.pending + s.completed + s.unverified + s.errored
            && s.regressed <= s.completed
  {
    hide Filter, CompletedOf, UnverifiedOf;
    StatusesPartition(runs);
    CompletedAreVerified(runs, rec);
    FilterSplits(CompletedOf(runs, rec), RegressedOf(rec, scenario, threshold));
  }

  /** There is a pass rate as soon as a run broke or completed; it is a percentage, and strictly between none
      and all exactly when the scenario is flaky. */
  lemma PassRateMeans(scenario: string, runs: seq<Child>, rec: Records, threshold: real)
    ensures var s := StabilityOf(scenario, runs, rec, threshold);
            && (s.passRate == None <==> s.completed + s.errored == 0)
            && (s.passRate.Some? ==> 0.0 <= s.passRate.value <= 100.0)
            && (s.flaky <==> s.passRate.Some? && 0.0 < s.passRate.value < 100.0)
  {
    hide Filter, CompletedOf, UnverifiedOf;
    EveryRunIsCounted(scenario, runs, rec, threshold);
    var s := StabilityOf(scenario, runs, rec, threshold);
    if s.completed + s.errored > 0 {
      Share(s.completed - s.regressed, s.completed + s.errored);
    }
  }

  lemma Share(part: nat, whole: nat)
    requires part <= whole && whole > 0
    ensures var rate := part as real / whole as real * 100.0;
            0.0 <= rate <= 100.0 && (0.0 < rate <==> 0 < part) && (rate < 100.0 <==> part < whole)
  {
    var q := part as real / whole as real;
    Statistics.QuotientWithin(whole as real, 0.0, part as real, 1.0);
    assert q * whole as real == part as real;
    if q == 0.0 {
      assert part as real == 0.0;
    }
    if q == 1.0 {
      assert part as real == whole as real;
    }
  }

  /** A run that reached its end, was vouched for and kept within the threshold. */
  predicate Passed(scenario: string, rec: Records, threshold: real, r: Child) {
    r.status == Completed && rec.verified(r.id) && !RunRegressed(rec, scenario, threshold, r)
  }

  /** One that broke, or that reached its end, was vouched for and regressed. */
  predicate Failing(scenario: string, rec: Records, threshold: real, r: Child) {
    || r.status == Failed || r.status == Interrupted
    || (r.status == Completed && rec.verified(r.id) && RunRegressed(rec, scenario, threshold, r))
  }

  /** A scenario is flaky exactly when some run of it passed and some run of it failed; runs that are waiting,
      going on or not vouched for say nothing either way. */
  lemma FlakyIff(scenario: string, runs: seq<Child>, rec: Records, threshold: real)
    ensures StabilityOf(scenario, runs, rec, threshold).flaky
            <==> && (exists r :: r in runs && Passed(scenario, rec, threshold, r))
                 && (exists r :: r in runs && Failing(scenario, rec, threshold, r))
  {
    hide Filter, RunRegressed;
    var completed, errored, regressed := CompletedOf(runs, rec), Filter(runs, ERRORED),
        RegressedOf(rec, scenario, threshold);
    CompletedAreVerified(runs, rec);
    FilterSplits(completed, regressed);
    var passing, failing := Filter(completed, Not(regressed)), Filter(completed, regressed);
    forall r
      ensures r in completed <==> r in runs && r.status == Completed && rec.verified(r.id)
      ensures r in passing <==> r in runs && Passed(scenario, rec, threshold, r)
      ensures r in failing || r in errored <==> r in runs && Failing(scenario, rec, threshold, r)
    {
      FilterHolds(runs, FINISHED, r);
      FilterHolds(Filter(runs, FINISHED), (q: Child) => rec.verified(q.id), r);
      FilterHolds(completed, Not(regressed), r);
      FilterHolds(completed, regressed, r);
      FilterHolds(runs, ERRORED, r);
    }
    NonEmpty(passing);
    NonEmpty(failing);
    NonEmpty(errored);
    assert (exists r :: r in failing || r in errored) <==> (exists r :: r in failing) || (exists r :: r in errored);
  }

  /** A run measured against itself never regresses, so the run a baseline was taken from passes. */
  lemma BaselinePassesItself(names: seq<string>, stats: map<string, MetricStats>, threshold: real)
    requires threshold >= 0.0
    ensures !Regressed(Some(Baseline(names, stats)), stats, threshold)
  {
    forall name | name in stats
      ensures !ComparisonOf(name, stats[name].mean, stats[name].mean, threshold).regressed
    {
      RegressedIff(name, stats[name].mean, stats[name].mean, threshold);
    }
  }
}

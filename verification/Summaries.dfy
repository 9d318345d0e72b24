/** Aggregating a preflight's reports per target. */
module Summaries {
  import opened Grading
  import opened Sorting

  /** What all checks of one target add up to; checks that were not graded are only counted. */
  datatype Entry = Entry(
    checked: nat, matched: nat, unreliable: nat, statuses: set<Status>, scenarios: set<string>)

  const NOTHING := Entry(0, 0, 0, {}, {})

  /** What one check adds to the entry of `target`. */
  function One(check: TargetCheck, target: string): Entry {
    if check.target != target then NOTHING
    else if check.status == Unreliable then Entry(0, 0, 1, {}, {check.scenario})
    else Entry(1, if check.status == Matched then 1 else 0, 0, {check.status}, {check.scenario})
  }

  function Merge(a: Entry, b: Entry): Entry {
    Entry(a.checked + b.checked, a.matched + b.matched, a.unreliable + b.unreliable,
          a.statuses + b.statuses, a.scenarios + b.scenarios)
  }

  function EntryOf(checks: seq<TargetCheck>, target: string): Entry {
    if checks == [] then NOTHING
    else Merge(EntryOf(checks[..|checks| - 1], target), One(checks[|checks| - 1], target))
  }

  function Checks(reports: seq<ScenarioReport>): seq<TargetCheck> {
    if reports == [] then [] else Checks(reports[..|reports| - 1]) + reports[|reports| - 1].targets
  }

  /** The distinct targets in the order they are first checked. */
  function Targets(checks: seq<TargetCheck>): seq<string> {
    if checks == [] then [] else
      var before, last := Targets(checks[..|checks| - 1]), checks[|checks| - 1].target;
      if last in before then before else before + [last]
  }

  datatype Bucket = Healthy | NeedsAttention | NotApplicableHere | Ungraded | ReachedByDesign

  function BucketOf(e: Entry): Bucket {
    if e.unreliable > 0 && e.checked == 0 then Ungraded
    else if e.statuses == {ByDesign} then ReachedByDesign
    else if e.statuses == {NotApplicable} then NotApplicableHere
    else if e.matched == e.checked then Healthy
    else NeedsAttention
  }

  /** A line of the report; only findings carry statuses. */
  datatype Record = Record(target: string, checked: nat, matched: nat, scenarios: set<string>, status: set<Status>)

  function RecordOf(target: string, e: Entry): Record {
    Record(target, e.checked, e.matched, e.scenarios,
           if BucketOf(e) == NeedsAttention then e.statuses - {Matched} else {})
  }

  /** The records of one bucket, for targets in the given order. */
  function Listed(targets: seq<string>, checks: seq<TargetCheck>, bucket: Bucket): seq<Record> {
    if targets == [] then [] else
      var last := targets[|targets| - 1];
      var e := EntryOf(checks, last);
      Listed(targets[..|targets| - 1], checks, bucket) + if BucketOf(e) == bucket then [RecordOf(last, e)] else []
  }

  function FailedOf(verifications: seq<VerificationCheck>): seq<VerificationCheck> {
    if verifications == [] then [] else
      var last := verifications[|verifications| - 1];
      FailedOf(verifications[..|verifications| - 1]) + if last.result == Failed then [last] else []
  }

  function FailedVerifications(reports: seq<ScenarioReport>): seq<VerificationCheck> {
    if reports == [] then []
    else FailedVerifications(reports[..|reports| - 1]) + FailedOf(reports[|reports| - 1].verifications)
  }

  datatype Summary = Summary(
    targetsChecked: nat, healthy: seq<Record>, needsAttention: seq<Record>, notApplicable: seq<Record>,
    ungraded: seq<Record>, byDesign: seq<Record>, failedVerifications: seq<VerificationCheck>, ok: bool)

  function SummaryOf(reports: seq<ScenarioReport>): Summary {
    var checks := Checks(reports);
    var order := Alphabetical(Targets(checks));
    var attention, failed := Listed(order, checks, NeedsAttention), FailedVerifications(reports);
    Summary(|order|, Listed(order, checks, Healthy), attention, Listed(order, checks, NotApplicableHere),
            Listed(order, checks, Ungraded), Listed(order, checks, ReachedByDesign), failed,
            attention == [] && failed == [])
  }

  // ---- the loops ------------------------------------------------------------------

  /** The entries and their names hold exactly what the checks add up to. */
  ghost predicate Tallied(byTarget: map<string, Entry>, names: seq<string>, checks: seq<TargetCheck>) {
    && names == Targets(checks)
    && (forall name :: name in byTarget <==> name in names)
    && (forall name :: name in byTarget ==> byTarget[name] == EntryOf(checks, name))
  }

  lemma TargetsNext(checks: seq<TargetCheck>, check: TargetCheck)
    ensures Targets(checks + [check])
            == if check.target in Targets(checks) then Targets(checks) else Targets(checks) + [check.target]
  {
    assert (checks + [check])[..|checks|] == checks;
  }

  lemma EntryNext(checks: seq<TargetCheck>, check: TargetCheck, target: string)
    ensures EntryOf(checks + [check], target) == Merge(EntryOf(checks, target), One(check, target))
    ensures check.target != target ==> EntryOf(checks + [check], target) == EntryOf(checks, target)
  {
    hide Merge;
    assert (checks + [check])[..|checks|] == checks;
    MergeWithNothing(EntryOf(checks, target));
  }

  lemma {:induction false} Unchecked(checks: seq<TargetCheck>, target: string)
    ensures target !in Targets(checks) ==> EntryOf(checks, target) == NOTHING
  {
    if checks != [] {
      var front, last := checks[..|checks| - 1], checks[|checks| - 1];
      Unchecked(front, target);
      hide EntryOf, Targets, Merge, One;
      assert checks == front + [last];
      TargetsNext(front, last);
      EntryNext(front, last, target);
    }
  }

  lemma OtherEntries(checks: seq<TargetCheck>, check: TargetCheck)
    ensures forall name :: name != check.target ==> EntryOf(checks + [check], name) == EntryOf(checks, name)
  {
    forall name | name != check.target
      ensures EntryOf(checks + [check], name) == EntryOf(checks, name)
    {
      EntryNext(checks, check, name);
    }
  }

  /** One round of the inner loop. */
  method Tally(byTarget: map<string, Entry>, names: seq<string>, check: TargetCheck, ghost checks: seq<TargetCheck>)
    returns (byTarget': map<string, Entry>, names': seq<string>)
    requires Tallied(byTarget, names, checks)
    ensures Tallied(byTarget', names', checks + [check])
  {
    hide Targets, EntryOf, Merge, One;
    TargetsNext(checks, check);
    OtherEntries(checks, check);
    EntryNext(checks, check, check.target);
    Unchecked(checks, check.target);
    byTarget', names' := byTarget, names;
    if check.target !in byTarget {
      names' := names + [check.target];
      byTarget' := byTarget[check.target := NOTHING];
    }
    var entry := AddTo(byTarget'[check.target], check);
    byTarget' := byTarget'[check.target := entry];
  }

  method AddTo(before: Entry, check: TargetCheck) returns (entry: Entry)
    ensures entry == Merge(before, One(check, check.target))
  {
    entry := before;
    if check.status == Unreliable {
      entry := entry.(unreliable := entry.unreliable + 1, scenarios := entry.scenarios + {check.scenario});
    } else {
      entry := entry.(checked := entry.checked + 1, statuses := entry.statuses + {check.status},
                      scenarios := entry.scenarios + {check.scenario});
      if check.status == Matched {
        entry := entry.(matched := entry.matched + 1);
      }
    }
  }

  /** The inner loop over the verifications of a report. */
  method KeepFailed(before: seq<VerificationCheck>, report: ScenarioReport) returns (failed: seq<VerificationCheck>)
    ensures failed == before + FailedOf(report.verifications)
  {
    failed := before;
    for v := 0 to |report.verifications|
      invariant failed == before + FailedOf(report.verifications[..v])
    {
      assert report.verifications[..v + 1][..v] == report.verifications[..v];
      if report.verifications[v].result == Failed {
        failed := failed + [report.verifications[v]];
      }
    }
    assert report.verifications[..|report.verifications|] == report.verifications;
  }

  method Summarise(reports: seq<ScenarioReport>) returns (summary: Summary)
    ensures summary == SummaryOf(reports)
  {
    hide Sort, EntryOf, BucketOf, RecordOf;
    var byTarget, names, failed := map[], [], [];
    ghost var checks := [];
    for r := 0 to |reports|
      invariant checks == Checks(reports[..r]) && Tallied(byTarget, names, checks)
      invariant failed == FailedVerifications(reports[..r])
    {
      var report := reports[r];
      assert reports[..r + 1][..r] == reports[..r];
      ghost var earlier := checks;
      for c := 0 to |report.targets|
        invariant checks == earlier + report.targets[..c] && Tallied(byTarget, names, checks)
      {
        assert report.targets[..c + 1] == report.targets[..c] + [report.targets[c]];
        byTarget, names := Tally(byTarget, names, report.targets[c], checks);
        checks := checks + [report.targets[c]];
      }
      assert report.targets[..|report.targets|] == report.targets;
      failed := KeepFailed(failed, report);
    }
    assert reports[..|reports|] == reports;

    summary := FillBuckets(byTarget, names, checks, failed);
  }

  method FillBuckets(byTarget: map<string, Entry>, names: seq<string>, ghost checks: seq<TargetCheck>,
                     failed: seq<VerificationCheck>)
    returns (summary: Summary)
    requires Tallied(byTarget, names, checks)
    ensures var order := Alphabetical(Targets(checks));
            summary == Summary(|order|, Listed(order, checks, Healthy), Listed(order, checks, NeedsAttention),
                               Listed(order, checks, NotApplicableHere), Listed(order, checks, Ungraded),
                               Listed(order, checks, ReachedByDesign), failed,
                               Listed(order, checks, NeedsAttention) == [] && failed == [])
  {
    hide Sort, EntryOf, Targets;
    var order := Alphabetical(names);
    AlphabeticalOrders(names);
    var healthy, attention, notApplicable, ungraded, byDesign := [], [], [], [], [];
    for k := 0 to |order|
      invariant healthy == Listed(order[..k], checks, Healthy)
      invariant attention == Listed(order[..k], checks, NeedsAttention)
      invariant notApplicable == Listed(order[..k], checks, NotApplicableHere)
      invariant ungraded == Listed(order[..k], checks, Ungraded)
      invariant byDesign == Listed(order[..k], checks, ReachedByDesign)
    {
      assert order[..k + 1][..k] == order[..k];
      var e := byTarget[order[k]];
      var record := Record(order[k], e.checked, e.matched, e.scenarios, {});
      if e.unreliable > 0 && e.checked == 0 {
        ungraded := ungraded + [record];
      } else if e.statuses == {ByDesign} {
        byDesign := byDesign + [record];
      } else if e.statuses == {NotApplicable} {
        notApplicable := notApplicable + [record];
      } else if e.matched == e.checked {
        healthy := healthy + [record];
      } else {
        attention := attention + [record.(status := e.statuses - {Matched})];
      }
    }
    assert order[..|order|] == order;
    summary := Summary(|order|, healthy, attention, notApplicable, ungraded, byDesign, failed,
                       attention == [] && failed == []);
  }

  // ---- what the entries say -----------------------------------------------------------

  /** How the checks of a target that were graded came out. */
  function GradedAs(checks: seq<TargetCheck>, target: string): set<Status> {
    set i | 0 <= i < |checks| && checks[i].target == target && checks[i].status != Unreliable :: checks[i].status
  }

  lemma NextGraded(checks: seq<TargetCheck>, check: TargetCheck, target: string)
    ensures GradedAs(checks + [check], target)
            == GradedAs(checks, target)
               + if check.target == target && check.status != Unreliable then {check.status} else {}
  {
    var more := checks + [check];
    assert forall i :: 0 <= i < |checks| ==> more[i] == checks[i];
    assert more[|checks|] == check;
    assert forall s :: s in GradedAs(checks, target) ==> s in GradedAs(more, target);
  }

  /** An entry's numbers and its statuses agree with how the graded checks came out. */
  ghost predicate Adds(e: Entry, graded: set<Status>, listed: bool) {
    && e.statuses == graded
    && (e.checked == 0 <==> graded == {})
    && e.matched <= e.checked
    && (e.matched == e.checked <==> graded <= {Matched})
    && (e.checked + e.unreliable > 0 <==> listed)
  }

  lemma AddsOne(e: Entry, graded: set<Status>, listed: bool, check: TargetCheck, target: string)
    requires Adds(e, graded, listed)
    ensures Adds(Merge(e, One(check, target)),
                 graded + if check.target == target && check.status != Unreliable then {check.status} else {},
                 listed || check.target == target)
  {}

  lemma NothingAdds(target: string)
    ensures Adds(EntryOf([], target), GradedAs([], target), target in Targets([]))
  {
    assert GradedAs([], target) == {};
  }

  lemma {:induction false} EntrySays(checks: seq<TargetCheck>, target: string)
    ensures Adds(EntryOf(checks, target), GradedAs(checks, target), target in Targets(checks))
  {
    hide *;
    if checks == [] {
      NothingAdds(target);
    } else {
      var front, last := checks[..|checks| - 1], checks[|checks| - 1];
      EntrySays(front, target);
      assert checks == front + [last];
      NextGraded(front, last, target);
      EntryNext(front, last, target);
      TargetsNext(front, last);
      AddsOne(EntryOf(front, target), GradedAs(front, target), target in Targets(front), last, target);
    }
  }

  function ScenariosOf(checks: seq<TargetCheck>, target: string): set<string> {
    set i | 0 <= i < |checks| && checks[i].target == target :: checks[i].scenario
  }

  /** A target's record names every scenario that checked it, graded or not. */
  lemma {:induction false} RecordNamesScenarios(checks: seq<TargetCheck>, target: string)
    ensures RecordOf(target, EntryOf(checks, target)).scenarios == ScenariosOf(checks, target)
  {
    hide BucketOf;
    if checks == [] {
      assert ScenariosOf(checks, target) == {};
    } else {
      var front, last := checks[..|checks| - 1], checks[|checks| - 1];
      RecordNamesScenarios(front, target);
      hide EntryOf;
      assert checks == front + [last];
      EntryNext(front, last, target);
      NextScenario(front, last, target);
    }
  }

  lemma NextScenario(checks: seq<TargetCheck>, check: TargetCheck, target: string)
    ensures ScenariosOf(checks + [check], target)
            == ScenariosOf(checks, target) + if check.target == target then {check.scenario} else {}
  {
    var more := checks + [check];
    assert forall i :: 0 <= i < |checks| ==> more[i] == checks[i];
    assert more[|checks|] == check;
    assert forall s :: s in ScenariosOf(checks, target) ==> s in ScenariosOf(more, target);
  }

  /** Where a target of the reports is listed, in terms of how its graded checks came out: nowhere graded,
      always the same harmless way, or otherwise. */
  lemma BucketMeans(checks: seq<TargetCheck>, target: string)
    requires target in Targets(checks)
    ensures BucketOf(EntryOf(checks, target))
            == var graded := GradedAs(checks, target);
               if graded == {} then Ungraded
               else if graded == {ByDesign} then ReachedByDesign
               else if graded == {NotApplicable} then NotApplicableHere
               else if graded == {Matched} then Healthy
               else NeedsAttention
  {
    hide EntryOf, GradedAs, Targets;
    EntrySays(checks, target);
    var e := EntryOf(checks, target);
    assert e.statuses <= {Matched} <==> e.statuses == {} || e.statuses == {Matched};
  }

  /** A finding carries the grades that make it one: those the target got, but matched. Other lines carry none. */
  lemma FindingsCarryGrades(checks: seq<TargetCheck>, target: string)
    requires target in Targets(checks)
    ensures var r, graded := RecordOf(target, EntryOf(checks, target)), GradedAs(checks, target);
            && r.target == target
            && (r.status != {} <==> BucketOf(EntryOf(checks, target)) == NeedsAttention)
            && (r.status != {} ==> forall s :: s in r.status <==> s in graded && s != Matched)
  {
    hide EntryOf, GradedAs, Targets;
    EntrySays(checks, target);
    var e := EntryOf(checks, target);
    assert e.statuses - {Matched} == {} <==> e.statuses <= {Matched};
    assert e.statuses <= {Matched} <==> e.statuses == {} || e.statuses == {Matched};
  }

  function NamesOf(records: seq<Record>): seq<string> {
    seq(|records|, i requires 0 <= i < |records| => records[i].target)
  }

  lemma NamesNext(records: seq<Record>, r: Record, target: string)
    ensures multiset(NamesOf(records + [r]))[target]
            == multiset(NamesOf(records))[target] + if r.target == target then 1 else 0
    ensures records + [] == records
  {
    assert NamesOf(records + [r]) == NamesOf(records) + [r.target];
  }

  lemma CountNext(names: seq<string>, name: string, target: string)
    ensures multiset(names + [name])[target] == multiset(names)[target] + if name == target then 1 else 0
  {}

  lemma {:induction false} ListedNames(targets: seq<string>, checks: seq<TargetCheck>, bucket: Bucket, target: string)
    ensures multiset(NamesOf(Listed(targets, checks, bucket)))[target]
            == if BucketOf(EntryOf(checks, target)) == bucket then multiset(targets)[target] else 0
  {
    if targets != [] {
      hide BucketOf, EntryOf, NamesOf;
      var front, last := targets[..|targets| - 1], targets[|targets| - 1];
      ListedNames(front, checks, bucket, target);
      assert targets == front + [last];
      CountNext(front, last, target);
      NamesNext(Listed(front, checks, bucket), RecordOf(last, EntryOf(checks, last)), target);
    }
  }

  lemma {:induction false} TargetsAreDistinct(checks: seq<TargetCheck>)
    ensures forall i, j :: 0 <= i < j < |Targets(checks)| ==> Targets(checks)[i] != Targets(checks)[j]
    ensures forall target :: target in Targets(checks) <==> exists i :: 0 <= i < |checks| && checks[i].target == target
  {
    if checks != [] {
      var front := checks[..|checks| - 1];
      TargetsAreDistinct(front);
      assert checks == front + [checks[|checks| - 1]];
    }
  }

  lemma {:induction false} DistinctCounts(names: seq<string>)
    requires forall i, j :: 0 <= i < j < |names| ==> names[i] != names[j]
    ensures forall name :: multiset(names)[name] == if name in names then 1 else 0
  {
    if names != [] {
      var front, last := names[..|names| - 1], names[|names| - 1];
      DistinctCounts(front);
      assert names == front + [last];
    }
  }

  /** How often a list of records names a target. */
  function Mentions(records: seq<Record>, target: string): nat {
    multiset(NamesOf(records))[target]
  }

  /** Every target of the reports is listed once, in one of the five lists, and nothing else is listed. */
  lemma OneBucketEach(reports: seq<ScenarioReport>, target: string)
    ensures var s := SummaryOf(reports);
            Mentions(s.healthy, target) + Mentions(s.needsAttention, target) + Mentions(s.notApplicable, target)
            + Mentions(s.ungraded, target) + Mentions(s.byDesign, target)
            == if target in Targets(Checks(reports)) then 1 else 0
  {
    hide EntryOf, BucketOf, Listed, Sort;
    var checks := Checks(reports);
    var names := Targets(checks);
    var order := Alphabetical(names);
    AlphabeticalOrders(names);
    TargetsAreDistinct(checks);
    DistinctCounts(names);
    ListedNames(order, checks, Healthy, target);
    ListedNames(order, checks, NeedsAttention, target);
    ListedNames(order, checks, NotApplicableHere, target);
    ListedNames(order, checks, Ungraded, target);
    ListedNames(order, checks, ReachedByDesign, target);
  }

  // ---- the order of the reports ----------------------------------------------------------

  lemma MergeIsAssociative(a: Entry, b: Entry, c: Entry)
    ensures Merge(Merge(a, b), c) == Merge(a, Merge(b, c)) && Merge(a, b) == Merge(b, a)
  {}

  lemma MergeWithNothing(a: Entry)
    ensures Merge(a, NOTHING) == a
  {}

  lemma {:induction false} EntryConcat(a: seq<TargetCheck>, b: seq<TargetCheck>, target: string)
    ensures EntryOf(a + b, target) == Merge(EntryOf(a, target), EntryOf(b, target))
  {
    FrontOfConcat(a, b);
    MergeWithNothing(EntryOf(a, target));
    if b != [] {
      var n := |b| - 1;
      EntryConcat(a, b[..n], target);
      MergeIsAssociative(EntryOf(a, target), EntryOf(b[..n], target), One(b[n], target));
      hide One, Merge;
    }
  }

  lemma EntryAround(a: seq<TargetCheck>, check: TargetCheck, b: seq<TargetCheck>, target: string)
    ensures EntryOf(a + [check] + b, target) == Merge(EntryOf(a + b, target), One(check, target))
  {
    hide One, EntryOf, Merge;
    EntryConcat(a + [check], b, target);
    EntryConcat(a, b, target);
    EntryNext(a, check, target);
    MergeIsAssociative(EntryOf(a, target), One(check, target), EntryOf(b, target));
    MergeIsAssociative(EntryOf(a, target), EntryOf(b, target), One(check, target));
    MergeIsAssociative(One(check, target), EntryOf(b, target), NOTHING);
  }

  lemma {:induction false} EntryIgnoresOrder(a: seq<TargetCheck>, b: seq<TargetCheck>, target: string)
    requires multiset(a) == multiset(b)
    ensures EntryOf(a, target) == EntryOf(b, target)
  {
    if a == [] {
      assert |multiset(b)| == 0;
    } else {
      hide One, Merge;
      var i := Partner(a, b);
      EntryIgnoresOrder(a[..|a| - 1], b[..i] + b[i + 1..], target);
      EntryAround(b[..i], b[i], b[i + 1..], target);
    }
  }

  lemma Regroup(a: seq<TargetCheck>, b: seq<TargetCheck>, c: seq<TargetCheck>)
    ensures (a + b) + c == a + (b + c)
  {}

  lemma {:induction false} ChecksConcat(a: seq<ScenarioReport>, b: seq<ScenarioReport>)
    ensures Checks(a + b) == Checks(a) + Checks(b)
  {
    FrontOfConcat(a, b);
    if b != [] {
      var n := |b| - 1;
      ChecksConcat(a, b[..n]);
      assert Checks(a + b) == Checks(a + b[..n]) + b[n].targets;
      hide Checks;
      Regroup(Checks(a), Checks(b[..n]), b[n].targets);
    }
  }

  lemma ChecksOfOne(report: ScenarioReport)
    ensures Checks([report]) == report.targets
  {
    assert [report][..0] == [];
  }

  lemma {:induction false} ChecksIgnoreOrder(a: seq<ScenarioReport>, b: seq<ScenarioReport>)
    requires multiset(a) == multiset(b)
    ensures multiset(Checks(a)) == multiset(Checks(b))
  {
    if a == [] {
      assert |multiset(b)| == 0;
    } else {
      var n := |a| - 1;
      var i := Partner(a, b);
      ChecksIgnoreOrder(a[..n], b[..i] + b[i + 1..]);
      hide Checks;
      assert a == a[..n] + [a[n]];
      ChecksConcat(a[..n], [a[n]]);
      ChecksConcat(b[..i] + [a[n]], b[i + 1..]);
      ChecksConcat(b[..i], [a[n]]);
      ChecksConcat(b[..i], b[i + 1..]);
    }
  }

  lemma {:induction false} ListedIgnoresOrder(targets: seq<string>, a: seq<TargetCheck>,
        b: seq<TargetCheck>, bucket: Bucket)
    requires multiset(a) == multiset(b)
    ensures Listed(targets, a, bucket) == Listed(targets, b, bucket)
  {
    if targets != [] {
      hide EntryOf, BucketOf, RecordOf;
      ListedIgnoresOrder(targets[..|targets| - 1], a, b, bucket);
      EntryIgnoresOrder(a, b, targets[|targets| - 1]);
    }
  }

  lemma TargetsIgnoreOrder(a: seq<TargetCheck>, b: seq<TargetCheck>)
    requires multiset(a) == multiset(b)
    ensures multiset(Targets(a)) == multiset(Targets(b))
  {
    TargetsAreDistinct(a);
    TargetsAreDistinct(b);
    DistinctCounts(Targets(a));
    DistinctCounts(Targets(b));
    forall name
      ensures name in Targets(a) <==> name in Targets(b)
    {
      assert forall i :: 0 <= i < |a| ==> a[i] in multiset(b);
      assert forall i :: 0 <= i < |b| ==> b[i] in multiset(a);
    }
  }

  /** In whatever order the scenarios were preflighted, the five lists and the verdict are the same, and so, but
      for their order, are the failed verifications. */
  lemma ReportOrderIsIrrelevant(a: seq<ScenarioReport>, b: seq<ScenarioReport>)
    requires multiset(a) == multiset(b)
    ensures var s, t := SummaryOf(a), SummaryOf(b);
            && s.healthy == t.healthy && s.needsAttention == t.needsAttention && s.notApplicable == t.notApplicable
            && s.ungraded == t.ungraded && s.byDesign == t.byDesign && s.targetsChecked == t.targetsChecked
            && s.ok == t.ok && multiset(s.failedVerifications) == multiset(t.failedVerifications)
  {
    FailuresAreTheSame(a, b);
    hide Sort, Listed, Targets, Checks, FailedVerifications;
    ChecksIgnoreOrder(a, b);
    TargetsIgnoreOrder(Checks(a), Checks(b));
    AlphabeticalIgnoresOrder(Targets(Checks(a)), Targets(Checks(b)));
    var order := Alphabetical(Targets(Checks(a)));
    forall bucket
      ensures Listed(order, Checks(a), bucket) == Listed(order, Checks(b), bucket)
    {
      ListedIgnoresOrder(order, Checks(a), Checks(b), bucket);
    }
    FailuresIgnoreOrder(a, b);
  }

  lemma {:induction false} SomeFailed(verifications: seq<VerificationCheck>)
    ensures FailedOf(verifications) == []
            <==> forall i :: 0 <= i < |verifications| ==> verifications[i].result != Failed
  {
    if verifications != [] {
      SomeFailed(verifications[..|verifications| - 1]);
    }
  }

  predicate NoneFailed(report: ScenarioReport) {
    FailedOf(report.verifications) == []
  }

  lemma {:induction false} SomeFailure(reports: seq<ScenarioReport>)
    ensures FailedVerifications(reports) == [] <==> forall i :: 0 <= i < |reports| ==> NoneFailed(reports[i])
  {
    if reports != [] {
      hide FailedOf;
      SomeFailure(reports[..|reports| - 1]);
      assert reports == reports[..|reports| - 1] + [reports[|reports| - 1]];
    }
  }

  lemma FailuresIgnoreOrder(a: seq<ScenarioReport>, b: seq<ScenarioReport>)
    requires multiset(a) == multiset(b)
    ensures FailedVerifications(a) == [] <==> FailedVerifications(b) == []
  {
    FailuresAreTheSame(a, b);
    assert |multiset(FailedVerifications(a))| == |FailedVerifications(a)|;
    assert |multiset(FailedVerifications(b))| == |FailedVerifications(b)|;
  }

  lemma {:induction false} FailuresConcat(a: seq<ScenarioReport>, b: seq<ScenarioReport>)
    ensures FailedVerifications(a + b) == FailedVerifications(a) + FailedVerifications(b)
  {
    FrontOfConcat(a, b);
    if b != [] {
      var n := |b| - 1;
      FailuresConcat(a, b[..n]);
      assert FailedVerifications(a + b) == FailedVerifications(a + b[..n]) + FailedOf(b[n].verifications);
      hide FailedVerifications, FailedOf;
      var x, y, z := FailedVerifications(a), FailedVerifications(b[..n]), FailedOf(b[n].verifications);
      assert (x + y) + z == x + (y + z);
    }
  }

  lemma FailuresAround(a: seq<ScenarioReport>, r: ScenarioReport, b: seq<ScenarioReport>)
    ensures multiset(FailedVerifications(a + [r] + b))
            == multiset(FailedVerifications(a + b)) + multiset(FailedVerifications([r]))
  {
    hide FailedVerifications;
    FailuresConcat(a + [r], b);
    FailuresConcat(a, [r]);
    FailuresConcat(a, b);
  }

  /** The failed verifications are listed in the order of the reports, and are the same whatever that is. */
  lemma {:induction false} FailuresAreTheSame(a: seq<ScenarioReport>, b: seq<ScenarioReport>)
    requires multiset(a) == multiset(b)
    ensures multiset(FailedVerifications(a)) == multiset(FailedVerifications(b))
  {
    hide FailedVerifications;
    if a == [] {
      assert |multiset(b)| == 0;
    } else {
      var n := |a| - 1;
      var i := Partner(a, b);
      FailuresAreTheSame(a[..n], b[..i] + b[i + 1..]);
      FailuresAround(a[..n], a[n], []);
      assert a[..n] + [a[n]] + [] == a && a[..n] + [] == a[..n];
      FailuresAround(b[..i], b[i], b[i + 1..]);
    }
  }

  // ---- the verdict ---------------------------------------------------------------------------

  /** No target was graded in two different ways. */
  ghost predicate Agreeing(checks: seq<TargetCheck>) {
    forall i, j :: 0 <= i < |checks| && 0 <= j < |checks| && checks[i].target == checks[j].target
                   && checks[i].status != Unreliable && checks[j].status != Unreliable
                   ==> checks[i].status == checks[j].status
  }

  lemma {:induction false} AllChecks(reports: seq<ScenarioReport>)
    ensures (forall i :: 0 <= i < |reports| ==> reports[i].Ok())
            <==> && FailedVerifications(reports) == []
                 && forall k :: 0 <= k < |Checks(reports)| ==> !Degraded(Checks(reports)[k].status)
  {
    if reports != [] {
      var front, last := reports[..|reports| - 1], reports[|reports| - 1];
      AllChecks(front);
      SomeFailed(last.verifications);
      var checks := Checks(reports);
      assert forall k :: 0 <= k < |Checks(front)| ==> checks[k] == Checks(front)[k];
      assert forall k :: 0 <= k < |last.targets| ==> checks[|Checks(front)| + k] == last.targets[k];
    }
  }

  ghost predicate NoneIn(targets: seq<string>, checks: seq<TargetCheck>, bucket: Bucket) {
    forall i :: 0 <= i < |targets| ==> BucketOf(EntryOf(checks, targets[i])) != bucket
  }

  lemma {:induction false} NothingListed(targets: seq<string>, checks: seq<TargetCheck>, bucket: Bucket)
    ensures Listed(targets, checks, bucket) == [] <==> NoneIn(targets, checks, bucket)
  {
    hide BucketOf, EntryOf, RecordOf;
    if targets != [] {
      NothingListed(targets[..|targets| - 1], checks, bucket);
    }
  }

  lemma SameNames(a: seq<string>, b: seq<string>, checks: seq<TargetCheck>, bucket: Bucket)
    requires forall name :: name in a <==> name in b
    ensures NoneIn(a, checks, bucket) == NoneIn(b, checks, bucket)
  {
    hide BucketOf, EntryOf;
    assert forall i :: 0 <= i < |a| ==> a[i] in b;
    assert forall i :: 0 <= i < |b| ==> b[i] in a;
  }

  lemma TargetIsFine(checks: seq<TargetCheck>, target: string)
    requires target in Targets(checks)
    ensures BucketOf(EntryOf(checks, target)) != NeedsAttention
            <==> && (forall s :: s in GradedAs(checks, target) ==> !Degraded(s))
                 && (forall s, t :: s in GradedAs(checks, target) && t in GradedAs(checks, target) ==> s == t)
  {
    hide BucketOf, EntryOf, Targets;
    BucketMeans(checks, target);
    EntrySays(checks, target);
    var graded := GradedAs(checks, target);
    assert Unreliable !in graded;
    if s :| s in graded {
      if forall t :: t in graded ==> s == t {
        assert graded == {s};
      }
    }
  }

  lemma TargetsAreFine(checks: seq<TargetCheck>)
    ensures NoneIn(Targets(checks), checks, NeedsAttention)
            <==> Agreeing(checks) && forall k :: 0 <= k < |checks| ==> !Degraded(checks[k].status)
  {
    hide BucketOf, EntryOf;
    TargetsAreDistinct(checks);
    hide Targets;
    forall name | name in Targets(checks)
      ensures BucketOf(EntryOf(checks, name)) != NeedsAttention
              <==> && (forall s :: s in GradedAs(checks, name) ==> !Degraded(s))
                   && (forall s, t :: s in GradedAs(checks, name) && t in GradedAs(checks, name) ==> s == t)
    {
      TargetIsFine(checks, name);
    }
    assert forall k :: 0 <= k < |checks| && checks[k].status != Unreliable ==>
               checks[k].status in GradedAs(checks, checks[k].target);
    assert forall k :: 0 <= k < |checks| ==> checks[k].target in Targets(checks);
    assert NoneIn(Targets(checks), checks, NeedsAttention)
           <==> forall name :: name in Targets(checks) ==> BucketOf(EntryOf(checks, name)) != NeedsAttention;
  }

  /** The summary is ok exactly when every report is and no target was graded in two different ways. */
  lemma OkIff(reports: seq<ScenarioReport>)
    ensures SummaryOf(reports).ok
            <==> (forall i :: 0 <= i < |reports| ==> reports[i].Ok()) && Agreeing(Checks(reports))
  {
    hide Sort, Listed, Targets, Checks, FailedVerifications, BucketOf, EntryOf, Agreeing, Degraded, NoneIn;
    var checks := Checks(reports);
    AlphabeticalOrders(Targets(checks));
    NothingListed(Alphabetical(Targets(checks)), checks, NeedsAttention);
    SameNames(Alphabetical(Targets(checks)), Targets(checks), checks, NeedsAttention);
    TargetsAreFine(checks);
    AllChecks(reports);
  }

  /** Two reports that are each ok, of a target found by selector in one scenario and reached by design in
      the other: the summary asks for attention. */
  lemma MixedTargetNeedsAttention(a: ScenarioReport, b: ScenarioReport, target: string)
    requires a.targets == [TargetCheck(a.scenario, 0.0, target, Matched)] && a.verifications == []
    requires b.targets == [TargetCheck(b.scenario, 0.0, target, ByDesign)] && b.verifications == []
    ensures a.Ok() && b.Ok() && !SummaryOf([a, b]).ok
  {
    OkIff([a, b]);
    hide SummaryOf, Checks;
    assert [a, b] == [a] + [b];
    ChecksConcat([a], [b]);
    ChecksOfOne(a);
    ChecksOfOne(b);
    var checks := Checks([a, b]);
    assert checks == [TargetCheck(a.scenario, 0.0, target, Matched), TargetCheck(b.scenario, 0.0, target, ByDesign)];
    assert checks[0].target == checks[1].target;
  }
}

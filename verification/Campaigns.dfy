/** Planning, creating, executing and judging campaigns of runs. */
module Campaigns {
  import opened Dashboard
  import Statistics
  import opened StorageRows
  import opened Tables
  import opened Wrappers

  // ---- planning -------------------------------------------------------------------

  datatype Spec = Spec(
    kind: string, serial: string, duration: real, scenario: Option<string>, tier: Option<string>, iterations: int)

  datatype SpecError =
    | UnknownKind | NoSerial | NoDuration | UnknownTier | NothingToRepeat | NoIterations | TooManyRuns(planned: nat)

  const MAX_RUNS: nat := 500

  /** What an `if` on the value asks: neither missing nor empty. */
  predicate Given(name: Option<string>) {
    name.Some? && name.value != ""
  }

  function Repeated<T>(items: seq<T>, times: nat): seq<T> {
    if times == 0 then [] else Repeated(items, times - 1) + items
  }

  function Scenarios(names: seq<string>): (plan: seq<Option<string>>)
    ensures |plan| == |names|
  {
    seq(|names|, i requires 0 <= i < |names| => Some(names[i]))
  }

  /** The scenario of each child run: a tier is swept once per iteration. */
  function Planned(spec: Spec, scenariosOf: string -> seq<string>): seq<Option<string>> {
    if spec.kind == "soak" then [spec.scenario] else
      var times := if spec.iterations < 0 then 0 else spec.iterations;
      if Given(spec.tier) then Repeated(Scenarios(scenariosOf(spec.tier.value)), times)
      else Repeated([spec.scenario], times)
  }

  function Validated(spec: Spec, tiers: set<string>, scenariosOf: string -> seq<string>): Result<Spec, SpecError> {
    if spec.kind !in {"soak", "repeat"} then Err(UnknownKind)
    else if spec.serial == "" then Err(NoSerial)
    else if spec.duration <= 0.0 then Err(NoDuration)
    else if Given(spec.tier) && spec.tier.value !in tiers then Err(UnknownTier)
    else if spec.kind == "repeat" && !Given(spec.scenario) && !Given(spec.tier) then Err(NothingToRepeat)
    else if spec.kind == "repeat" && spec.iterations < 1 then Err(NoIterations)
    else
      var normal := if spec.kind == "repeat" then spec else spec.(iterations := 1, tier := None);
      var planned := |Planned(normal, scenariosOf)|;
      if planned > MAX_RUNS then Err(TooManyRuns(planned)) else Ok(normal)
  }

  lemma {:induction false} RepeatedSize<T>(items: seq<T>, times: nat)
    ensures |Repeated(items, times)| == times * |items|
  {
    if times > 0 {
      RepeatedSize(items, times - 1);
      NextTimes(times - 1, |items|);
    }
  }

  lemma NextTimes(n: nat, m: nat)
    ensures (n + 1) * m == n * m + m
  {}

  /** What passes is a campaign of at most MAX_RUNS runs that passes again unchanged; a soak is one run. */
  lemma ValidatedAgain(spec: Spec, tiers: set<string>, scenariosOf: string -> seq<string>)
    requires Validated(spec, tiers, scenariosOf).Ok?
    ensures var normal := Validated(spec, tiers, scenariosOf).value;
            && Validated(normal, tiers, scenariosOf) == Ok(normal)
            && normal.serial != "" && normal.duration > 0.0
            && |Planned(normal, scenariosOf)| <= 500
            && (normal.kind == "soak" ==> normal == spec.(iterations := 1, tier := None)
                                          && Planned(normal, scenariosOf) == [spec.scenario])
            && (normal.kind == "repeat" ==> normal == spec && normal.iterations >= 1)
            && (normal.kind == "repeat" && !Given(normal.tier) ==>
                  |Planned(normal, scenariosOf)| == normal.iterations && Given(normal.scenario))
  {
    hide Repeated;
    RepeatedSize([spec.scenario], if spec.iterations < 0 then 0 else spec.iterations);
  }

  /** A soak is one run of its scenario, and a repeated scenario is run `iterations` times, nothing else. */
  lemma PlanOfOneScenario(spec: Spec, scenariosOf: string -> seq<string>)
    ensures spec.kind == "soak" ==> Planned(spec, scenariosOf) == [spec.scenario]
    ensures spec.kind != "soak" && !Given(spec.tier) ==>
              && |Planned(spec, scenariosOf)| == (if spec.iterations < 0 then 0 else spec.iterations)
              && forall i :: 0 <= i < |Planned(spec, scenariosOf)| ==> Planned(spec, scenariosOf)[i] == spec.scenario
  {
    hide Repeated;
    var times: nat := if spec.iterations < 0 then 0 else spec.iterations;
    RepeatedSize([spec.scenario], times);
    forall i: nat | i < |Repeated([spec.scenario], times)|
      ensures Repeated([spec.scenario], times)[i] == spec.scenario
    {
      PlanIsCyclic([spec.scenario], times, i);
    }
  }

  /** Exactly these specifications are accepted. A tier or scenario that is missing or empty is none, and no campaign
      asks for more than 500 runs: one for a soak, one per iteration and scenario otherwise. */
  lemma AcceptedIff(spec: Spec, tiers: set<string>, scenariosOf: string -> seq<string>)
    ensures var tier := spec.tier.Some? && spec.tier.value != "";
            var scenario := spec.scenario.Some? && spec.scenario.value != "";
            Validated(spec, tiers, scenariosOf).Ok?
            <==> && spec.kind in {"soak", "repeat"} && spec.serial != "" && spec.duration > 0.0
                 && (tier ==> spec.tier.value in tiers)
                 && (spec.kind == "repeat" ==>
                       && (scenario || tier) && spec.iterations >= 1
                       && spec.iterations * (if tier then |scenariosOf(spec.tier.value)| else 1) <= 500)
  {
    hide Repeated;
    if spec.iterations >= 0 {
      RepeatedSize([spec.scenario], spec.iterations);
      if Given(spec.tier) {
        RepeatedSize(Scenarios(scenariosOf(spec.tier.value)), spec.iterations);
      }
    }
  }

  /** How many of the planned runs are of one scenario. */
  function Occurrences<T(==)>(plan: seq<T>, item: T): nat {
    if plan == [] then 0 else Occurrences(plan[..|plan| - 1], item) + if plan[|plan| - 1] == item then 1 else 0
  }

  lemma {:induction false} PlanIsCyclic<T>(items: seq<T>, times: nat, i: nat)
    requires i < |Repeated(items, times)|
    ensures items != [] && Repeated(items, times)[i] == items[i % |items|]
  {
    RepeatedSize(items, times - 1);
    var before := Repeated(items, times - 1);
    if i < |before| {
      PlanIsCyclic(items, times - 1, i);
    } else {
      Remainder(i, |items|, times - 1);
    }
  }

  lemma Remainder(i: nat, m: nat, q: nat)
    requires q * m <= i < q * m + m
    ensures i % m == i - q * m && i / m == q
  {
    var r := i - q * m;
    assert i == q * m + r && 0 <= r < m;
    DivModIsUnique(i, m, q, r);
  }

  lemma DivModIsUnique(i: nat, m: nat, q: nat, r: nat)
    requires r < m && i == q * m + r
    ensures i / m == q && i % m == r
  {
    var q', r' := i / m, i % m;
    assert i == q' * m + r' && 0 <= r' < m;
    MultiplesApart(q, q', m);
    MultiplesApart(q', q, m);
  }

  lemma MultiplesApart(a: nat, b: nat, m: nat)
    ensures a < b ==> a * m + m <= b * m
  {
    if a < b {
      var d := b - a - 1;
      assert b * m == a * m + m + d * m;
    }
  }

  /** However early a campaign is cut short, each of its m scenarios has had floor(k / m) runs or one more;
      the ones with one more are the first k mod m. */
  lemma {:induction false} EveryPrefixIsFair<T>(items: seq<T>, times: nat, k: nat, p: nat)
    requires forall i, j :: 0 <= i < j < |items| ==> items[i] != items[j]
    requires p < |items| && k <= |Repeated(items, times)|
    ensures Occurrences(Repeated(items, times)[..k], items[p]) == k / |items| + if p < k % |items| then 1 else 0
  {
    var m, plan := |items|, Repeated(items, times);
    if k == 0 {
      Remainder(0, m, 0);
    } else {
      EveryPrefixIsFair(items, times, k - 1, p);
      PlanIsCyclic(items, times, k - 1);
      assert plan[..k][..k - 1] == plan[..k - 1];
      NextRound(k - 1, m);
    }
  }

  lemma NextRound(k: nat, m: nat)
    requires m > 0
    ensures if k % m == m - 1 then (k + 1) / m == k / m + 1 && (k + 1) % m == 0
            else (k + 1) / m == k / m && (k + 1) % m == k % m + 1
  {
    var q, r := k / m, k % m;
    assert k == q * m + r && 0 <= r < m;
    if r == m - 1 {
      assert k + 1 == (q + 1) * m;
      DivModIsUnique(k + 1, m, q + 1, 0);
    } else {
      DivModIsUnique(k + 1, m, q, r + 1);
    }
  }

  /** The plan of a tier campaign, cut anywhere. */
  lemma TierPlanIsFair(spec: Spec, scenariosOf: string -> seq<string>, k: nat, p: nat)
    requires spec.kind == "repeat" && Given(spec.tier) && spec.iterations >= 0
    requires var names := scenariosOf(spec.tier.value);
             && p < |names| && forall i, j :: 0 <= i < j < |names| ==> names[i] != names[j]
    requires k <= |Planned(spec, scenariosOf)|
    ensures var names := scenariosOf(spec.tier.value);
            Occurrences(Planned(spec, scenariosOf)[..k], Some(names[p]))
            == k / |names| + if p < k % |names| then 1 else 0
  {
    var names := scenariosOf(spec.tier.value);
    EveryPrefixIsFair(Scenarios(names), spec.iterations, k, p);
  }

  // ---- creating ------------------------------------------------------------------------

  /** A run's scenario column; NULL and the empty string both mean that nothing drives the device. */
  function Column(scenario: Option<string>): string {
    if scenario.Some? then scenario.value else ""
  }

  /** The tables once the first k children of the plan are there. */
  function WithChildren(
      db: Db, campaign: string, device: string, plan: seq<Option<string>>, ids: seq<string>, rowid: nat, k: nat): Db
    requires k <= |plan| <= |ids|
  {
    if k == 0 then db else
      CreateRun(WithChildren(db, campaign, device, plan, ids, rowid, k - 1), ids[k - 1],
                NewRun(rowid + k - 1, device, Some(campaign), Column(plan[k - 1])))
  }

  /** Fresh names: distinct, and neither a run nor a campaign uses one yet. */
  ghost predicate Unused(db: Db, campaign: string, ids: seq<string>) {
    && (forall i :: 0 <= i < |ids| ==> ids[i] !in db.runs)
    && (forall i, j :: 0 <= i < j < |ids| ==> ids[i] != ids[j])
    && (forall id :: id in db.runs ==> db.runs[id].campaign != Some(campaign))
  }

  /** SELECT ... WHERE campaign_id = ? ORDER BY rowid. */
  ghost predicate IsListing(db: Db, campaign: string, order: seq<string>) {
    && (forall id :: id in order <==> id in db.runs && db.runs[id].campaign == Some(campaign))
    && (forall i, j :: 0 <= i < j < |order| ==> order[i] in db.runs && order[j] in db.runs
                                                && db.runs[order[i]].rowid < db.runs[order[j]].rowid)
  }

  method CreateCampaign(
      storage: Storage, spec: Spec, tiers: set<string>, scenariosOf: string -> seq<string>,
      campaign: string, ids: seq<string>, rowid: nat)
    returns (answer: Result<seq<string>, SpecError>)
    requires |ids| >= MAX_RUNS && IsNextRowid(storage.View(), rowid)
    requires Unused(storage.View(), campaign, ids)
    modifies storage
    ensures match Validated(spec, tiers, scenariosOf)
            case Err(error) => answer == Err(error) && storage.View() == old(storage.View())
            case Ok(normal) =>
              var plan := Planned(normal, scenariosOf);
              && |plan| <= |ids| && answer == Ok(ids[..|plan|])
              && storage.View() == WithChildren(Tables.CreateCampaign(old(storage.View()), campaign, normal.serial),
                                                campaign, normal.serial, plan, ids, rowid, |plan|)
  {
    hide *;
    var checked := Validated(spec, tiers, scenariosOf);
    if checked.Err? {
      return Err(checked.error);
    }
    var normal, plan := checked.value, Planned(checked.value, scenariosOf);
    FitsMaximum(spec, tiers, scenariosOf);
    var runIds := [];
    RowOfCampaign(storage.View(), campaign, normal.serial, ids, rowid);
    storage.CreateCampaign(campaign, normal.serial);
    ghost var before := storage.View();
    Children(before, campaign, normal.serial, plan, ids, rowid, 0);
    for k := 0 to |plan|
      invariant storage.View() == WithChildren(before, campaign, normal.serial, plan, ids, rowid, k)
      invariant runIds == ids[..k]
    {
      RowidsFollow(before, campaign, normal.serial, plan, ids, rowid, k);
      Children(before, campaign, normal.serial, plan, ids, rowid, k + 1);
      var _ := storage.CreateRun(ids[k], rowid + k, normal.serial, Some(campaign), Column(plan[k]));
      runIds := runIds + [ids[k]];
    }
    return Ok(runIds);
  }

  lemma RowOfCampaign(db: Db, campaign: string, device: string, ids: seq<string>, rowid: nat)
    requires Unused(db, campaign, ids) && IsNextRowid(db, rowid)
    ensures var after := Tables.CreateCampaign(db, campaign, device);
            Unused(after, campaign, ids) && IsNextRowid(after, rowid)
  {}

  lemma FitsMaximum(spec: Spec, tiers: set<string>, scenariosOf: string -> seq<string>)
    requires Validated(spec, tiers, scenariosOf).Ok?
    ensures |Planned(Validated(spec, tiers, scenariosOf).value, scenariosOf)| <= MAX_RUNS
  {
    hide Planned;
  }

  lemma RowidsFollow(
      db: Db, campaign: string, device: string, plan: seq<Option<string>>, ids: seq<string>, rowid: nat, k: nat)
    requires k <= |plan| <= |ids| && IsNextRowid(db, rowid) && Unused(db, campaign, ids)
    ensures IsNextRowid(WithChildren(db, campaign, device, plan, ids, rowid, k), rowid + k)
  {
    hide WithChildren, Unused, IsNextRowid;
    ChildrenAreThere(db, campaign, device, plan, ids, rowid, k);
  }

  /** The children stand in the table in the order of the plan, each waiting with its scenario. */
  lemma {:induction false} ChildrenAreThere(
      db: Db, campaign: string, device: string, plan: seq<Option<string>>, ids: seq<string>, rowid: nat, k: nat)
    requires k <= |plan| <= |ids| && IsNextRowid(db, rowid) && Unused(db, campaign, ids)
    ensures Stand(db, WithChildren(db, campaign, device, plan, ids, rowid, k), campaign, device, plan, ids, rowid, k)
  {
    hide *;
    Children(db, campaign, device, plan, ids, rowid, k);
    if k == 0 {
      NoChildren(db, campaign, device, plan, ids, rowid);
    } else {
      ChildrenAreThere(db, campaign, device, plan, ids, rowid, k - 1);
      NextChild(db, WithChildren(db, campaign, device, plan, ids, rowid, k - 1),
                campaign, device, plan, ids, rowid, k - 1);
    }
  }

  lemma Children(
      db: Db, campaign: string, device: string, plan: seq<Option<string>>, ids: seq<string>, rowid: nat, k: nat)
    requires k <= |plan| <= |ids|
    ensures WithChildren(db, campaign, device, plan, ids, rowid, k)
            == if k == 0 then db else
                 CreateRun(WithChildren(db, campaign, device, plan, ids, rowid, k - 1), ids[k - 1],
                           NewRun(rowid + k - 1, device, Some(campaign), Column(plan[k - 1])))
  {}

  lemma NoChildren(db: Db, campaign: string, device: string, plan: seq<Option<string>>, ids: seq<string>, rowid: nat)
    requires |plan| <= |ids| && IsNextRowid(db, rowid)
    ensures Stand(db, db, campaign, device, plan, ids, rowid, 0)
  {}

  /** `after` is `db` with the first k children added. */
  ghost predicate Stand(
      db: Db, after: Db, campaign: string, device: string, plan: seq<Option<string>>,
      ids: seq<string>, rowid: nat, k: nat)
    requires k <= |plan| <= |ids|
  {
    && IsNextRowid(after, rowid + k)
    && (forall id :: id in after.runs ==> id in db.runs || id in ids[..k])
    && (forall id :: id in db.runs ==> id in after.runs && after.runs[id] == db.runs[id])
    && (forall i :: 0 <= i < k ==>
          ids[i] in after.runs && after.runs[ids[i]] == NewRun(rowid + i, device, Some(campaign), Column(plan[i])))
  }

  lemma NextChild(
      db: Db, after: Db, campaign: string, device: string, plan: seq<Option<string>>,
      ids: seq<string>, rowid: nat, k: nat)
    requires k < |plan| <= |ids| && Unused(db, campaign, ids)
    requires Stand(db, after, campaign, device, plan, ids, rowid, k)
    ensures Stand(db, CreateRun(after, ids[k], NewRun(rowid + k, device, Some(campaign), Column(plan[k]))),
                  campaign, device, plan, ids, rowid, k + 1)
  {
    var run := NewRun(rowid + k, device, Some(campaign), Column(plan[k]));
    hide NewRun, Column;
    assert ids[..k + 1] == ids[..k] + [ids[k]];
    assert ids[k] !in ids[..k];
    var next := CreateRun(after, ids[k], run);
    assert next.runs == after.runs[ids[k] := run];
    assert run.rowid == rowid + k;
  }

  lemma ChildrenAreListed(
      db: Db, campaign: string, device: string, plan: seq<Option<string>>, ids: seq<string>, rowid: nat)
    requires |plan| <= |ids| && IsNextRowid(db, rowid) && Unused(db, campaign, ids)
    ensures IsListing(WithChildren(db, campaign, device, plan, ids, rowid, |plan|), campaign, ids[..|plan|])
  {
    hide WithChildren;
    ChildrenAreThere(db, campaign, device, plan, ids, rowid, |plan|);
  }

  /** The dispatcher hands a campaign's children out in the order of the plan: when it is one child's turn,
      none before it still waits. */
  lemma DispatchFollowsPlan(db: Db, campaign: string, order: seq<string>, device: string, i: nat, j: nat)
    requires IsListing(db, campaign, order) && j < i < |order|
    requires OldestWaiting(db, device, order[i])
    ensures !Waiting(db, device, order[j])
  {}

  // ---- status and progress ------------------------------------------------------------------------

  /** A campaign's status computed from its child runs. */
  function DerivedStatus(cancelRequested: bool, stored: Status, statuses: seq<Status>): Status {
    if cancelRequested then Interrupted
    else if statuses == [] then stored
    else if forall i :: 0 <= i < |statuses| ==> Terminal(statuses[i]) then Completed
    else Running
  }

  function CountOf(statuses: seq<Status>, wanted: set<Status>): nat {
    if statuses == [] then 0
    else CountOf(statuses[..|statuses| - 1], wanted) + if statuses[|statuses| - 1] in wanted then 1 else 0
  }

  /** COUNT and the two SUMs of the grouped join over a campaign's runs. */
  datatype Counts = Counts(total: nat, completed: nat, failed: nat)

  function Grouped(statuses: seq<Status>): Counts {
    Counts(|statuses|, CountOf(statuses, {Completed}), CountOf(statuses, {Failed, Interrupted}))
  }

  function SummaryStatus(cancelRequested: bool, stored: Status, c: Counts): Status {
    if cancelRequested then Interrupted
    else if c.total > 0 && c.completed + c.failed == c.total then Completed
    else if c.total > 0 then Running
    else stored
  }

  function Progress(finished: nat, total: nat): real {
    if total == 0 then 0.0 else finished as real / total as real * 100.0
  }

  lemma {:induction false} CountsSplit(statuses: seq<Status>)
    ensures CountOf(statuses, {Completed}) + CountOf(statuses, {Failed, Interrupted})
            == CountOf(statuses, {Completed, Failed, Interrupted}) <= |statuses|
    ensures CountOf(statuses, {Completed, Failed, Interrupted}) == |statuses|
            <==> forall i :: 0 <= i < |statuses| ==> Terminal(statuses[i])
  {
    if statuses != [] {
      CountsSplit(statuses[..|statuses| - 1]);
    }
  }

  /** The list of campaigns, which only counts, and the page of one, which reads every run, show the same
      status and the same progress; a full bar is what makes a campaign completed. */
  lemma SummaryAgrees(cancelRequested: bool, stored: Status, statuses: seq<Status>)
    ensures var c, finished := Grouped(statuses), CountOf(statuses, {Completed, Failed, Interrupted});
            && SummaryStatus(cancelRequested, stored, c) == DerivedStatus(cancelRequested, stored, statuses)
            && c.completed + c.failed == finished
            && 0.0 <= Progress(finished, |statuses|) <= 100.0 && (statuses == [] ==> Progress(finished, 0) == 0.0)
            && (statuses != [] ==> Progress(finished, |statuses|) * |statuses| as real == finished as real * 100.0)
            && (statuses != [] && !cancelRequested ==>
                  (Progress(finished, |statuses|) == 100.0
                   <==> DerivedStatus(cancelRequested, stored, statuses) == Completed))
  {
    hide CountOf, Terminal;
    CountsSplit(statuses);
    if statuses != [] {
      Percentage(CountOf(statuses, {Completed, Failed, Interrupted}), |statuses|);
    }
  }

  lemma Percentage(part: nat, whole: nat)
    requires part <= whole && whole > 0
    ensures 0.0 <= Progress(part, whole) <= 100.0
    ensures Progress(part, whole) == 100.0 <==> part == whole
  {
    var q := part as real / whole as real;
    assert q * whole as real == part as real;
    Statistics.QuotientWithin(whole as real, 0.0, part as real, 1.0);
  }
}

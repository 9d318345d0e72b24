/** Who may drive a device. Any number of workers, sweepers and users interleave over the
    tables; the theorems say what every run of that keeps. */
module LockProtocol {
  import opened Wrappers
  import opened Tables

  /** The tables, and the live workers: by their number, the run each drives and the preflight each walks. */
  datatype World = World(db: Db, runners: map<nat, string>, walkers: map<nat, string>)

  datatype Action =
    | Tick(seconds: real)
    | AddRun(id: string, run: Run)
    | AddPreflight(id: string, device: string)
    | SweepRuns(cutoff: real)
    | SweepPreflights(cutoff: real)
    | Claim(worker: nat, id: string)
    | ClaimCheck(worker: nat, id: string)
    | Heartbeat(worker: nat, progress: real)
    | Finish(worker: nat, status: Status, checkpoint: Option<real>, error: Option<string>)
    | Crash(worker: nat)
    | FinishCheck(worker: nat, status: Status, ok: Option<bool>, error: Option<string>)
    | CrashCheck(worker: nat)
    | CancelFlag(id: string)
    | CancelCheckFlag(id: string)
    | Close(id: string, status: Status, error: Option<string>)
    | Delete(id: string)
    | Dispatch(device: string, id: string)

  /** What each action does, whether or not anybody should take it. */
  function Apply(w: World, a: Action): World {
    match a
    case Tick(seconds) => w.(db := w.db.(now := w.db.now + seconds))
    case AddRun(id, run) => w.(db := CreateRun(w.db, id, run))
    case AddPreflight(id, device) => w.(db := CreatePreflight(w.db, id, device))
    case SweepRuns(cutoff) => w.(db := ReleaseRuns(w.db, cutoff))
    case SweepPreflights(cutoff) => w.(db := ReleasePreflights(w.db, cutoff))
    case Claim(worker, id) =>
      if RunClaimable(w.db, id) then w.(db := ClaimRun(w.db, id), runners := w.runners[worker := id]) else w
    case ClaimCheck(worker, id) =>
      if PreflightClaimable(w.db, id) then w.(db := ClaimPreflight(w.db, id), walkers := w.walkers[worker := id]) else w
    case Heartbeat(worker, progress) =>
      if worker in w.runners then w.(db := UpdateRun(w.db, w.runners[worker], Running, Some(progress), None)) else w
    case Finish(worker, status, checkpoint, error) =>
      if worker in w.runners
      then w.(db := UpdateRun(w.db, w.runners[worker], status, checkpoint, error), runners := w.runners - {worker})
      else w
    case Crash(worker) => w.(runners := w.runners - {worker})
    case FinishCheck(worker, status, ok, error) =>
      if worker in w.walkers
      then w.(db := FinishPreflight(w.db, w.walkers[worker], status, ok, error), walkers := w.walkers - {worker})
      else w
    case CrashCheck(worker) => w.(walkers := w.walkers - {worker})
    case CancelFlag(id) => w.(db := RequestCancel(w.db, id))
    case CancelCheckFlag(id) => w.(db := RequestPreflightCancel(w.db, id))
    case Close(id, status, error) => w.(db := UpdateRun(w.db, id, status, None, error))
    case Delete(id) => w.(db := DeleteRun(w.db, id))
    case Dispatch(device, id) => w.(db := MarkRunQueued(w.db, id))
  }

  /** What the code itself guarantees of each action. */
  ghost predicate Possible(w: World, a: Action) {
    match a
    case Tick(seconds) => seconds >= 0.0
    case AddRun(id, run) =>
      run == NewRun(run.rowid, run.device, run.campaign, run.scenario) && IsNextRowid(w.db, run.rowid)
    case SweepRuns(cutoff) => cutoff <= w.db.now - ABANDONED_RUN_SECONDS
    case SweepPreflights(cutoff) => cutoff <= w.db.now - ABANDONED_PREFLIGHT_SECONDS
    case Claim(worker, _) => worker !in w.runners
    case ClaimCheck(worker, _) => worker !in w.walkers
    case Heartbeat(worker, _) => worker in w.runners
    case Finish(worker, status, _, _) => worker in w.runners && Terminal(status)
    case Crash(worker) => worker in w.runners
    case FinishCheck(worker, status, _, _) => worker in w.walkers && Terminal(status)
    case CrashCheck(worker) => worker in w.walkers
    case Close(_, status, _) => Terminal(status)
    case Dispatch(device, id) => !HasInflight(w.db, device) && IsNextPending(w.db, device, id)
    case _ => true
  }

  predicate Drives(w: World, worker: nat, id: string) {
    worker in w.runners && w.runners[worker] == id
  }

  /** A live worker drives the device for this run. */
  predicate Driven(w: World, id: string) {
    exists v :: v in w.runners && w.runners[v] == id
  }

  predicate SeenWithin(w: World, id: string, now: real) {
    id in w.db.runs ==>
      var seen := LastSeen(w.db.runs[id]);
      seen.Some? && seen.value >= now - ABANDONED_RUN_SECONDS
  }

  /** A claim leaves the row with a sign of life young enough to survive a sweep. A row
      that is still pending always does; a resumed one only if it stopped recently. */
  predicate ClaimIsFresh(db: Db, id: string) {
    id in db.runs ==>
      var seen := LastSeen(ClaimedRun(db.runs[id], db.now));
      seen.Some? && seen.value >= db.now - ABANDONED_RUN_SECONDS
  }

  /** The hypotheses of exclusivity: no live run's heartbeat gap passes 120 seconds, claims
      are fresh and one worker claims a row, and nobody else rewrites a live run's status
      or re-creates its row. */
  ghost predicate Disciplined(w: World, a: Action) {
    match a
    case Tick(seconds) => forall v :: v in w.runners ==> SeenWithin(w, w.runners[v], w.db.now + seconds)
    case AddRun(id, _) => !Driven(w, id)
    case Claim(_, id) => !Driven(w, id) && ClaimIsFresh(w.db, id)
    case Close(id, _, _) => !Driven(w, id)
    case _ => true
  }

  predicate YoungerThanCeiling(p: Preflight, now: real) {
    p.startedAt.Some? && p.startedAt.value >= now - ABANDONED_PREFLIGHT_SECONDS
  }

  /** What one driver per device takes on top: no preflight outlives its 900 seconds, and
      neither a live run nor a live preflight loses its row. */
  ghost predicate Careful(w: World, a: Action) {
    match a
    case Tick(seconds) =>
      forall v :: v in w.walkers && w.walkers[v] in w.db.preflights ==>
        YoungerThanCeiling(w.db.preflights[w.walkers[v]], w.db.now + seconds)
    case Delete(id) => !Driven(w, id)
    case _ => true
  }

  // ---- invariants ---------------------------------------------------------------------

  /** What the rows alone keep, whoever does what and whenever. */
  ghost predicate Sane(db: Db) {
    && (forall id :: id in db.runs ==> RunSane(db, db.runs[id]))
    && (forall id :: id in db.preflights ==> PreflightSane(db, db.preflights[id]))
  }

  predicate Past(db: Db, t: Option<real>) {
    t.Some? ==> t.value <= db.now
  }

  /** A running row has a start; a pending one has neither start nor heartbeat. */
  predicate RunSane(db: Db, r: Run) {
    && (r.status == Running ==> r.startedAt.Some?)
    && (r.status == Pending ==> r.startedAt == None && r.heartbeatAt == None)
    && Past(db, r.startedAt) && Past(db, r.heartbeatAt) && Past(db, r.queuedAt)
  }

  predicate PreflightSane(db: Db, p: Preflight) {
    && (p.status == Running ==> p.startedAt.Some?)
    && (p.status == Pending ==> p.startedAt == None)
    && Past(db, p.startedAt)
  }

  /** At most one row per device, runs and preflights together, is running. */
  ghost predicate Exclusive(db: Db) {
    && (forall a, b :: RunHeld(db, a) && RunHeld(db, b) && db.runs[a].device == db.runs[b].device ==> a == b)
    && (forall a, b :: CheckHeld(db, a) && CheckHeld(db, b) && db.preflights[a].device == db.preflights[b].device
          ==> a == b)
    && (forall a, b :: RunHeld(db, a) && CheckHeld(db, b) ==> db.runs[a].device != db.preflights[b].device)
  }

  predicate RunHeld(db: Db, id: string) {
    id in db.runs && db.runs[id].status == Running
  }

  predicate CheckHeld(db: Db, id: string) {
    id in db.preflights && db.preflights[id].status == Running
  }

  predicate OneWorkerEach(workers: map<nat, string>) {
    forall u, v :: u in workers && v in workers && workers[u] == workers[v] ==> u == v
  }

  /** Every live run whose row still exists is running and recently seen, and has one worker. */
  ghost predicate RunnersHold(w: World) {
    && OneWorkerEach(w.runners)
    && forall v :: v in w.runners ==>
         && (w.runners[v] in w.db.runs ==> w.db.runs[w.runners[v]].status == Running)
         && SeenWithin(w, w.runners[v], w.db.now)
  }

  ghost predicate Locked(w: World) {
    Sane(w.db) && Exclusive(w.db) && RunnersHold(w)
  }

  /** Every live worker holds the lock of an existing row, and no two of them walk the same preflight. */
  ghost predicate DriversHold(w: World) {
    && (forall v :: v in w.runners ==> RunHeld(w.db, w.runners[v]))
    && (forall v :: v in w.walkers ==>
          CheckHeld(w.db, w.walkers[v]) && YoungerThanCeiling(w.db.preflights[w.walkers[v]], w.db.now))
    && OneWorkerEach(w.walkers)
  }

  /** Two runs freshly handed to the queue for one device are the same run. */
  ghost predicate OneQueued(db: Db) {
    forall d, a, b :: OnItsWay(db, d, a) && OnItsWay(db, d, b) ==> a == b
  }

  predicate OnItsWay(db: Db, device: string, id: string) {
    Waiting(db, device, id) && FreshlyQueued(db, db.runs[id])
  }

  ghost predicate DistinctRowids(db: Db) {
    forall a, b :: a in db.runs && b in db.runs && db.runs[a].rowid == db.runs[b].rowid ==> a == b
  }

  // ---- one step -------------------------------------------------------------------------

  /** Everything that can happen to a row that stays. */
  predicate RunMove(now: real, before: Run, after: Run) {
    || after == before
    || after == before.(cancelRequested := true)
    || after == before.(queuedAt := Some(now))
    || after == before.(status := Interrupted, finishedAt := Some(now), error := Some("abandoned"))
    || after == ClaimedRun(before, now)
    || (after.status != Pending && after == UpdatedRun(before, now, after.status, after.checkpoint, after.error))
  }

  lemma RowsMove(w: World, a: Action, id: string)
    requires Possible(w, a) && id in Apply(w, a).db.runs
    ensures if id in w.db.runs then RunMove(w.db.now, w.db.runs[id], Apply(w, a).db.runs[id])
            else a.AddRun? && id == a.id && Apply(w, a).db.runs[id] == a.run
  {
    hide RunHolds, AnyPreflightHolds, HasInflight, IsNextPending, IsNextRowid, PreflightClaimable, RunStale,
      ReleasePreflights, ClaimPreflight, FinishPreflight, RequestPreflightCancel, CreatePreflight;
  }

  lemma RunSaneStep(w: World, a: Action, id: string)
    requires Sane(w.db) && Possible(w, a) && id in Apply(w, a).db.runs
    ensures RunSane(Apply(w, a).db, Apply(w, a).db.runs[id])
  {
    RowsMove(w, a, id);
    TimeMovesOn(w, a);
    assert id in w.db.runs ==> RunSane(w.db, w.db.runs[id]);
    hide Apply, Sane;
  }

  lemma TimeMovesOn(w: World, a: Action)
    requires Possible(w, a)
    ensures w.db.now <= Apply(w, a).db.now
    ensures if a.Tick? then Apply(w, a) == w.(db := w.db.(now := w.db.now + a.seconds))
            else Apply(w, a).db.now == w.db.now
  {}

  lemma PreflightSaneStep(w: World, a: Action, id: string)
    requires Sane(w.db) && Possible(w, a) && id in Apply(w, a).db.preflights
    ensures PreflightSane(Apply(w, a).db, Apply(w, a).db.preflights[id])
  {
    hide PreflightHolds, AnyRunHolds, HasInflight, IsNextPending, IsNextRowid, RunSane, RunClaimable,
      UpdateRun, ReleaseRuns, ClaimRun, RequestCancel, DeleteRun, MarkRunQueued, CreateRun;
    assert id in w.db.preflights ==> PreflightSane(w.db, w.db.preflights[id]);
  }

  lemma SaneStep(w: World, a: Action)
    requires Sane(w.db) && Possible(w, a)
    ensures Sane(Apply(w, a).db)
  {
    hide Apply, Possible, RunSane, PreflightSane;
    forall id | id in Apply(w, a).db.runs
      ensures RunSane(Apply(w, a).db, Apply(w, a).db.runs[id])
    {
      RunSaneStep(w, a, id);
    }
    forall id | id in Apply(w, a).db.preflights
      ensures PreflightSane(Apply(w, a).db, Apply(w, a).db.preflights[id])
    {
      PreflightSaneStep(w, a, id);
    }
  }

  /** Nothing starts to run: what runs afterwards ran before, on the same device. */
  ghost predicate RunsShrink(before: Db, after: Db) {
    forall id :: RunHeld(after, id) ==> RunHeld(before, id) && after.runs[id].device == before.runs[id].device
  }

  ghost predicate ChecksShrink(before: Db, after: Db) {
    forall id :: CheckHeld(after, id) ==>
      CheckHeld(before, id) && after.preflights[id].device == before.preflights[id].device
  }

  lemma OnlyClaimsStartRuns(w: World, a: Action)
    requires RunnersHold(w) && Possible(w, a) && Disciplined(w, a) && !a.Claim?
    ensures RunsShrink(w.db, Apply(w, a).db)
  {
    hide HasInflight, IsNextPending, IsNextRowid, PreflightClaimable, SeenWithin,
      ReleasePreflights, ClaimPreflight, FinishPreflight, RequestPreflightCancel, CreatePreflight;
  }

  lemma OnlyClaimsStartChecks(w: World, a: Action)
    requires Possible(w, a) && !a.ClaimCheck?
    ensures ChecksShrink(w.db, Apply(w, a).db)
  {
    hide HasInflight, IsNextPending, IsNextRowid, RunClaimable,
      UpdateRun, ReleaseRuns, ClaimRun, RequestCancel, DeleteRun, MarkRunQueued, CreateRun;
  }

  lemma ClaimKeepsExclusive(db: Db, id: string)
    requires Exclusive(db)
    ensures Exclusive(ClaimRun(db, id))
  {
    if RunClaimable(db, id) {
      var after, device := ClaimRun(db, id), db.runs[id].device;
      assert forall o :: RunHeld(after, o) ==> o == id || RunHeld(db, o);
      assert forall o :: RunHeld(db, o) && o != id ==> db.runs[o].device != device;
      assert forall o :: CheckHeld(db, o) ==> db.preflights[o].device != device;
    }
  }

  lemma ClaimCheckKeepsExclusive(db: Db, id: string)
    requires Exclusive(db)
    ensures Exclusive(ClaimPreflight(db, id))
  {
    if PreflightClaimable(db, id) {
      var after, device := ClaimPreflight(db, id), db.preflights[id].device;
      assert forall o :: CheckHeld(after, o) ==> o == id || CheckHeld(db, o);
      assert forall o :: CheckHeld(db, o) && o != id ==> db.preflights[o].device != device;
      assert forall o :: RunHeld(db, o) ==> db.runs[o].device != device;
    }
  }

  lemma ExclusiveStep(w: World, a: Action)
    requires Exclusive(w.db) && RunnersHold(w) && Possible(w, a) && Disciplined(w, a)
    ensures Exclusive(Apply(w, a).db)
  {
    match a
    case Claim(_, id) => ClaimKeepsExclusive(w.db, id);
    case ClaimCheck(_, id) => ClaimCheckKeepsExclusive(w.db, id);
    case _ =>
      OnlyClaimsStartRuns(w, a);
      OnlyClaimsStartChecks(w, a);
      hide RunHeld, CheckHeld, Apply;
  }

  /** The row of a live run, after a step that leaves its worker alive, still runs and is as young or younger. */
  lemma DrivenRow(w: World, a: Action, v: nat)
    requires RunnersHold(w) && Possible(w, a) && Disciplined(w, a) && v in w.runners && v in Apply(w, a).runners
    requires w.runners[v] in w.db.runs && w.runners[v] in Apply(w, a).db.runs
    requires Past(w.db, LastSeen(w.db.runs[w.runners[v]]))
    ensures var before, after := w.db.runs[w.runners[v]], Apply(w, a).db.runs[w.runners[v]];
            after.status == Running && LastSeen(after).Some? && LastSeen(after).value >= LastSeen(before).value
  {
    var id := w.runners[v];
    assert Driven(w, id) && SeenWithin(w, id, w.db.now) && w.db.runs[id].status == Running;
    assert a.Finish? && a.worker in w.runners && v != a.worker ==> w.runners[a.worker] != id;
    hide HasInflight, IsNextPending, IsNextRowid, RunnersHold, RunHolds, AnyPreflightHolds, PreflightClaimable,
      Driven, ReleasePreflights, ClaimPreflight, FinishPreflight, RequestPreflightCancel, CreatePreflight;
  }

  lemma RunnersAre(w: World, a: Action, v: nat)
    requires Possible(w, a) && v in Apply(w, a).runners
    ensures if v in w.runners then Apply(w, a).runners[v] == w.runners[v]
            else a == Claim(v, Apply(w, a).runners[v]) && RunClaimable(w.db, a.id)
                 && Apply(w, a).db == ClaimRun(w.db, a.id)
  {
    hide HasInflight, IsNextPending, IsNextRowid, RunClaimable;
  }

  lemma RunnerStep(w: World, a: Action, v: nat)
    requires Locked(w) && Possible(w, a) && Disciplined(w, a) && v in Apply(w, a).runners
    ensures var after, id := Apply(w, a), Apply(w, a).runners[v];
            (id in after.db.runs ==> after.db.runs[id].status == Running) && SeenWithin(after, id, after.db.now)
  {
    var id := Apply(w, a).runners[v];
    RunnersAre(w, a, v);
    TimeMovesOn(w, a);
    assert v in w.runners ==> Driven(w, id) && SeenWithin(w, id, w.db.now);
    assert v in w.runners && a.Tick? ==> SeenWithin(w, id, Apply(w, a).db.now);
    assert id in w.db.runs ==> RunSane(w.db, w.db.runs[id]);
    if v in w.runners && id in Apply(w, a).db.runs {
      RowsMove(w, a, id);
      assert id in w.db.runs;
      DrivenRow(w, a, v);
    }
    hide Apply, Possible, Locked, Driven, RunClaimable;
  }

  /** Claiming a row that nobody drives, or that is pending, makes no second worker of it. */
  lemma OneWorkerStep(w: World, a: Action)
    requires Possible(w, a) && Disciplined(w, a)
    ensures OneWorkerEach(w.runners) ==> OneWorkerEach(Apply(w, a).runners)
    ensures DriversHold(w) ==> OneWorkerEach(Apply(w, a).walkers)
  {
    assert forall v :: v in w.runners ==> Driven(w, w.runners[v]);
    hide HasInflight, IsNextPending, IsNextRowid, RunHolds, AnyRunHolds, AnyPreflightHolds, PreflightHolds, Driven,
      SeenWithin, ClaimIsFresh;
  }

  lemma RunnersStep(w: World, a: Action)
    requires Locked(w) && Possible(w, a) && Disciplined(w, a)
    ensures RunnersHold(Apply(w, a))
  {
    OneWorkerStep(w, a);
    hide OneWorkerEach, Locked, Possible, Disciplined, Apply, SeenWithin;
    forall v | v in Apply(w, a).runners
      ensures var after, id := Apply(w, a), Apply(w, a).runners[v];
              (id in after.db.runs ==> after.db.runs[id].status == Running) && SeenWithin(after, id, after.db.now)
    {
      RunnerStep(w, a, v);
    }
  }

  /** A row that a careful world's step deletes had no worker. */
  lemma DriverStep(w: World, a: Action, v: nat)
    requires DriversHold(w) && Possible(w, a) && Careful(w, a) && v in Apply(w, a).runners
    ensures Apply(w, a).runners[v] in Apply(w, a).db.runs
  {
    RunnersAre(w, a, v);
    var id := Apply(w, a).runners[v];
    assert v in w.runners ==> RunHeld(w.db, id) && Driven(w, id);
    RowsStay(w, a, id);
    hide Apply, Possible, Driven, DriversHold;
  }

  lemma RowsStay(w: World, a: Action, id: string)
    requires id in w.db.runs && a != Delete(id)
    ensures id in Apply(w, a).db.runs
  {
    hide RunClaimable, PreflightClaimable;
  }

  lemma WalkersAre(w: World, a: Action, v: nat)
    requires Possible(w, a) && v in Apply(w, a).walkers
    ensures if v in w.walkers then Apply(w, a).walkers[v] == w.walkers[v]
            else a == ClaimCheck(v, Apply(w, a).walkers[v]) && PreflightClaimable(w.db, a.id)
                 && Apply(w, a).db == ClaimPreflight(w.db, a.id)
  {
    hide HasInflight, IsNextPending, IsNextRowid, PreflightClaimable;
  }

  /** The row of a live preflight, after a step that leaves its worker alive, runs on from the same start. */
  lemma WalkedRow(w: World, a: Action, v: nat)
    requires OneWorkerEach(w.walkers) && Possible(w, a) && v in w.walkers && v in Apply(w, a).walkers
    requires CheckHeld(w.db, w.walkers[v]) && YoungerThanCeiling(w.db.preflights[w.walkers[v]], w.db.now)
    ensures var id := w.walkers[v];
            CheckHeld(Apply(w, a).db, id)
            && Apply(w, a).db.preflights[id].startedAt == w.db.preflights[id].startedAt
  {
    var id := w.walkers[v];
    assert a.FinishCheck? && a.worker in w.walkers && v != a.worker ==> w.walkers[a.worker] != id;
    hide HasInflight, IsNextPending, IsNextRowid, OneWorkerEach, PreflightHolds, AnyRunHolds,
      UpdateRun, ReleaseRuns, ClaimRun, RunClaimable, RequestCancel, DeleteRun, MarkRunQueued, CreateRun;
  }

  lemma WalkerStep(w: World, a: Action, v: nat)
    requires Sane(w.db) && DriversHold(w) && Possible(w, a) && Careful(w, a) && v in Apply(w, a).walkers
    ensures var after, id := Apply(w, a), Apply(w, a).walkers[v];
            CheckHeld(after.db, id) && YoungerThanCeiling(after.db.preflights[id], after.db.now)
  {
    var id := Apply(w, a).walkers[v];
    WalkersAre(w, a, v);
    TimeMovesOn(w, a);
    if v in w.walkers {
      assert CheckHeld(w.db, id) && YoungerThanCeiling(w.db.preflights[id], w.db.now);
      WalkedRow(w, a, v);
    } else {
      assert PreflightSane(w.db, w.db.preflights[id]);
    }
    hide Apply, Possible, DriversHold, Driven, PreflightHolds, AnyRunHolds;
  }

  lemma DriversStep(w: World, a: Action)
    requires Locked(w) && DriversHold(w) && Possible(w, a) && Disciplined(w, a) && Careful(w, a)
    ensures DriversHold(Apply(w, a))
  {
    OneWorkerStep(w, a);
    hide OneWorkerEach, Locked, Possible, Disciplined, Careful, Apply, SeenWithin, YoungerThanCeiling;
    forall v | v in Apply(w, a).runners
      ensures RunHeld(Apply(w, a).db, Apply(w, a).runners[v])
    {
      RunnerStep(w, a, v);
      DriverStep(w, a, v);
    }
    forall v | v in Apply(w, a).walkers
      ensures CheckHeld(Apply(w, a).db, Apply(w, a).walkers[v])
      ensures YoungerThanCeiling(Apply(w, a).db.preflights[Apply(w, a).walkers[v]], Apply(w, a).db.now)
    {
      WalkerStep(w, a, v);
    }
  }

  lemma OneQueuedStep(w: World, a: Action)
    requires Sane(w.db) && OneQueued(w.db) && Possible(w, a)
    ensures OneQueued(Apply(w, a).db)
  {
    hide RunHolds, AnyPreflightHolds, PreflightHolds, AnyRunHolds, IsNextRowid;
    var before, after := w.db, Apply(w, a).db;
    if a.Dispatch? {
      forall d, o | OnItsWay(after, d, o)
        ensures OnItsWay(before, d, o) || (d == a.device && o == a.id)
      {}
      var device := a.device;
      forall o
        ensures !OnItsWay(before, device, o)
      {
        assert OnItsWay(before, device, o) ==> HasInflight(before, device);
      }
    } else {
      assert forall d, o :: OnItsWay(after, d, o) ==> OnItsWay(before, d, o);
    }
  }

  lemma DistinctRowidsStep(w: World, a: Action)
    requires DistinctRowids(w.db) && Possible(w, a)
    ensures DistinctRowids(Apply(w, a).db)
  {
    hide RunHolds, AnyPreflightHolds, PreflightHolds, AnyRunHolds, HasInflight, IsNextPending;
    var before, after := w.db, Apply(w, a).db;
    forall id | id in after.runs
      ensures if id in before.runs then after.runs[id].rowid == before.runs[id].rowid
              else a.AddRun? && id == a.id && IsNextRowid(before, after.runs[id].rowid)
    {}
  }

  /** One call of the storage's claim is three steps of the protocol. */
  lemma TryStartIsThreeSteps(w: World, worker: nat, id: string)
    requires worker !in w.runners
    ensures var w1 := Apply(w, SweepRuns(w.db.now - ABANDONED_RUN_SECONDS));
            var w2 := Apply(w1, SweepPreflights(w.db.now - ABANDONED_PREFLIGHT_SECONDS));
            var w3 := Apply(w2, Claim(worker, id));
            && w3.db == ClaimRun(Swept(w.db), id)
            && w3.runners == if RunClaimable(Swept(w.db), id) then w.runners[worker := id] else w.runners
  {
    hide RunClaimable;
  }

  /** A cancel flag stays on its row until the row is deleted. */
  lemma CancelSticks(w: World, a: Action, id: string)
    requires Possible(w, a) && id in w.db.runs && w.db.runs[id].cancelRequested
    ensures id in Apply(w, a).db.runs ==> Apply(w, a).db.runs[id].cancelRequested
    ensures id !in Apply(w, a).db.runs ==> a == Delete(id)
  {
    if id in Apply(w, a).db.runs {
      RowsMove(w, a, id);
    }
    hide RunClaimable, PreflightClaimable, HasInflight, IsNextPending, IsNextRowid;
  }

  // ---- whole runs -----------------------------------------------------------------------

  /** A run of the system: worlds linked by possible, disciplined actions. */
  ghost predicate IsRun(worlds: seq<World>, actions: seq<Action>) {
    && |worlds| == |actions| + 1
    && forall i :: 0 <= i < |actions| ==>
         && Possible(worlds[i], actions[i])
         && worlds[i + 1] == Apply(worlds[i], actions[i])
  }

  ghost predicate AlwaysDisciplined(worlds: seq<World>, actions: seq<Action>)
    requires |worlds| == |actions| + 1
  {
    forall i :: 0 <= i < |actions| ==> Disciplined(worlds[i], actions[i])
  }

  ghost predicate AlwaysCareful(worlds: seq<World>, actions: seq<Action>)
    requires |worlds| == |actions| + 1
  {
    forall i :: 0 <= i < |actions| ==> Careful(worlds[i], actions[i])
  }

  /** Fresh tables, nobody at work. */
  predicate Initial(w: World) {
    w.db.runs == map[] && w.db.preflights == map[] && w.runners == map[] && w.walkers == map[]
  }

  /** In every run of anything at all: a running row has its start, a pending one neither
      start nor heartbeat, and no device has two runs on their way to it. */
  lemma {:induction false} RowsStaySane(worlds: seq<World>, actions: seq<Action>, k: nat)
    requires IsRun(worlds, actions) && Initial(worlds[0]) && k < |worlds|
    ensures Sane(worlds[k].db) && OneQueued(worlds[k].db) && DistinctRowids(worlds[k].db)
  {
    hide Apply, Possible;
    if k > 0 {
      RowsStaySane(worlds, actions, k - 1);
      hide Sane, OneQueued, DistinctRowids;
      SaneStep(worlds[k - 1], actions[k - 1]);
      OneQueuedStep(worlds[k - 1], actions[k - 1]);
      DistinctRowidsStep(worlds[k - 1], actions[k - 1]);
    }
  }

  lemma {:induction false} LockHoldsThroughout(worlds: seq<World>, actions: seq<Action>, k: nat)
    requires IsRun(worlds, actions) && AlwaysDisciplined(worlds, actions) && Initial(worlds[0]) && k < |worlds|
    ensures Locked(worlds[k])
  {
    hide Apply, Possible, Disciplined;
    if k > 0 {
      LockHoldsThroughout(worlds, actions, k - 1);
      hide Sane, Exclusive, RunnersHold;
      SaneStep(worlds[k - 1], actions[k - 1]);
      ExclusiveStep(worlds[k - 1], actions[k - 1]);
      RunnersStep(worlds[k - 1], actions[k - 1]);
    }
  }

  /** Device exclusivity: in every reachable world at most one row per device, runs and
      preflights together, is running. */
  lemma DeviceExclusivity(worlds: seq<World>, actions: seq<Action>, k: nat)
    requires IsRun(worlds, actions) && AlwaysDisciplined(worlds, actions) && Initial(worlds[0]) && k < |worlds|
    ensures Exclusive(worlds[k].db)
  {
    hide Apply, Possible, Disciplined, Exclusive;
    LockHoldsThroughout(worlds, actions, k);
  }

  lemma {:induction false} DriversHoldThroughout(worlds: seq<World>, actions: seq<Action>, k: nat)
    requires IsRun(worlds, actions) && AlwaysDisciplined(worlds, actions) && AlwaysCareful(worlds, actions)
    requires Initial(worlds[0]) && k < |worlds|
    ensures DriversHold(worlds[k])
  {
    hide Apply, Possible, Disciplined, Careful;
    if k > 0 {
      DriversHoldThroughout(worlds, actions, k - 1);
      hide DriversHold, Locked;
      LockHoldsThroughout(worlds, actions, k - 1);
      DriversStep(worlds[k - 1], actions[k - 1]);
    }
  }

  /** And then no device is ever driven by two live workers at once, whether they measure
      or check selectors. */
  lemma OneDriverPerDevice(worlds: seq<World>, actions: seq<Action>, k: nat)
    requires IsRun(worlds, actions) && AlwaysDisciplined(worlds, actions) && AlwaysCareful(worlds, actions)
    requires Initial(worlds[0]) && k < |worlds|
    ensures var w := worlds[k];
            && (forall v :: v in w.runners ==> w.runners[v] in w.db.runs)
            && (forall v :: v in w.walkers ==> w.walkers[v] in w.db.preflights)
            && (forall u, v :: u in w.runners && v in w.runners && u != v ==>
                  w.db.runs[w.runners[u]].device != w.db.runs[w.runners[v]].device)
            && (forall u, v :: u in w.walkers && v in w.walkers && u != v ==>
                  w.db.preflights[w.walkers[u]].device != w.db.preflights[w.walkers[v]].device)
            && (forall u, v :: u in w.runners && v in w.walkers ==>
                  w.db.runs[w.runners[u]].device != w.db.preflights[w.walkers[v]].device)
  {
    hide Apply, Possible, Disciplined, Careful, IsRun;
    DriversHoldThroughout(worlds, actions, k);
    LockHoldsThroughout(worlds, actions, k);
  }

  // ---- what breaks without the hypotheses -------------------------------------------------

  /** A claim survives the very next sweep if and only if it was fresh. */
  lemma FreshClaimSurvivesSweep(db: Db, id: string)
    requires Sane(db) && RunClaimable(db, id)
    ensures RunHeld(Swept(ClaimRun(db, id)), id) <==> ClaimIsFresh(db, id)
  {
    hide RunHolds, AnyPreflightHolds;
    assert RunSane(db, db.runs[id]);
  }

  /** A pending row is always fresh, so only resuming can break the rule. */
  lemma PendingClaimIsFresh(db: Db, id: string)
    requires Sane(db) && id in db.runs && db.runs[id].status == Pending
    ensures ClaimIsFresh(db, id)
  {
    assert RunSane(db, db.runs[id]);
  }

  /** Resuming a run that stopped more than 120 seconds ago: the next claim of the device
      takes it away, and the resumed worker's heartbeat makes both rows run. */
  lemma StaleResumeBreaksExclusivity(db: Db, resumed: string, other: string)
    requires Sane(db) && RunClaimable(db, resumed) && !ClaimIsFresh(db, resumed)
    requires other in db.runs && other != resumed && db.runs[other].device == db.runs[resumed].device
    ensures RunClaimable(Swept(ClaimRun(db, resumed)), other)
    ensures !Exclusive(UpdateRun(ClaimRun(Swept(ClaimRun(db, resumed)), other), resumed, Running, None, None))
  {
    var swept := Swept(ClaimRun(db, resumed));
    var device := db.runs[resumed].device;
    FreshClaimSurvivesSweep(db, resumed);
    forall o
      ensures o in swept.runs && swept.runs[o].device == device ==> swept.runs[o].status != Running
    {
      assert o in swept.runs ==> o in db.runs;
    }
    assert !AnyPreflightHolds(db, device);
    assert RunClaimable(swept, other);
    var after := UpdateRun(ClaimRun(swept, other), resumed, Running, None, None);
    assert RunHeld(after, resumed) && RunHeld(after, other);
  }

  /** Deleting the row of a live run frees the device while the run still drives it. */
  lemma DeletingLiveRunFreesDevice(w: World, driver: nat, second: nat, other: string)
    requires Sane(w.db) && Exclusive(w.db) && driver in w.runners && RunHeld(w.db, w.runners[driver])
    requires second !in w.runners && other in w.db.runs && other != w.runners[driver]
    requires w.db.runs[other].device == w.db.runs[w.runners[driver]].device
    ensures var live := w.runners[driver];
            var after := Apply(Apply(w, Delete(live)), Claim(second, other));
            && driver in after.runners && after.runners[driver] == live
            && second in after.runners && after.runners[second] == other && RunHeld(after.db, other)
  {
    var live := w.runners[driver];
    var deleted := Apply(w, Delete(live)).db;
    var device := w.db.runs[live].device;
    forall o | o in deleted.runs && o != other && deleted.runs[o].device == device
      ensures deleted.runs[o].status != Running
    {
      assert RunHeld(w.db, live) && (RunHeld(w.db, o) ==> o == live);
    }
    forall o | o in deleted.preflights && deleted.preflights[o].device == device
      ensures deleted.preflights[o].status != Running
    {
      assert RunHeld(w.db, live);
      assert CheckHeld(w.db, o) <==> deleted.preflights[o].status == Running;
    }
  }

  /** While a run holds its device the claim refuses every other run of the device, and never the run itself. */
  lemma HeldIsClaimable(db: Db, held: string, id: string)
    requires Exclusive(db) && RunHeld(db, held) && id in db.runs && db.runs[id].device == db.runs[held].device
    ensures RunClaimable(db, id) <==> id == held
  {
    if id == held {
      assert forall o :: RunHeld(db, o) && db.runs[o].device == db.runs[held].device ==> o == held;
      assert forall o :: CheckHeld(db, o) ==> db.preflights[o].device != db.runs[held].device;
    }
  }

  lemma ClaimOnFree(w: World, worker: nat, id: string)
    requires RunClaimable(w.db, id) && worker !in w.runners
    ensures Possible(w, Claim(worker, id))
    ensures var after := Apply(w, Claim(worker, id));
            && after.runners == w.runners[worker := id] && after.walkers == w.walkers && after.db.now == w.db.now
            && after.db == w.db.(runs := w.db.runs[id := ClaimedRun(w.db.runs[id], w.db.now)])
  {
    hide RunClaimable;
  }

  /** The cancel button against a worker that has just started: the button's read still found the run waiting,
      so it writes `interrupted` over the live run. The device counts as free, the next run takes it, and the
      first worker's heartbeat makes both rows run. */
  lemma CancelButtonBreaksExclusivity(w: World, first: nat, second: nat, id: string, other: string)
    returns (worlds: seq<World>, actions: seq<Action>)
    requires RunClaimable(w.db, id) && w.db.runs[id].status == Pending
    requires first !in w.runners && second !in w.runners && first != second
    requires other in w.db.runs && other != id && w.db.runs[other].device == w.db.runs[id].device
    ensures IsRun(worlds, actions) && worlds[0] == w
    ensures actions == [Claim(first, id), CancelFlag(id), Close(id, Interrupted, Some("cancelled before starting")),
                        Claim(second, other), Heartbeat(first, 0.0)]
    ensures !Exclusive(worlds[5].db) && worlds[5].runners == w.runners[first := id][second := other]
  {
    hide Possible, Apply, Exclusive, RunClaimable;
    actions := [Claim(first, id), CancelFlag(id), Close(id, Interrupted, Some("cancelled before starting")),
                Claim(second, other), Heartbeat(first, 0.0)];
    var w1 := Apply(w, actions[0]);
    var w2 := Apply(w1, actions[1]);
    var w3 := Apply(w2, actions[2]);
    var w4 := Apply(w3, actions[3]);
    ButtonOverLiveRun(w, first, id);
    OtherTakesOver(w, w3, first, second, id, other);
    worlds := [w, w1, w2, w3, w4, Apply(w4, actions[4])];
  }

  lemma ButtonOverLiveRun(w: World, first: nat, id: string)
    requires RunClaimable(w.db, id) && first !in w.runners
    ensures var w1 := Apply(w, Claim(first, id));
            var w2 := Apply(w1, CancelFlag(id));
            var close := Close(id, Interrupted, Some("cancelled before starting"));
            var w3 := Apply(w2, close);
            && Possible(w, Claim(first, id)) && Possible(w1, CancelFlag(id)) && Possible(w2, close)
            && w3.runners == w.runners[first := id] && w3.db.preflights == w.db.preflights
            && w3.db.runs.Keys == w.db.runs.Keys && w3.db.runs[id].device == w.db.runs[id].device
            && w3.db.runs[id].status == Interrupted
            && (forall o :: o in w.db.runs && o != id ==> w3.db.runs[o] == w.db.runs[o])
  {
    ClaimOnFree(w, first, id);
    hide RunHolds, AnyPreflightHolds;
  }

  lemma OtherTakesOver(w: World, now: World, first: nat, second: nat, id: string, other: string)
    requires RunClaimable(w.db, id) && first != second && second !in w.runners && now.runners == w.runners[first := id]
    requires now.db.preflights == w.db.preflights && now.db.runs.Keys == w.db.runs.Keys
    requires now.db.runs[id].device == w.db.runs[id].device && now.db.runs[id].status == Interrupted
    requires forall o :: o in w.db.runs && o != id ==> now.db.runs[o] == w.db.runs[o]
    requires other in w.db.runs && other != id && w.db.runs[other].device == w.db.runs[id].device
    ensures var w4 := Apply(now, Claim(second, other));
            var w5 := Apply(w4, Heartbeat(first, 0.0));
            && Possible(now, Claim(second, other)) && Possible(w4, Heartbeat(first, 0.0))
            && !Exclusive(w5.db) && w5.runners == w.runners[first := id][second := other]
  {
    assert RunClaimable(now.db, other);
    ClaimOnFree(now, second, other);
    var w5 := Apply(Apply(now, Claim(second, other)), Heartbeat(first, 0.0));
    hide RunHolds, AnyPreflightHolds;
    assert RunHeld(w5.db, id) && RunHeld(w5.db, other);
  }

  // ---- bounded blocking --------------------------------------------------------------------

  /** A run that has the device: it runs and was seen within the last 120 seconds. */
  predicate RunShowsLife(db: Db, device: string, o: string) {
    && o in db.runs && db.runs[o].device == device && db.runs[o].status == Running
    && var seen := LastSeen(db.runs[o]); seen.Some? && db.now - seen.value <= 120.0
  }

  /** A preflight that has the device: it runs and started within the last 900 seconds. */
  predicate PreflightShowsLife(db: Db, device: string, o: string) {
    && o in db.preflights && db.preflights[o].device == device && db.preflights[o].status == Running
    && var began := db.preflights[o].startedAt; began.Some? && db.now - began.value <= 900.0
  }

  predicate RunBlocks(db: Db, id: string, o: string)
    requires id in db.runs
  {
    o != id && RunShowsLife(db, db.runs[id].device, o)
  }

  predicate PreflightBlocks(db: Db, id: string, o: string)
    requires id in db.runs
  {
    PreflightShowsLife(db, db.runs[id].device, o)
  }

  /** A claim succeeds exactly when the run exists and nothing that still shows life, and
      no preflight under its ceiling, has the device. */
  lemma ClaimSucceedsExactly(db: Db, id: string)
    requires Sane(db)
    ensures RunClaimable(Swept(db), id) <==>
            && id in db.runs
            && (forall o :: !RunBlocks(db, id, o))
            && (forall o :: !PreflightBlocks(db, id, o))
  {
    var swept := Swept(db);
    if id in db.runs {
      var device := db.runs[id].device;
      forall o
        ensures RunBlocks(db, id, o) <==>
                o in swept.runs && o != id && swept.runs[o].device == device && swept.runs[o].status == Running
      {
        assert o in db.runs ==> RunSane(db, db.runs[o]);
      }
      forall o
        ensures PreflightBlocks(db, id, o) <==>
                o in swept.preflights && swept.preflights[o].device == device
                && swept.preflights[o].status == Running
      {
        assert o in db.preflights ==> PreflightSane(db, db.preflights[o]);
      }
    }
  }

  /** However its workers died, a device can be claimed again after 900 seconds without a sign of life, and
      after 120 when no preflight was under way there. */
  lemma DeadWorkersDoNotBlock(db: Db, id: string, later: real)
    requires Sane(db) && id in db.runs
    requires || later > db.now + 900.0
             || (later > db.now + 120.0 && !AnyPreflightHolds(db, db.runs[id].device))
    ensures RunClaimable(Swept(db.(now := later)), id)
  {
    hide RunClaimable, Swept;
    var db' := db.(now := later);
    assert Sane(db') by {
      assert forall o :: o in db.runs ==> RunSane(db, db.runs[o]);
      assert forall o :: o in db.preflights ==> PreflightSane(db, db.preflights[o]);
    }
    ClaimSucceedsExactly(db', id);
    forall o
      ensures !RunBlocks(db', id, o) && !PreflightBlocks(db', id, o)
    {
      assert o in db.runs ==> RunSane(db, db.runs[o]);
      assert o in db.preflights ==> PreflightSane(db, db.preflights[o]);
    }
  }

  /** However a run and a preflight died, nobody has to clean up after them: time passing and the sweeps of the next
      claim are steps the code can always take, and they end with another worker driving any run there is. */
  lemma CrashedWorkersAreReplaced(w: World, dead: nat, walker: nat, second: nat, id: string)
      returns (worlds: seq<World>, actions: seq<Action>)
    requires Sane(w.db) && dead in w.runners && walker in w.walkers && second !in w.runners && id in w.db.runs
    ensures IsRun(worlds, actions) && worlds[0] == w && |worlds| == 7
    ensures actions == [Crash(dead), CrashCheck(walker), Tick(901.0), SweepRuns(w.db.now + 781.0),
                        SweepPreflights(w.db.now + 1.0), Claim(second, id)]
    ensures worlds[6].runners == (w.runners - {dead})[second := id] && RunHeld(worlds[6].db, id)
  {
    hide RunClaimable, Sane, ReleaseRuns, ReleasePreflights;
    actions := [Crash(dead), CrashCheck(walker), Tick(901.0), SweepRuns(w.db.now + 781.0),
                SweepPreflights(w.db.now + 1.0), Claim(second, id)];
    var w1 := Apply(w, actions[0]);
    var w2 := Apply(w1, actions[1]);
    var w3 := Apply(w2, actions[2]);
    var w4 := Apply(w3, actions[3]);
    var w5 := Apply(w4, actions[4]);
    worlds := [w, w1, w2, w3, w4, w5, Apply(w5, actions[5])];
    DeadWorkersDoNotBlock(w.db, id, w.db.now + 901.0);
    assert w5.db == Swept(w.db.(now := w.db.now + 901.0));
    ClaimOnFree(w5, second, id);
  }

  /** What is left running on a device after both sweeps is what shows life. */
  lemma SweptShowLife(db: Db, device: string)
    requires Sane(db)
    ensures AnyRunHolds(Swept(db), device) <==> exists o :: RunShowsLife(db, device, o)
    ensures forall except :: PreflightHolds(Swept(db), device, except) <==>
                             exists o :: o != except && PreflightShowsLife(db, device, o)
  {
    var swept := Swept(db);
    forall o
      ensures RunShowsLife(db, device, o)
              <==> o in swept.runs && swept.runs[o].device == device && swept.runs[o].status == Running
    {
      assert o in db.runs ==> RunSane(db, db.runs[o]);
    }
    forall o
      ensures PreflightShowsLife(db, device, o)
              <==> o in swept.preflights && swept.preflights[o].device == device
                   && swept.preflights[o].status == Running
    {
      assert o in db.preflights ==> PreflightSane(db, db.preflights[o]);
    }
    hide Swept, RunShowsLife, PreflightShowsLife, Sane;
  }

  /** A preflight's claim succeeds exactly when it waits, and nothing else that still shows life, run or
      preflight, has its own device. */
  lemma PreflightClaimSucceedsExactly(db: Db, id: string)
    requires Sane(db)
    ensures PreflightClaimable(Swept(db), id) <==>
            && id in db.preflights && db.preflights[id].status == Pending
            && (forall o :: !RunShowsLife(db, db.preflights[id].device, o))
            && (forall o :: o != id ==> !PreflightShowsLife(db, db.preflights[id].device, o))
  {
    if id in db.preflights {
      SweptShowLife(db, db.preflights[id].device);
      assert id in Swept(db).preflights && Swept(db).preflights[id].device == db.preflights[id].device;
      hide AnyRunHolds, PreflightHolds, RunShowsLife, PreflightShowsLife;
    }
  }

  /** The same of a preflight that waits. */
  lemma DeadWorkersDoNotBlockPreflights(db: Db, id: string, later: real)
    requires Sane(db) && id in db.preflights && db.preflights[id].status == Pending
    requires || later > db.now + 900.0
             || (later > db.now + 120.0 && !AnyPreflightHolds(db, db.preflights[id].device))
    ensures PreflightClaimable(Swept(db.(now := later)), id)
  {
    hide PreflightClaimable, Swept;
    var db' := db.(now := later);
    assert Sane(db') by {
      assert forall o :: o in db.runs ==> RunSane(db, db.runs[o]);
      assert forall o :: o in db.preflights ==> PreflightSane(db, db.preflights[o]);
    }
    PreflightClaimSucceedsExactly(db', id);
    forall o
      ensures !RunShowsLife(db', db.preflights[id].device, o)
      ensures !PreflightShowsLife(db', db.preflights[id].device, o)
    {
      assert o in db.runs ==> RunSane(db, db.runs[o]);
      assert o in db.preflights ==> PreflightSane(db, db.preflights[o]);
    }
  }
}

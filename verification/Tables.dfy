/** The tables that hand out devices: runs, preflights and the statements over them.
    A statement or transaction of the original is one step; time is a real number. */
module Tables {
  import opened Wrappers

  datatype Status = Pending | Running | Completed | Failed | Interrupted

  predicate Terminal(s: Status) {
    s == Completed || s == Failed || s == Interrupted
  }

  datatype Run = Run(
    rowid: nat, device: string, status: Status,
    startedAt: Option<real>, finishedAt: Option<real>, heartbeatAt: Option<real>, queuedAt: Option<real>,
    cancelRequested: bool, campaign: Option<string>, scenario: string,
    checkpoint: Option<real>, error: Option<string>)

  datatype Preflight = Preflight(
    device: string, status: Status, startedAt: Option<real>, finishedAt: Option<real>,
    cancelRequested: bool, ok: Option<bool>, error: Option<string>)

  datatype Campaign = Campaign(
    device: string, status: Status, startedAt: Option<real>, finishedAt: Option<real>, cancelRequested: bool)

  datatype Db = Db(
    now: real, runs: map<string, Run>, preflights: map<string, Preflight>, campaigns: map<string, Campaign>)

  const ABANDONED_RUN_SECONDS: real := 120.0
  const ABANDONED_PREFLIGHT_SECONDS: real := 900.0
  const REDISPATCH_AFTER_SECONDS: real := 90.0

  // ---- rows ---------------------------------------------------------------------

  function NewRun(rowid: nat, device: string, campaign: Option<string>, scenario: string): Run {
    Run(rowid, device, Pending, None, None, None, None, false, campaign, scenario, None, None)
  }

  function NewPreflight(device: string): Preflight {
    Preflight(device, Pending, None, None, false, None, None)
  }

  /** The last sign of life: COALESCE(heartbeat_at, started_at). */
  function LastSeen(r: Run): Option<real> {
    r.heartbeatAt.Coalesce(r.startedAt)
  }

  predicate RunStale(r: Run, cutoff: real) {
    r.status == Running && LastSeen(r).Some? && LastSeen(r).value < cutoff
  }

  predicate PreflightStale(p: Preflight, cutoff: real) {
    p.status == Running && p.startedAt.Some? && p.startedAt.value < cutoff
  }

  function UpdatedRun(r: Run, now: real, status: Status, checkpoint: Option<real>, error: Option<string>): Run {
    r.(status := status,
       startedAt := if status == Running then r.startedAt.Coalesce(Some(now)) else r.startedAt,
       finishedAt := if Terminal(status) then Some(now) else r.finishedAt,
       checkpoint := checkpoint.Coalesce(r.checkpoint),
       heartbeatAt := Some(now),
       error := error)
  }

  function ClaimedRun(r: Run, now: real): Run {
    r.(status := Running, startedAt := r.startedAt.Coalesce(Some(now)))
  }

  function ClaimedPreflight(p: Preflight, now: real): Preflight {
    p.(status := Running, startedAt := p.startedAt.Coalesce(Some(now)))
  }

  // ---- statements -----------------------------------------------------------------

  function UpdateRun(db: Db, id: string, status: Status, checkpoint: Option<real>, error: Option<string>): (r: Db)
    ensures r.now == db.now && r.preflights == db.preflights && r.campaigns == db.campaigns
  {
    if id in db.runs
    then db.(runs := db.runs[id := UpdatedRun(db.runs[id], db.now, status, checkpoint, error)])
    else db
  }

  function ReleaseRuns(db: Db, cutoff: real): (r: Db)
    ensures r.now == db.now && r.preflights == db.preflights && r.campaigns == db.campaigns
  {
    db.(runs := map id | id in db.runs ::
          if RunStale(db.runs[id], cutoff)
          then db.runs[id].(status := Interrupted, finishedAt := Some(db.now), error := Some("abandoned"))
          else db.runs[id])
  }

  function ReleasePreflights(db: Db, cutoff: real): (r: Db)
    ensures r.now == db.now && r.runs == db.runs && r.campaigns == db.campaigns
  {
    db.(preflights := map id | id in db.preflights ::
          if PreflightStale(db.preflights[id], cutoff)
          then db.preflights[id].(status := Failed, finishedAt := Some(db.now), error := Some("abandoned"))
          else db.preflights[id])
  }

  /** Something other than run `except` is running on the device. */
  predicate RunHolds(db: Db, device: string, except: string) {
    exists o :: o in db.runs && o != except && db.runs[o].device == device && db.runs[o].status == Running
  }

  predicate PreflightHolds(db: Db, device: string, except: string) {
    exists o :: o in db.preflights && o != except && db.preflights[o].device == device
                && db.preflights[o].status == Running
  }

  predicate AnyRunHolds(db: Db, device: string) {
    exists o :: o in db.runs && db.runs[o].device == device && db.runs[o].status == Running
  }

  predicate AnyPreflightHolds(db: Db, device: string) {
    exists o :: o in db.preflights && db.preflights[o].device == device && db.preflights[o].status == Running
  }

  predicate RunClaimable(db: Db, id: string) {
    && id in db.runs
    && !RunHolds(db, db.runs[id].device, id)
    && !AnyPreflightHolds(db, db.runs[id].device)
  }

  predicate PreflightClaimable(db: Db, id: string) {
    && id in db.preflights && db.preflights[id].status == Pending
    && !PreflightHolds(db, db.preflights[id].device, id)
    && !AnyRunHolds(db, db.preflights[id].device)
  }

  function ClaimRun(db: Db, id: string): (r: Db)
    ensures r.now == db.now && r.preflights == db.preflights && r.campaigns == db.campaigns
  {
    if RunClaimable(db, id) then db.(runs := db.runs[id := ClaimedRun(db.runs[id], db.now)]) else db
  }

  function ClaimPreflight(db: Db, id: string): (r: Db)
    ensures r.now == db.now && r.runs == db.runs && r.campaigns == db.campaigns
  {
    if PreflightClaimable(db, id)
    then db.(preflights := db.preflights[id := ClaimedPreflight(db.preflights[id], db.now)])
    else db
  }

  /** Rows whose worker is gone, released from both tables. */
  function Swept(db: Db): Db {
    ReleasePreflights(ReleaseRuns(db, db.now - ABANDONED_RUN_SECONDS), db.now - ABANDONED_PREFLIGHT_SECONDS)
  }

  function FinishPreflight(db: Db, id: string, status: Status, ok: Option<bool>, error: Option<string>): (r: Db)
    ensures r.now == db.now && r.runs == db.runs && r.campaigns == db.campaigns
  {
    if id in db.preflights
    then db.(preflights := db.preflights[id := db.preflights[id].(status := status, finishedAt := Some(db.now),
                                                                  ok := ok, error := error)])
    else db
  }

  function RequestCancel(db: Db, id: string): (r: Db)
    ensures r.now == db.now && r.preflights == db.preflights && r.campaigns == db.campaigns
  {
    if id in db.runs then db.(runs := db.runs[id := db.runs[id].(cancelRequested := true)]) else db
  }

  function RequestPreflightCancel(db: Db, id: string): (r: Db)
    ensures r.now == db.now && r.runs == db.runs && r.campaigns == db.campaigns
  {
    if id in db.preflights && (db.preflights[id].status == Pending || db.preflights[id].status == Running)
    then db.(preflights := db.preflights[id := db.preflights[id].(cancelRequested := true)])
    else db
  }

  function DeleteRun(db: Db, id: string): (r: Db)
    ensures r.now == db.now && r.preflights == db.preflights && r.campaigns == db.campaigns
  {
    db.(runs := db.runs - {id})
  }

  function MarkRunQueued(db: Db, id: string): (r: Db)
    ensures r.now == db.now && r.preflights == db.preflights && r.campaigns == db.campaigns
  {
    if id in db.runs then db.(runs := db.runs[id := db.runs[id].(queuedAt := Some(db.now))]) else db
  }

  /** SQLite numbers a new row above every row of the table. */
  predicate IsNextRowid(db: Db, rowid: nat) {
    forall id :: id in db.runs ==> db.runs[id].rowid < rowid
  }

  /** The number itself: one above the highest, and 1 in an empty table. */
  predicate IsFirstFree(db: Db, rowid: nat) {
    && IsNextRowid(db, rowid)
    && if db.runs == map[] then rowid == 1 else exists id :: id in db.runs && db.runs[id].rowid + 1 == rowid
  }

  lemma {:induction false} HighestRowExists(db: Db, ids: set<string>)
    requires ids != {} && ids <= db.runs.Keys
    ensures exists id :: id in ids && forall o :: o in ids ==> db.runs[o].rowid <= db.runs[id].rowid
    decreases ids
  {
    var id :| id in ids;
    if ids - {id} == {} {
      assert ids == {id};
    } else {
      HighestRowExists(db, ids - {id});
      var high :| high in ids - {id} && forall o :: o in ids - {id} ==> db.runs[o].rowid <= db.runs[high].rowid;
      var highest := if db.runs[id].rowid > db.runs[high].rowid then id else high;
      assert highest in ids && forall o :: o in ids ==> db.runs[o].rowid <= db.runs[highest].rowid;
    }
  }

  lemma FirstFreeExists(db: Db)
    ensures exists n: nat :: IsFirstFree(db, n)
  {
    if db.runs == map[] {
      assert IsFirstFree(db, 1);
    } else {
      assert db.runs.Keys != {};
      HighestRowExists(db, db.runs.Keys);
      var id :| id in db.runs.Keys && forall o :: o in db.runs.Keys ==> db.runs[o].rowid <= db.runs[id].rowid;
      assert IsFirstFree(db, db.runs[id].rowid + 1);
    }
  }

  function NextRowid(db: Db): (n: nat)
    ensures IsFirstFree(db, n) && IsNextRowid(db, n)
  {
    FirstFreeExists(db);
    var n: nat :| IsFirstFree(db, n);
    n
  }

  function CreateRun(db: Db, id: string, run: Run): (r: Db)
    ensures r.now == db.now && r.preflights == db.preflights && r.campaigns == db.campaigns
  {
    if id in db.runs then db else db.(runs := db.runs[id := run])
  }

  function CreatePreflight(db: Db, id: string, device: string): (r: Db)
    ensures r.now == db.now && r.runs == db.runs && r.campaigns == db.campaigns
  {
    if id in db.preflights then db else db.(preflights := db.preflights[id := NewPreflight(device)])
  }

  function FlagRunning(runs: map<string, Run>, campaign: string): map<string, Run> {
    map id | id in runs :: if runs[id].campaign == Some(campaign) && runs[id].status == Running
                           then runs[id].(cancelRequested := true) else runs[id]
  }

  function WithStatus(runs: map<string, Run>, campaign: string, status: Status): set<string> {
    set id | id in runs && runs[id].campaign == Some(campaign) && runs[id].status == status
  }

  /** The statement of a campaign's cancel that flags: its running children, no other row. */
  function FlagCampaignRuns(db: Db, campaign: string): (r: Db)
    ensures r.now == db.now && r.preflights == db.preflights && r.campaigns == db.campaigns
  {
    db.(runs := FlagRunning(db.runs, campaign))
  }

  /** The tables once the first k children of the queue are deleted, one transaction each. The queue was read
      before; others act ahead of every deletion, and the deletion asks for nothing. */
  function DeletedUpTo(db: Db, queue: seq<string>, others: nat -> Db -> Db, k: nat): Db
    requires k <= |queue|
  {
    if k == 0 then db else DeleteRun(others(k - 1)(DeletedUpTo(db, queue, others, k - 1)), queue[k - 1])
  }

  /** The queue of a cancel: the children that wait, each once, in any order. */
  ghost predicate IsQueue(db: Db, campaign: string, queue: seq<string>) {
    && (forall id :: id in queue <==> id in WithStatus(db.runs, campaign, Pending))
    && (forall i, j :: 0 <= i < j < |queue| ==> queue[i] != queue[j])
  }

  predicate SameRow(before: Db, after: Db, id: string) {
    (id in before.runs <==> id in after.runs) && (id in before.runs ==> after.runs[id] == before.runs[id])
  }

  /** Nobody else touches the row while the deletions go on. */
  ghost predicate RowIsLeftAlone(db: Db, queue: seq<string>, others: nat -> Db -> Db, k: nat, id: string)
    requires k <= |queue|
  {
    forall j :: 0 <= j < k ==>
      SameRow(DeletedUpTo(db, queue, others, j), others(j)(DeletedUpTo(db, queue, others, j)), id)
  }

  /** What is inserted waits, unflagged, and has neither begun nor ended. */
  lemma NewRowsWait(db: Db, id: string, rowid: nat, device: string, campaign: Option<string>, scenario: string)
    ensures id !in db.runs ==>
              var r := CreateRun(db, id, NewRun(rowid, device, campaign, scenario)).runs[id];
              && r.status == Pending && !r.cancelRequested && r.device == device && r.campaign == campaign
              && r.rowid == rowid && r.scenario == scenario
              && r.startedAt == r.finishedAt == r.heartbeatAt == r.queuedAt == None
    ensures id !in db.preflights ==>
              var p := CreatePreflight(db, id, device).preflights[id];
              && p.status == Pending && !p.cancelRequested && p.device == device
              && p.startedAt == p.finishedAt == None && p.ok == None
    ensures id in db.runs ==> CreateRun(db, id, NewRun(rowid, device, campaign, scenario)) == db
    ensures id in db.preflights ==> CreatePreflight(db, id, device) == db
  {}

  /** A preflight can be asked to stop exactly as long as it is not over. */
  lemma PreflightCancelIff(db: Db, id: string)
    requires id in db.preflights
    ensures var p := db.preflights[id];
            RequestPreflightCancel(db, id).preflights
            == db.preflights[id := if Terminal(p.status) then p else p.(cancelRequested := true)]
  {}

  /** What a campaign's cancel itself does to a row that nobody else touches meanwhile: a waiting child is
      removed, a running one flagged; what already ran, and every row of another campaign, keeps every column. */
  lemma CancelKeepsMeasurements(
      db: Db, meanwhile: Db, campaign: string, queue: seq<string>, others: nat -> Db -> Db, id: string)
    requires id in db.runs && IsQueue(db, campaign, queue) && SameRow(db, meanwhile, id)
    requires RowIsLeftAlone(FlagCampaignRuns(meanwhile, campaign), queue, others, |queue|, id)
    ensures var r := db.runs[id];
            var runs := DeletedUpTo(FlagCampaignRuns(meanwhile, campaign), queue, others, |queue|).runs;
            var ours := r.campaign == Some(campaign);
            && (id in runs <==> !(ours && r.status == Pending))
            && (id in runs ==> runs[id] == if ours && r.status == Running then r.(cancelRequested := true) else r)
  {
    OnlyQueueIsDeleted(FlagCampaignRuns(meanwhile, campaign), queue, others, |queue|, id);
    assert queue[..|queue|] == queue;
  }

  lemma {:induction false} OnlyQueueIsDeleted(
      db: Db, queue: seq<string>, others: nat -> Db -> Db, k: nat, id: string)
    requires k <= |queue| && RowIsLeftAlone(db, queue, others, k, id)
    ensures if id in queue[..k] then id !in DeletedUpTo(db, queue, others, k).runs
            else SameRow(db, DeletedUpTo(db, queue, others, k), id)
  {
    hide SameRow, DeleteRun, RowIsLeftAlone;
    if k == 0 {
      SameAsBefore(db, id);
    } else {
      var before := DeletedUpTo(db, queue, others, k - 1);
      LeftAloneUpTo(db, queue, others, k, id);
      OnlyQueueIsDeleted(db, queue, others, k - 1, id);
      assert queue[..k] == queue[..k - 1] + [queue[k - 1]];
      OneDeletion(before, others(k - 1)(before), queue[k - 1], id);
      SameRowOn(db, before, DeletedUpTo(db, queue, others, k), id);
    }
  }

  lemma LeftAloneUpTo(db: Db, queue: seq<string>, others: nat -> Db -> Db, k: nat, id: string)
    requires 0 < k <= |queue| && RowIsLeftAlone(db, queue, others, k, id)
    ensures RowIsLeftAlone(db, queue, others, k - 1, id)
    ensures var before := DeletedUpTo(db, queue, others, k - 1); SameRow(before, others(k - 1)(before), id)
  {
    hide DeletedUpTo, SameRow;
  }

  lemma SameAsBefore(db: Db, id: string)
    ensures SameRow(db, db, id)
  {}

  lemma SameRowOn(a: Db, b: Db, c: Db, id: string)
    ensures SameRow(a, b, id) && SameRow(b, c, id) ==> SameRow(a, c, id)
  {}

  lemma OneDeletion(before: Db, meanwhile: Db, deleted: string, id: string)
    requires SameRow(before, meanwhile, id)
    ensures var after := DeleteRun(meanwhile, deleted);
            && (id == deleted || id !in before.runs ==> id !in after.runs)
            && (id != deleted ==> SameRow(before, after, id))
  {}

  // ---- campaigns ------------------------------------------------------------------------

  function UpdateCampaign(db: Db, id: string, status: Status): (r: Db)
    ensures r.now == db.now && r.runs == db.runs && r.preflights == db.preflights
  {
    if id in db.campaigns
    then var c := db.campaigns[id];
         db.(campaigns := db.campaigns[id := c.(
               status := status,
               startedAt := if status == Running then c.startedAt.Coalesce(Some(db.now)) else c.startedAt,
               finishedAt := if Terminal(status) then Some(db.now) else c.finishedAt)])
    else db
  }

  function RequestCampaignCancel(db: Db, id: string): (r: Db)
    ensures r.now == db.now && r.runs == db.runs && r.preflights == db.preflights
  {
    if id in db.campaigns
    then db.(campaigns := db.campaigns[id := db.campaigns[id].(cancelRequested := true)])
    else db
  }

  function CreateCampaign(db: Db, id: string, device: string): (r: Db)
    ensures r.now == db.now && r.runs == db.runs && r.preflights == db.preflights
  {
    if id in db.campaigns then db
    else db.(campaigns := db.campaigns[id := Campaign(device, Pending, None, None, false)])
  }

  /** A cancel is on record; a campaign whose row is gone counts as not cancelled. */
  predicate CampaignCancelled(db: Db, id: string) {
    id in db.campaigns && db.campaigns[id].cancelRequested
  }

  // ---- queries about waiting runs ---------------------------------------------------

  /** A run that waits and that nobody cancelled. */
  predicate Waiting(db: Db, device: string, id: string) {
    id in db.runs && db.runs[id].device == device && db.runs[id].status == Pending && !db.runs[id].cancelRequested
  }

  /** Handed to the queue recently enough that its task is still expected. */
  predicate FreshlyQueued(db: Db, r: Run) {
    r.queuedAt.Some? && r.queuedAt.value >= db.now - REDISPATCH_AFTER_SECONDS
  }

  predicate HasInflight(db: Db, device: string) {
    exists id :: id in db.runs && db.runs[id].device == device &&
                 (db.runs[id].status == Running || (Waiting(db, device, id) && FreshlyQueued(db, db.runs[id])))
  }

  predicate Candidate(db: Db, device: string, id: string) {
    Waiting(db, device, id) && !FreshlyQueued(db, db.runs[id])
  }

  /** ORDER BY rowid ASC LIMIT 1. */
  predicate IsNextPending(db: Db, device: string, id: string) {
    Candidate(db, device, id) &&
    forall o :: o in db.runs && Candidate(db, device, o) ==> db.runs[id].rowid <= db.runs[o].rowid
  }

  lemma {:induction false} LowestRowExists(db: Db, ids: set<string>)
    requires ids != {} && ids <= db.runs.Keys
    ensures exists id :: id in ids && forall o :: o in ids ==> db.runs[id].rowid <= db.runs[o].rowid
    decreases ids
  {
    var id :| id in ids;
    if ids - {id} == {} {
      assert ids == {id};
    } else {
      LowestRowExists(db, ids - {id});
      var low :| low in ids - {id} && forall o :: o in ids - {id} ==> db.runs[low].rowid <= db.runs[o].rowid;
      var least := if db.runs[id].rowid < db.runs[low].rowid then id else low;
      assert least in ids && forall o :: o in ids ==> db.runs[least].rowid <= db.runs[o].rowid;
    }
  }

  lemma NextPendingExists(db: Db, device: string)
    requires exists id :: Candidate(db, device, id)
    ensures exists id :: IsNextPending(db, device, id)
  {
    var ids := set id | id in db.runs && Candidate(db, device, id);
    var w :| Candidate(db, device, w);
    assert w in ids;
    LowestRowExists(db, ids);
    var low :| low in ids && forall o :: o in ids ==> db.runs[low].rowid <= db.runs[o].rowid;
    assert IsNextPending(db, device, low);
  }
}

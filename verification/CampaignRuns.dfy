/** Executing a campaign in one process while others go on: time passes, and rows are claimed, flagged and
    deleted by whoever is there, the campaign's own cancel among them. */
module CampaignRuns {
  import opened Campaigns
  import opened Dashboard
  import opened StorageRows
  import opened Tables
  import opened Wrappers

  /** How a child's turn ends: its scenario could not be built, so the runner is never reached; or with what
      the runner makes of it once it has the device, a status or an exception. */
  datatype Ending = Unbuilt | Ended(completed: bool) | Raised

  /** One child's turn: how it ends, and what time and other processes do to the tables before the loop looks
      for a cancel, before the runner reads the child's row, before it claims the device, and after that. */
  datatype Turn = Turn(
    ending: Ending, beforeCheck: Db -> Db, beforeRead: Db -> Db, beforeClaim: Db -> Db, duringRun: Db -> Db)

  /** An execution: the tables when it listed the campaign's runs, that listing, and a turn for each. */
  datatype Execution = Execution(
    first: Db, campaign: string, order: seq<string>, serial: string, turns: nat -> Turn)

  function EndStatus(ending: Ending): Status {
    if ending == Ended(true) then Completed else if ending == Ended(false) then Interrupted else Failed
  }

  function Closed(db: Db, id: string, status: Status): Db {
    UpdateRun(db, id, status, None, if status == Failed then Some("failed") else None)
  }

  /** The tables around the steps of one run: with its row there, at the claim, after the claim, when the run came
      to its end, and closed. */
  datatype Steps = Steps(begun: Db, claim: Db, taken: Db, over: Db, end: Db)

  predicate OfOtherDevice(read: Db, id: string, serial: string) {
    id in read.runs && read.runs[id].device != serial
  }

  /** The runner goes for the device: the row is not another device's, and not flagged. A missing row is. */
  predicate GoesOn(read: Db, id: string, serial: string, ending: Ending) {
    !ending.Unbuilt? && Startable(read, id, serial, false)
  }

  /** One child, from the tables its turn finds: an exception, a busy device among them, is a failed run and not
      the campaign's end. A row that is missing is created again, outside the campaign. */
  function RunSteps(read: Db, id: string, serial: string, t: Turn): Steps {
    if GoesOn(read, id, serial, t.ending) then
      var begun := Present(read, id, NextRowid(read), serial, "");
      var claim := t.beforeClaim(begun);
      var taken := ClaimRun(Swept(claim), id);
      var over := t.duringRun(taken);
      Steps(begun, claim, taken, over,
            Closed(over, id, if RunClaimable(Swept(claim), id) then EndStatus(t.ending) else Failed))
    else if t.ending.Unbuilt? || OfOtherDevice(read, id, serial) then
      var over := t.duringRun(read);
      Steps(read, read, read, over, Closed(over, id, Failed))
    else
      var claim := t.beforeClaim(read);
      Steps(read, claim, claim, claim, UpdateRun(claim, id, Interrupted, None, Some("cancelled before starting")))
  }

  method ExecuteRun(storage: Storage, id: string, serial: string, t: Turn)
    modifies storage
    ensures storage.View() == RunSteps(old(storage.View()), id, serial, t).end
    ensures id in storage.runs ==> Terminal(storage.runs[id].status)
  {
    hide Swept, ClaimedRun, RunClaimable, CreateRun;
    if t.ending.Unbuilt? {
      storage.LetOthers(t.duringRun);
      storage.UpdateRun(id, Failed, None, Some("failed"));
      return;
    }
    var start := BeginRun(storage, id, NextRowid(storage.View()), serial, false, t.beforeClaim);
    if start == CancelledBefore {
      return;
    }
    storage.LetOthers(t.duringRun);
    var status := if start == Claimed then EndStatus(t.ending) else Failed;
    storage.UpdateRun(id, status, None, if status == Failed then Some("failed") else None);
  }

  /** How a child's row ends, if it is there in the end. */
  lemma ChildEndsAs(read: Db, id: string, serial: string, t: Turn)
    ensures var s := RunSteps(read, id, serial, t);
            id in s.end.runs ==>
              s.end.runs[id].status
              == if t.ending == Unbuilt || OfOtherDevice(read, id, serial) then Failed
                 else if id in read.runs && read.runs[id].cancelRequested then Interrupted
                 else if !RunClaimable(Swept(s.claim), id) then Failed
                 else if t.ending == Raised then Failed
                 else if t.ending.completed then Completed
                 else Interrupted
    ensures var s := RunSteps(read, id, serial, t);
            id in s.end.runs ==>
              && (s.end.runs[id].status == Failed <==> s.end.runs[id].error == Some("failed"))
              && s.end.runs[id].finishedAt == Some(s.over.now) && s.end.runs[id].heartbeatAt == Some(s.over.now)
  {
    hide Swept, RunClaimable, ClaimRun;
  }

  // ---- the loop -------------------------------------------------------------------------------------

  predicate Over(db: Db, id: string) {
    id in db.runs && Terminal(db.runs[id].status)
  }

  /** The runs of a listing that are not over, in its order. */
  function Unfinished(db: Db, order: seq<string>): seq<string> {
    if order == [] then [] else
      var n := |order| - 1;
      Unfinished(db, order[..n]) + if Over(db, order[n]) then [] else [order[n]]
  }

  datatype Progress = Progress(db: Db, executed: seq<string>, cancelled: bool)

  /** The tables the k-th turn starts from, those its look for a cancel finds, and those its runner reads. */
  function At(e: Execution, k: nat): Db
    requires k < |e.order|
    decreases k, 1
  {
    ExecutedUpTo(e, k).db
  }

  function Check(e: Execution, k: nat): Db
    requires k < |e.order|
    decreases k, 2
  {
    e.turns(k).beforeCheck(At(e, k))
  }

  function Read(e: Execution, k: nat): Db
    requires k < |e.order|
    decreases k, 3
  {
    e.turns(k).beforeRead(Check(e, k))
  }

  function StepsOf(e: Execution, k: nat): Steps
    requires k < |e.order|
    decreases k, 4
  {
    RunSteps(Read(e, k), e.order[k], e.serial, e.turns(k))
  }

  /** Turn k comes: neither it nor a turn before found a cancel. */
  predicate Comes(e: Execution, k: nat)
    requires k < |e.order|
    decreases k, 3
  {
    !ExecutedUpTo(e, k).cancelled && !CampaignCancelled(Check(e, k), e.campaign)
  }

  /** The execution after the first k children of the listing. Those that were over in the listing are skipped, and
      nothing is run once a cancel is found. */
  function ExecutedUpTo(e: Execution, k: nat): Progress
    requires k <= |e.order|
    decreases k, 0
  {
    if k == 0 then Progress(e.first, [], false) else
      var p, n := ExecutedUpTo(e, k - 1), k - 1;
      if p.cancelled then p
      else if CampaignCancelled(Check(e, n), e.campaign) then Progress(Check(e, n), p.executed, true)
      else if Over(e.first, e.order[n]) then Progress(Read(e, n), p.executed, false)
      else Progress(StepsOf(e, n).end, p.executed + [e.order[n]], false)
  }

  /** The campaign has rows, and all of them are over. */
  predicate AllRowsOver(db: Db, campaign: string) {
    && (exists id :: id in db.runs && db.runs[id].campaign == Some(campaign))
    && forall id :: id in db.runs && db.runs[id].campaign == Some(campaign) ==> Terminal(db.runs[id].status)
  }

  /** The loop runs each child that was not over in the listing, in order, until it finds a cancel; the status it
      writes in the end is computed from a second listing. `begin` and `listing` are what others do before the
      campaign is marked running and before it is listed, `last` what they do around the second listing. */
  method ExecuteCampaign(storage: Storage, campaign: string, begin: Db -> Db, listing: Db -> Db, order: seq<string>,
                         turns: nat -> Turn, last: Turn)
    returns (found: bool, executed: seq<string>, status: Status)
    modifies storage
    ensures found == (campaign in old(storage.campaigns)) && (!found ==> storage.View() == old(storage.View()))
    ensures found ==>
              var first := listing(Tables.UpdateCampaign(begin(old(storage.View())), campaign, Running));
              var e := Execution(first, campaign, order, old(storage.campaigns)[campaign].device, turns);
              var p := ExecutedUpTo(e, |order|);
              var listed := last.beforeCheck(p.db);
              && executed == p.executed
              && status == (if p.cancelled then Interrupted
                            else if AllRowsOver(listed, campaign) then Completed else Running)
              && storage.View() == Tables.UpdateCampaign(last.beforeRead(listed), campaign, status)
  {
    hide RunSteps, ExecutedUpTo, CampaignCancelled, Tables.UpdateCampaign, AllRowsOver;
    executed, status := [], Running;
    if campaign !in storage.campaigns {
      return false, executed, status;
    }
    var serial := storage.campaigns[campaign].device;
    storage.LetOthers(begin);
    storage.UpdateCampaign(campaign, Running);
    storage.LetOthers(listing);
    var first := storage.View();
    ghost var e := Execution(first, campaign, order, serial, turns);
    var cancelled, k := false, 0;
    NoTurnYet(e);
    while k < |order| && !cancelled
      invariant k <= |order| && ExecutedUpTo(e, k) == Progress(storage.View(), executed, cancelled)
    {
      OneTurn(e, k);
      storage.LetOthers(turns(k).beforeCheck);
      if CampaignCancelled(storage.View(), campaign) {
        cancelled := true;
      } else {
        storage.LetOthers(turns(k).beforeRead);
        if !Over(first, order[k]) {
          ExecuteRun(storage, order[k], serial, turns(k));
          executed := executed + [order[k]];
        }
      }
      k := k + 1;
    }
    CancelEnds(e, k, |order|);
    storage.LetOthers(last.beforeCheck);
    if cancelled {
      status := Interrupted;
    } else if AllRowsOver(storage.View(), campaign) {
      status := Completed;
    }
    storage.LetOthers(last.beforeRead);
    storage.UpdateCampaign(campaign, status);
    found := true;
  }

  lemma NoTurnYet(e: Execution)
    ensures ExecutedUpTo(e, 0) == Progress(e.first, [], false)
  {}

  lemma OneTurn(e: Execution, k: nat)
    requires k < |e.order|
    ensures var p := ExecutedUpTo(e, k);
            ExecutedUpTo(e, k + 1)
            == if p.cancelled then p
               else if CampaignCancelled(Check(e, k), e.campaign) then Progress(Check(e, k), p.executed, true)
               else if Over(e.first, e.order[k]) then Progress(Read(e, k), p.executed, false)
               else Progress(StepsOf(e, k).end, p.executed + [e.order[k]], false)
  {}

  lemma {:induction false} CancelEnds(e: Execution, k: nat, n: nat)
    requires k <= n <= |e.order|
    ensures ExecutedUpTo(e, k).cancelled ==> ExecutedUpTo(e, n) == ExecutedUpTo(e, k)
  {
    if k < n {
      CancelEnds(e, k, n - 1);
      hide Check, Read, StepsOf;
    }
  }

  // ---- what the execution itself does to the other rows --------------------------------------------

  /** The same row otherwise: what it is of never changes. */
  predicate SameIdentity(r: Run, s: Run) {
    s.rowid == r.rowid && s.device == r.device && s.campaign == r.campaign && s.scenario == r.scenario
  }

  /** As it was, or released as abandoned. */
  predicate LeftAlone(r: Run, s: Run) {
    s == r || (r.status == Running && s.status == Interrupted)
  }

  /** Every row but that of `id` is left alone. */
  ghost predicate OnlyTouches(before: Db, after: Db, id: string) {
    && (forall o :: o in before.runs <==> o in after.runs)
    && forall o :: o in before.runs ==>
         SameIdentity(before.runs[o], after.runs[o]) && (o == id || LeftAlone(before.runs[o], after.runs[o]))
  }

  lemma SweptTouches(db: Db, id: string)
    ensures OnlyTouches(db, Swept(db), id) && OnlyTouches(db, ClaimRun(Swept(db), id), id)
  {
    hide OnlyTouches, ReleaseRuns, ReleasePreflights, ClaimRun;
    ReleaseTouches(db, db.now - ABANDONED_RUN_SECONDS, id);
    SameRuns(db, ReleaseRuns(db, db.now - ABANDONED_RUN_SECONDS), Swept(db), id);
    ClaimTouches(db, Swept(db), id);
  }

  lemma ReleaseTouches(db: Db, cutoff: real, id: string)
    ensures OnlyTouches(db, ReleaseRuns(db, cutoff), id)
  {}

  lemma SameRuns(db: Db, a: Db, b: Db, id: string)
    requires a.runs == b.runs && OnlyTouches(db, a, id)
    ensures OnlyTouches(db, b, id)
  {
    hide SameIdentity, LeftAlone;
  }

  lemma ClaimTouches(before: Db, after: Db, id: string)
    requires OnlyTouches(before, after, id)
    ensures OnlyTouches(before, ClaimRun(after, id), id)
  {
    hide RunHolds, AnyPreflightHolds, LeftAlone;
  }

  lemma UpdateTouches(before: Db, after: Db, id: string, status: Status, error: Option<string>)
    requires OnlyTouches(before, after, id)
    ensures OnlyTouches(before, UpdateRun(after, id, status, None, error), id)
    ensures id in before.runs ==> UpdateRun(after, id, status, None, error).runs[id].status == status
  {}

  lemma NothingTouched(db: Db, id: string)
    ensures OnlyTouches(db, db, id)
  {}

  // ---- with tame others -------------------------------------------------------------------------------

  /** Others may do anything, deleting the campaign's runs included, but bring a row under a child's name or into
      the campaign, move a row out of its campaign, or set a child back that is over. */
  ghost predicate Tame(e: Execution, before: Db, after: Db) {
    && (forall o :: o in after.runs && (o in e.order || after.runs[o].campaign == Some(e.campaign)) ==>
          o in before.runs && after.runs[o].campaign == before.runs[o].campaign)
    && (forall o :: o in e.order && Over(before, o) && o in after.runs ==> Over(after, o))
  }

  ghost predicate TameTurn(e: Execution, k: nat)
    requires k < |e.order|
  {
    && Tame(e, At(e, k), Check(e, k)) && Tame(e, Check(e, k), Read(e, k))
    && Tame(e, StepsOf(e, k).begun, StepsOf(e, k).claim) && Tame(e, StepsOf(e, k).taken, StepsOf(e, k).over)
  }

  /** Every other process is tame at every moment of the execution. */
  ghost predicate AlwaysTame(e: Execution) {
    forall k :: 0 <= k < |e.order| ==> TameTurn(e, k)
  }

  /** The first k children are over or gone, and so is every one that was over; the others, but perhaps for `but`,
      are of the campaign or gone; and the campaign has no other rows. */
  ghost predicate Stands(e: Execution, db: Db, k: nat, but: Option<string>) {
    && (forall i :: 0 <= i < |e.order| && Some(e.order[i]) != but && e.order[i] in db.runs ==>
          && (i < k || Over(e.first, e.order[i]) ==> Over(db, e.order[i]))
          && (i >= k ==> db.runs[e.order[i]].campaign == Some(e.campaign)))
    && (forall o :: o in db.runs && db.runs[o].campaign == Some(e.campaign) ==> o in e.order)
  }

  ghost predicate Listed(e: Execution) {
    IsListing(e.first, e.campaign, e.order)
  }

  lemma ListedOnce(e: Execution, i: nat, j: nat)
    requires Listed(e) && i < |e.order| && j < |e.order| && i != j
    ensures e.order[i] != e.order[j]
  {}

  lemma StandsAtFirst(e: Execution)
    requires Listed(e)
    ensures Stands(e, e.first, 0, None)
  {}

  lemma StandsWithout(e: Execution, db: Db, k: nat, but: Option<string>)
    requires Stands(e, db, k, None)
    ensures Stands(e, db, k, but)
  {}

  lemma TameStands(e: Execution, before: Db, after: Db, k: nat, but: Option<string>)
    requires Tame(e, before, after) && Stands(e, before, k, but)
    ensures Stands(e, after, k, but)
  {
    hide Terminal;
    assert forall i :: 0 <= i < |e.order| ==> e.order[i] in e.order;
  }

  lemma OwnStands(e: Execution, before: Db, after: Db, k: nat, id: string)
    requires OnlyTouches(before, after, id) && Stands(e, before, k, Some(id)) && (id in before.runs ==> id in e.order)
    ensures Stands(e, after, k, Some(id))
  {}

  lemma CreatedStands(e: Execution, db: Db, k: nat, id: string)
    requires Stands(e, db, k, Some(id))
    ensures Stands(e, Present(db, id, NextRowid(db), e.serial, ""), k, Some(id))
  {
    hide Terminal, IsFirstFree;
  }

  lemma ClosedStands(e: Execution, db: Db, k: nat, status: Status, error: Option<string>)
    requires Listed(e) && k < |e.order| && Stands(e, db, k, Some(e.order[k])) && Terminal(status)
    ensures Stands(e, UpdateRun(db, e.order[k], status, None, error), k + 1, None)
  {
    forall i | 0 <= i < |e.order| && i != k
      ensures e.order[i] != e.order[k]
    {
      ListedOnce(e, i, k);
    }
    hide Listed, Terminal;
    assert e.order[k] in e.order;
  }

  lemma SkippedStands(e: Execution, db: Db, k: nat)
    requires k < |e.order| && Stands(e, db, k, None) && Over(e.first, e.order[k])
    ensures Stands(e, db, k + 1, None)
  {
    hide Terminal;
  }

  /** One turn that comes, from tables that stand to tables that do. */
  lemma StepsStand(e: Execution, k: nat)
    requires Listed(e) && k < |e.order| && TameTurn(e, k) && Stands(e, Read(e, k), k, None)
    ensures Stands(e, StepsOf(e, k).taken, k, Some(e.order[k]))
    ensures Stands(e, StepsOf(e, k).end, k + 1, None)
  {
    var read, id, t := Read(e, k), e.order[k], e.turns(k);
    var s := StepsOf(e, k);
    hide Listed, Stands, Tame, Over, GoesOn, OfOtherDevice, At, Check, Read, Present, Swept, RunClaimable, ClaimRun,
      UpdateRun, OnlyTouches, EndStatus;
    assert id in e.order;
    StandsWithout(e, read, k, Some(id));
    if GoesOn(read, id, e.serial, t.ending) {
      CreatedStands(e, read, k, id);
      TameStands(e, s.begun, s.claim, k, Some(id));
      SweptTouches(s.claim, id);
      OwnStands(e, s.claim, s.taken, k, id);
      TameStands(e, s.taken, s.over, k, Some(id));
      EndsOver(t.ending);
      var status := if RunClaimable(Swept(s.claim), id) then EndStatus(t.ending) else Failed;
      ClosedStands(e, s.over, k, status, if status == Failed then Some("failed") else None);
    } else if t.ending.Unbuilt? || OfOtherDevice(read, id, e.serial) {
      TameStands(e, s.taken, s.over, k, Some(id));
      ClosedStands(e, s.over, k, Failed, Some("failed"));
    } else {
      TameStands(e, s.begun, s.claim, k, Some(id));
      ClosedStands(e, s.over, k, Interrupted, Some("cancelled before starting"));
    }
  }

  lemma EndsOver(ending: Ending)
    ensures Terminal(EndStatus(ending))
  {}

  /** How many of the first k turns came before a cancel was found. */
  function TurnsDone(e: Execution, k: nat): (n: nat)
    requires k <= |e.order|
    ensures n <= k
  {
    if k == 0 then 0 else if Comes(e, k - 1) then k else TurnsDone(e, k - 1)
  }

  lemma {:induction false} UncancelledIsDone(e: Execution, k: nat)
    requires k <= |e.order|
    ensures !ExecutedUpTo(e, k).cancelled <==> TurnsDone(e, k) == k
  {
    if k > 0 {
      OneTurn(e, k - 1);
      hide Check, Read, StepsOf, ExecutedUpTo;
    }
  }

  lemma TurnStands(e: Execution, n: nat)
    requires Listed(e) && n < |e.order| && TameTurn(e, n) && Stands(e, At(e, n), TurnsDone(e, n), None)
    requires !ExecutedUpTo(e, n).cancelled ==> TurnsDone(e, n) == n
    ensures Stands(e, ExecutedUpTo(e, n + 1).db, TurnsDone(e, n + 1), None)
  {
    OneTurn(e, n);
    if !ExecutedUpTo(e, n).cancelled {
      hide Listed, Stands, Tame, Over, ExecutedUpTo, At, Read, Check, StepsOf, CampaignCancelled;
      TameStands(e, At(e, n), Check(e, n), n, None);
      if Comes(e, n) {
        TameStands(e, Check(e, n), Read(e, n), n, None);
        if Over(e.first, e.order[n]) {
          SkippedStands(e, Read(e, n), n);
        } else {
          StepsStand(e, n);
        }
      }
    }
  }

  /** Whatever tame others do at any moment, children deleted under the execution included: a child that had
      its turn is over or gone, and so is every one that was. */
  lemma {:induction false} EveryTurnEnds(e: Execution, k: nat)
    requires Listed(e) && k <= |e.order| && AlwaysTame(e)
    ensures Stands(e, ExecutedUpTo(e, k).db, TurnsDone(e, k), None)
  {
    hide Listed, Stands, TameTurn, Comes, ExecutedUpTo;
    if k == 0 {
      StandsAtFirst(e);
      NoTurnYet(e);
    } else {
      EveryTurnEnds(e, k - 1);
      UncancelledIsDone(e, k - 1);
      TurnStands(e, k - 1);
    }
  }

  /** The children that were not over in the listing are run, each once and in its order, until a cancel. */
  lemma {:induction false} RunOnceInOrder(e: Execution, k: nat)
    requires k <= |e.order|
    ensures ExecutedUpTo(e, k).executed == Unfinished(e.first, e.order[..TurnsDone(e, k)])
  {
    if k == 0 {
      NoTurnYet(e);
    } else {
      var n := k - 1;
      RunOnceInOrder(e, n);
      OneTurn(e, n);
      UncancelledIsDone(e, n);
      hide At, Check, Read, StepsOf, ExecutedUpTo, Over, CampaignCancelled;
      assert e.order[..k][..n] == e.order[..n];
    }
  }

  lemma ReadStands(e: Execution, k: nat)
    requires Listed(e) && k < |e.order| && AlwaysTame(e) && !ExecutedUpTo(e, k).cancelled
    ensures Stands(e, Read(e, k), k, None)
  {
    EveryTurnEnds(e, k);
    UncancelledIsDone(e, k);
    assert TameTurn(e, k);
    hide Listed, Stands, Tame, AlwaysTame, ExecutedUpTo, Check, Read;
    TameStands(e, At(e, k), Check(e, k), k, None);
    TameStands(e, Check(e, k), Read(e, k), k, None);
  }

  // ---- resuming --------------------------------------------------------------------------------------

  /** The tables an execution leaves that stops without a word, between two turns or in the middle of one, and
      what tame others make of them. */
  ghost predicate StoppedAt(e: Execution, k: nat, after: Db)
    requires k <= |e.order|
  {
    || Tame(e, ExecutedUpTo(e, k).db, after)
    || (k < |e.order| && Comes(e, k) && !Over(e.first, e.order[k]) && Tame(e, StepsOf(e, k).taken, after))
  }

  /** An execution that stopped, because its process died, is taken up where it stopped: what is not over
      afterwards is what it had not come to the end of. */
  lemma ResumesWhereItStopped(e: Execution, k: nat, after: Db, id: string)
    requires Listed(e) && k <= |e.order| && AlwaysTame(e) && !ExecutedUpTo(e, k).cancelled && StoppedAt(e, k, after)
    requires id in e.order && id in after.runs && !Over(after, id)
    ensures id in e.order[k..] && !Over(e.first, id)
  {
    var i :| 0 <= i < |e.order| && e.order[i] == id;
    assert i >= k ==> e.order[k..][i - k] == id;
    if Tame(e, ExecutedUpTo(e, k).db, after) {
      EveryTurnEnds(e, k);
      UncancelledIsDone(e, k);
      TameStands(e, ExecutedUpTo(e, k).db, after, k, None);
    } else {
      ReadStands(e, k);
      assert TameTurn(e, k);
      StepsStand(e, k);
      TameStands(e, StepsOf(e, k).taken, after, k, Some(e.order[k]));
    }
    hide Listed, AlwaysTame, Tame, ExecutedUpTo, StepsOf, Over, Comes;
  }

  lemma {:induction false} NoneUnfinished(db: Db, order: seq<string>)
    ensures Unfinished(db, order) == [] <==> forall i :: 0 <= i < |order| ==> Over(db, order[i])
  {
    if order != [] {
      hide Over;
      NoneUnfinished(db, order[..|order| - 1]);
    }
  }

  lemma DoneIsOver(e: Execution, after: Db, id: string)
    requires Listed(e) && AlwaysTame(e) && !ExecutedUpTo(e, |e.order|).cancelled
    requires Tame(e, ExecutedUpTo(e, |e.order|).db, after)
    requires id in after.runs && after.runs[id].campaign == Some(e.campaign)
    ensures Over(after, id)
  {
    EveryTurnEnds(e, |e.order|);
    UncancelledIsDone(e, |e.order|);
    hide Listed, AlwaysTame, Tame, ExecutedUpTo, TurnsDone, Terminal;
    TameStands(e, ExecutedUpTo(e, |e.order|).db, after, |e.order|, None);
    var i :| 0 <= i < |e.order| && e.order[i] == id;
  }

  /** An execution that no cancel cut short leaves nothing to execute: a second one runs nothing. */
  lemma SecondExecutionRunsNothing(e: Execution, again: Execution, k: nat)
    requires Listed(e) && AlwaysTame(e) && !ExecutedUpTo(e, |e.order|).cancelled
    requires again.campaign == e.campaign && Listed(again) && Tame(e, ExecutedUpTo(e, |e.order|).db, again.first)
    requires k <= |again.order|
    ensures ExecutedUpTo(again, k).executed == []
  {
    hide AlwaysTame, Tame, ExecutedUpTo, Over, TurnsDone, Unfinished;
    RunOnceInOrder(again, k);
    forall i | 0 <= i < |again.order|
      ensures Over(again.first, again.order[i])
    {
      DoneIsOver(e, again.first, again.order[i]);
    }
    NoneUnfinished(again.first, again.order[..TurnsDone(again, k)]);
  }

  // ---- the status --------------------------------------------------------------------------------------

  function StatusesOf(db: Db, order: seq<string>): seq<Status>
    requires forall i :: 0 <= i < |order| ==> order[i] in db.runs
  {
    seq(|order|, i requires 0 <= i < |order| => db.runs[order[i]].status)
  }

  /** For any tables: the rows of the campaign are all over if and only if a listing of it is not empty and reads
      nothing but ends. */
  lemma AllOverIff(db: Db, campaign: string, order: seq<string>)
    requires IsListing(db, campaign, order)
    ensures AllRowsOver(db, campaign)
            <==> order != []
                 && forall i :: 0 <= i < |order| ==> order[i] in db.runs && Terminal(db.runs[order[i]].status)
  {
    hide Terminal;
    if order != [] {
      assert order[0] in order;
    }
    assert forall i :: 0 <= i < |order| ==> order[i] in order;
    if AllRowsOver(db, campaign) {
      var id :| id in db.runs && db.runs[id].campaign == Some(campaign);
      assert id in order;
    } else if order != [] {
      assert order[0] in db.runs && db.runs[order[0]].campaign == Some(campaign);
      var id :| id in db.runs && db.runs[id].campaign == Some(campaign) && !Terminal(db.runs[id].status);
      assert id in order;
    }
  }

  /** The status that an uncancelled execution writes, from the rows its second listing finds, is the one that is
      derived from them; it is completed if and only if the campaign has a row left. */
  lemma ExecutedStatusIsDerived(e: Execution, listed: Db, order: seq<string>)
    requires Listed(e) && AlwaysTame(e) && !ExecutedUpTo(e, |e.order|).cancelled
    requires Tame(e, ExecutedUpTo(e, |e.order|).db, listed) && IsListing(listed, e.campaign, order)
    ensures AllRowsOver(listed, e.campaign) <==> order != []
    ensures (forall i :: 0 <= i < |order| ==> order[i] in listed.runs)
            && DerivedStatus(false, Running, StatusesOf(listed, order))
               == if AllRowsOver(listed, e.campaign) then Completed else Running
  {
    hide AlwaysTame, Tame, ExecutedUpTo, Listed;
    assert forall id :: id in listed.runs && listed.runs[id].campaign == Some(e.campaign) ==> id in order;
    forall id | id in order
      ensures Over(listed, id)
    {
      DoneIsOver(e, listed, id);
    }
    assert forall i :: 0 <= i < |order| ==> order[i] in order;
    assert order != [] ==> order[0] in listed.runs && listed.runs[order[0]].campaign == Some(e.campaign);
  }

  // ---- children that come back -------------------------------------------------------------------------

  /** Turn k runs its child in a row that is not of the campaign. */
  ghost predicate ComesBack(e: Execution, k: nat)
    requires k < |e.order|
  {
    && Comes(e, k) && !Over(e.first, e.order[k])
    && var begun := StepsOf(e, k).begun;
       e.order[k] in begun.runs && begun.runs[e.order[k]].campaign != Some(e.campaign)
  }

  /** The turn comes to its runner. */
  predicate ReachesRunner(e: Execution, k: nat)
    requires k < |e.order|
  {
    Comes(e, k) && !Over(e.first, e.order[k]) && !e.turns(k).ending.Unbuilt?
  }

  /** A child comes back outside its campaign if and only if its row is missing when its runner reads it: then a
      new row is made, without campaign and scenario, and the device is claimed for it like for any other. */
  lemma ComesBackIff(e: Execution, k: nat)
    requires Listed(e) && AlwaysTame(e) && k < |e.order|
    ensures ComesBack(e, k) <==> ReachesRunner(e, k) && e.order[k] !in Read(e, k).runs
    ensures ComesBack(e, k) ==>
              var id, s := e.order[k], StepsOf(e, k);
              && s.begun.runs[id] == NewRun(NextRowid(Read(e, k)), e.serial, None, "")
              && (RunClaimable(Swept(s.claim), id) ==>
                    id in s.taken.runs && s.taken.runs[id].status == Running && s.taken.runs[id].campaign == None)
  {
    if Comes(e, k) {
      ReadStands(e, k);
      var read, id, t := Read(e, k), e.order[k], e.turns(k);
      var s := StepsOf(e, k);
      assert TameTurn(e, k);
      hide Listed, AlwaysTame, Over, ExecutedUpTo, Read, Check, At, CampaignCancelled, Swept, RunClaimable, OnlyTouches;
      assert id in read.runs ==> read.runs[id].campaign == Some(e.campaign);
      SweptTouches(s.claim, id);
      TouchedKeepsCampaign(s.claim, Swept(s.claim), id);
    }
  }

  lemma TouchedKeepsCampaign(before: Db, after: Db, id: string)
    requires OnlyTouches(before, after, id)
    ensures id in before.runs <==> id in after.runs
    ensures id in before.runs ==> after.runs[id].campaign == before.runs[id].campaign
  {}

  // ---- the campaign's cancel -----------------------------------------------------------------------------

  /** Others delete a child only once the campaign's cancel is on record, and a cancel stays on record. */
  ghost predicate FlagsFirst(e: Execution, before: Db, after: Db) {
    && (CampaignCancelled(before, e.campaign) ==> CampaignCancelled(after, e.campaign))
    && (forall o :: o in e.order && o in before.runs && o !in after.runs ==> CampaignCancelled(after, e.campaign))
  }

  ghost predicate FlagsFirstTurn(e: Execution, k: nat)
    requires k < |e.order|
  {
    && FlagsFirst(e, At(e, k), Check(e, k)) && FlagsFirst(e, Check(e, k), Read(e, k))
    && FlagsFirst(e, StepsOf(e, k).begun, StepsOf(e, k).claim) && FlagsFirst(e, StepsOf(e, k).taken, StepsOf(e, k).over)
  }

  ghost predicate AlwaysFlagsFirst(e: Execution) {
    forall k :: 0 <= k < |e.order| ==> FlagsFirstTurn(e, k)
  }

  lemma FlagsFirstOn(e: Execution, a: Db, b: Db, c: Db)
    requires FlagsFirst(e, a, b) && FlagsFirst(e, b, c)
    ensures FlagsFirst(e, a, c)
  {
    hide CampaignCancelled;
  }

  lemma OwnFlagsFirst(e: Execution, before: Db, after: Db)
    requires after.campaigns == before.campaigns && before.runs.Keys <= after.runs.Keys
    ensures FlagsFirst(e, before, after)
  {}

  /** The execution's own steps delete nothing and leave the campaign alone, so a turn flags first if others do. */
  lemma StepsFlagFirst(e: Execution, k: nat)
    requires k < |e.order| && FlagsFirstTurn(e, k)
    ensures FlagsFirst(e, Read(e, k), StepsOf(e, k).end)
  {
    var read, id, t, s := Read(e, k), e.order[k], e.turns(k), StepsOf(e, k);
    hide FlagsFirst, At, Check, Read, OfOtherDevice, GoesOn, RunHolds, AnyPreflightHolds, RunClaimable, NewRun;
    OwnFlagsFirst(e, read, s.begun);
    FlagsFirstOn(e, read, s.begun, s.claim);
    OwnFlagsFirst(e, s.claim, s.taken);
    FlagsFirstOn(e, read, s.claim, s.taken);
    FlagsFirstOn(e, read, s.taken, s.over);
    OwnFlagsFirst(e, s.over, s.end);
    FlagsFirstOn(e, read, s.over, s.end);
  }

  /** While no cancel is on record, every child is there. */
  ghost predicate ThereUnlessCancelled(e: Execution, db: Db) {
    CampaignCancelled(db, e.campaign) || forall o :: o in e.order ==> o in db.runs
  }

  lemma {:induction false} NoneGoneUnflagged(e: Execution, k: nat)
    requires Listed(e) && AlwaysFlagsFirst(e) && k <= |e.order|
    ensures ThereUnlessCancelled(e, ExecutedUpTo(e, k).db)
  {
    hide FlagsFirst, ExecutedUpTo, Check, Read, StepsOf, CampaignCancelled;
    if k == 0 {
      NoTurnYet(e);
    } else {
      var n := k - 1;
      NoneGoneUnflagged(e, n);
      OneTurn(e, n);
      assert FlagsFirstTurn(e, n);
      if !ExecutedUpTo(e, n).cancelled {
        StillThere(e, At(e, n), Check(e, n));
        StillThere(e, Check(e, n), Read(e, n));
        StepsFlagFirst(e, n);
        StillThere(e, Read(e, n), StepsOf(e, n).end);
      }
    }
  }

  lemma StillThere(e: Execution, before: Db, after: Db)
    requires FlagsFirst(e, before, after) && ThereUnlessCancelled(e, before)
    ensures ThereUnlessCancelled(e, after)
  {
    hide CampaignCancelled;
  }

  /** When only the campaign's cancel deletes its runs, a child comes back if and only if its row is deleted
      between the loop's look for a cancel and the runner's read of the row. */
  lemma ComesBackBetweenIff(e: Execution, k: nat)
    requires Listed(e) && AlwaysTame(e) && AlwaysFlagsFirst(e) && k < |e.order|
    ensures ComesBack(e, k)
            <==> ReachesRunner(e, k) && e.order[k] in Check(e, k).runs && e.order[k] !in Read(e, k).runs
  {
    ComesBackIff(e, k);
    NoneGoneUnflagged(e, k);
    assert FlagsFirstTurn(e, k);
    hide Listed, AlwaysTame, ComesBack, FlagsFirst, ExecutedUpTo, Check, Read, CampaignCancelled, StepsOf;
    if ReachesRunner(e, k) {
      StillThere(e, At(e, k), Check(e, k));
      assert e.order[k] in e.order;
    }
  }

  /** A cancel that is found before the first child leaves nothing to run, and one found later nothing more. */
  lemma FlaggedRunsNoMore(e: Execution, k: nat, n: nat)
    requires k < n <= |e.order| && CampaignCancelled(Check(e, k), e.campaign)
    ensures ExecutedUpTo(e, n).cancelled && ExecutedUpTo(e, n).executed == ExecutedUpTo(e, k).executed
    ensures n < |e.order| ==> !Comes(e, n)
  {
    OneTurn(e, k);
    CancelEnds(e, k + 1, n);
    hide ExecutedUpTo, Check, Read, StepsOf;
  }

  lemma CancelledNext(e: Execution, k: nat)
    requires Listed(e) && AlwaysTame(e) && AlwaysFlagsFirst(e) && k + 1 < |e.order| && ComesBack(e, k)
    ensures CampaignCancelled(Check(e, k + 1), e.campaign)
  {
    ComesBackBetweenIff(e, k);
    StepsFlagFirst(e, k);
    OneTurn(e, k);
    assert FlagsFirstTurn(e, k) && FlagsFirstTurn(e, k + 1);
    hide Listed, AlwaysTame, AlwaysFlagsFirst, ComesBack, ExecutedUpTo, Check, Read, StepsOf, CampaignCancelled, Over;
    assert e.order[k] in e.order;
  }

  /** One cancel brings back one child at most, and that child is the last thing the execution does. */
  lemma OneComesBack(e: Execution, k: nat, n: nat)
    requires Listed(e) && AlwaysTame(e) && AlwaysFlagsFirst(e) && k < n < |e.order| && ComesBack(e, k)
    ensures !Comes(e, n) && !ComesBack(e, n)
    ensures ExecutedUpTo(e, n).executed == ExecutedUpTo(e, k + 1).executed
  {
    hide Listed, AlwaysTame, AlwaysFlagsFirst, ExecutedUpTo, Check, CampaignCancelled, StepsOf, Over;
    CancelledNext(e, k);
    FlaggedRunsNoMore(e, k + 1, if n == k + 1 then k + 2 else n);
  }

  /** And the execution after a cancel runs nothing: it finds the flag, which nothing clears, before its first
      child, and leaves the tables to the others. */
  lemma CancelledExecutesNothing(e: Execution, k: nat)
    requires CampaignCancelled(e.first, e.campaign) && k <= |e.order|
    requires e.order != [] ==> FlagsFirst(e, e.first, e.turns(0).beforeCheck(e.first))
    ensures ExecutedUpTo(e, k).executed == []
    ensures ExecutedUpTo(e, k).db == if k == 0 then e.first else e.turns(0).beforeCheck(e.first)
    ensures k > 0 ==> ExecutedUpTo(e, k).cancelled
  {
    NoTurnYet(e);
    if k > 0 {
      assert Check(e, 0) == e.turns(0).beforeCheck(e.first);
      OneTurn(e, 0);
      CancelEnds(e, 1, k);
    }
  }

  /** The statements of a campaign's cancel, with what others do ahead of each: the flag, the read of the queue,
      the flags of the running children, the deletions, the status. */
  function CancelledTables(
      db: Db, campaign: string, queue: seq<string>, others: nat -> Db -> Db, last: Db -> Db): Db {
    var listed := others(1)(RequestCampaignCancel(others(0)(db), campaign));
    var flagged := FlagCampaignRuns(others(2)(listed), campaign);
    var deleted := DeletedUpTo(flagged, queue, Later(others, 3), |queue|);
    Tables.UpdateCampaign(last(deleted), campaign, Interrupted)
  }

  function Later(others: nat -> Db -> Db, k: nat): nat -> Db -> Db {
    (n: nat) => others(n + k)
  }

  method CancelCampaign(storage: Storage, campaign: string, others: nat -> Db -> Db, last: Db -> Db)
    returns (found: bool, stopped: nat, ghost queue: seq<string>)
    modifies storage
    ensures found == (campaign in old(storage.campaigns)) && (!found ==> storage.View() == old(storage.View()))
    ensures found ==> storage.View() == CancelledTables(old(storage.View()), campaign, queue, others, last)
    ensures found ==>
              IsQueue(others(1)(RequestCampaignCancel(others(0)(old(storage.View())), campaign)), campaign, queue)
  {
    hide IsQueue, DeletedUpTo, FlagCampaignRuns;
    if campaign !in storage.campaigns {
      return false, 0, [];
    }
    storage.LetOthers(others(0));
    storage.RequestCampaignCancel(campaign);
    storage.LetOthers(others(1));
    stopped, queue := storage.CancelCampaignRuns(campaign, others(2), Later(others, 3));
    storage.LetOthers(last);
    storage.UpdateCampaign(campaign, Interrupted);
    found := true;
  }

  /** Each statement of the cancel is tame, and deletes nothing before the flag is set. */
  lemma CancelStatements(e: Execution, db: Db, id: string)
    ensures forall after :: after in {RequestCampaignCancel(db, e.campaign), FlagCampaignRuns(db, e.campaign),
                                      Tables.UpdateCampaign(db, e.campaign, Interrupted)} ==>
              Tame(e, db, after) && FlagsFirst(e, db, after)
    ensures Tame(e, db, DeleteRun(db, id))
    ensures CampaignCancelled(db, e.campaign) ==> FlagsFirst(e, db, DeleteRun(db, id))
    ensures e.campaign in db.campaigns ==> CampaignCancelled(RequestCampaignCancel(db, e.campaign), e.campaign)
  {
    hide Terminal;
    var asked, flagged := RequestCampaignCancel(db, e.campaign), FlagCampaignRuns(db, e.campaign);
    var written := Tables.UpdateCampaign(db, e.campaign, Interrupted);
    assert Tame(e, db, asked) && Tame(e, db, flagged) && Tame(e, db, written);
    assert FlagsFirst(e, db, asked) && FlagsFirst(e, db, flagged) && FlagsFirst(e, db, written);
    hide Tame, FlagsFirst;
  }

  lemma TameOn(e: Execution, a: Db, b: Db, c: Db)
    requires Tame(e, a, b) && Tame(e, b, c)
    ensures Tame(e, a, c)
  {
    hide Terminal;
  }

  /** What others do ahead of each statement of the cancel is tame and deletes no child before the flag. */
  ghost predicate OthersFlagFirst(e: Execution, others: nat -> Db -> Db, last: Db -> Db) {
    && (forall k: nat, db :: Tame(e, db, others(k)(db)) && FlagsFirst(e, db, others(k)(db)))
    && (forall db :: Tame(e, db, last(db)) && FlagsFirst(e, db, last(db)))
  }

  lemma {:induction false} DeletionsFlagFirst(
      e: Execution, db: Db, queue: seq<string>, others: nat -> Db -> Db, k: nat)
    requires k <= |queue| && CampaignCancelled(db, e.campaign)
    requires forall j: nat, d :: Tame(e, d, others(j)(d)) && FlagsFirst(e, d, others(j)(d))
    ensures Tame(e, db, DeletedUpTo(db, queue, others, k)) && FlagsFirst(e, db, DeletedUpTo(db, queue, others, k))
  {
    if k > 0 {
      DeletionsFlagFirst(e, db, queue, others, k - 1);
      var before := DeletedUpTo(db, queue, others, k - 1);
      var meanwhile := others(k - 1)(before);
      BothOn(e, db, before, meanwhile);
      CancelStatements(e, meanwhile, queue[k - 1]);
      assert CampaignCancelled(meanwhile, e.campaign);
      hide Tame;
      BothOn(e, db, meanwhile, DeletedUpTo(db, queue, others, k));
    } else {
      NothingDone(e, db);
    }
  }

  lemma NothingDone(e: Execution, db: Db)
    ensures Tame(e, db, db) && FlagsFirst(e, db, db)
  {}

  lemma BothOn(e: Execution, a: Db, b: Db, c: Db)
    ensures Tame(e, a, b) && Tame(e, b, c) ==> Tame(e, a, c)
    ensures FlagsFirst(e, a, b) && FlagsFirst(e, b, c) ==> FlagsFirst(e, a, c)
  {
    if Tame(e, a, b) && Tame(e, b, c) {
      TameOn(e, a, b, c);
    }
    if FlagsFirst(e, a, b) && FlagsFirst(e, b, c) {
      FlagsFirstOn(e, a, b, c);
    }
  }

  /** So the cancel, wherever it falls in an execution, is what the theorems about one allow of others. */
  lemma CancelFlagsFirst(e: Execution, db: Db, queue: seq<string>, others: nat -> Db -> Db, last: Db -> Db)
    requires OthersFlagFirst(e, others, last) && e.campaign in others(0)(db).campaigns
    ensures var after := CancelledTables(db, e.campaign, queue, others, last);
            Tame(e, db, after) && FlagsFirst(e, db, after) && CampaignCancelled(after, e.campaign)
  {
    hide Tame, FlagsFirst, DeletedUpTo;
    var d0 := others(0)(db);
    var d1 := RequestCampaignCancel(d0, e.campaign);
    var listed := others(1)(d1);
    var d2 := others(2)(listed);
    var d3 := FlagCampaignRuns(d2, e.campaign);
    var d4 := DeletedUpTo(d3, queue, Later(others, 3), |queue|);
    var d5 := last(d4);
    var d6 := Tables.UpdateCampaign(d5, e.campaign, Interrupted);
    CancelStatements(e, d0, "");
    CancelStatements(e, d2, "");
    CancelStatements(e, d5, "");
    BothOn(e, db, d0, d1);
    BothOn(e, db, d1, listed);
    BothOn(e, db, listed, d2);
    BothOn(e, db, d2, d3);
    FlagIsKept(e, d1, listed);
    FlagIsKept(e, listed, d2);
    FlagIsKept(e, d2, d3);
    DeletionsFlagFirst(e, d3, queue, Later(others, 3), |queue|);
    BothOn(e, db, d3, d4);
    BothOn(e, db, d4, d5);
    BothOn(e, db, d5, d6);
    FlagIsKept(e, d3, d4);
    FlagIsKept(e, d4, d5);
    FlagIsKept(e, d5, d6);
  }

  lemma FlagIsKept(e: Execution, before: Db, after: Db)
    requires FlagsFirst(e, before, after)
    ensures CampaignCancelled(before, e.campaign) ==> CampaignCancelled(after, e.campaign)
  {}

  function Same(db: Db): Db {
    db
  }

  /** An execution of one child whose campaign is cancelled between the loop's look and the runner's read. */
  function CancelledInBetween(db: Db, campaign: string, id: string, serial: string): Execution {
    var cancel := d => CancelledTables(d, campaign, [id], n => Same, Same);
    Execution(db, campaign, [id], serial, n => Turn(Ended(true), Same, cancel, Same, Same))
  }

  /** It happens: a waiting child on a free device is deleted by the cancel, made again, and run to its end in a
      row that belongs to no campaign. */
  lemma CancelBringsOneBack(db: Db, campaign: string, id: string, serial: string)
    requires campaign in db.campaigns && !CampaignCancelled(db, campaign) && IsListing(db, campaign, [id])
    requires db.runs[id].device == serial && db.runs[id].status == Pending
    requires !AnyRunHolds(db, serial) && !AnyPreflightHolds(db, serial)
    ensures var e := CancelledInBetween(db, campaign, id, serial);
            && Listed(e) && AlwaysTame(e) && AlwaysFlagsFirst(e) && ComesBack(e, 0)
            && ExecutedUpTo(e, 1).executed == [id]
            && var after := ExecutedUpTo(e, 1).db;
               id in after.runs && after.runs[id].status == Completed && after.runs[id].campaign == None
               && CampaignCancelled(after, campaign)
  {
    hide Tame, FlagsFirst, CancelledTables, RunSteps, Present, ClaimRun, Swept, At, Check, Read, StepsOf, Comes, Over,
      ExecutedUpTo, CampaignCancelled;
    var e := CancelledInBetween(db, campaign, id, serial);
    InBetweenSteps(db, campaign, id, serial);
    NoTurnYet(e);
    OneTurn(e, 0);
    NothingDone(e, StepsOf(e, 0).begun);
    NothingDone(e, StepsOf(e, 0).taken);
    CancelIsAllowed(e);
    FlagStaysSet(StepsOf(e, 0).end, Read(e, 0), campaign);
    assert TameTurn(e, 0) && FlagsFirstTurn(e, 0);
  }

  lemma FlagStaysSet(a: Db, b: Db, campaign: string)
    requires a.campaigns == b.campaigns && CampaignCancelled(b, campaign)
    ensures CampaignCancelled(a, campaign)
  {}

  lemma CancelIsAllowed(e: Execution)
    requires e.campaign in e.first.campaigns
    ensures var read := CancelledTables(e.first, e.campaign, e.order, n => Same, Same);
            && Tame(e, e.first, read) && FlagsFirst(e, e.first, read)
            && Tame(e, e.first, e.first) && FlagsFirst(e, e.first, e.first)
  {
    forall d: Db
      ensures Tame(e, d, d) && FlagsFirst(e, d, d)
    {
      NothingDone(e, d);
    }
    hide Tame, FlagsFirst, CancelledTables;
    assert OthersFlagFirst(e, n => Same, Same);
    CancelFlagsFirst(e, e.first, e.order, n => Same, Same);
  }

  /** What the runner finds, makes, claims and leaves. */
  lemma InBetweenSteps(db: Db, campaign: string, id: string, serial: string)
    requires campaign in db.campaigns && !CampaignCancelled(db, campaign) && IsListing(db, campaign, [id])
    requires db.runs[id].device == serial && db.runs[id].status == Pending
    requires !AnyRunHolds(db, serial) && !AnyPreflightHolds(db, serial)
    ensures var e := CancelledInBetween(db, campaign, id, serial);
            var read, s := Read(e, 0), StepsOf(e, 0);
            && At(e, 0) == Check(e, 0) == db && Comes(e, 0) && !Over(db, id)
            && read == CancelledTables(db, campaign, [id], n => Same, Same) && CampaignCancelled(read, campaign)
            && s.claim == s.begun && s.over == s.taken && s.end.campaigns == read.campaigns
            && id in s.begun.runs && s.begun.runs[id].campaign == None
            && id in s.end.runs && s.end.runs[id].status == Completed && s.end.runs[id].campaign == None
  {
    var e := CancelledInBetween(db, campaign, id, serial);
    CancelledInBetweenReads(db, campaign, id);
    NoTurnYet(e);
    var read := Read(e, 0);
    hide CancelledTables, AnyRunHolds, AnyPreflightHolds, IsFirstFree;
    FreeForNewRun(db, read, campaign, id, serial);
  }

  lemma FreeForNewRun(db: Db, read: Db, campaign: string, id: string, serial: string)
    requires !AnyRunHolds(db, serial) && !AnyPreflightHolds(db, serial)
    requires read.runs == FlagRunning(db.runs, campaign) - {id} && read.preflights == db.preflights
    ensures var begun := Present(read, id, NextRowid(read), serial, "");
            RunClaimable(Swept(begun), id) && id in Swept(begun).runs && Swept(begun).runs[id].campaign == None
  {
    var begun := Present(read, id, NextRowid(read), serial, "");
    hide IsFirstFree;
    forall o | o in begun.runs && o != id && begun.runs[o].device == serial
      ensures begun.runs[o].status != Running
    {
      assert o in db.runs && db.runs[o].device == serial;
    }
  }

  lemma CancelledInBetweenReads(db: Db, campaign: string, id: string)
    requires campaign in db.campaigns
    ensures var read := CancelledTables(db, campaign, [id], n => Same, Same);
            && read.runs == FlagRunning(db.runs, campaign) - {id} && read.preflights == db.preflights
            && campaign in read.campaigns && read.campaigns[campaign].cancelRequested
  {
    var listed := FlagCampaignRuns(RequestCampaignCancel(db, campaign), campaign);
    assert DeletedUpTo(listed, [id], Later(n => Same, 3), 0) == listed;
    assert DeletedUpTo(listed, [id], Later(n => Same, 3), 1) == DeleteRun(listed, id);
  }

  // ---- a deleted campaign --------------------------------------------------------------------------------

  /** The campaign's row is gone, and so are those of the children from k on. */
  ghost predicate Gone(e: Execution, db: Db, k: nat) {
    e.campaign !in db.campaigns && forall i :: k <= i < |e.order| ==> e.order[i] !in db.runs
  }

  /** Nobody makes the campaign again. */
  ghost predicate StaysGone(e: Execution, before: Db, after: Db) {
    e.campaign !in before.campaigns ==> e.campaign !in after.campaigns
  }

  ghost predicate StaysGoneTurn(e: Execution, k: nat)
    requires k < |e.order|
  {
    && StaysGone(e, At(e, k), Check(e, k)) && StaysGone(e, Check(e, k), Read(e, k))
    && StaysGone(e, StepsOf(e, k).begun, StepsOf(e, k).claim) && StaysGone(e, StepsOf(e, k).taken, StepsOf(e, k).over)
  }

  lemma TameGone(e: Execution, before: Db, after: Db, k: nat)
    requires Tame(e, before, after) && StaysGone(e, before, after) && Gone(e, before, k)
    ensures Gone(e, after, k)
  {
    assert forall i :: 0 <= i < |e.order| ==> e.order[i] in e.order;
  }

  lemma OwnGone(e: Execution, before: Db, after: Db, k: nat)
    requires Listed(e) && k < |e.order| && Gone(e, before, k + 1) && after.campaigns == before.campaigns
    requires after.runs.Keys <= before.runs.Keys + {e.order[k]}
    ensures Gone(e, after, k + 1)
  {
    forall i | k < i < |e.order|
      ensures e.order[i] !in after.runs
    {
      ListedOnce(e, i, k);
    }
  }

  lemma StepsGone(e: Execution, k: nat)
    requires Listed(e) && k < |e.order| && TameTurn(e, k) && StaysGoneTurn(e, k) && Gone(e, Read(e, k), k)
    ensures Gone(e, StepsOf(e, k).end, k + 1)
  {
    var s := StepsOf(e, k);
    assert Gone(e, Read(e, k), k + 1);
    hide Listed, Tame, Gone, StaysGone, At, Check, Read, RunHolds, AnyPreflightHolds, RunClaimable, NewRun,
      OfOtherDevice, GoesOn, EndStatus;
    OwnGone(e, Read(e, k), s.begun, k);
    TameGone(e, s.begun, s.claim, k + 1);
    OwnGone(e, s.claim, s.taken, k);
    TameGone(e, s.taken, s.over, k + 1);
    OwnGone(e, s.over, s.end, k);
  }

  /** A campaign that is deleted while it is executed runs on to its end: no cancel is found any more, and every
      child that was left comes back outside it. */
  lemma {:induction false} DeletedCampaignGoesOn(e: Execution, k: nat, n: nat)
    requires Listed(e) && AlwaysTame(e) && k <= n < |e.order|
    requires !ExecutedUpTo(e, k).cancelled && Gone(e, ExecutedUpTo(e, k).db, k)
    requires forall i :: k <= i <= n ==> StaysGoneTurn(e, i)
    ensures !ExecutedUpTo(e, n).cancelled && Gone(e, ExecutedUpTo(e, n).db, n)
    ensures Comes(e, n) && (ReachesRunner(e, n) ==> ComesBack(e, n))
  {
    hide Listed, AlwaysTame, ExecutedUpTo, Read, Check, StepsOf, ComesBack, Over, StaysGoneTurn, Comes, Gone;
    if k < n {
      DeletedCampaignGoesOn(e, k, n - 1);
      GoneAfter(e, n - 1);
    }
    GoneAtRead(e, n);
    GoneIsMissing(e, Read(e, n), n);
    ComesBackIff(e, n);
  }

  lemma GoneIsMissing(e: Execution, db: Db, k: nat)
    requires k < |e.order| && Gone(e, db, k)
    ensures e.order[k] !in db.runs
  {}

  lemma GoneAfter(e: Execution, n: nat)
    requires Listed(e) && AlwaysTame(e) && n < |e.order| && StaysGoneTurn(e, n)
    requires !ExecutedUpTo(e, n).cancelled && Gone(e, ExecutedUpTo(e, n).db, n)
    ensures !ExecutedUpTo(e, n + 1).cancelled && Gone(e, ExecutedUpTo(e, n + 1).db, n + 1)
  {
    GoneAtRead(e, n);
    OneTurn(e, n);
    assert TameTurn(e, n);
    hide TameTurn, ExecutedUpTo, Read, Check, StepsOf, Over, StaysGoneTurn;
    if !Over(e.first, e.order[n]) {
      StepsGone(e, n);
    }
  }

  lemma GoneAtRead(e: Execution, n: nat)
    requires Listed(e) && AlwaysTame(e) && n < |e.order| && StaysGoneTurn(e, n)
    requires !ExecutedUpTo(e, n).cancelled && Gone(e, ExecutedUpTo(e, n).db, n)
    ensures Comes(e, n) && Gone(e, Read(e, n), n)
  {
    assert TameTurn(e, n);
    hide AlwaysTame, ExecutedUpTo, Tame, StepsOf;
    TameGone(e, At(e, n), Check(e, n), n);
    TameGone(e, Check(e, n), Read(e, n), n);
  }

  // ---- alone ---------------------------------------------------------------------------------------------

  /** Nobody else does anything, and the clock stands still. */
  ghost predicate Quiet(e: Execution) {
    forall k: nat, db: Db ::
      var t := e.turns(k);
      t.beforeCheck(db) == db && t.beforeRead(db) == db && t.beforeClaim(db) == db && t.duringRun(db) == db
  }

  /** The first `done` children are over; of the other rows only abandoned ones changed. */
  ghost predicate LeftAloneBut(before: Db, after: Db, order: seq<string>, done: nat)
    requires done <= |order|
  {
    && (forall o :: o in before.runs <==> o in after.runs)
    && (forall i :: 0 <= i < done ==> order[i] in after.runs && Terminal(after.runs[order[i]].status))
    && forall o :: o in before.runs ==>
         && SameIdentity(before.runs[o], after.runs[o])
         && (LeftAlone(before.runs[o], after.runs[o]) || (o in order[..done] && !Terminal(before.runs[o].status)))
  }

  lemma LeftAloneNext(start: Db, before: Db, after: Db, order: seq<string>, done: nat)
    requires done < |order| && LeftAloneBut(start, before, order, done) && order[done] in start.runs
    requires if Terminal(start.runs[order[done]].status) then after == before
             else OnlyTouches(before, after, order[done])
                  && order[done] in after.runs && Terminal(after.runs[order[done]].status)
    ensures LeftAloneBut(start, after, order, done + 1)
  {
    hide SameIdentity, LeftAlone, Terminal;
    var id := order[done];
    assert order[..done + 1] == order[..done] + [id];
    forall o | o in start.runs
      ensures o in after.runs && SameIdentity(start.runs[o], after.runs[o])
      ensures LeftAlone(start.runs[o], after.runs[o]) || (o in order[..done + 1] && !Terminal(start.runs[o].status))
      ensures Terminal(before.runs[o].status) && o != id ==> Terminal(after.runs[o].status)
      ensures Terminal(start.runs[o].status) ==> Terminal(after.runs[o].status)
    {
      var r, b, s := start.runs[o], before.runs[o], after.runs[o];
      if after != before {
        Alone(r, b, s);
      } else {
        Alone(r, b, b);
      }
    }
    forall i | 0 <= i < done + 1
      ensures order[i] in after.runs && Terminal(after.runs[order[i]].status)
    {
      assert i < done ==> order[i] in before.runs && Terminal(before.runs[order[i]].status);
    }
  }

  lemma Alone(r: Run, b: Run, s: Run)
    ensures SameIdentity(r, b) && SameIdentity(b, s) ==> SameIdentity(r, s)
    ensures LeftAlone(r, b) && LeftAlone(b, s) ==> LeftAlone(r, s)
    ensures LeftAlone(b, b) && SameIdentity(b, b)
    ensures Terminal(b.status) && LeftAlone(b, s) ==> Terminal(s.status)
    ensures Terminal(r.status) && LeftAlone(r, b) ==> Terminal(b.status)
    ensures Terminal(r.status) && LeftAlone(r, s) ==> Terminal(s.status)
  {}

  lemma RanAlone(db: Db, id: string, serial: string, t: Turn)
    requires id in db.runs && forall d :: t.beforeClaim(d) == d && t.duringRun(d) == d
    ensures OnlyTouches(db, RunSteps(db, id, serial, t).end, id) && Over(RunSteps(db, id, serial, t).end, id)
  {
    hide OnlyTouches, Swept, ClaimRun, RunClaimable, UpdateRun, Over, GoesOn, OfOtherDevice, IsFirstFree;
    SweptTouches(db, id);
    NothingTouched(db, id);
    forall d, status, error | d in {db, ClaimRun(Swept(db), id)} && Terminal(status)
      ensures OnlyTouches(db, UpdateRun(d, id, status, None, error), id)
      ensures Over(UpdateRun(d, id, status, None, error), id)
    {
      UpdateTouches(db, d, id, status, error);
      OverWhenClosed(db, UpdateRun(d, id, status, None, error), id, status);
    }
  }

  lemma OverWhenClosed(before: Db, after: Db, id: string, status: Status)
    requires OnlyTouches(before, after, id) && id in before.runs && Terminal(status)
    requires id in before.runs ==> id in after.runs && after.runs[id].status == status
    ensures Over(after, id)
  {}

  /** What the campaign itself does: with nobody else at work, every row but those of its unfinished children is
      left alone, or released as abandoned. */
  lemma {:induction false} ExecutionAlone(e: Execution, k: nat)
    requires Listed(e) && Quiet(e) && k <= |e.order|
    ensures LeftAloneBut(e.first, ExecutedUpTo(e, k).db, e.order, TurnsDone(e, k))
  {
    hide Listed, Quiet, LeftAloneBut, ExecutedUpTo, At, Check, Read, StepsOf, Over, CampaignCancelled;
    if k == 0 {
      NoTurnYet(e);
      NoneDone(e.first, e.order);
    } else {
      var n := k - 1;
      ExecutionAlone(e, n);
      UncancelledIsDone(e, n);
      OneTurn(e, n);
      QuietTurn(e, n);
      if Comes(e, n) {
        AloneNext(e, n);
      }
    }
  }

  lemma NoneDone(db: Db, order: seq<string>)
    ensures LeftAloneBut(db, db, order, 0)
  {}

  lemma QuietTurn(e: Execution, n: nat)
    requires Quiet(e) && n < |e.order|
    ensures Read(e, n) == Check(e, n) == At(e, n) == ExecutedUpTo(e, n).db
    ensures forall d :: e.turns(n).beforeClaim(d) == d && e.turns(n).duringRun(d) == d
  {
    hide ExecutedUpTo;
    var db := ExecutedUpTo(e, n).db;
    assert e.turns(n).beforeCheck(db) == db;
  }

  lemma AloneNext(e: Execution, n: nat)
    requires Listed(e) && Quiet(e) && n < |e.order| && Comes(e, n)
    requires LeftAloneBut(e.first, Read(e, n), e.order, n)
    ensures LeftAloneBut(e.first, ExecutedUpTo(e, n + 1).db, e.order, n + 1)
  {
    OneTurn(e, n);
    QuietTurn(e, n);
    var id, read := e.order[n], Read(e, n);
    assert id in e.order && id in e.first.runs;
    SameRows(e.first, read, e.order, n);
    OverIs(e.first, id);
    hide Quiet, LeftAloneBut, OnlyTouches, ExecutedUpTo, At, Check, Read, Over, CampaignCancelled, RunSteps, Terminal;
    if !Over(e.first, id) {
      RanAlone(read, id, e.serial, e.turns(n));
      OverIs(StepsOf(e, n).end, id);
    }
    LeftAloneNext(e.first, read, ExecutedUpTo(e, n + 1).db, e.order, n);
  }

  lemma OverIs(db: Db, id: string)
    ensures Over(db, id) <==> id in db.runs && Terminal(db.runs[id].status)
  {}

  lemma SameRows(before: Db, after: Db, order: seq<string>, done: nat)
    requires done <= |order| && LeftAloneBut(before, after, order, done)
    ensures forall o :: o in before.runs <==> o in after.runs
  {}
}

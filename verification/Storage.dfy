/** The storage object: its methods rewrite rows the way the statements of `Tables` say. */
module StorageRows {
  import opened Wrappers
  import opened Tables

  predicate OnItsWay(r: Run, device: string, now: real) {
    && r.device == device
    && (|| r.status == Running
        || (r.status == Pending && !r.cancelRequested && r.queuedAt.Some?
            && now - r.queuedAt.value <= 90.0))
  }

  lemma RowsOnTheirWay(db: Db, device: string)
    ensures HasInflight(db, device) <==> exists id :: id in db.runs && OnItsWay(db.runs[id], device, db.now)
  {}

  /** The ids taken out of a set one by one. */
  ghost predicate Emptied(all: set<string>, todo: set<string>, taken: seq<string>) {
    && (forall id :: id in all <==> id in todo || id in taken) && (forall id :: id in todo ==> id !in taken)
    && (forall i, j :: 0 <= i < j < |taken| ==> taken[i] != taken[j])
  }

  lemma NothingDeleted(db: Db, others: nat -> Db -> Db)
    ensures DeletedUpTo(db, [], others, 0) == db
  {}

  class Storage {
    var clock: real
    var runs: map<string, Run>
    var preflights: map<string, Preflight>
    var campaigns: map<string, Campaign>

    function View(): Db
      reads this
    {
      Db(clock, runs, preflights, campaigns)
    }

    constructor (now: real)
      ensures View() == Db(now, map[], map[], map[])
    {
      clock, runs, preflights, campaigns := now, map[], map[], map[];
    }

    /** What other processes do to the tables between two statements of this one. */
    method LetOthers(others: Db -> Db)
      modifies this
      ensures View() == others(old(View()))
    {
      var after := others(View());
      clock, runs, preflights, campaigns := after.now, after.runs, after.preflights, after.campaigns;
    }

    method CreateRun(id: string, rowid: nat, device: string, campaign: Option<string>, scenario: string)
      returns (created: bool)
      requires IsNextRowid(View(), rowid)
      modifies this`runs
      ensures created == (id !in old(runs))
      ensures View() == Tables.CreateRun(old(View()), id, NewRun(rowid, device, campaign, scenario))
    {
      created := id !in runs;
      if created {
        runs := runs[id := NewRun(rowid, device, campaign, scenario)];
      }
    }

    method UpdateRun(id: string, status: Status, checkpoint: Option<real>, error: Option<string>)
      modifies this`runs
      ensures View() == Tables.UpdateRun(old(View()), id, status, checkpoint, error)
      ensures runs.Keys == old(runs).Keys && forall o :: o in runs && o != id ==> runs[o] == old(runs)[o]
      ensures id in runs ==>
                var before, after := old(runs)[id], runs[id];
                && after.status == status && after.heartbeatAt == Some(clock) && after.error == error
                && after.checkpoint == (if checkpoint == None then before.checkpoint else checkpoint)
                && after.startedAt == (if status == Running && before.startedAt == None then Some(clock)
                                       else before.startedAt)
                && after.finishedAt == (if Terminal(status) then Some(clock) else before.finishedAt)
    {
      if id in runs {
        runs := runs[id := UpdatedRun(runs[id], clock, status, checkpoint, error)];
      }
    }

    method ReleaseAbandonedRuns()
      modifies this`runs
      ensures View() == ReleaseRuns(old(View()), clock - ABANDONED_RUN_SECONDS)
      ensures runs.Keys == old(runs).Keys
      ensures forall id :: id in runs ==>
                var before := old(runs)[id];
                if before.status == Running && LastSeen(before).Some?
                   && clock - LastSeen(before).value > 120.0
                then runs[id].status == Interrupted && runs[id].finishedAt == Some(clock)
                     && runs[id].heartbeatAt == before.heartbeatAt
                else runs[id] == before
    {
      var cutoff := clock - ABANDONED_RUN_SECONDS;
      runs := map id | id in runs ::
        if RunStale(runs[id], cutoff)
        then runs[id].(status := Interrupted, finishedAt := Some(clock), error := Some("abandoned"))
        else runs[id];
    }

    method ReleaseAbandonedPreflights()
      modifies this`preflights
      ensures View() == ReleasePreflights(old(View()), clock - ABANDONED_PREFLIGHT_SECONDS)
      ensures preflights.Keys == old(preflights).Keys
      ensures forall id :: id in preflights ==>
                var before := old(preflights)[id];
                if before.status == Running && before.startedAt.Some?
                   && clock - before.startedAt.value > 900.0
                then preflights[id].status == Failed && preflights[id].finishedAt == Some(clock)
                else preflights[id] == before
    {
      var cutoff := clock - ABANDONED_PREFLIGHT_SECONDS;
      preflights := map id | id in preflights ::
        if PreflightStale(preflights[id], cutoff)
        then preflights[id].(status := Failed, finishedAt := Some(clock), error := Some("abandoned"))
        else preflights[id];
    }

    method TryStartRun(id: string) returns (claimed: bool)
      modifies this`runs, this`preflights
      ensures claimed == RunClaimable(Swept(old(View())), id)
      ensures View() == ClaimRun(Swept(old(View())), id)
    {
      hide ReleaseRuns, ReleasePreflights, RunHolds, AnyPreflightHolds, ClaimedRun;
      ReleaseAbandonedRuns();
      ReleaseAbandonedPreflights();
      claimed := RunClaimable(View(), id);
      if claimed {
        runs := runs[id := ClaimedRun(runs[id], clock)];
      }
    }

    method TryStartPreflight(id: string) returns (claimed: bool)
      modifies this`runs, this`preflights
      ensures claimed == PreflightClaimable(Swept(old(View())), id)
      ensures View() == ClaimPreflight(Swept(old(View())), id)
    {
      hide ReleaseRuns, ReleasePreflights, PreflightHolds, AnyRunHolds, ClaimedPreflight;
      ReleaseAbandonedRuns();
      ReleaseAbandonedPreflights();
      claimed := PreflightClaimable(View(), id);
      if claimed {
        preflights := preflights[id := ClaimedPreflight(preflights[id], clock)];
      }
    }

    method FinishPreflight(id: string, status: Status, ok: Option<bool>, error: Option<string>)
      modifies this`preflights
      ensures View() == Tables.FinishPreflight(old(View()), id, status, ok, error)
      ensures preflights.Keys == old(preflights).Keys
      ensures forall o :: o in preflights && o != id ==> preflights[o] == old(preflights)[o]
      ensures id in preflights ==>
                && preflights[id].status == status && preflights[id].ok == ok && preflights[id].error == error
                && preflights[id].finishedAt == Some(clock) && preflights[id].startedAt == old(preflights)[id].startedAt
    {
      if id in preflights {
        preflights := preflights[id := preflights[id].(status := status, finishedAt := Some(clock),
                                                       ok := ok, error := error)];
      }
    }

    method RequestCancel(id: string)
      modifies this`runs
      ensures View() == Tables.RequestCancel(old(View()), id)
    {
      if id in runs {
        runs := runs[id := runs[id].(cancelRequested := true)];
      }
    }

    method DeleteRun(id: string)
      modifies this`runs
      ensures View() == Tables.DeleteRun(old(View()), id)
    {
      runs := runs - {id};
    }

    /** Something is on its way to the device: a run that is running, or one that was handed to the queue within
        90 seconds and still waits, uncancelled. */
    method DeviceHasInflightRun(device: string) returns (inflight: bool)
      ensures inflight <==> exists id :: id in runs && OnItsWay(runs[id], device, clock)
      ensures inflight == HasInflight(View(), device)
    {
      RowsOnTheirWay(View(), device);
      var todo := runs.Keys;
      while todo != {}
        invariant todo <= runs.Keys
        invariant forall id :: id in runs && id !in todo ==> !OnItsWay(runs[id], device, clock)
      {
        var id :| id in todo;
        if runs[id].device == device {
          if runs[id].status == Running {
            return true;
          }
          var queuedAt := runs[id].queuedAt;
          if runs[id].status == Pending && !runs[id].cancelRequested && queuedAt.Some?
             && queuedAt.value >= clock - REDISPATCH_AFTER_SECONDS
          {
            return true;
          }
        }
        todo := todo - {id};
      }
      return false;
    }

    method NextPendingRun(device: string) returns (next: Option<string>)
      ensures match next
              case Some(id) => IsNextPending(View(), device, id)
              case None => forall id :: !Candidate(View(), device, id)
    {
      var db := View();
      if exists id :: id in db.runs && Candidate(db, device, id) {
        NextPendingExists(db, device);
        var id :| id in db.runs && IsNextPending(db, device, id);
        next := Some(id);
      } else {
        next := None;
      }
    }

    method MarkRunQueued(id: string)
      modifies this`runs
      ensures View() == Tables.MarkRunQueued(old(View()), id)
    {
      if id in runs {
        runs := runs[id := runs[id].(queuedAt := Some(clock))];
      }
    }

    /** SELECT DISTINCT leaves the order open, so the answer is a set. */
    method DevicesWithPendingRuns() returns (devices: set<string>)
      ensures forall d :: d in devices <==> (exists id :: Candidate(View(), d, id)) && !AnyRunHolds(View(), d)
    {
      var db := View();
      devices := set id | id in db.runs && Candidate(db, db.runs[id].device, id)
                          && !AnyRunHolds(db, db.runs[id].device) :: db.runs[id].device;
      forall d
        ensures d in devices <==> (exists id :: Candidate(db, d, id)) && !AnyRunHolds(db, d)
      {
        if d in devices {
          var id :| id in db.runs && Candidate(db, db.runs[id].device, id) && db.runs[id].device == d;
          assert Candidate(db, d, id);
        }
      }
    }

    /** The waiting children are read, the running ones flagged, and each waiting one is then deleted in a
        transaction of its own, whatever has become of it. `beforeFlag` is what others do between the read and the
        flags, `others` what they do ahead of each deletion. */
    method CancelCampaignRuns(campaign: string, beforeFlag: Db -> Db, others: nat -> Db -> Db)
      returns (stopped: nat, ghost queue: seq<string>)
      modifies this
      ensures IsQueue(old(View()), campaign, queue)
      ensures View() == DeletedUpTo(FlagCampaignRuns(beforeFlag(old(View())), campaign), queue, others, |queue|)
      ensures stopped == |WithStatus(beforeFlag(old(View())).runs, campaign, Running)| + |queue|
    {
      hide WithStatus, FlagRunning, DeletedUpTo;
      var queued := WithStatus(runs, campaign, Pending);
      LetOthers(beforeFlag);
      stopped := |WithStatus(runs, campaign, Running)|;
      runs := FlagRunning(runs, campaign);
      ghost var flagged := View();
      NothingDeleted(flagged, others);
      var todo, deleted := queued, 0;
      queue := [];
      while todo != {}
        invariant deleted == |queue|
        invariant Emptied(queued, todo, queue)
        invariant View() == DeletedUpTo(flagged, queue, others, |queue|)
      {
        var id :| id in todo;
        OneMoreDeleted(flagged, queue, others, id);
        LetOthers(others(deleted));
        DeleteRun(id);
        todo, deleted, queue := todo - {id}, deleted + 1, queue + [id];
      }
      stopped := stopped + deleted;
    }

    method CreateCampaign(id: string, device: string)
      modifies this`campaigns
      ensures View() == Tables.CreateCampaign(old(View()), id, device)
    {
      if id !in campaigns {
        campaigns := campaigns[id := Campaign(device, Pending, None, None, false)];
      }
    }

    method UpdateCampaign(id: string, status: Status)
      modifies this`campaigns
      ensures View() == Tables.UpdateCampaign(old(View()), id, status)
      ensures campaigns.Keys == old(campaigns).Keys
      ensures id in campaigns ==>
                var before, after := old(campaigns)[id], campaigns[id];
                && after.status == status && after.cancelRequested == before.cancelRequested
                && after.startedAt == (if status == Running && before.startedAt == None then Some(clock)
                                       else before.startedAt)
                && after.finishedAt == (if Terminal(status) then Some(clock) else before.finishedAt)
    {
      if id in campaigns {
        var c := campaigns[id];
        campaigns := campaigns[id := c.(
          status := status,
          startedAt := if status == Running then c.startedAt.Coalesce(Some(clock)) else c.startedAt,
          finishedAt := if Terminal(status) then Some(clock) else c.finishedAt)];
      }
    }

    method RequestCampaignCancel(id: string)
      modifies this`campaigns
      ensures View() == Tables.RequestCampaignCancel(old(View()), id)
      ensures id in campaigns ==> CampaignCancelled(View(), id)
    {
      if id in campaigns {
        campaigns := campaigns[id := campaigns[id].(cancelRequested := true)];
      }
    }
  }

  lemma OneMoreDeleted(db: Db, queue: seq<string>, others: nat -> Db -> Db, id: string)
    ensures DeletedUpTo(db, queue + [id], others, |queue| + 1)
            == Tables.DeleteRun(others(|queue|)(DeletedUpTo(db, queue, others, |queue|)), id)
  {
    SameDeletions(db, queue, queue + [id], others, |queue|);
  }

  lemma {:induction false} SameDeletions(db: Db, a: seq<string>, b: seq<string>, others: nat -> Db -> Db, k: nat)
    requires k <= |a| && k <= |b| && a[..k] == b[..k]
    ensures DeletedUpTo(db, a, others, k) == DeletedUpTo(db, b, others, k)
  {
    if k > 0 {
      assert a[..k][..k - 1] == a[..k - 1] && b[..k][..k - 1] == b[..k - 1];
      assert a[..k][k - 1] == b[..k][k - 1];
      SameDeletions(db, a, b, others, k - 1);
    }
  }
}

/** What a cancel does to a run that is no longer what the cancel's read found: the button closes, and a
    campaign's cancel deletes, rows that an earlier statement found waiting, and neither asks again. */
module Cancelling {
  import opened LockProtocol
  import opened Tables
  import opened Wrappers

  // ---- who drives a run --------------------------------------------------------------------

  /** The worker claimed the run in action k, and has neither finished nor died before action j. */
  ghost predicate ClaimedSince(worlds: seq<World>, actions: seq<Action>, k: nat, j: nat, worker: nat, id: string)
    requires |worlds| == |actions| + 1
  {
    && k < j <= |actions| && actions[k] == Claim(worker, id) && RunClaimable(worlds[k].db, id)
    && forall l :: k < l < j ==> !LetsGo(actions[l], worker)
  }

  predicate LetsGo(a: Action, worker: nat) {
    a == Crash(worker) || (a.Finish? && a.worker == worker)
  }

  lemma DrivesMoves(w: World, a: Action, worker: nat, id: string)
    requires Possible(w, a)
    ensures Drives(Apply(w, a), worker, id)
            <==> || (a == Claim(worker, id) && RunClaimable(w.db, id))
                 || (Drives(w, worker, id) && !LetsGo(a, worker))
  {
    hide RunClaimable, PreflightClaimable, HasInflight, IsNextPending, IsNextRowid;
  }

  /** A worker drives a run if and only if it has claimed it since it did not, and lives. */
  lemma {:induction false} DrivesSince(
      worlds: seq<World>, actions: seq<Action>, i: nat, j: nat, worker: nat, id: string)
    requires IsRun(worlds, actions) && i <= j <= |actions| && !Drives(worlds[i], worker, id)
    ensures Drives(worlds[j], worker, id) <==> exists k :: i <= k < j && ClaimedSince(worlds, actions, k, j, worker, id)
  {
    hide Possible, Apply, Drives, RunClaimable;
    if i < j {
      var n := j - 1;
      DrivesSince(worlds, actions, i, n, worker, id);
      DrivesMoves(worlds[n], actions[n], worker, id);
      if actions[n] == Claim(worker, id) && RunClaimable(worlds[n].db, id) {
        assert ClaimedSince(worlds, actions, n, j, worker, id);
      }
      if k :| i <= k < n && ClaimedSince(worlds, actions, k, n, worker, id) {
        assert !LetsGo(actions[n], worker) ==> ClaimedSince(worlds, actions, k, j, worker, id);
      }
      if k :| i <= k < j && ClaimedSince(worlds, actions, k, j, worker, id) {
        assert k < n ==> ClaimedSince(worlds, actions, k, n, worker, id);
      }
    }
  }

  /** A cancel that reads a waiting run in world i and writes in action j takes the row from under a live worker,
      by deleting it or by closing it, if and only if the worker claimed the run between the two and still
      drives it. */
  lemma CancelHitsLiveRunIff(worlds: seq<World>, actions: seq<Action>, i: nat, j: nat, worker: nat, id: string)
    requires IsRun(worlds, actions) && i <= j < |actions|
    requires id in worlds[i].db.runs && worlds[i].db.runs[id].status == Pending && !Drives(worlds[i], worker, id)
    requires actions[j] == Delete(id) || (actions[j].Close? && actions[j].id == id)
    ensures Drives(worlds[j + 1], worker, id)
            <==> exists k :: i <= k < j && ClaimedSince(worlds, actions, k, j, worker, id)
    ensures !RunHeld(worlds[j + 1].db, id)
  {
    DrivesSince(worlds, actions, i, j, worker, id);
    assert Possible(worlds[j], actions[j]) && worlds[j + 1] == Apply(worlds[j], actions[j]);
    DrivesMoves(worlds[j], actions[j], worker, id);
    hide IsRun, ClaimedSince;
  }

  /** Where every live run's row runs, as it does in every disciplined run, the read finds no worker on a run
      that waits. */
  lemma WaitingIsNotDriven(w: World, id: string)
    requires RunnersHold(w) && id in w.db.runs && w.db.runs[id].status == Pending
    ensures !Driven(w, id)
  {}

  // ---- measurements lost --------------------------------------------------------------------

  /** The run has been at work: its row has a start. */
  predicate Begun(db: Db, id: string) {
    id in db.runs && db.runs[id].startedAt.Some?
  }

  /** A claim that succeeds, or a heartbeat of a worker on the run, gives the row its start. */
  predicate Begins(w: World, a: Action, id: string) {
    || (a.Claim? && a.id == id && RunClaimable(w.db, id))
    || (a.Heartbeat? && Drives(w, a.worker, id) && id in w.db.runs)
  }

  lemma BegunMoves(w: World, a: Action, id: string)
    requires Possible(w, a)
    ensures Begun(Apply(w, a).db, id) <==> Begins(w, a, id) || (Begun(w.db, id) && a != Delete(id))
  {
    hide RunHolds, AnyPreflightHolds, PreflightHolds, AnyRunHolds, HasInflight, IsNextPending, IsNextRowid;
  }

  ghost predicate BegunIn(worlds: seq<World>, actions: seq<Action>, k: nat, j: nat, id: string)
    requires |worlds| == |actions| + 1
  {
    k < j <= |actions| && Begins(worlds[k], actions[k], id) && forall l :: k < l < j ==> actions[l] != Delete(id)
  }

  lemma {:induction false} BegunSince(worlds: seq<World>, actions: seq<Action>, i: nat, j: nat, id: string)
    requires IsRun(worlds, actions) && i <= j <= |actions| && !Begun(worlds[i].db, id)
    ensures Begun(worlds[j].db, id) <==> exists k :: i <= k < j && BegunIn(worlds, actions, k, j, id)
  {
    hide Possible, Apply, Begun, Begins;
    if i < j {
      var n := j - 1;
      BegunSince(worlds, actions, i, n, id);
      BegunMoves(worlds[n], actions[n], id);
      if Begins(worlds[n], actions[n], id) {
        assert BegunIn(worlds, actions, n, j, id);
      }
      if k :| i <= k < n && BegunIn(worlds, actions, k, n, id) {
        assert actions[n] != Delete(id) ==> BegunIn(worlds, actions, k, j, id);
      }
      if k :| i <= k < j && BegunIn(worlds, actions, k, j, id) {
        assert k < n ==> BegunIn(worlds, actions, k, n, id);
      }
    }
  }

  /** A campaign's cancel, which promises to keep what was measured, deletes a run that has been at work if and
      only if the run began between the cancel's read and that deletion. */
  lemma CancelLosesMeasurementsIff(worlds: seq<World>, actions: seq<Action>, i: nat, j: nat, id: string)
    requires IsRun(worlds, actions) && Initial(worlds[0]) && i <= j < |actions| && actions[j] == Delete(id)
    requires id in worlds[i].db.runs && worlds[i].db.runs[id].status == Pending
    ensures Begun(worlds[j].db, id) <==> exists k :: i <= k < j && BegunIn(worlds, actions, k, j, id)
    ensures id !in worlds[j + 1].db.runs
  {
    RowsStaySane(worlds, actions, i);
    assert RunSane(worlds[i].db, worlds[i].db.runs[id]);
    BegunSince(worlds, actions, i, j, id);
    assert worlds[j + 1] == Apply(worlds[j], actions[j]);
    hide IsRun, BegunIn, Begun;
  }

  /** It happens: a waiting child is read by the cancel, claimed, and deleted. Its worker drives on without a
      row, and the next run of the device is claimed by a second worker at once. */
  lemma CampaignCancelFreesBusyDevice(w: World, first: nat, second: nat, id: string, other: string)
    returns (worlds: seq<World>, actions: seq<Action>)
    requires RunClaimable(w.db, id) && w.db.runs[id].status == Pending
    requires first !in w.runners && second !in w.runners && first != second
    requires other in w.db.runs && other != id && w.db.runs[other].device == w.db.runs[id].device
    ensures IsRun(worlds, actions) && worlds[0] == w && actions == [Claim(first, id), Delete(id), Claim(second, other)]
    ensures Begun(worlds[1].db, id) && id !in worlds[2].db.runs
    ensures Drives(worlds[3], first, id) && Drives(worlds[3], second, other) && RunHeld(worlds[3].db, other)
  {
    actions := [Claim(first, id), Delete(id), Claim(second, other)];
    var w1 := Apply(w, actions[0]);
    var w2 := Apply(w1, actions[1]);
    ClaimOnFree(w, first, id);
    assert RunClaimable(w2.db, other) by {
      assert forall o :: o in w2.db.runs ==> o != id && w2.db.runs[o] == w.db.runs[o];
    }
    ClaimOnFree(w2, second, other);
    worlds := [w, w1, w2, Apply(w2, actions[2])];
  }
}

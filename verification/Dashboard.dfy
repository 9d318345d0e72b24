/** How runs reach a device: the dispatcher, the queue task, the runner's own start and
    the cancel button, each in terms of the storage object. */
module Dashboard {
  import opened Wrappers
  import opened Tables
  import opened StorageRows

  // ---- dispatch ---------------------------------------------------------------------

  /** The longest-waiting uncancelled run of the device. */
  ghost predicate OldestWaiting(db: Db, device: string, id: string) {
    Waiting(db, device, id) && forall o :: Waiting(db, device, o) ==> db.runs[id].rowid <= db.runs[o].rowid
  }

  /** With nothing in flight every waiting run is a candidate, so the one handed out is
      the oldest of them all, not merely of those not yet queued. */
  lemma NextIsOldest(db: Db, device: string, id: string)
    requires !HasInflight(db, device) && IsNextPending(db, device, id)
    ensures OldestWaiting(db, device, id)
  {
    IdleMeansCandidates(db, device);
  }

  lemma IdleMeansCandidates(db: Db, device: string)
    requires !HasInflight(db, device)
    ensures forall o :: Waiting(db, device, o) <==> Candidate(db, device, o)
  {
    forall o | Waiting(db, device, o)
      ensures Candidate(db, device, o)
    {
      assert !(db.runs[o].status == Running || (Waiting(db, device, o) && FreshlyQueued(db, db.runs[o])));
    }
  }

  method DispatchPending(storage: Storage, device: string) returns (dispatched: Option<string>)
    modifies storage`runs
    ensures var before := old(storage.View());
            match dispatched
            case None => storage.View() == before &&
                         (HasInflight(before, device) || forall o :: !Waiting(before, device, o))
            case Some(id) => && !HasInflight(before, device) && OldestWaiting(before, device, id)
                             && storage.View() == MarkRunQueued(before, id)
  {
    hide HasInflight, IsNextPending, Candidate, Waiting;
    var inflight := storage.DeviceHasInflightRun(device);
    if inflight {
      return None;
    }
    IdleMeansCandidates(storage.View(), device);
    var run := storage.NextPendingRun(device);
    if run.None? {
      return None;
    }
    NextIsOldest(storage.View(), device, run.value);
    storage.MarkRunQueued(run.value);
    return run;
  }

  /** Being handed to the queue puts a run in flight and takes no other device's away. */
  lemma QueuedIsInflight(db: Db, device: string, id: string)
    requires Waiting(db, device, id)
    ensures var after := MarkRunQueued(db, id);
            && HasInflight(after, device)
            && (forall d :: HasInflight(db, d) ==> HasInflight(after, d))
            && (forall d, o :: d != device ==>
                  (Waiting(after, d, o) <==> Waiting(db, d, o)) && (HasInflight(after, d) <==> HasInflight(db, d)))
  {
    var after := MarkRunQueued(db, id);
    assert Waiting(after, device, id) && FreshlyQueued(after, after.runs[id]);
    forall d
      ensures HasInflight(db, d) ==> HasInflight(after, d)
      ensures d != device ==> (HasInflight(after, d) <==> HasInflight(db, d))
    {
      if HasInflight(db, d) {
        var o :| o in db.runs && db.runs[o].device == d &&
                 (db.runs[o].status == Running || (Waiting(db, d, o) && FreshlyQueued(db, db.runs[o])));
        assert after.runs[o].device == d && (after.runs[o].status == Running || Waiting(after, d, o));
      }
      if d != device && HasInflight(after, d) {
        var o :| o in after.runs && after.runs[o].device == d &&
                 (after.runs[o].status == Running || (Waiting(after, d, o) && FreshlyQueued(after, after.runs[o])));
        assert db.runs[o] == after.runs[o] && (db.runs[o].status == Running || Waiting(db, d, o));
      }
    }
  }

  /** Rows as they were, except that the dispatched ones carry the time they were queued. */
  ghost predicate OnlyQueued(before: Db, after: Db, dispatched: set<string>) {
    && after == before.(runs := after.runs) && after.runs.Keys == before.runs.Keys
    && forall id :: id in before.runs ==>
         after.runs[id] == if id in dispatched then before.runs[id].(queuedAt := Some(before.now)) else before.runs[id]
  }

  /** Each dispatched run was the oldest of an idle device, and no device got two. */
  ghost predicate OnePerIdleDevice(before: Db, dispatched: set<string>) {
    && (forall id :: id in dispatched ==> id in before.runs && !HasInflight(before, before.runs[id].device)
                                          && OldestWaiting(before, before.runs[id].device, id))
    && (forall a, b :: a in dispatched && b in dispatched && a != b ==> before.runs[a].device != before.runs[b].device)
  }

  /** Where the self-repair stands with the devices of `todo` still to visit. */
  ghost predicate Repaired(before: Db, after: Db, todo: set<string>, dispatched: set<string>) {
    && (forall d, id :: Waiting(after, d, id) && d !in todo ==> HasInflight(after, d))
    && (forall id :: id in dispatched ==> id in before.runs && before.runs[id].device !in todo)
    && OnlyQueued(before, after, dispatched) && OnePerIdleDevice(before, dispatched)
  }

  lemma NothingHandedOut(before: Db, now: Db, todo: set<string>, dispatched: set<string>, device: string)
    requires Repaired(before, now, todo, dispatched)
    requires HasInflight(now, device) || forall o :: !Waiting(now, device, o)
    ensures Repaired(before, now, todo - {device}, dispatched)
  {
    hide HasInflight, Waiting, OnlyQueued, OnePerIdleDevice;
  }

  lemma OneHandedOut(before: Db, now: Db, todo: set<string>, dispatched: set<string>, device: string, id: string)
    requires Repaired(before, now, todo, dispatched) && device in todo
    requires !HasInflight(now, device) && OldestWaiting(now, device, id)
    ensures Repaired(before, MarkRunQueued(now, id), todo - {device}, dispatched + {id})
  {
    UntouchedDevice(before, now, dispatched, device);
    WaitingIsOfDevice(now, device, id);
    WaitingIsOfDevice(before, device, id);
    QueuedIsInflight(now, device, id);
    assert id !in dispatched;
    hide HasInflight, Waiting, OldestWaiting;
  }

  /** The self-repair: afterwards every device with a waiting run has one in flight. */
  method DispatchStalled(storage: Storage) returns (dispatched: set<string>)
    modifies storage`runs
    ensures var before, after := old(storage.View()), storage.View();
            && (forall d, id :: Waiting(after, d, id) ==> HasInflight(after, d))
            && OnlyQueued(before, after, dispatched) && OnePerIdleDevice(before, dispatched)
  {
    ghost var before := storage.View();
    var todo := storage.DevicesWithPendingRuns();
    dispatched := {};
    StalledOrInflight(before, todo);
    while todo != {}
      invariant Repaired(before, storage.View(), todo, dispatched)
    {
      hide Repaired, HasInflight, Waiting, OldestWaiting;
      var device :| device in todo;
      ghost var now := storage.View();
      var run := DispatchPending(storage, device);
      match run {
        case None =>
          NothingHandedOut(before, now, todo, dispatched, device);
        case Some(id) =>
          OneHandedOut(before, now, todo, dispatched, device, id);
          dispatched := dispatched + {id};
      }
      todo := todo - {device};
    }
  }

  lemma WaitingIsOfDevice(db: Db, device: string, id: string)
    requires OldestWaiting(db, device, id)
    ensures Waiting(db, device, id) && id in db.runs && db.runs[id].device == device
  {}

  lemma StalledOrInflight(db: Db, stalled: set<string>)
    requires forall d :: d in stalled <==> (exists id :: Candidate(db, d, id)) && !AnyRunHolds(db, d)
    ensures forall d, id :: Waiting(db, d, id) && d !in stalled ==> HasInflight(db, d)
  {
    forall d, id | Waiting(db, d, id) && d !in stalled
      ensures HasInflight(db, d)
    {
      if !FreshlyQueued(db, db.runs[id]) {
        assert Candidate(db, d, id);
        var o :| o in db.runs && db.runs[o].device == d && db.runs[o].status == Running;
      }
    }
  }

  /** A device none of the dispatched runs belongs to looks as it did before. */
  lemma UntouchedDevice(before: Db, after: Db, dispatched: set<string>, device: string)
    requires OnlyQueued(before, after, dispatched)
    requires forall id :: id in dispatched ==> id in before.runs && before.runs[id].device != device
    ensures HasInflight(after, device) <==> HasInflight(before, device)
    ensures forall id :: OldestWaiting(after, device, id) <==> OldestWaiting(before, device, id)
  {
    assert forall id :: id in before.runs && before.runs[id].device == device ==> after.runs[id] == before.runs[id];
    assert forall id :: Waiting(after, device, id) <==> Waiting(before, device, id);
    if HasInflight(after, device) {
      var o :| o in after.runs && after.runs[o].device == device &&
               (after.runs[o].status == Running || (Waiting(after, device, o) && FreshlyQueued(after, after.runs[o])));
      assert before.runs[o] == after.runs[o];
    }
    if HasInflight(before, device) {
      var o :| o in before.runs && before.runs[o].device == device &&
               (before.runs[o].status == Running
                || (Waiting(before, device, o) && FreshlyQueued(before, before.runs[o])));
      assert before.runs[o] == after.runs[o];
    }
  }

  // ---- starting a run ----------------------------------------------------------------

  datatype Start = Gone | OtherDevice | CancelledBefore | Busy | Claimed

  /** The runner's start: it reads the row, creates a missing one or turns away, and then claims the device.
      `others` is what other processes do between the read and what follows it, and `rowid` is what the table
      would number a new row. */
  method BeginRun(storage: Storage, id: string, rowid: nat, device: string, requireExisting: bool, others: Db -> Db)
    returns (start: Start)
    requires requireExisting || id in storage.runs || IsNextRowid(storage.View(), rowid)
    modifies storage
    ensures var before, after := old(storage.View()), storage.View();
            match start
            case Gone => id !in before.runs && requireExisting && after == before
            case OtherDevice => id in before.runs && before.runs[id].device != device && after == before
            case CancelledBefore =>
              && id in before.runs && before.runs[id].device == device && before.runs[id].cancelRequested
              && after == UpdateRun(others(before), id, Interrupted, None, Some("cancelled before starting"))
            case Busy =>
              && Startable(before, id, device, requireExisting)
              && var meanwhile := others(Present(before, id, rowid, device, ""));
                 !RunClaimable(Swept(meanwhile), id) && after == Swept(meanwhile)
            case Claimed =>
              && Startable(before, id, device, requireExisting)
              && var meanwhile := others(Present(before, id, rowid, device, ""));
                 RunClaimable(Swept(meanwhile), id) && after == ClaimRun(Swept(meanwhile), id)
  {
    hide Swept, RunClaimable, ClaimedRun;
    if id !in storage.runs {
      if requireExisting {
        return Gone;
      }
      var _ := storage.CreateRun(id, rowid, device, None, "");
    } else if storage.runs[id].device != device {
      return OtherDevice;
    } else if storage.runs[id].cancelRequested {
      storage.LetOthers(others);
      storage.UpdateRun(id, Interrupted, None, Some("cancelled before starting"));
      return CancelledBefore;
    }
    storage.LetOthers(others);
    var claimed := storage.TryStartRun(id);
    return if claimed then Claimed else Busy;
  }

  /** What the runner does not turn away when it reads the row. It asks for the device and the flag, and not
      for whether the run was executed before. */
  predicate Startable(db: Db, id: string, device: string, requireExisting: bool) {
    if id in db.runs then db.runs[id].device == device && !db.runs[id].cancelRequested else !requireExisting
  }

  /** The tables once the row is there. */
  function Present(db: Db, id: string, rowid: nat, device: string, scenario: string): Db {
    CreateRun(db, id, NewRun(rowid, device, None, scenario))
  }

  /** The queue task creates a missing row before it starts the runner with the demand that the row exists: so
      a run deleted while its task sat in the queue comes back, and drives the device if the device is free.
      Only a run deleted once more, between the two, is gone. `first` is what others do before the runner reads
      the row, `second` what they do before it claims. */
  method StartTask(storage: Storage, id: string, rowid: nat, device: string, scenario: string,
                   first: Db -> Db, second: Db -> Db)
    returns (start: Start)
    requires id in storage.runs || IsNextRowid(storage.View(), rowid)
    modifies storage
    ensures var before := old(storage.View());
            var present := first(Present(before, id, rowid, device, scenario));
            var meanwhile := second(present);
            && (start == Gone <==> id !in present.runs)
            && (start == Claimed <==> Startable(present, id, device, true) && RunClaimable(Swept(meanwhile), id))
            && (start == Claimed ==> storage.View() == ClaimRun(Swept(meanwhile), id))
            && (id !in before.runs && present == Present(before, id, rowid, device, scenario) ==>
                  start == if RunClaimable(Swept(meanwhile), id) then Claimed else Busy)
            && (id in present.runs && present.runs[id].cancelRequested ==> start in {OtherDevice, CancelledBefore})
  {
    hide RunClaimable, ClaimedRun, Swept;
    if id !in storage.runs {
      var _ := storage.CreateRun(id, rowid, device, None, scenario);
    }
    storage.LetOthers(first);
    start := BeginRun(storage, id, rowid, device, true, second);
  }

  // ---- the cancel button ---------------------------------------------------------------

  datatype Cancel = NotFound | StoppedBefore | Stopping | AlreadyOver(status: Status)

  /** A run that was waiting when the button read it is interrupted at once, a running one is asked to stop,
      anything else is refused and left alone. What the read found is not asked again: `first` is what others do
      before the flag is written, `second` what they do before the status is. */
  method CancelRun(storage: Storage, id: string, first: Db -> Db, second: Db -> Db) returns (answer: Cancel)
    modifies storage
    ensures var before, after := old(storage.View()), storage.View();
            match answer
            case NotFound => id !in before.runs && after == before
            case StoppedBefore =>
              && id in before.runs && before.runs[id].status == Pending
              && var flagged := second(RequestCancel(first(before), id));
                 && after.runs.Keys == flagged.runs.Keys
                 && (id in after.runs ==> after.runs[id].status == Interrupted)
                 && after == UpdateRun(flagged, id, Interrupted, None, Some("cancelled before starting"))
            case Stopping =>
              && id in before.runs && before.runs[id].status == Running && after == RequestCancel(first(before), id)
            case AlreadyOver(status) =>
              id in before.runs && before.runs[id].status == status && Terminal(status) && after == before
  {
    if id !in storage.runs {
      return NotFound;
    }
    var status := storage.runs[id].status;
    if status == Pending {
      storage.LetOthers(first);
      storage.RequestCancel(id);
      storage.LetOthers(second);
      storage.UpdateRun(id, Interrupted, None, Some("cancelled before starting"));
      return StoppedBefore;
    }
    if status == Running {
      storage.LetOthers(first);
      storage.RequestCancel(id);
      return Stopping;
    }
    return AlreadyOver(status);
  }

  /** A run that is flagged is in no queue, and the runner turns it away when it reads its row. A flag that
      comes later than that read is another matter: see the module of the start itself. */
  lemma CancelledNeverStarts(db: Db, id: string, device: string, requireExisting: bool)
    requires id in db.runs && db.runs[id].cancelRequested
    ensures !Startable(db, id, device, requireExisting)
    ensures forall d :: !Waiting(db, d, id) && !IsNextPending(db, d, id)
  {}
}

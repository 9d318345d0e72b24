/** The start of a run as it really is: one statement reads the row, a later one claims the device, and anything
    may happen in between. The lock protocol with the workers that are between the two. */
module Starting {
  import opened LockProtocol
  import opened Tables
  import opened Wrappers

  /** `readers` are the workers that have read a row, were not turned away, and have yet to claim. */
  datatype System = System(world: World, readers: map<nat, string>)

  datatype Move = Read(worker: nat, id: string) | GoOn(worker: nat) | Other(action: Action)

  /** A reader goes on unless it finds the row flagged; a missing row it makes, which is an action of its own. Every
      claim of a run is a reader's. */
  ghost predicate Allowed(s: System, m: Move) {
    match m
    case Read(worker, id) => worker !in s.readers && worker !in s.world.runners && !Flagged(s, id)
    case GoOn(worker) => worker in s.readers && worker !in s.world.runners
    case Other(a) => !a.Claim? && Possible(s.world, a)
  }

  function Next(s: System, m: Move): System {
    match m
    case Read(worker, id) => s.(readers := s.readers[worker := id])
    case GoOn(worker) =>
      if worker in s.readers then System(Apply(s.world, Claim(worker, s.readers[worker])), s.readers - {worker}) else s
    case Other(a) => s.(world := Apply(s.world, a))
  }

  ghost predicate IsHistory(states: seq<System>, moves: seq<Move>) {
    && |states| == |moves| + 1
    && forall i :: 0 <= i < |moves| ==> Allowed(states[i], moves[i]) && states[i + 1] == Next(states[i], moves[i])
  }

  predicate Flagged(s: System, id: string) {
    id in s.world.db.runs && s.world.db.runs[id].cancelRequested
  }

  // ---- the race -------------------------------------------------------------------------------

  /** The worker read the row in move i and has not gone on before move j. */
  ghost predicate ReadIn(moves: seq<Move>, i: nat, j: nat, worker: nat, id: string) {
    && i < j <= |moves| && moves[i] == Read(worker, id)
    && forall k :: i < k < j ==> moves[k] != GoOn(worker)
  }

  lemma {:induction false} StillReading(states: seq<System>, moves: seq<Move>, i: nat, j: nat, worker: nat, id: string)
    requires IsHistory(states, moves) && ReadIn(moves, i, j, worker, id)
    ensures worker in states[j].readers && states[j].readers[worker] == id
  {
    hide Apply;
    if i + 1 < j {
      StillReading(states, moves, i, j - 1, worker, id);
      assert Allowed(states[j - 1], moves[j - 1]);
    }
  }

  /** Whoever is about to claim has read the row. */
  lemma {:induction false} ReadBefore(states: seq<System>, moves: seq<Move>, j: nat, worker: nat) returns (i: nat)
    requires IsHistory(states, moves) && states[0].readers == map[] && j <= |moves|
    requires worker in states[j].readers
    ensures ReadIn(moves, i, j, worker, states[j].readers[worker])
  {
    hide Apply;
    assert states[j] == Next(states[j - 1], moves[j - 1]);
    if moves[j - 1] == Read(worker, states[j].readers[worker]) {
      i := j - 1;
    } else {
      i := ReadBefore(states, moves, j - 1, worker);
    }
  }

  /** The flag was set on the existing row in move k, and the row has not been deleted before move j. */
  ghost predicate FlagSet(states: seq<System>, moves: seq<Move>, k: nat, j: nat, id: string)
    requires |states| == |moves| + 1
  {
    && k < j <= |moves| && moves[k] == Other(CancelFlag(id)) && id in states[k].world.db.runs
    && forall l :: k < l < j ==> moves[l] != Other(Delete(id))
  }

  /** One move: a flag appears only when it is set, and goes only with its row. */
  lemma FlagMoves(s: System, m: Move, id: string)
    requires Allowed(s, m)
    ensures Flagged(Next(s, m), id)
            <==> || (m == Other(CancelFlag(id)) && id in s.world.db.runs)
                 || (Flagged(s, id) && m != Other(Delete(id)))
  {
    if m.Other? {
      ActionFlags(s.world, m.action, id);
    } else if m.GoOn? {
      ActionFlags(s.world, Claim(m.worker, s.readers[m.worker]), id);
    }
  }

  lemma ActionFlags(w: World, a: Action, id: string)
    requires Possible(w, a)
    ensures var after := Apply(w, a).db;
            id in after.runs && after.runs[id].cancelRequested
            <==> || (a == CancelFlag(id) && id in w.db.runs)
                 || (id in w.db.runs && w.db.runs[id].cancelRequested && a != Delete(id))
  {
    hide RunHolds, AnyRunHolds, PreflightHolds, AnyPreflightHolds, HasInflight, IsNextPending;
  }

  lemma {:induction false} FlaggedSince(states: seq<System>, moves: seq<Move>, i: nat, j: nat, id: string)
    requires IsHistory(states, moves) && i <= j <= |moves| && !Flagged(states[i], id)
    ensures Flagged(states[j], id) <==> exists k :: i <= k < j && FlagSet(states, moves, k, j, id)
  {
    hide Allowed, Next, Flagged;
    if i < j {
      var n := j - 1;
      var m := moves[n];
      assert Allowed(states[n], m) && states[j] == Next(states[n], m);
      FlaggedSince(states, moves, i, n, id);
      FlagMoves(states[n], m, id);
      if m == Other(CancelFlag(id)) && id in states[n].world.db.runs {
        assert FlagSet(states, moves, n, j, id);
      }
      if k :| i <= k < n && FlagSet(states, moves, k, n, id) {
        assert m != Other(Delete(id)) ==> FlagSet(states, moves, k, j, id);
      }
      if k :| i <= k < j && FlagSet(states, moves, k, j, id) {
        assert k < n ==> FlagSet(states, moves, k, n, id);
      }
    }
  }

  /** A cancelled run is started if and only if its flag was set after the runner read the row and before it
      claimed the device: the claim asks for neither the flag nor the status. */
  lemma FlaggedStartIff(states: seq<System>, moves: seq<Move>, j: nat)
    requires IsHistory(states, moves) && states[0].readers == map[] && j < |moves| && moves[j].GoOn?
    ensures moves[j].worker in states[j].readers
    ensures var worker := moves[j].worker;
            var id := states[j].readers[worker];
            var started := RunClaimable(states[j].world.db, id);
            && (started && Flagged(states[j], id)
                <==> started && exists i, k :: (ReadIn(moves, i, j, worker, id) && i < k
                                                && FlagSet(states, moves, k, j, id)))
            && (started ==> Drives(states[j + 1].world, worker, id) && RunHeld(states[j + 1].world.db, id))
            && (started && Flagged(states[j], id) ==> Flagged(states[j + 1], id))
  {
    var worker := moves[j].worker;
    assert Allowed(states[j], moves[j]) && states[j + 1] == Next(states[j], moves[j]);
    var id := states[j].readers[worker];
    var i := ReadBefore(states, moves, j, worker);
    assert Allowed(states[i], moves[i]) && states[i + 1] == Next(states[i], moves[i]);
    FlagMoves(states[i], moves[i], id);
    FlaggedSince(states, moves, i + 1, j, id);
    FlagMoves(states[j], moves[j], id);
    hide Allowed, Next, RunClaimable;
    if i', k :| ReadIn(moves, i', j, worker, id) && i' < k && FlagSet(states, moves, k, j, id) {
      FlagStays(states, moves, k, j, id);
    }
  }

  lemma {:induction false} FlagStays(states: seq<System>, moves: seq<Move>, k: nat, j: nat, id: string)
    requires IsHistory(states, moves) && FlagSet(states, moves, k, j, id)
    ensures Flagged(states[j], id)
  {
    hide Allowed, Next, Flagged;
    assert Allowed(states[j - 1], moves[j - 1]) && states[j] == Next(states[j - 1], moves[j - 1]);
    FlagMoves(states[j - 1], moves[j - 1], id);
    if k < j - 1 {
      FlagStays(states, moves, k, j - 1, id);
    }
  }

  /** The race happens: a waiting run on a free device is read, cancelled by its button, and started. */
  lemma CancelledRunStarts(s: System, id: string, worker: nat)
    requires id in s.world.db.runs && Waiting(s.world.db, s.world.db.runs[id].device, id)
    requires RunClaimable(s.world.db, id) && !Driven(s.world, id)
    requires worker !in s.readers && worker !in s.world.runners
    ensures var moves := [Read(worker, id), Other(CancelFlag(id)), Other(Close(id, Interrupted, None)), GoOn(worker)];
            var s1 := Next(s, moves[0]);
            var s2 := Next(s1, moves[1]);
            var s3 := Next(s2, moves[2]);
            var s4 := Next(s3, moves[3]);
            && Allowed(s, moves[0]) && Allowed(s1, moves[1]) && Allowed(s2, moves[2]) && Allowed(s3, moves[3])
            && s3.world.db.runs[id].status == Interrupted && Flagged(s3, id)
            && Disciplined(s2.world, moves[2].action) && Disciplined(s3.world, Claim(worker, id))
            && RunHeld(s4.world.db, id) && Flagged(s4, id) && Drives(s4.world, worker, id)
  {
    var r := s.world.db.runs[id];
    var s3 := Next(Next(Next(s, Read(worker, id)), Other(CancelFlag(id))), Other(Close(id, Interrupted, None)));
    assert s3.world.db.runs.Keys == s.world.db.runs.Keys;
    assert forall o :: o in s.world.db.runs && o != id ==> s3.world.db.runs[o] == s.world.db.runs[o];
    assert RunClaimable(s3.world.db, id);
  }

  // ---- two workers, one run -----------------------------------------------------------------------

  /** While a live run holds its device, a worker that goes on starts to drive the device as well if and only if
      what it had read, and not found flagged, is that very run: the claim keeps other runs away, not other
      workers. */
  lemma SecondDriverIff(states: seq<System>, moves: seq<Move>, j: nat, driver: nat, live: string)
    requires IsHistory(states, moves) && states[0].readers == map[] && j < |moves| && moves[j].GoOn?
    requires Drives(states[j].world, driver, live)
    requires RunHeld(states[j].world.db, live) && Exclusive(states[j].world.db)
    requires var s, worker := states[j], moves[j].worker;
             worker in s.readers && s.readers[worker] in s.world.db.runs
             && s.world.db.runs[s.readers[worker]].device == s.world.db.runs[live].device
    ensures var worker, after := moves[j].worker, states[j + 1].world;
            && (worker in after.runners <==> exists i :: ReadIn(moves, i, j, worker, live))
            && (worker in after.runners ==>
                  worker != driver && Drives(after, driver, live) && Drives(after, worker, live))
            && (forall i: nat :: ReadIn(moves, i, j, worker, live) ==> !Flagged(states[i], live))
  {
    var s, worker := states[j], moves[j].worker;
    assert Allowed(s, moves[j]) && states[j + 1] == Next(s, moves[j]);
    var id := s.readers[worker];
    HeldIsClaimable(s.world.db, live, id);
    var _ := ReadBefore(states, moves, j, worker);
    forall i: nat | ReadIn(moves, i, j, worker, live)
      ensures !Flagged(states[i], live) && id == live
    {
      assert Allowed(states[i], moves[i]);
      StillReading(states, moves, i, j, worker, live);
    }
    hide Allowed, RunClaimable, Exclusive, IsHistory;
  }

  // ---- executed more than once ---------------------------------------------------------------------

  /** Whether a claim succeeds does not depend on what became of the run before: not on its status, its flag,
      nor on when it started or ended. */
  lemma ClaimIgnoresThePast(db: Db, id: string, other: Run)
    requires id in db.runs && other.device == db.runs[id].device
    ensures RunClaimable(db.(runs := db.runs[id := other]), id) == RunClaimable(db, id)
  {
    var changed := db.(runs := db.runs[id := other]);
    var device := other.device;
    if RunHolds(db, device, id) {
      var o :| o in db.runs && o != id && db.runs[o].device == device && db.runs[o].status == Running;
      assert changed.runs[o] == db.runs[o];
    }
    if RunHolds(changed, device, id) {
      var o :| o in changed.runs && o != id && changed.runs[o].device == device && changed.runs[o].status == Running;
      assert changed.runs[o] == db.runs[o];
    }
  }

  /** A run that is over is executed once more by every further task whose read finds it unflagged, exactly when
      its device is free: no other run there seen within 120 seconds, no preflight under its ceiling. */
  lemma OverRunStartsAgainIff(db: Db, id: string)
    requires Sane(db) && id in db.runs && Terminal(db.runs[id].status)
    ensures RunHeld(ClaimRun(Swept(db), id), id)
            <==> (forall o :: !RunBlocks(db, id, o)) && (forall o :: !PreflightBlocks(db, id, o))
  {
    hide RunHolds, AnyPreflightHolds, RunBlocks, PreflightBlocks;
    ClaimSucceedsExactly(db, id);
  }

  /** And there is a further task as soon as the first has been in the queue for more than 90 seconds. */
  lemma HandedOutAgainIff(db: Db, device: string, id: string, later: real)
    requires Waiting(db, device, id) && later >= db.now
    ensures Candidate(MarkRunQueued(db, id).(now := later), device, id)
            <==> later - db.now > 90.0
  {}

  // ---- runs of the system that go wrong ------------------------------------------------------------------

  const FIRST := NewRun(1, "phone", None, "")
  const SECOND := NewRun(2, "phone", None, "")

  /** The tables with these two rows, and the live workers. */
  function Two(now: real, a: Run, b: Run, runners: map<nat, string>): World {
    World(Db(now, map["a" := a, "b" := b], map[], map[]), runners, map[])
  }

  lemma ClaimOfTwo(now: real, a: Run, b: Run, runners: map<nat, string>, worker: nat)
    requires a.device == b.device == "phone" && worker !in runners
    ensures Possible(Two(now, a, b, runners), Claim(worker, "a"))
    ensures Possible(Two(now, a, b, runners), Claim(worker, "b"))
    ensures b.status != Running ==> Apply(Two(now, a, b, runners), Claim(worker, "a"))
                                    == Two(now, ClaimedRun(a, now), b, runners[worker := "a"])
    ensures a.status != Running ==> Apply(Two(now, a, b, runners), Claim(worker, "b"))
                                    == Two(now, a, ClaimedRun(b, now), runners[worker := "b"])
  {
    var db := Two(now, a, b, runners).db;
    assert b.status != Running ==> !RunHolds(db, "phone", "a") && RunClaimable(db, "a");
    assert a.status != Running ==> !RunHolds(db, "phone", "b") && RunClaimable(db, "b");
  }

  lemma UpdatesOfTwo(now: real, a: Run, b: Run, runners: map<nat, string>, v: nat, status: Status)
    requires v in runners && runners[v] == "a"
    ensures Apply(Two(now, a, b, runners), Finish(v, status, None, None))
            == Two(now, UpdatedRun(a, now, status, None, None), b, runners - {v})
    ensures Apply(Two(now, a, b, runners), Heartbeat(v, 0.0))
            == Two(now, UpdatedRun(a, now, Running, Some(0.0), None), b, runners)
  {
    hide UpdatedRun;
    UpdateOfTwo(now, a, b, status, None);
    UpdateOfTwo(now, a, b, Running, Some(0.0));
    hide UpdateRun;
  }

  lemma UpdateOfTwo(now: real, a: Run, b: Run, status: Status, checkpoint: Option<real>)
    ensures UpdateRun(Two(now, a, b, map[]).db, "a", status, checkpoint, None)
            == Two(now, UpdatedRun(a, now, status, checkpoint, None), b, map[]).db
  {
    hide UpdatedRun;
    var after := UpdatedRun(a, now, status, checkpoint, None);
    assert map["a" := a, "b" := b]["a" := after] == map["a" := after, "b" := b];
  }

  lemma SweepOfTwo(now: real, a: Run, b: Run, runners: map<nat, string>, cutoff: real)
    requires RunStale(a, cutoff) && !RunStale(b, cutoff)
    ensures Apply(Two(now, a, b, runners), SweepRuns(cutoff))
            == Two(now, a.(status := Interrupted, finishedAt := Some(now), error := Some("abandoned")), b, runners)
  {
    hide RunStale;
    var after := a.(status := Interrupted, finishedAt := Some(now), error := Some("abandoned"));
    assert ReleaseRuns(Two(now, a, b, runners).db, cutoff).runs == map["a" := after, "b" := b];
  }

  const START := World(Db(0.0, map[], map[], map[]), map[], map[])
  const CLAIMED := ClaimedRun(FIRST, 0.0)
  const OVER := UpdatedRun(CLAIMED, 0.0, Interrupted, None, None)
  const RESUMED := ClaimedRun(OVER, 121.0)
  const RELEASED := RESUMED.(status := Interrupted, finishedAt := Some(121.0), error := Some("abandoned"))
  const BACK := UpdatedRun(RELEASED, 121.0, Running, Some(0.0), None)

  lemma TwoAdded()
    ensures var w := Apply(START, AddRun("a", FIRST));
            && Possible(START, AddRun("a", FIRST)) && Possible(w, AddRun("b", SECOND))
            && Apply(w, AddRun("b", SECOND)) == Two(0.0, FIRST, SECOND, map[])
    ensures Initial(START)
  {
    assert map["a" := FIRST]["b" := SECOND] == map["a" := FIRST, "b" := SECOND];
  }

  lemma Interrupts()
    ensures var w := Two(0.0, CLAIMED, SECOND, map[1 := "a"]);
            && Possible(Two(0.0, FIRST, SECOND, map[]), Claim(1, "a"))
            && Apply(Two(0.0, FIRST, SECOND, map[]), Claim(1, "a")) == w
            && Possible(w, Finish(1, Interrupted, None, None))
            && Apply(w, Finish(1, Interrupted, None, None)) == Two(0.0, OVER, SECOND, map[])
    ensures Possible(Two(0.0, OVER, SECOND, map[]), Tick(121.0))
    ensures Apply(Two(0.0, OVER, SECOND, map[]), Tick(121.0)) == Two(121.0, OVER, SECOND, map[])
  {
    ClaimOfTwo(0.0, FIRST, SECOND, map[], 1);
    UpdatesOfTwo(0.0, CLAIMED, SECOND, map[1 := "a"], 1, Interrupted);
    assert map[1 := "a"] - {1} == map[];
  }

  lemma Resumes()
    ensures var w := Two(121.0, RESUMED, SECOND, map[2 := "a"]);
            && Possible(Two(121.0, OVER, SECOND, map[]), Claim(2, "a"))
            && Apply(Two(121.0, OVER, SECOND, map[]), Claim(2, "a")) == w
            && Possible(w, SweepRuns(1.0)) && Apply(w, SweepRuns(1.0)) == Two(121.0, RELEASED, SECOND, map[2 := "a"])
  {
    ClaimOfTwo(121.0, OVER, SECOND, map[], 2);
    SweepOfTwo(121.0, RESUMED, SECOND, map[2 := "a"], 1.0);
  }

  lemma ComesBack()
    ensures var w := Two(121.0, RELEASED, ClaimedRun(SECOND, 121.0), map[2 := "a", 3 := "b"]);
            && Possible(Two(121.0, RELEASED, SECOND, map[2 := "a"]), Claim(3, "b"))
            && Apply(Two(121.0, RELEASED, SECOND, map[2 := "a"]), Claim(3, "b")) == w
            && Possible(w, Heartbeat(2, 0.0))
            && Apply(w, Heartbeat(2, 0.0)) == Two(121.0, BACK, ClaimedRun(SECOND, 121.0), map[2 := "a", 3 := "b"])
  {
    ClaimOfTwo(121.0, RELEASED, SECOND, map[2 := "a"], 3);
    assert map[2 := "a"][3 := "b"] == map[2 := "a", 3 := "b"];
    UpdatesOfTwo(121.0, RELEASED, ClaimedRun(SECOND, 121.0), map[2 := "a", 3 := "b"], 2, Interrupted);
  }

  lemma ResumeIsStale()
    ensures var db := Two(121.0, OVER, SECOND, map[]).db;
            Sane(db) && RunClaimable(db, "a") && !ClaimIsFresh(db, "a")
    ensures !Exclusive(Two(121.0, BACK, ClaimedRun(SECOND, 121.0), map[2 := "a", 3 := "b"]).db)
  {
    var db := Two(121.0, BACK, ClaimedRun(SECOND, 121.0), map[2 := "a", 3 := "b"]).db;
    assert RunHeld(db, "a") && RunHeld(db, "b");
  }

  /** From empty tables to two rows of one phone that both run: a run is interrupted, resumed two minutes later,
      released by the sweep of the next claim, and its heartbeat takes the device back. */
  lemma StaleResumeIsReachable() returns (worlds: seq<World>, actions: seq<Action>)
    ensures IsRun(worlds, actions) && Initial(worlds[0]) && |actions| == 9 && actions[5] == Claim(2, "a")
    ensures Sane(worlds[5].db) && RunClaimable(worlds[5].db, "a") && !ClaimIsFresh(worlds[5].db, "a")
    ensures !Exclusive(worlds[9].db)
  {
    hide Possible, Apply, Initial, Two, Sane, Exclusive, RunClaimable, ClaimIsFresh, ClaimedRun, UpdatedRun, NewRun;
    TwoAdded();
    Interrupts();
    Resumes();
    ComesBack();
    ResumeIsStale();
    worlds := [
      START, Apply(START, AddRun("a", FIRST)), Two(0.0, FIRST, SECOND, map[]),
      Two(0.0, CLAIMED, SECOND, map[1 := "a"]), Two(0.0, OVER, SECOND, map[]), Two(121.0, OVER, SECOND, map[]),
      Two(121.0, RESUMED, SECOND, map[2 := "a"]), Two(121.0, RELEASED, SECOND, map[2 := "a"]),
      Two(121.0, RELEASED, ClaimedRun(SECOND, 121.0), map[2 := "a", 3 := "b"]),
      Two(121.0, BACK, ClaimedRun(SECOND, 121.0), map[2 := "a", 3 := "b"])];
    actions := [
      AddRun("a", FIRST), AddRun("b", SECOND), Claim(1, "a"), Finish(1, Interrupted, None, None), Tick(121.0),
      Claim(2, "a"), SweepRuns(1.0), Claim(3, "b"), Heartbeat(2, 0.0)];
  }

  // ---- one run, executed twice -----------------------------------------------------------------------

  function Only(now: real, a: Run, runners: map<nat, string>): World {
    World(Db(now, map["a" := a], map[], map[]), runners, map[])
  }

  const QUEUED := FIRST.(queuedAt := Some(0.0))
  const REQUEUED := FIRST.(queuedAt := Some(91.0))
  const STARTED := ClaimedRun(REQUEUED, 91.0)
  const EXECUTED := UpdatedRun(STARTED, 91.0, Completed, None, None)

  lemma Dispatches()
    ensures Initial(START) && Possible(START, AddRun("a", FIRST))
    ensures Apply(START, AddRun("a", FIRST)) == Only(0.0, FIRST, map[])
    ensures Possible(Only(0.0, FIRST, map[]), Dispatch("phone", "a"))
    ensures Apply(Only(0.0, FIRST, map[]), Dispatch("phone", "a")) == Only(0.0, QUEUED, map[])
    ensures Possible(Only(0.0, QUEUED, map[]), Tick(91.0))
    ensures Apply(Only(0.0, QUEUED, map[]), Tick(91.0)) == Only(91.0, QUEUED, map[])
    ensures Possible(Only(91.0, QUEUED, map[]), Dispatch("phone", "a"))
    ensures Apply(Only(91.0, QUEUED, map[]), Dispatch("phone", "a")) == Only(91.0, REQUEUED, map[])
  {
    assert IsNextPending(Only(0.0, FIRST, map[]).db, "phone", "a");
    assert IsNextPending(Only(91.0, QUEUED, map[]).db, "phone", "a");
  }

  lemma Executes()
    ensures var w := Only(91.0, STARTED, map[1 := "a"]);
            && Possible(Only(91.0, REQUEUED, map[]), Claim(1, "a"))
            && Apply(Only(91.0, REQUEUED, map[]), Claim(1, "a")) == w
            && Possible(w, Finish(1, Completed, None, None))
            && Apply(w, Finish(1, Completed, None, None)) == Only(91.0, EXECUTED, map[])
    ensures Possible(Only(91.0, EXECUTED, map[]), Claim(2, "a"))
    ensures Apply(Only(91.0, EXECUTED, map[]), Claim(2, "a"))
            == Only(91.0, ClaimedRun(EXECUTED, 91.0), map[2 := "a"])
    ensures EXECUTED.status == Completed && RunHeld(Only(91.0, ClaimedRun(EXECUTED, 91.0), map[2 := "a"]).db, "a")
  {
    assert map[1 := "a"] - {1} == map[];
  }

  /** From empty tables: a run waits in the queue for more than 90 seconds, is handed out again, and both of its
      tasks execute it, the second one after it is completed. */
  lemma RunIsExecutedTwice() returns (worlds: seq<World>, actions: seq<Action>)
    ensures IsRun(worlds, actions) && Initial(worlds[0]) && |actions| == 7
    ensures actions[1] == actions[3] == Dispatch("phone", "a")
    ensures actions[4] == Claim(1, "a") && actions[6] == Claim(2, "a")
    ensures worlds[6].db == Only(91.0, EXECUTED, map[]).db && EXECUTED.status == Completed
    ensures RunHeld(worlds[7].db, "a") && worlds[7].runners == map[2 := "a"]
  {
    hide Possible, Apply, Initial, RunHeld, ClaimedRun, UpdatedRun, NewRun;
    Dispatches();
    Executes();
    worlds := [
      START, Only(0.0, FIRST, map[]), Only(0.0, QUEUED, map[]), Only(91.0, QUEUED, map[]),
      Only(91.0, REQUEUED, map[]), Only(91.0, STARTED, map[1 := "a"]), Only(91.0, EXECUTED, map[]),
      Only(91.0, ClaimedRun(EXECUTED, 91.0), map[2 := "a"])];
    actions := [
      AddRun("a", FIRST), Dispatch("phone", "a"), Tick(91.0), Dispatch("phone", "a"), Claim(1, "a"),
      Finish(1, Completed, None, None), Claim(2, "a")];
  }

  lemma Doubles()
    ensures Apply(Only(91.0, REQUEUED, map[]), Claim(1, "a")) == Only(91.0, STARTED, map[1 := "a"])
    ensures Apply(Only(91.0, STARTED, map[1 := "a"]), Claim(2, "a")) == Only(91.0, STARTED, map[1 := "a", 2 := "a"])
    ensures !REQUEUED.cancelRequested
  {
    assert ClaimedRun(STARTED, 91.0) == STARTED;
    assert map[1 := "a"][2 := "a"] == map[1 := "a", 2 := "a"];
  }

  /** And when both tasks read the row before either claims it, two workers drive the phone at once. */
  lemma TwoWorkersDriveOneRun() returns (states: seq<System>, moves: seq<Move>)
    ensures IsHistory(states, moves) && Initial(states[0].world) && states[0].readers == map[]
    ensures |moves| == 8 && moves[4..] == [Read(1, "a"), Read(2, "a"), GoOn(1), GoOn(2)]
    ensures states[8].world.runners == map[1 := "a", 2 := "a"]
  {
    hide Possible, Apply, Initial, ClaimedRun, NewRun;
    Dispatches();
    Doubles();
    var queued := Only(91.0, REQUEUED, map[]);
    states := [
      System(START, map[]), System(Only(0.0, FIRST, map[]), map[]), System(Only(0.0, QUEUED, map[]), map[]),
      System(Only(91.0, QUEUED, map[]), map[]), System(queued, map[]), System(queued, map[1 := "a"]),
      System(queued, map[1 := "a", 2 := "a"]), System(Only(91.0, STARTED, map[1 := "a"]), map[2 := "a"]),
      System(Only(91.0, STARTED, map[1 := "a", 2 := "a"]), map[])];
    moves := [
      Other(AddRun("a", FIRST)), Other(Dispatch("phone", "a")), Other(Tick(91.0)), Other(Dispatch("phone", "a")),
      Read(1, "a"), Read(2, "a"), GoOn(1), GoOn(2)];
    assert map[1 := "a"][2 := "a"] == map[1 := "a", 2 := "a"];
    assert map[1 := "a", 2 := "a"] - {1} == map[2 := "a"];
    assert map[2 := "a"] - {2} == map[];
  }
}

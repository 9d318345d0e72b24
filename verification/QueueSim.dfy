/** The demo's queue simulation: one worker, one run at a time. */
module QueueSim {
  const ENQUEUE_OVERHEAD: real := 6.0
  const RUN_TEARDOWN: real := 3.0

  /** What a beat of the timeline queues; beats that queue no run are not the worker's. */
  datatype Start = Nothing | Campaign | Run(duration: real, key: string)
  datatype Beat = Beat(at: real, start: Start)
  datatype Slot = Slot(began: real, ended: real)

  /** The runs the timeline queues, in its order. */
  function Runs(timeline: seq<Beat>): seq<Beat> {
    if timeline == [] then [] else
      var last := timeline[|timeline| - 1];
      Runs(timeline[..|timeline| - 1]) + if last.start.Run? then [last] else []
  }

  function Arrival(b: Beat): real {
    b.at + ENQUEUE_OVERHEAD
  }

  function Service(b: Beat): real {
    (if b.start.Run? then b.start.duration else 0.0) + RUN_TEARDOWN
  }

  /** The time the runs from j up to k keep the worker busy. */
  function Work(runs: seq<Beat>, j: nat, k: nat): real
    requires j <= k <= |runs|
  {
    if j == k then 0.0 else Work(runs, j, k - 1) + Service(runs[k - 1])
  }

  /** Run k is done as soon as the worker can be: for some run j up to k, the worker is busy from the arrival
      of j until then, and for no j is it done any earlier. */
  ghost predicate EndsOnTime(runs: seq<Beat>, k: nat, ended: real)
    requires k < |runs|
  {
    && (forall j :: 0 <= j <= k ==> ended >= Arrival(runs[j]) + Work(runs, j, k + 1))
    && (exists j :: 0 <= j <= k && ended == Arrival(runs[j]) + Work(runs, j, k + 1))
  }

  lemma {:induction false} WorkKept(runs: seq<Beat>, next: Beat, j: nat, k: nat)
    requires j <= k <= |runs|
    ensures Work(runs + [next], j, k) == Work(runs, j, k)
  {
    if j < k {
      WorkKept(runs, next, j, k - 1);
    }
  }

  lemma EarlierKept(runs: seq<Beat>, next: Beat, k: nat, ended: real)
    requires k < |runs| && EndsOnTime(runs, k, ended)
    ensures EndsOnTime(runs + [next], k, ended)
  {
    var j :| 0 <= j <= k && ended == Arrival(runs[j]) + Work(runs, j, k + 1);
    forall i | 0 <= i <= k
      ensures Arrival((runs + [next])[i]) + Work(runs + [next], i, k + 1) == Arrival(runs[i]) + Work(runs, i, k + 1)
    {
      WorkKept(runs, next, i, k + 1);
    }
    assert ended == Arrival((runs + [next])[j]) + Work(runs + [next], j, k + 1);
  }

  lemma NextEnds(runs: seq<Beat>, next: Beat, freeAt: real)
    requires if runs == [] then freeAt == 0.0 && Arrival(next) >= 0.0 else EndsOnTime(runs, |runs| - 1, freeAt)
    ensures EndsOnTime(runs + [next], |runs|,
            (if Arrival(next) > freeAt then Arrival(next) else freeAt) + Service(next))
  {
    var n, all := |runs|, runs + [next];
    forall j | 0 <= j <= n
      ensures Work(all, j, n + 1) == Service(next) + if j == n then 0.0 else Work(runs, j, n)
    {
      if j < n {
        WorkKept(runs, next, j, n);
      }
    }
    assert Arrival(all[n]) + Work(all, n, n + 1) == Arrival(next) + Service(next);
    if runs != [] {
      assert forall j :: 0 <= j < n ==> all[j] == runs[j];
      var j :| 0 <= j <= n - 1 && freeAt == Arrival(runs[j]) + Work(runs, j, n);
      assert Arrival(all[j]) + Work(all, j, n + 1) == freeAt + Service(next);
    }
  }

  predicate Named(b: Beat, key: string) {
    b.start.Run? && b.start.key == key
  }

  /** The schedule has the slot of the last run of every key. */
  ghost predicate Answers(schedule: map<string, Slot>, runs: seq<Beat>, slots: seq<Slot>)
  {
    && |runs| == |slots|
    && (forall k :: 0 <= k < |runs| && runs[k].start.Run? && runs[k].start.key != "" ==> runs[k].start.key in schedule)
    && forall key :: key in schedule ==>
         key != "" && exists k :: 0 <= k < |runs| && LastNamed(runs, k, key) && schedule[key] == slots[k]
  }

  ghost predicate LastNamed(runs: seq<Beat>, k: nat, key: string)
    requires k < |runs|
  {
    Named(runs[k], key) && forall l :: k < l < |runs| ==> !Named(runs[l], key)
  }

  lemma AnswersNext(schedule: map<string, Slot>, runs: seq<Beat>, slots: seq<Slot>, next: Beat, slot: Slot)
    requires |runs| == |slots| && Answers(schedule, runs, slots) && next.start.Run?
    ensures Answers(if next.start.key == "" then schedule else schedule[next.start.key := slot],
                    runs + [next], slots + [slot])
  {
    var key', n := next.start.key, |runs|;
    var after := if key' == "" then schedule else schedule[key' := slot];
    assert forall k :: 0 <= k < n ==> (runs + [next])[k] == runs[k];
    assert (runs + [next])[n] == next;
    forall key | key in after
      ensures key != "" && exists k :: 0 <= k < n + 1 && LastNamed(runs + [next], k, key)
                                    && after[key] == (slots + [slot])[k]
    {
      if key' != "" && key == key' {
        assert LastNamed(runs + [next], n, key);
      } else {
        var k :| 0 <= k < n && LastNamed(runs, k, key) && schedule[key] == slots[k];
        assert (slots + [slot])[k] == slots[k] && LastNamed(runs + [next], k, key);
      }
    }
  }

  /** Starts never overlap, and every run ends as soon as one worker allows. */
  ghost predicate OneAtATime(runs: seq<Beat>, slots: seq<Slot>) {
    && |slots| == |runs|
    && (forall k :: 0 <= k < |slots| ==>
          EndsOnTime(runs, k, slots[k].ended) && slots[k].ended == slots[k].began + Service(runs[k]))
    && (forall k :: 0 < k < |slots| ==> slots[k - 1].ended <= slots[k].began)
  }

  function FreeAt(slots: seq<Slot>): real {
    if slots == [] then 0.0 else slots[|slots| - 1].ended
  }

  /** The slot of a run that finds the worker free from `freeAt`. */
  function SlotAfter(freeAt: real, next: Beat): Slot {
    var began := if Arrival(next) > freeAt then Arrival(next) else freeAt;
    Slot(began, began + Service(next))
  }

  lemma SlotNext(runs: seq<Beat>, slots: seq<Slot>, next: Beat)
    requires OneAtATime(runs, slots) && Arrival(next) >= 0.0
    ensures OneAtATime(runs + [next], slots + [SlotAfter(FreeAt(slots), next)])
  {
    hide EndsOnTime, Service;
    var slot := SlotAfter(FreeAt(slots), next);
    forall k | 0 <= k < |slots|
      ensures EndsOnTime(runs + [next], k, slots[k].ended)
    {
      EarlierKept(runs, next, k, slots[k].ended);
    }
    NextEnds(runs, next, FreeAt(slots));
    assert forall k :: 0 <= k < |slots| ==> (slots + [slot])[k] == slots[k] && (runs + [next])[k] == runs[k];
  }

  /** A run begins six seconds after its beat, or when the run before it ends if that is later, and has the worker
      for its duration and three seconds. */
  lemma SlotsAre(runs: seq<Beat>, slots: seq<Slot>, k: nat)
    requires OneAtATime(runs, slots) && k < |runs| && runs[k].start.Run?
    ensures slots[k].ended == slots[k].began + runs[k].start.duration + 3.0
    ensures slots[k].began
            == if k > 0 && slots[k - 1].ended > runs[k].at + 6.0 then slots[k - 1].ended else runs[k].at + 6.0
  {
    var j :| 0 <= j <= k && slots[k].ended == Arrival(runs[j]) + Work(runs, j, k + 1);
    assert Work(runs, j, k + 1) == Work(runs, j, k) + Service(runs[k]);
    assert slots[k].ended >= Arrival(runs[k]) + Work(runs, k, k + 1);
    assert Work(runs, k, k + 1) == Work(runs, k, k) + Service(runs[k]);
    if j < k {
      assert slots[k - 1].ended >= Arrival(runs[j]) + Work(runs, j, k);
    }
  }

  lemma RunsNext(timeline: seq<Beat>, b: nat)
    requires b < |timeline|
    ensures Runs(timeline[..b + 1]) == Runs(timeline[..b]) + if timeline[b].start.Run? then [timeline[b]] else []
    ensures Runs(timeline[..b]) + [] == Runs(timeline[..b]) && Runs(timeline[..0]) == []
  {
    assert timeline[..b + 1][..b] == timeline[..b];
  }

  method SimulateQueue(timeline: seq<Beat>) returns (schedule: map<string, Slot>, slots: seq<Slot>)
    requires forall b :: 0 <= b < |timeline| && timeline[b].start.Run? ==> Arrival(timeline[b]) >= 0.0
    ensures OneAtATime(Runs(timeline), slots) && Answers(schedule, Runs(timeline), slots)
  {
    hide EndsOnTime, Answers, Runs, OneAtATime, Arrival;
    schedule, slots := map[], [];
    var freeAt := 0.0;
    NothingAnswered(timeline);
    for b := 0 to |timeline|
      invariant freeAt == FreeAt(slots) && |slots| == |Runs(timeline[..b])|
      invariant OneAtATime(Runs(timeline[..b]), slots) && Answers(schedule, Runs(timeline[..b]), slots)
    {
      var beat := timeline[b];
      RunsNext(timeline, b);
      if beat.start.Run? {
        var began := if Arrival(beat) > freeAt then Arrival(beat) else freeAt;
        var ended := began + beat.start.duration + RUN_TEARDOWN;
        SlotNext(Runs(timeline[..b]), slots, beat);
        AnswersNext(schedule, Runs(timeline[..b]), slots, beat, Slot(began, ended));
        freeAt := ended;
        slots := slots + [Slot(began, ended)];
        if beat.start.key != "" {
          schedule := schedule[beat.start.key := Slot(began, ended)];
        }
      }
    }
    assert timeline[..|timeline|] == timeline;
  }

  lemma NothingAnswered(timeline: seq<Beat>)
    ensures Runs(timeline[..0]) == [] && OneAtATime([], []) && Answers(map[], [], [])
  {}
}

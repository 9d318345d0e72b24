/** The batch writer: a bounded queue, one writer thread, one commit per batch. */
module BatchWriting {
  datatype Item = Sample(name: string, value: real) | Event(kind: string, message: string)
  datatype Slot = Entry(item: Item) | Stop

  /** Where the writer thread is: about to take from the queue, about to decide whether to
      write, or finished. */
  datatype Phase = Taking | Deciding | Done | Broken

  datatype PutResult = Accepted | WriterFailed | QueueFull

  /** `accepted` and `committed` record what was ever put and what was ever committed;
      `late` counts what was put after the first close. */
  datatype State = State(
    queue: seq<Slot>, pending: seq<Item>, samples: seq<Item>, events: seq<Item>, stopping: bool, phase: Phase,
    accepted: seq<Item>, committed: seq<Item>, closed: bool, late: nat)

  datatype Config = Config(batchSize: int, queueSize: int)

  /** A queue of size zero or less is not bounded. */
  predicate HasRoom(c: Config, slots: nat) {
    c.queueSize <= 0 || slots < c.queueSize
  }

  predicate Fits(c: Config, slots: nat) {
    c.queueSize > 0 ==> slots <= c.queueSize
  }

  datatype Action = Put(item: Item) | Close | Take(timedOut: bool) | Decide(fails: bool)

  function Items(queue: seq<Slot>): seq<Item> {
    if queue == [] then [] else (if queue[0].Entry? then [queue[0].item] else []) + Items(queue[1..])
  }

  datatype Table = MetricSamples | TestEvents

  function TableOf(item: Item): Table {
    if item.Sample? then MetricSamples else TestEvents
  }

  /** The items a table receives, in order. */
  function Rows(items: seq<Item>, table: Table): seq<Item> {
    if items == [] then []
    else (if TableOf(items[0]) == table then [items[0]] else []) + Rows(items[1..], table)
  }

  function Initial(): State {
    State([], [], [], [], false, Taking, [], [], false, 0)
  }

  function PutOutcome(c: Config, s: State): PutResult {
    if s.phase == Broken then WriterFailed else if HasRoom(c, |s.queue|) then Accepted else QueueFull
  }

  predicate WritesNow(c: Config, s: State) {
    s.pending != [] && (s.stopping || |s.pending| >= c.batchSize || s.queue == [])
  }

  /** What each action of the producer and of the writer thread does. */
  function Apply(c: Config, s: State, a: Action): State {
    match a
    case Put(item) =>
      if PutOutcome(c, s) != Accepted then s
      else s.(queue := s.queue + [Entry(item)], accepted := s.accepted + [item],
              late := if s.closed then s.late + 1 else s.late)
    case Close =>
      if HasRoom(c, |s.queue|) then s.(queue := s.queue + [Stop], closed := true) else s
    case Take(timedOut) =>
      if s.phase != Taking then s
      else if timedOut || s.queue == [] then s.(phase := Deciding)
      else if s.queue[0].Stop? then s.(queue := s.queue[1..], stopping := true, phase := Deciding)
      else s.(queue := s.queue[1..], pending := s.pending + [s.queue[0].item], phase := Deciding)
    case Decide(fails) =>
      if s.phase != Deciding then s
      else
        var next := if s.stopping then Done else Taking;
        if !WritesNow(c, s) then s.(phase := next)
        else if fails then s.(phase := Broken)
        else s.(samples := s.samples + Rows(s.pending, MetricSamples), events := s.events + Rows(s.pending, TestEvents),
                committed := s.committed + s.pending, pending := [], phase := next)
  }

  class BatchWriter {
    const config: Config
    var queue: seq<Slot>
    var pending: seq<Item>
    var samples: seq<Item>
    var events: seq<Item>
    var stopping: bool
    var phase: Phase
    ghost var accepted: seq<Item>
    ghost var committed: seq<Item>
    ghost var closed: bool
    ghost var late: nat

    ghost function View(): State
      reads this
    {
      State(queue, pending, samples, events, stopping, phase, accepted, committed, closed, late)
    }

    constructor (config: Config)
      ensures View() == Initial() && this.config == config
    {
      this.config := config;
      queue, pending, samples, events, stopping, phase := [], [], [], [], false, Taking;
      accepted, committed, closed, late := [], [], false, 0;
    }

    method Put(item: Item) returns (result: PutResult)
      modifies this
      ensures result == PutOutcome(config, old(View()))
      ensures View() == Apply(config, old(View()), Action.Put(item))
      ensures match result
              case WriterFailed => old(phase) == Broken && View() == old(View())
              case QueueFull => old(phase) != Broken && 0 < config.queueSize <= |queue| && View() == old(View())
              case Accepted => old(phase) != Broken && (config.queueSize > 0 ==> |old(queue)| < config.queueSize)
                               && queue == old(queue) + [Entry(item)] && accepted == old(accepted) + [item]
    {
      if phase == Broken {
        return WriterFailed;
      }
      if !HasRoom(config, |queue|) {
        return QueueFull;
      }
      queue := queue + [Entry(item)];
      accepted := accepted + [item];
      late := if closed then late + 1 else late;
      return Accepted;
    }

    method Close() returns (asked: bool)
      modifies this
      ensures asked <==> config.queueSize <= 0 || |old(queue)| < config.queueSize
      ensures queue == if asked then old(queue) + [Stop] else old(queue)
      ensures View() == Apply(config, old(View()), Action.Close)
    {
      asked := HasRoom(config, |queue|);
      if asked {
        queue := queue + [Stop];
        closed := true;
      }
    }

    /** One pass of the writer thread up to its decision. */
    method Take(timedOut: bool)
      requires phase == Taking
      modifies this
      ensures View() == Apply(config, old(View()), Action.Take(timedOut))
      ensures phase == Deciding
      ensures timedOut || old(queue) == [] ==>
                queue == old(queue) && pending == old(pending) && stopping == old(stopping)
      ensures !timedOut && old(queue) != [] ==>
                && queue == old(queue)[1..] && stopping == (old(stopping) || old(queue)[0] == Stop)
                && pending == old(pending) + if old(queue)[0].Entry? then [old(queue)[0].item] else []
    {
      if !timedOut && queue != [] {
        var slot := queue[0];
        queue := queue[1..];
        match slot {
          case Stop => stopping := true;
          case Entry(item) => pending := pending + [item];
        }
      }
      phase := Deciding;
    }

    /** The inserts of one transaction, each into the table of its kind. */
    static method Insert(batch: seq<Item>, samples: seq<Item>, events: seq<Item>)
      returns (newSamples: seq<Item>, newEvents: seq<Item>)
      ensures newSamples == samples + Rows(batch, MetricSamples) && newEvents == events + Rows(batch, TestEvents)
    {
      newSamples, newEvents := samples, events;
      for i := 0 to |batch|
        invariant newSamples == samples + Rows(batch[..i], MetricSamples)
        invariant newEvents == events + Rows(batch[..i], TestEvents)
      {
        assert batch[..i + 1] == batch[..i] + [batch[i]];
        SplitByTable(batch[..i], [batch[i]]);
        if batch[i].Sample? {
          newSamples := newSamples + [batch[i]];
        } else {
          newEvents := newEvents + [batch[i]];
        }
      }
      assert batch[..|batch|] == batch;
    }

    /** The rest of the pass: the inserts of one transaction, then its commit. A failing
        transaction leaves both tables as they were. */
    method Decide(fails: bool)
      requires phase == Deciding
      modifies this
      ensures View() == Apply(config, old(View()), Action.Decide(fails))
      ensures var due := old(pending) != []
                         && (old(stopping) || |old(pending)| >= config.batchSize || old(queue) == []);
              && (due && !fails ==> committed == old(committed) + old(pending) && pending == [])
              && (!due || fails ==> samples == old(samples) && events == old(events) && pending == old(pending))
              && (phase == Broken <==> due && fails)
              && (phase == Done <==> old(stopping) && !(due && fails))
    {
      hide Rows;
      if pending != [] && (stopping || |pending| >= config.batchSize || queue == []) {
        var newSamples, newEvents := Insert(pending, samples, events);
        if fails {
          phase := Broken;
          return;
        }
        samples, events := newSamples, newEvents;
        committed := committed + pending;
        pending := [];
      }
      phase := if stopping then Done else Taking;
    }
  }

  // ---- invariants ---------------------------------------------------------------------

  lemma {:induction false} RowsConcat(a: seq<Item>, b: seq<Item>, table: Table)
    ensures Rows(a + b, table) == Rows(a, table) + Rows(b, table)
  {
    hide TableOf;
    if a == [] {
      assert a + b == b;
    } else {
      RowsConcat(a[1..], b, table);
      assert (a + b)[1..] == a[1..] + b;
      var head := if TableOf(a[0]) == table then [a[0]] else [];
      assert head + (Rows(a[1..], table) + Rows(b, table)) == head + Rows(a[1..], table) + Rows(b, table);
    }
  }

  lemma SplitByTable(a: seq<Item>, b: seq<Item>)
    ensures Rows(a + b, MetricSamples) == Rows(a, MetricSamples) + Rows(b, MetricSamples)
    ensures Rows(a + b, TestEvents) == Rows(a, TestEvents) + Rows(b, TestEvents)
  {
    RowsConcat(a, b, MetricSamples);
    RowsConcat(a, b, TestEvents);
  }

  /** The samples go to one table and the events to the other, all of them and in order. */
  lemma {:induction false} RowsAreOfTheirKind(items: seq<Item>)
    ensures forall e :: e in Rows(items, MetricSamples) <==> e in items && e.Sample?
    ensures forall e :: e in Rows(items, TestEvents) <==> e in items && e.Event?
    ensures multiset(Rows(items, MetricSamples)) + multiset(Rows(items, TestEvents)) == multiset(items)
  {
    if items != [] {
      RowsAreOfTheirKind(items[1..]);
      assert items == [items[0]] + items[1..];
    }
  }

  lemma FirstItems(slot: Slot, rest: seq<Slot>)
    ensures Items([slot] + rest) == (if slot.Entry? then [slot.item] else []) + Items(rest)
  {
    assert ([slot] + rest)[1..] == rest;
  }

  lemma RegroupItems(a: seq<Item>, b: seq<Item>, c: seq<Item>)
    ensures (a + b) + c == a + (b + c)
  {}

  lemma {:induction false} ItemsConcat(a: seq<Slot>, b: seq<Slot>)
    ensures Items(a + b) == Items(a) + Items(b)
  {
    if a == [] {
      assert a + b == b;
    } else {
      hide Items;
      var first := if a[0].Entry? then [a[0].item] else [];
      ItemsConcat(a[1..], b);
      FirstItems(a[0], a[1..]);
      FirstItems(a[0], a[1..] + b);
      assert [a[0]] + a[1..] == a && [a[0]] + (a[1..] + b) == a + b;
      RegroupItems(first, Items(a[1..]), Items(b));
    }
  }

  /** What still lies behind the first stop in the queue. */
  function BehindStop(queue: seq<Slot>): seq<Item> {
    if queue == [] then [] else if queue[0].Stop? then Items(queue[1..]) else BehindStop(queue[1..])
  }

  lemma {:induction false} BehindStopAppend(queue: seq<Slot>, last: Slot)
    ensures Stop in queue ==> BehindStop(queue + [last]) == BehindStop(queue) + Items([last])
    ensures Stop !in queue ==> BehindStop(queue + [last]) == []
  {
    if queue != [] {
      assert (queue + [last])[1..] == queue[1..] + [last];
      if queue[0].Stop? {
        ItemsConcat(queue[1..], [last]);
      } else {
        BehindStopAppend(queue[1..], last);
        assert Stop in queue <==> Stop in queue[1..];
      }
    }
  }

  function Batch(c: Config): nat {
    if c.batchSize < 1 then 1 else c.batchSize
  }

  /** Nothing is lost, doubled or reordered between the queue, the batch and the tables. */
  ghost predicate Conserved(s: State) {
    && s.committed + s.pending + Items(s.queue) == s.accepted
    && s.samples == Rows(s.committed, MetricSamples) && s.events == Rows(s.committed, TestEvents)
  }

  ghost predicate Bounded(c: Config, s: State) {
    && Fits(c, |s.queue|)
    && |s.pending| <= Batch(c)
    && (s.phase == Taking ==> |s.pending| < Batch(c) && !s.stopping)
    && (s.phase == Done ==> s.pending == [] && s.stopping)
  }

  ghost predicate StopInOrder(s: State) {
    if s.stopping then s.closed && s.late == |Items(s.queue)|
    else if Stop in s.queue then s.closed && s.late == |BehindStop(s.queue)|
    else !s.closed && s.late == 0
  }

  lemma ConservedStep(c: Config, s: State, a: Action)
    requires Conserved(s)
    ensures Conserved(Apply(c, s, a))
  {
    hide Rows;
    match a
    case Put(item) =>
      ItemsConcat(s.queue, [Entry(item)]);
      assert Items([Entry(item)]) == [item];
      assert s.committed + s.pending + (Items(s.queue) + [item]) == s.committed + s.pending + Items(s.queue) + [item];
    case Close =>
      ItemsConcat(s.queue, [Stop]);
      assert Items([Stop]) == [];
    case Take(_) =>
      if s.queue != [] && s.queue[0].Entry? {
        var item := s.queue[0].item;
        assert Items(s.queue) == [item] + Items(s.queue[1..]);
        assert s.committed + s.pending + ([item] + Items(s.queue[1..]))
            == s.committed + (s.pending + [item]) + Items(s.queue[1..]);
      }
    case Decide(_) =>
      SplitByTable(s.committed, s.pending);
      assert s.committed + s.pending + [] + Items(s.queue) == s.committed + s.pending + Items(s.queue);
  }

  lemma BoundedStep(c: Config, s: State, a: Action)
    requires Bounded(c, s)
    ensures Bounded(c, Apply(c, s, a))
  {}

  lemma StopInOrderStep(c: Config, s: State, a: Action)
    requires StopInOrder(s)
    requires s.phase == Taking ==> !s.stopping
    ensures StopInOrder(Apply(c, s, a))
  {
    match a
    case Put(item) =>
      ItemsConcat(s.queue, [Entry(item)]);
      BehindStopAppend(s.queue, Entry(item));
      assert Items([Entry(item)]) == [item];
    case Close =>
      ItemsConcat(s.queue, [Stop]);
      BehindStopAppend(s.queue, Stop);
      assert Items([Stop]) == [] && Stop in s.queue + [Stop];
    case Take(_) =>
      if s.queue != [] {
        assert s.queue == [s.queue[0]] + s.queue[1..];
      }
    case Decide(_) =>
  }

  /** The state after any interleaving of producer and writer actions. */
  function Run(c: Config, actions: seq<Action>): State {
    if actions == [] then Initial()
    else Apply(c, Run(c, actions[..|actions| - 1]), actions[|actions| - 1])
  }

  lemma {:induction false} InvariantsHold(c: Config, actions: seq<Action>)
    ensures var s := Run(c, actions); Conserved(s) && Bounded(c, s) && StopInOrder(s)
  {
    hide Apply;
    if actions != [] {
      hide Conserved, Bounded, StopInOrder;
      var before, last := actions[..|actions| - 1], actions[|actions| - 1];
      InvariantsHold(c, before);
      ConservedStep(c, Run(c, before), last);
      BoundedStep(c, Run(c, before), last);
      TakingIsNotStopping(c, Run(c, before));
      StopInOrderStep(c, Run(c, before), last);
    }
  }

  lemma TakingIsNotStopping(c: Config, s: State)
    requires Bounded(c, s)
    ensures s.phase == Taking ==> !s.stopping
  {}

  /** At every moment, failures included, each table holds its share of a prefix of what
      was put: in order, nothing twice, and the batch in hand never outgrows its size. */
  lemma TablesHoldAPrefix(c: Config, actions: seq<Action>)
    ensures var s := Run(c, actions);
            && s.committed + s.pending + Items(s.queue) == s.accepted
            && s.committed <= s.accepted
            && s.samples == Rows(s.committed, MetricSamples) && s.events == Rows(s.committed, TestEvents)
            && (forall e :: e in s.samples <==> e in s.committed && e.Sample?)
            && (forall e :: e in s.events <==> e in s.committed && e.Event?)
            && multiset(s.samples) + multiset(s.events) == multiset(s.committed)
            && |s.pending| <= (if c.batchSize < 1 then 1 else c.batchSize)
            && (c.queueSize > 0 ==> |s.queue| <= c.queueSize)
  {
    hide Run, Items, Rows;
    InvariantsHold(c, actions);
    var s := Run(c, actions);
    assert s.committed + s.pending + Items(s.queue) == s.committed + (s.pending + Items(s.queue));
    RowsAreOfTheirKind(s.committed);
  }

  /** Once the writer is done, everything put before the first close is in its table, once
      and in order, and exactly what was put after it is not; so with close as the last
      call everything is. */
  lemma ExactlyOnceFifo(c: Config, actions: seq<Action>)
    requires Run(c, actions).phase == Done
    ensures var s := Run(c, actions);
            var kept := |s.accepted| - s.late;
            && 0 <= kept && s.committed == s.accepted[..kept]
            && s.samples == Rows(s.accepted[..kept], MetricSamples) && s.events == Rows(s.accepted[..kept], TestEvents)
            && (s.late == 0 ==>
                  s.samples == Rows(s.accepted, MetricSamples) && s.events == Rows(s.accepted, TestEvents))
  {
    hide Run, Items, Rows;
    InvariantsHold(c, actions);
    var s := Run(c, actions);
    assert s.committed + [] + Items(s.queue) == s.committed + Items(s.queue);
    assert s.late == 0 ==> s.accepted[..|s.accepted|] == s.accepted;
  }

  /** An idle writer keeps nothing back: with the queue empty, one pass writes the batch. */
  lemma IdleWriterFlushes(c: Config, s: State)
    requires s.phase == Taking && s.queue == []
    ensures var after := Apply(c, Apply(c, s, Take(true)), Decide(false));
            after.pending == [] && after.committed == s.committed + s.pending
  {}

  // ---- close returns --------------------------------------------------------------------

  /** The slots up to the first stop. */
  function ToStop(queue: seq<Slot>): nat {
    if queue == [] then 0 else if queue[0].Stop? then 1 else 1 + ToStop(queue[1..])
  }

  /** The writer has been asked to stop and has not failed. */
  predicate Closing(s: State) {
    s.phase == Done || (s.phase != Broken && (s.stopping || Stop in s.queue))
  }

  /** How many steps the writer thread has before it is done. */
  function StepsLeft(s: State): nat {
    if s.phase == Done then 0 else if s.stopping then 1
    else 2 * ToStop(s.queue) + if s.phase == Deciding then 1 else 0
  }

  /** The writer thread takes its next step; the get only times out on an empty queue, and no commit fails. */
  predicate Works(s: State, a: Action) {
    (s.phase == Taking && a == Take(false)) || (s.phase == Deciding && a == Decide(false))
  }

  lemma {:induction false} ToStopAppend(queue: seq<Slot>, last: Slot)
    requires Stop in queue
    ensures 1 <= ToStop(queue) <= |queue| && ToStop(queue + [last]) == ToStop(queue)
  {
    assert (queue + [last])[1..] == queue[1..] + [last];
    if queue[0].Entry? {
      assert queue == [queue[0]] + queue[1..];
      ToStopAppend(queue[1..], last);
    }
  }

  lemma StepCloser(c: Config, s: State, a: Action)
    requires Bounded(c, s) && Closing(s) && a != Take(true) && a != Decide(true)
    ensures Closing(Apply(c, s, a))
    ensures StepsLeft(Apply(c, s, a)) == StepsLeft(s) - if Works(s, a) then 1 else 0
    ensures StepsLeft(s) == 0 <==> s.phase == Done
  {
    if Stop in s.queue {
      ToStopAppend(s.queue, Stop);
      assert s.queue == [s.queue[0]] + s.queue[1..];
      if a.Put? {
        ToStopAppend(s.queue, Entry(a.item));
      }
    }
  }

  function RunFrom(c: Config, s: State, actions: seq<Action>): State {
    if actions == [] then s else Apply(c, RunFrom(c, s, actions[..|actions| - 1]), actions[|actions| - 1])
  }

  /** How many steps of the writer thread are among the actions. */
  function Worked(c: Config, s: State, actions: seq<Action>): nat {
    if actions == [] then 0 else
      var n := |actions| - 1;
      Worked(c, s, actions[..n]) + if Works(RunFrom(c, s, actions[..n]), actions[n]) then 1 else 0
  }

  lemma {:induction false} EveryStepCounts(c: Config, s: State, actions: seq<Action>)
    requires Bounded(c, s) && Closing(s) && Take(true) !in actions && Decide(true) !in actions
    ensures var r := RunFrom(c, s, actions);
            Bounded(c, r) && Closing(r) && StepsLeft(r) == StepsLeft(s) - Worked(c, s, actions)
  {
    if actions != [] {
      hide Apply, Bounded, Closing, StepsLeft, Works;
      var n := |actions| - 1;
      assert actions == actions[..n] + [actions[n]];
      EveryStepCounts(c, s, actions[..n]);
      StepCloser(c, RunFrom(c, s, actions[..n]), actions[n]);
      BoundedStep(c, RunFrom(c, s, actions[..n]), actions[n]);
    }
  }

  /** Once close has put its stop, and unless a commit fails, the writer thread is done after a fixed number of
      its own steps, at most two for every slot that is taken and one more, whatever is put meanwhile; and until
      then it always has a step to take. So close returns. */
  lemma CloseReturns(c: Config, before: seq<Action>, actions: seq<Action>)
    requires Run(c, before).closed && Run(c, before).phase != Broken
    requires Take(true) !in actions && Decide(true) !in actions
    ensures var s := Run(c, before);
            var r := RunFrom(c, s, actions);
            && StepsLeft(s) <= 2 * |s.queue| + 1 && (c.queueSize > 0 ==> |s.queue| <= c.queueSize)
            && (r.phase == Done <==> Worked(c, s, actions) == StepsLeft(s))
            && (r.phase != Done ==> (r.phase == Taking && r.queue != []) || r.phase == Deciding)
  {
    hide Apply, Run, Worked, RunFrom;
    InvariantsHold(c, before);
    var s := Run(c, before);
    if Stop in s.queue {
      ToStopAppend(s.queue, Stop);
    }
    EveryStepCounts(c, s, actions);
    StepCloser(c, RunFrom(c, s, actions), Close);
  }
}

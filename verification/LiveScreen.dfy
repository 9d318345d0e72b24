/** The live-screen server's H.264 loop: reads, quiet periods, the preamble cut, and what
    goes to the browser and to the recorder. */
module LiveScreen {
  import opened Wrappers
  import opened ScreenStream
  import opened Framing
  import opened AccessUnits

  /** One turn of the loop: a read from the pipe (empty at its end), or a second of silence. */
  datatype Event = Read(chunk: Bytes) | Quiet

  /** What precedes the first start code of the first chunk is dropped; a chunk without one is kept whole. */
  function CutPreamble(chunk: Bytes): Bytes {
    match Find(chunk, 0)
    case None => chunk
    case Some(at) => if at > 0 && chunk[at - 1] == 0 then chunk[at - 1..] else chunk[at..]
  }

  function Message(unit: AccessUnit): Bytes {
    [if unit.isKey then 1 else 0] + unit.framed
  }

  function Messages(units: seq<AccessUnit>): seq<Bytes> {
    seq(|units|, k requires 0 <= k < |units| => Message(units[k]))
  }

  /** The NALs a sequence of events yields from a splitter holding `buffer`. */
  function StreamNals(buffer: Bytes, checked: bool, events: seq<Event>): Parse
    decreases |events|
  {
    if events == [] || events[0] == Read([]) then Parse([], buffer) else
      match events[0]
      case Read(c) =>
        var step := Split(buffer + if checked then c else CutPreamble(c));
        Then(step.nals, StreamNals(step.rest, true, events[1..]))
      case Quiet =>
        Then(FlushNals(buffer), StreamNals(FlushRest(buffer), checked, events[1..]))
  }

  /** The bytes the pipe delivers before it ends. */
  function Delivered(events: seq<Event>): Bytes {
    if events == [] || events[0] == Read([]) then [] else
      match events[0]
      case Read(c) => c + Delivered(events[1..])
      case Quiet => Delivered(events[1..])
  }

  /** What the recorder is teed: the delivered bytes, with the first chunk cut. */
  function Teed(checked: bool, events: seq<Event>): Bytes
    decreases |events|
  {
    if events == [] || events[0] == Read([]) then [] else
      match events[0]
      case Read(c) => (if checked then c else CutPreamble(c)) + Teed(true, events[1..])
      case Quiet => Teed(checked, events[1..])
  }

  method Emit(assembler: AccessUnitAssembler, nals: seq<Nal>) returns (sent: seq<Bytes>)
    modifies assembler
    ensures var a := Assemble(old(assembler.pendingParams), nals);
            && sent == Messages(a.units) && assembler.pendingParams == a.pending
            && |sent| == |a.units|
            && forall k :: 0 <= k < |sent| ==> sent[k] == [if a.units[k].isKey then 1 else 0] + a.units[k].framed
  {
    hide UnitOf, PendingAfter, Message;
    sent := [];
    ghost var before := assembler.pendingParams;
    for i := 0 to |nals|
      invariant assembler.pendingParams == Assemble(before, nals[..i]).pending
      invariant sent == Messages(Assemble(before, nals[..i]).units)
    {
      AssembleConcat(before, nals[..i], [nals[i]]);
      assert nals[..i + 1] == nals[..i] + [nals[i]];
      ghost var pending := assembler.pendingParams;
      AssembleOne(pending, nals[i]);
      var unit := assembler.Feed(nals[i].kind, nals[i].payload);
      assert nals[i] == Nal(nals[i].kind, nals[i].payload);
      if unit.Some? {
        sent := sent + [Message(unit.value)];
      }
    }
    assert nals[..|nals|] == nals;
    MessagesAreMarked(Assemble(before, nals).units);
  }

  lemma MessagesAreMarked(units: seq<AccessUnit>)
    ensures |Messages(units)| == |units|
    ensures forall k :: 0 <= k < |units| ==>
              Messages(units)[k] == [if units[k].isKey then 1 else 0] + units[k].framed
  {}

  /** One turn of the loop, on the specification's side. */
  lemma StreamTurn(buffer: Bytes, checked: bool, events: seq<Event>, i: nat)
    requires i < |events| && events[i] != Read([])
    ensures match events[i]
            case Read(c) =>
              var chunk := if checked then c else CutPreamble(c);
              var step := Split(buffer + chunk);
              && StreamNals(buffer, checked, events[i..])
                 == Then(step.nals, StreamNals(step.rest, true, events[i + 1..]))
              && Teed(checked, events[i..]) == chunk + Teed(true, events[i + 1..])
            case Quiet =>
              && StreamNals(buffer, checked, events[i..])
                 == Then(FlushNals(buffer), StreamNals(FlushRest(buffer), checked, events[i + 1..]))
              && Teed(checked, events[i..]) == Teed(checked, events[i + 1..])
  {
    hide Split, FlushNals, FlushRest, CutPreamble, Then;
    assert events[i..][1..] == events[i + 1..] && events[i..][0] == events[i];
  }

  lemma StreamEnd(buffer: Bytes, checked: bool, events: seq<Event>, i: nat, nals: seq<Nal>)
    requires i == |events| || (i < |events| && events[i] == Read([]))
    ensures Then(nals, StreamNals(buffer, checked, events[i..])) == Parse(nals, buffer)
    ensures Teed(checked, events[i..]) == []
  {
    assert i < |events| ==> events[i..][0] == Read([]);
  }

  lemma MessagesConcat(a: seq<AccessUnit>, b: seq<AccessUnit>)
    ensures Messages(a + b) == Messages(a) + Messages(b)
  {
    hide Message;
  }

  method H264Stream(events: seq<Event>, recording: bool) returns (sent: seq<Bytes>, recorded: Bytes)
    ensures sent == Messages(Assemble([], StreamNals([], false, events).nals).units)
    ensures recorded == if recording then Teed(false, events) else []
    ensures recording ==>
              if FirstReadHasCode(events)
              then StartsWithCode(recorded) && Delivered(events) == Preamble(Delivered(events)) + recorded
              else recorded == Delivered(events)
    ensures forall m :: m in sent ==> m != []
    ensures forall m :: m in sent ==> m[0] in {0, 1} && (m[0] == 1 <==> exists n :: n in Total(m[1..]) && n.kind == 5)
    ensures Slices(Viewed(sent)) == Slices(StreamNals([], false, events).nals)
  {
    hide FirstReadHasCode, StartsWithCode, Preamble, Delivered;
    hide Slices, Viewed, Message;
    hide Settled, Split, FlushNals, FlushRest, CutPreamble, StreamNals, Teed, Then, Assemble, Messages, Sound;
    var splitter := new AnnexBSplitter();
    var assembler := new AccessUnitAssembler();
    sent, recorded := [], [];
    var checkedPreamble := false;
    ghost var nals: seq<Nal>, units: seq<AccessUnit> := [], [];
    var i := 0;
    StreamStart(events);
    while i < |events| && events[i] != Read([])
      invariant 0 <= i <= |events| && splitter.Valid()
      invariant fresh(splitter) && fresh(assembler)
      invariant Then(nals, StreamNals(splitter.buffer, checkedPreamble, events[i..])) == StreamNals([], false, events)
      invariant Assemble([], nals) == Assembly(units, assembler.pendingParams) && sent == Messages(units)
      invariant recording ==> recorded + Teed(checkedPreamble, events[i..]) == Teed(false, events)
      invariant !recording ==> recorded == []
    {
      var emitted: seq<Nal>;
      StreamTurn(splitter.buffer, checkedPreamble, events, i);
      match events[i] {
        case Quiet =>
          emitted := splitter.Flush();
        case Read(c) =>
          var chunk := if checkedPreamble then c else CutPreamble(c);
          checkedPreamble := true;
          if recording {
            RecordedConcat(recorded, chunk, Teed(true, events[i + 1..]));
            recorded := recorded + chunk;
          }
          emitted := splitter.Feed(chunk);
      }
      ThenThen(nals, emitted, StreamNals(splitter.buffer, checkedPreamble, events[i + 1..]));
      AssembleConcat([], nals, emitted);
      ghost var more := Assemble(assembler.pendingParams, emitted).units;
      MessagesConcat(units, more);
      var messages := Emit(assembler, emitted);
      sent, units := sent + messages, units + more;
      nals := nals + emitted;
      i := i + 1;
    }
    StreamEnd(splitter.buffer, checkedPreamble, events, i, nals);
    TextIsCutIff(events);
    KeyFramesAreMarked(events);
    BrowserDecodesEverySlice(events);
  }

  lemma RecordedConcat(a: Bytes, b: Bytes, c: Bytes)
    ensures a + (b + c) == a + b + c
  {}

  lemma StreamStart(events: seq<Event>)
    ensures Then([], StreamNals([], false, events[0..])) == StreamNals([], false, events)
    ensures [] + Teed(false, events[0..]) == Teed(false, events)
    ensures Assemble([], []) == Assembly([], []) && Messages([]) == []
  {
    hide StreamNals, Teed;
    assert events[0..] == events;
    assert Then([], StreamNals([], false, events)) == StreamNals([], false, events);
  }

  // ---- the preamble cut ---------------------------------------------------------------

  /** The cut is exactly what the splitter skips on its own. */
  lemma PreambleCutUnnoticed(chunk: Bytes)
    ensures Split(CutPreamble(chunk)) == Split(chunk)
    ensures chunk == Preamble(chunk) + CutPreamble(chunk)
  {
    hide Split, Find;
    SplitFromFirstCode(chunk);
    match FindStartCode(chunk, 0)
    case None =>
    case Some(first) =>
      assert CutPreamble(chunk) == chunk[first.offset..];
  }

  /** The recorder gets a stream that splits like the whole one. */
  lemma {:induction false} RecorderKeepsStream(events: seq<Event>)
    ensures Split(Teed(false, events)) == Split(Delivered(events))
    decreases |events|
  {
    hide Split, CutPreamble;
    if events == [] || events[0] == Read([]) {
    } else if events[0].Quiet? {
      RecorderKeepsStream(events[1..]);
    } else {
      var c, rest := events[0].chunk, Delivered(events[1..]);
      TeedAfterCheck(events[1..]);
      PreambleCutUnnoticed(c);
      SplitConcat(c, rest);
      SplitConcat(CutPreamble(c), rest);
    }
  }

  lemma {:induction false} TeedAfterCheck(events: seq<Event>)
    ensures Teed(true, events) == Delivered(events)
  {
    if !(events == [] || events[0] == Read([])) {
      TeedAfterCheck(events[1..]);
    }
  }

  predicate StartsWithCode(s: Bytes) {
    var code := FindStartCode(s, 0);
    code.Some? && code.value.offset == 0
  }

  /** The first bytes that the pipe delivers hold a start code. */
  predicate FirstReadHasCode(events: seq<Event>) {
    events != [] && match events[0]
                    case Read(c) => Find(c, 0).Some?
                    case Quiet => FirstReadHasCode(events[1..])
  }

  /** The text ahead of the bitstream is kept from the recorder if and only if it comes in one read with the first
      code. The text and only the text is then cut; otherwise the recorder is teed every byte, so its stream
      starts with a code only if the delivered one does. */
  lemma {:induction false} TextIsCutIff(events: seq<Event>)
    ensures if FirstReadHasCode(events)
            then StartsWithCode(Teed(false, events))
                 && Delivered(events) == Preamble(Delivered(events)) + Teed(false, events)
            else Teed(false, events) == Delivered(events)
    ensures StartsWithCode(Teed(false, events)) <==> FirstReadHasCode(events) || StartsWithCode(Delivered(events))
  {
    hide StartsWithCode, CutPreamble, Find, FindStartCode;
    if events == [] {
    } else if events[0].Quiet? {
      TextIsCutIff(events[1..]);
    } else {
      TeedAfterCheck(events[1..]);
      FirstReadIsCut(events[0].chunk, Delivered(events[1..]));
    }
  }

  lemma FirstReadIsCut(chunk: Bytes, rest: Bytes)
    ensures Find(chunk, 0).Some? ==>
              chunk != [] && StartsWithCode(CutPreamble(chunk) + rest)
              && chunk + rest == Preamble(chunk + rest) + (CutPreamble(chunk) + rest)
    ensures Find(chunk, 0).None? ==> CutPreamble(chunk) == chunk
  {
    CutStarts(chunk);
    hide Find, FindStartCode, CutPreamble;
    match FindStartCode(chunk, 0)
    case None =>
    case Some(first) =>
      var cut := chunk[first.offset..];
      CutAtCode(chunk, first);
      FindIsStable(chunk, rest, 0);
      FindIsStable(cut, rest, 0);
      assert (chunk + rest)[..first.offset] + (cut + rest) == chunk + rest;
  }

  lemma CutStarts(chunk: Bytes)
    ensures match FindStartCode(chunk, 0)
            case None => Find(chunk, 0).None? && CutPreamble(chunk) == chunk
            case Some(first) =>
              Find(chunk, 0).Some? && chunk != [] && CutPreamble(chunk) == chunk[first.offset..]
  {
    hide Find;
  }

  /** Text in a read of its own, as a slow device sends it: the recorder is teed the text. */
  lemma TextReachesRecorder()
    ensures var events := [Read([69, 82]), Read([0, 0, 0, 1, 101])];
            && Teed(false, events) == [69, 82, 0, 0, 0, 1, 101]
            && !FirstReadHasCode(events) && !StartsWithCode(Teed(false, events))
            && StartsWithCode([0, 0, 0, 1, 101])
  {
    var events := [Read([69, 82]), Read([0, 0, 0, 1, 101])];
    var text: Bytes := [69, 82];
    var whole: Bytes := [69, 82, 0, 0, 0, 1, 101];
    var code: Bytes := [0, 0, 0, 1, 101];
    assert Delivered(events[1..]) == code + [] by {
      assert events[1..][1..] == [];
    }
    FindStartCodeSpec(whole, 0, Some(StartCode(2, 4)));
    FindStartCodeSpec(code, 0, Some(StartCode(0, 4)));
    assert CodeAt(whole, 3) && CodeAt(code, 1);
    assert !FirstReadHasCode(events) by {
      assert Find(text, 0) == None;
    }
    TextIsCutIff(events);
    assert text + code == whole;
  }

  // ---- quiet periods ------------------------------------------------------------------

  /** A silence falls between two NALs when nothing is held, as before the first code of a slow device, when
      nothing follows, or when what follows starts with a code that does not take a byte of the held payload. */
  ghost predicate BetweenNals(buffer: Bytes, next: Bytes) {
    || FindStartCode(buffer, 0).None?
    || next == []
    || exists four, after: Bytes :: next == Code(four) + after && (four || !EndsInZero(Held(buffer)))
  }

  /** Every silence of a run falls between two NALs. */
  ghost predicate QuietBetweenNals(buffer: Bytes, checked: bool, events: seq<Event>)
    decreases |events|
  {
    if events == [] || events[0] == Read([]) then true else
      match events[0]
      case Read(c) =>
        QuietBetweenNals(Split(buffer + if checked then c else CutPreamble(c)).rest, true, events[1..])
      case Quiet =>
        && BetweenNals(buffer, Teed(checked, events[1..]))
        && QuietBetweenNals(FlushRest(buffer), checked, events[1..])
  }

  function Finish(parse: Parse): seq<Nal> {
    parse.nals + FlushNals(parse.rest)
  }

  lemma FinishThen(nals: seq<Nal>, parse: Parse)
    ensures Finish(Then(nals, parse)) == nals + Finish(parse)
  {
    hide FlushNals;
    assert nals + (parse.nals + FlushNals(parse.rest)) == nals + parse.nals + FlushNals(parse.rest);
  }

  lemma FlushSettles(buffer: Bytes)
    requires Settled(buffer)
    ensures Settled(FlushRest(buffer))
    ensures FlushNals(buffer) + FlushNals(FlushRest(buffer)) == FlushNals(buffer)
  {
    assert CodeFree([]);
    FindStartCodeSpec([], 0, None);
    assert FlushNals(buffer) + [] == FlushNals(buffer);
  }

  lemma NothingHeld(buffer: Bytes)
    requires FindStartCode(buffer, 0).None?
    ensures FlushNals(buffer) == [] && FlushRest(buffer) == buffer
  {}

  lemma FlushBetweenNals(buffer: Bytes, next: Bytes)
    requires Settled(buffer) && BetweenNals(buffer, next)
    ensures Total(buffer + next) == FlushNals(buffer) + Total(FlushRest(buffer) + next)
  {
    hide Split, FlushNals, FlushRest, Settled, Held, EndsInZero;
    if FindStartCode(buffer, 0).None? {
      NothingHeld(buffer);
      assert [] + Total(buffer + next) == Total(buffer + next);
    } else if next == [] {
      FlushSettles(buffer);
      SettledSplit(buffer);
      SettledSplit(FlushRest(buffer));
      assert buffer + [] == buffer && FlushRest(buffer) + [] == FlushRest(buffer);
      assert [] + FlushNals(buffer) == FlushNals(buffer);
      assert [] + FlushNals(FlushRest(buffer)) == FlushNals(FlushRest(buffer));
    } else {
      var four, after: Bytes :| next == Code(four) + after && (four || !EndsInZero(Held(buffer)));
      FlushBeforeCode(buffer, four, after);
      FinishThen(FlushNals(buffer), Split(FlushRest(buffer) + next));
      TotalIsFinish(buffer + next);
      TotalIsFinish(FlushRest(buffer) + next);
    }
  }

  lemma TotalIsFinish(s: Bytes)
    ensures Total(s) == Finish(Split(s))
  {}

  lemma TotalConcat(a: Bytes, b: Bytes)
    ensures Total(a + b) == Split(a).nals + Total(Split(a).rest + b)
  {
    hide Split, FlushNals;
    SplitConcat(a, b);
    FinishThen(Split(a).nals, Split(Split(a).rest + b));
  }

  lemma {:induction false} QuietUnnoticed(buffer: Bytes, checked: bool, events: seq<Event>)
    requires Settled(buffer) && QuietBetweenNals(buffer, checked, events)
    ensures Finish(StreamNals(buffer, checked, events)) == Total(buffer + Teed(checked, events))
    decreases |events|
  {
    hide Settled, Split, FlushNals, FlushRest, CutPreamble, BetweenNals, Total, Finish;
    if events == [] || events[0] == Read([]) {
      SettledSplit(buffer);
      TotalIsFinish(buffer);
      assert buffer + [] == buffer;
    } else if events[0].Quiet? {
      FlushSettles(buffer);
      QuietUnnoticed(FlushRest(buffer), checked, events[1..]);
      FinishThen(FlushNals(buffer), StreamNals(FlushRest(buffer), checked, events[1..]));
      FlushBetweenNals(buffer, Teed(checked, events[1..]));
    } else {
      var c := if checked then events[0].chunk else CutPreamble(events[0].chunk);
      var head, rest := buffer + c, Teed(true, events[1..]);
      SplitSettles(head);
      QuietUnnoticed(Split(head).rest, true, events[1..]);
      FinishThen(Split(head).nals, StreamNals(Split(head).rest, true, events[1..]));
      TotalConcat(head, rest);
      assert buffer + (c + rest) == head + rest;
    }
  }

  /** However the pipe cuts the stream and wherever silence falls between NALs, the NALs of the loop, and the
      one the splitter still holds when the pipe ends, are those of the whole stream. */
  lemma PreviewMatchesStream(events: seq<Event>)
    requires QuietBetweenNals([], false, events)
    ensures Finish(StreamNals([], false, events)) == Total(Delivered(events))
  {
    hide Split, FlushNals, QuietBetweenNals;
    NothingIsSettled();
    QuietUnnoticed([], false, events);
    assert [] + Teed(false, events) == Teed(false, events);
    RecorderKeepsStream(events);
    TotalIsFinish(Teed(false, events));
    TotalIsFinish(Delivered(events));
  }

  lemma NothingIsSettled()
    ensures Settled([])
  {
    var none: Bytes := [];
    assert CodeFree(none);
  }

  // ---- what the browser decodes -------------------------------------------------------

  /** What the browser decodes: every message without its leading byte. */
  function Viewed(messages: seq<Bytes>): seq<Nal>
    requires forall m :: m in messages ==> m != []
  {
    Decoded(seq(|messages|, k requires 0 <= k < |messages| && messages[k] in messages => messages[k][1..]))
  }

  lemma MessagesAreViewed(units: seq<AccessUnit>)
    ensures forall m :: m in Messages(units) ==> m != []
    ensures Viewed(Messages(units)) == Decoded(Framed(units))
  {
    hide Decoded;
    var messages := Messages(units);
    assert forall k :: 0 <= k < |messages| ==> messages[k][1..] == units[k].framed;
    assert seq(|messages|, k requires 0 <= k < |messages| && messages[k] in messages => messages[k][1..])
           == Framed(units);
  }

  lemma {:induction false} StreamNalsAreSound(buffer: Bytes, checked: bool, events: seq<Event>)
    requires Settled(buffer)
    ensures forall n <- StreamNals(buffer, checked, events).nals :: Sound(n)
    ensures Settled(StreamNals(buffer, checked, events).rest)
    decreases |events|
  {
    hide Settled, Split, FlushNals, FlushRest, CutPreamble, Sound;
    if events == [] || events[0] == Read([]) {
    } else if events[0].Quiet? {
      FlushSettles(buffer);
      FlushEmitsPayloads(buffer);
      StreamNalsAreSound(FlushRest(buffer), checked, events[1..]);
    } else {
      var head := buffer + if checked then events[0].chunk else CutPreamble(events[0].chunk);
      SplitSettles(head);
      SplitEmitsPayloads(head);
      StreamNalsAreSound(Split(head).rest, true, events[1..]);
    }
  }

  /** Whatever the pipe delivers and wherever silence falls, the browser decodes exactly the slices of the NALs
      that left the splitter: each once, in order. */
  lemma BrowserDecodesEverySlice(events: seq<Event>)
    ensures var nals := StreamNals([], false, events).nals;
            var sent := Messages(Assemble([], nals).units);
            (forall m :: m in sent ==> m != []) && Slices(Viewed(sent)) == Slices(nals)
  {
    hide Settled, Sound, StreamNals, Assemble, Messages, Slices, Decoded, Viewed;
    NothingIsSettled();
    StreamNalsAreSound([], false, events);
    var nals := StreamNals([], false, events).nals;
    EverySliceIsSentOnce(nals, |nals|);
    assert nals[..|nals|] == nals;
    MessagesAreViewed(Assemble([], nals).units);
  }

  /** The first byte of each message tells the browser whether it can start there: it is one if and only if what
      follows holds an IDR picture, and zero otherwise. */
  lemma KeyFramesAreMarked(events: seq<Event>)
    ensures forall m :: m in Messages(Assemble([], StreamNals([], false, events).nals).units) ==>
              m != [] && m[0] in {0, 1} && (m[0] == 1 <==> exists n :: n in Total(m[1..]) && n.kind == 5)
  {
    hide Settled, Sound, StreamNals, Assemble, Total;
    NothingIsSettled();
    StreamNalsAreSound([], false, events);
    var nals := StreamNals([], false, events).nals;
    UnitsAreMarkedRight(nals, |nals|);
    assert nals[..|nals|] == nals;
    var units := Assemble([], nals).units;
    forall m | m in Messages(units)
      ensures m != [] && m[0] in {0, 1} && (m[0] == 1 <==> exists n :: n in Total(m[1..]) && n.kind == 5)
    {
      var k :| 0 <= k < |units| && Messages(units)[k] == m;
      assert m[1..] == units[k].framed;
      assert MarkedRight(units[k]);
    }
  }

  /** End to end: with silences between NALs only, what the browser decodes, and the one NAL at most that is
      still held when the pipe ends, are the slices of everything the pipe delivered. */
  lemma BrowserSeesTheStream(events: seq<Event>)
    requires QuietBetweenNals([], false, events)
    ensures var parse := StreamNals([], false, events);
            var sent := Messages(Assemble([], parse.nals).units);
            && (forall m :: m in sent ==> m != [])
            && Slices(Viewed(sent)) + Slices(FlushNals(parse.rest)) == Slices(Total(Delivered(events)))
            && |FlushNals(parse.rest)| <= 1
  {
    hide QuietBetweenNals, StreamNals, Assemble, Messages, Slices, Viewed, Total;
    var parse := StreamNals([], false, events);
    BrowserDecodesEverySlice(events);
    PreviewMatchesStream(events);
    SlicesConcat(parse.nals, FlushNals(parse.rest));
  }
}

/** What the splitter gives back for a stream written as start codes and payloads:
    the round trip, its exact limits, and when a flush goes unnoticed. */
module Framing {
  import opened Wrappers
  import opened ScreenStream

  /** One start code, four bytes or three, and the bytes up to the next one. */
  datatype Frame = Frame(four: bool, payload: Bytes)

  function Code(four: bool): Bytes {
    if four then [0, 0, 0, 1] else [0, 0, 1]
  }

  function Render(frames: seq<Frame>): Bytes {
    if frames == [] then [] else Code(frames[0].four) + frames[0].payload + Render(frames[1..])
  }

  function NalsOf(frames: seq<Frame>): seq<Nal> {
    if frames == [] then [] else Unit(frames[0].payload) + NalsOf(frames[1..])
  }

  function Ahead(f: Frame, frames: seq<Frame>): seq<Frame> {
    [f] + frames
  }

  lemma RenderAhead(f: Frame, frames: seq<Frame>)
    ensures Render(Ahead(f, frames)) == Code(f.four) + f.payload + Render(frames)
    ensures NalsOf(Ahead(f, frames)) == Unit(f.payload) + NalsOf(frames)
  {
    assert Ahead(f, frames)[1..] == frames;
  }

  ghost predicate PayloadsCodeFree(frames: seq<Frame>) {
    forall f <- frames :: CodeFree(f.payload)
  }

  predicate EndsInZero(p: Bytes) {
    p != [] && p[|p| - 1] == 0
  }

  /** No three-byte code directly behind a payload that ends in zero: the splitter would
      read that zero as the first byte of a four-byte code. */
  predicate Unambiguous(frames: seq<Frame>) {
    forall i :: 0 < i < |frames| && !frames[i].four ==> !EndsInZero(frames[i - 1].payload)
  }

  // ---- finding the codes of a rendered stream -------------------------------

  /** Behind `before`, which ends in a non-zero byte, the next code of
      before + payload + code + after is that code. */
  lemma NextCodeAfterPayload(before: Bytes, payload: Bytes, four: bool, after: Bytes)
    requires before == [] || before[|before| - 1] != 0
    requires CodeFree(payload) && (four || !EndsInZero(payload))
    ensures FindStartCode(before + payload + Code(four) + after, |before|)
            == Some(StartCode(|before| + |payload|, |Code(four)|))
  {
    var s, start, end := before + payload + Code(four) + after, |before|, |before| + |payload|;
    var at := end + |Code(four)| - 3;
    assert CodeAt(s, at);
    forall i | start <= i < at
      ensures !CodeAt(s, i)
    {
      assert i + 2 < end ==> CodeAt(s, i) ==> CodeAt(payload, i - start);
    }
    assert !four && at > 0 ==> s[at - 1] != 0;
    FindStartCodeSpec(s, start, Some(StartCode(end, |Code(four)|)));
  }

  lemma NoCodeAfterLastPayload(before: Bytes, payload: Bytes)
    requires before != [] && before[|before| - 1] != 0
    requires CodeFree(payload)
    ensures FindStartCode(before + payload, |before|) == None
  {
    var s := before + payload;
    forall i | |before| <= i
      ensures !CodeAt(s, i)
    {
      assert CodeAt(s, i) ==> CodeAt(payload, i - |before|);
    }
    FindStartCodeSpec(s, |before|, None);
  }

  lemma FirstCodeOfFrame(four: bool, after: Bytes)
    ensures FindStartCode(Code(four) + after, 0) == Some(StartCode(0, |Code(four)|))
  {
    NextCodeAfterPayload([], [], four, after);
    assert [] + [] + Code(four) + after == Code(four) + after;
  }

  // ---- the round trip ---------------------------------------------------------

  lemma SplitLastFrame(f: Frame)
    requires CodeFree(f.payload)
    ensures Split(Code(f.four) + f.payload) == Parse([], Code(f.four) + f.payload)
    ensures FlushNals(Code(f.four) + f.payload) == Unit(f.payload)
  {
    hide FindStartCode, CodeFree, Split;
    var s := Code(f.four) + f.payload;
    FirstCodeOfFrame(f.four, f.payload);
    NoCodeAfterLastPayload(Code(f.four), f.payload);
    SplitHolds(s, StartCode(0, |Code(f.four)|));
    assert s[0..] == s && s[|Code(f.four)|..] == f.payload;
  }

  lemma Regroup(code: Bytes, payload: Bytes, next: Bytes, after: Bytes)
    ensures var s := code + payload + (next + after);
            && s == code + (payload + (next + after)) && s == code + payload + next + after
            && s[|code|..|code| + |payload|] == payload && s[|code| + |payload|..] == next + after
  {}

  lemma SplitFirstFrame(f: Frame, four: bool, after: Bytes)
    requires CodeFree(f.payload) && (four || !EndsInZero(f.payload))
    ensures Split(Code(f.four) + f.payload + (Code(four) + after))
            == Then(Unit(f.payload), Split(Code(four) + after))
  {
    hide FindStartCode, Split, Unit, Then;
    var head := Code(f.four) + f.payload;
    FirstCodeOfFrame(f.four, f.payload + (Code(four) + after));
    NextCodeAfterPayload(Code(f.four), f.payload, four, after);
    Regroup(Code(f.four), f.payload, Code(four), after);
    SplitStep(head + (Code(four) + after), StartCode(0, |Code(f.four)|), StartCode(|head|, |Code(four)|));
  }

  lemma RoundTripOne(f: Frame)
    requires CodeFree(f.payload)
    ensures Total(Render([f])) == NalsOf([f])
  {
    hide CodeFree;
    SplitLastFrame(f);
    assert Render([f]) == Code(f.four) + f.payload;
    assert NalsOf([f]) == Unit(f.payload);
  }

  lemma RoundTripAhead(f: Frame, next: Frame, later: seq<Frame>)
    requires CodeFree(f.payload) && (next.four || !EndsInZero(f.payload))
    ensures Total(Render(Ahead(f, Ahead(next, later)))) == Unit(f.payload) + Total(Render(Ahead(next, later)))
  {
    hide CodeFree, EndsInZero, Unit, Split, FlushNals, Render;
    RenderAhead(f, Ahead(next, later));
    RenderAhead(next, later);
    var after := next.payload + Render(later);
    assert Render(Ahead(next, later)) == Code(next.four) + after;
    SplitFirstFrame(f, next.four, after);
  }

  /** Any frames, three- and four-byte codes mixed, come back from feed then flush. */
  lemma {:induction false} MixedRoundTrip(frames: seq<Frame>)
    requires PayloadsCodeFree(frames) && Unambiguous(frames)
    ensures Total(Render(frames)) == NalsOf(frames)
  {
    hide CodeFree, EndsInZero;
    if |frames| == 0 {
    } else if |frames| == 1 {
      RoundTripOne(frames[0]);
      assert frames == [frames[0]];
    } else {
      MixedRoundTrip(frames[1..]);
      RoundTripAhead(frames[0], frames[1], frames[2..]);
      assert frames == Ahead(frames[0], Ahead(frames[1], frames[2..]));
      assert frames[1..] == Ahead(frames[1], frames[2..]);
    }
  }

  /** The same payloads behind four-byte codes, the way the assembler writes them. */
  function FourByte(payloads: seq<Bytes>): seq<Frame> {
    seq(|payloads|, i requires 0 <= i < |payloads| => Frame(true, payloads[i]))
  }

  function Nals(payloads: seq<Bytes>): seq<Nal>
    requires [] !in payloads
  {
    seq(|payloads|, i requires 0 <= i < |payloads| => assert payloads[i] in payloads; NalOf(payloads[i]))
  }

  lemma {:induction false} NalsOfFourByte(payloads: seq<Bytes>)
    requires [] !in payloads
    ensures NalsOf(FourByte(payloads)) == Nals(payloads)
  {
    if payloads != [] {
      NalsOfFourByte(payloads[1..]);
      assert FourByte(payloads)[1..] == FourByte(payloads[1..]);
      assert Nals(payloads) == [NalOf(payloads[0])] + Nals(payloads[1..]);
    }
  }

  /** Any non-empty payloads without a start code inside, each behind a four-byte code,
      come back exactly, trailing zeros included. */
  lemma FourByteRoundTrip(payloads: seq<Bytes>)
    requires forall p <- payloads :: p != [] && CodeFree(p)
    ensures Total(Render(FourByte(payloads))) == Nals(payloads)
  {
    MixedRoundTrip(FourByte(payloads));
    NalsOfFourByte(payloads);
  }

  /** How the splitter reads ambiguous frames: the zero in front of a three-byte code
      leaves the payload and makes the code four bytes. */
  function Absorbed(frames: seq<Frame>): (r: seq<Frame>)
    ensures |r| == |frames|
    decreases |frames|
  {
    if |frames| <= 1 then frames else
    var f, next := frames[0], frames[1];
    if !next.four && EndsInZero(f.payload)
    then [Frame(f.four, f.payload[..|f.payload| - 1])] + Absorbed([Frame(true, next.payload)] + frames[2..])
    else [f] + Absorbed(frames[1..])
  }

  /** Payload bytes carried by a list of NALs. */
  function PayloadBytes(nals: seq<Nal>): nat {
    if nals == [] then 0 else |nals[0].payload| + PayloadBytes(nals[1..])
  }

  function FrameBytes(frames: seq<Frame>): nat {
    if frames == [] then 0 else |frames[0].payload| + FrameBytes(frames[1..])
  }

  lemma {:induction false} NalsCarryFrameBytes(frames: seq<Frame>)
    ensures PayloadBytes(NalsOf(frames)) == FrameBytes(frames)
  {
    if frames != [] {
      NalsCarryFrameBytes(frames[1..]);
      if frames[0].payload == [] {
        assert NalsOf(frames) == NalsOf(frames[1..]);
      } else {
        assert NalsOf(frames)[1..] == NalsOf(frames[1..]);
      }
    }
  }

  lemma PrefixCodeFree(p: Bytes, n: nat)
    requires CodeFree(p) && n <= |p|
    ensures CodeFree(p[..n])
  {
    assert forall i :: CodeAt(p[..n], i) ==> CodeAt(p, i);
  }

  lemma ZeroJoinsCode(code: Bytes, payload: Bytes, after: Bytes)
    requires EndsInZero(payload)
    ensures code + payload + (Code(false) + after) == code + payload[..|payload| - 1] + (Code(true) + after)
  {
    assert payload == payload[..|payload| - 1] + [0];
    assert Code(true) == [0] + Code(false);
  }

  /** Moving the zero from the payload into the code rewrites no byte of the stream. */
  lemma ZeroMovesIntoCode(f: Frame, next: Frame, later: seq<Frame>)
    requires EndsInZero(f.payload) && !next.four
    ensures Render([Frame(f.four, f.payload[..|f.payload| - 1])] + ([Frame(true, next.payload)] + later))
            == Render([f] + ([next] + later))
  {
    hide Render, Code;
    var p, n := f.payload[..|f.payload| - 1], Frame(true, next.payload);
    assert [n] + later == Ahead(n, later) && [next] + later == Ahead(next, later);
    RenderAhead(n, later);
    RenderAhead(next, later);
    RenderAhead(Frame(f.four, p), [n] + later);
    RenderAhead(f, [next] + later);
    ZeroJoinsCode(Code(f.four), f.payload, next.payload + Render(later));
    assert Code(true) + (next.payload + Render(later)) == Render([n] + later);
    assert Code(false) + (next.payload + Render(later)) == Render([next] + later);
  }

  lemma {:induction false} AbsorbedSameStream(frames: seq<Frame>)
    ensures Render(Absorbed(frames)) == Render(frames)
    decreases |frames|
  {
    if |frames| > 1 {
      var f, next, later := frames[0], frames[1], frames[2..];
      assert frames == [f] + ([next] + later) && frames[1..] == [next] + later;
      if !next.four && EndsInZero(f.payload) {
        ZeroMovesIntoCode(f, next, later);
        AbsorbedSameStream([Frame(true, next.payload)] + later);
      } else {
        AbsorbedSameStream(frames[1..]);
      }
    }
  }

  lemma {:induction false} AbsorbedCodeFree(frames: seq<Frame>)
    requires PayloadsCodeFree(frames)
    ensures PayloadsCodeFree(Absorbed(frames))
    decreases |frames|
  {
    hide CodeFree;
    if |frames| > 1 {
      var f, next := frames[0], frames[1];
      if !next.four && EndsInZero(f.payload) {
        AbsorbedCodeFree([Frame(true, next.payload)] + frames[2..]);
        PrefixCodeFree(f.payload, |f.payload| - 1);
      } else {
        AbsorbedCodeFree(frames[1..]);
      }
    }
  }

  lemma {:induction false} AbsorbedIsUnambiguous(frames: seq<Frame>)
    ensures Unambiguous(Absorbed(frames))
    ensures frames != [] ==> Absorbed(frames)[0].four == frames[0].four
    decreases |frames|
  {
    if |frames| > 1 {
      var f, next := frames[0], frames[1];
      var rest := if !next.four && EndsInZero(f.payload) then [Frame(true, next.payload)] + frames[2..]
                  else frames[1..];
      AbsorbedIsUnambiguous(rest);
      UnambiguousTail(Absorbed(frames));
      assert Absorbed(frames)[1..] == Absorbed(rest);
    }
  }

  /** Absorption costs a payload byte exactly when the frames were ambiguous. */
  lemma {:induction false} AbsorbedLosesBytes(frames: seq<Frame>)
    ensures FrameBytes(Absorbed(frames)) <= FrameBytes(frames)
    ensures Unambiguous(frames) <==> FrameBytes(Absorbed(frames)) == FrameBytes(frames)
    ensures Unambiguous(frames) ==> Absorbed(frames) == frames
    decreases |frames|
  {
    if |frames| > 1 {
      var f, next := frames[0], frames[1];
      if !next.four && EndsInZero(f.payload) {
        AbsorbedLosesBytes([Frame(true, next.payload)] + frames[2..]);
        assert FrameBytes(frames[1..]) == FrameBytes([Frame(true, next.payload)] + frames[2..]);
        assert !Unambiguous(frames);
      } else {
        AbsorbedLosesBytes(frames[1..]);
        UnambiguousTail(frames);
      }
    }
  }

  lemma UnambiguousTail(frames: seq<Frame>)
    requires |frames| > 1
    ensures Unambiguous(frames) <==>
            Unambiguous(frames[1..]) && (frames[1].four || !EndsInZero(frames[0].payload))
  {
    var t := frames[1..];
    assert forall i :: 0 < i < |t| ==> t[i] == frames[i + 1] && t[i - 1] == frames[i];
    if Unambiguous(t) && (frames[1].four || !EndsInZero(frames[0].payload)) {
      forall i | 0 < i < |frames| && !frames[i].four
        ensures !EndsInZero(frames[i - 1].payload)
      {
        assert i > 1 ==> t[i - 1] == frames[i] && t[i - 2] == frames[i - 1];
      }
    }
  }

  /** What comes back from any code-free payloads, whatever their codes. */
  lemma AnyFramesComeBackAbsorbed(frames: seq<Frame>)
    requires PayloadsCodeFree(frames)
    ensures Total(Render(frames)) == NalsOf(Absorbed(frames))
  {
    AbsorbedCodeFree(frames);
    AbsorbedIsUnambiguous(frames);
    MixedRoundTrip(Absorbed(frames));
    AbsorbedSameStream(frames);
  }

  /** The exact limit of the round trip: the payloads come back as written if and only if
      no payload that ends in zero is followed by a three-byte code. */
  lemma RoundTripExactly(frames: seq<Frame>)
    requires PayloadsCodeFree(frames)
    ensures Total(Render(frames)) == NalsOf(frames) <==> Unambiguous(frames)
  {
    AnyFramesComeBackAbsorbed(frames);
    AbsorbedLosesBytes(frames);
    NalsCarryFrameBytes(frames);
    NalsCarryFrameBytes(Absorbed(frames));
  }

  // ---- conservation -------------------------------------------------------------

  /** The frames read out of a stream, without the held one. */
  function FramesOf(s: Bytes): seq<Frame>
    decreases |s|
  {
    match FindStartCode(s, 0)
    case None => []
    case Some(first) =>
      var from := first.offset + first.length;
      match FindStartCode(s, from)
      case None => []
      case Some(second) =>
        SecondCodeNeverOverlaps(s, first);
        Ahead(Frame(first.length == 4, s[from..second.offset]), FramesOf(s[second.offset..]))
  }

  /** What the splitter skips: everything in front of the first start code. */
  function Preamble(s: Bytes): Bytes {
    match FindStartCode(s, 0)
    case None => []
    case Some(first) => s[..first.offset]
  }

  lemma CodeBytes(s: Bytes, start: nat, code: StartCode)
    requires FindStartCode(s, start) == Some(code)
    ensures s[code.offset..code.offset + code.length] == Code(code.length == 4)
  {
    FindStartCodeSpec(s, start, Some(code));
  }

  lemma Rejoin(s: Bytes, a: nat, b: nat, c: nat, r: Bytes, rest: Bytes)
    requires a <= b <= c <= |s| && s[c..] == r + rest
    ensures s == s[..a] + (s[a..b] + s[b..c] + r) + rest
  {
    assert s == s[..a] + s[a..b] + s[b..c] + s[c..];
  }

  ghost predicate Conserved(s: Bytes, preamble: Bytes, frames: seq<Frame>, parse: Parse) {
    s == preamble + Render(frames) + parse.rest && parse.nals == NalsOf(frames)
  }

  lemma ConservedWithoutFrames(s: Bytes, at: nat)
    requires at <= |s|
    ensures Conserved(s, s[..at], [], Parse([], s[at..]))
  {}

  lemma ConservedAhead(s: Bytes, first: StartCode, to: nat, frames: seq<Frame>, parse: Parse)
    requires FindStartCode(s, 0) == Some(first)
    requires first.offset + first.length <= to <= |s|
    requires Conserved(s[to..], [], frames, parse)
    ensures var payload := s[first.offset + first.length..to];
            Conserved(s, s[..first.offset], Ahead(Frame(first.length == 4, payload), frames),
                      Then(Unit(payload), parse))
  {
    hide FindStartCode, Unit, Code, Render, NalsOf;
    var from := first.offset + first.length;
    CodeBytes(s, 0, first);
    RenderAhead(Frame(first.length == 4, s[from..to]), frames);
    assert s[to..] == Render(frames) + parse.rest;
    Rejoin(s, first.offset, from, to, Render(frames), parse.rest);
  }

  /** Nothing between the first code and the end is lost, repeated or reordered: the
      stream is its preamble, the emitted frames and the held rest. */
  lemma {:induction false} SplitConserves(s: Bytes)
    ensures Conserved(s, Preamble(s), FramesOf(s), Split(s))
    decreases |s|
  {
    hide FindStartCode, Conserved, Unit, Render, NalsOf;
    match FindStartCode(s, 0)
    case None =>
      ConservedWithoutFrames(s, 0);
      assert s[..0] == [] && s[0..] == s;
    case Some(first) =>
      var from := first.offset + first.length;
      match FindStartCode(s, from)
      case None =>
        ConservedWithoutFrames(s, first.offset);
      case Some(second) =>
        SplitStep(s, first, second);
        SplitConserves(s[second.offset..]);
        SecondCodeLeadsTail(s, first, second);
        ConservedAhead(s, first, second.offset, FramesOf(s[second.offset..]), Split(s[second.offset..]));
  }

  lemma SecondCodeLeadsTail(s: Bytes, first: StartCode, second: StartCode)
    requires FindStartCode(s, 0) == Some(first)
    requires FindStartCode(s, first.offset + first.length) == Some(second)
    ensures FindStartCode(s[second.offset..], 0) == Some(StartCode(0, second.length))
    ensures Preamble(s[second.offset..]) == []
  {
    var from, c := first.offset + first.length, s[second.offset..];
    SecondCodeNeverOverlaps(s, first);
    FindStartCodeSpec(s, from, Some(second));
    assert forall i :: 0 <= i ==> (CodeAt(c, i) <==> CodeAt(s, second.offset + i));
    assert CodeAt(c, second.length - 3);
    FindStartCodeSpec(c, 0, Some(StartCode(0, second.length)));
  }

  // ---- flush and preamble ---------------------------------------------------------

  /** The bytes a splitter holds back behind its one start code. */
  function Held(s: Bytes): Bytes {
    match FindStartCode(s, 0)
    case None => []
    case Some(first) => s[first.offset + first.length..]
  }

  /** A settled buffer that holds a code is that code and the held payload. */
  lemma HeldFrame(buffer: Bytes) returns (f: Frame)
    requires Settled(buffer) && FindStartCode(buffer, 0).Some?
    ensures buffer == Code(f.four) + f.payload && f.payload == Held(buffer) && CodeFree(f.payload)
    ensures FlushNals(buffer) == Unit(f.payload) && FlushRest(buffer) == []
  {
    var first := FindStartCode(buffer, 0).value;
    FindStartCodeSpec(buffer, 0, None);
    CodeBytes(buffer, 0, first);
    HeldCodeFree(buffer);
    f := Frame(first.length == 4, Held(buffer));
  }

  lemma FrameBeforeCode(f: Frame, four: bool, after: Bytes)
    requires CodeFree(f.payload)
    ensures var next := Code(four) + after;
            Split(Code(f.four) + f.payload + next) == Then(Unit(f.payload), Split(next))
            <==> four || !EndsInZero(f.payload)
  {
    var next := Code(four) + after;
    if four || !EndsInZero(f.payload) {
      SplitFirstFrame(f, four, after);
    } else {
      var p := f.payload[..|f.payload| - 1];
      PrefixCodeFree(f.payload, |p|);
      SplitFirstFrame(Frame(f.four, p), true, after);
      ZeroJoinsCode(Code(f.four), f.payload, after);
      FourOrThreeLeads(after);
      NalCounts(Unit(p), Unit(f.payload), Split(next).nals);
    }
  }

  /** Flushing while the next bytes start with a code: unnoticed if and only if that code
      is four bytes or the held payload does not end in zero. */
  lemma FlushBeforeCode(buffer: Bytes, four: bool, after: Bytes)
    requires Settled(buffer)
    ensures var next := Code(four) + after;
            Split(buffer + next) == Then(FlushNals(buffer), Split(FlushRest(buffer) + next))
            <==> four || !EndsInZero(Held(buffer))
  {
    var next := Code(four) + after;
    if FindStartCode(buffer, 0).None? {
      assert Then([], Split(buffer + next)) == Split(buffer + next);
    } else {
      var f := HeldFrame(buffer);
      FrameBeforeCode(f, four, after);
      assert [] + next == next;
    }
  }

  lemma HeldCodeFree(buffer: Bytes)
    requires Settled(buffer)
    ensures CodeFree(Held(buffer))
  {
    FindStartCodeSpec(buffer, 0, None);
    match FindStartCode(buffer, 0)
    case None =>
    case Some(first) =>
      FindStartCodeSpec(buffer, first.length, None);
      NoCodeInSlice(buffer, first.length, |buffer|);
      assert buffer[first.length..|buffer|] == Held(buffer);
  }

  lemma {:induction false} PayloadBytesAppend(a: seq<Nal>, b: seq<Nal>)
    ensures PayloadBytes(a + b) == PayloadBytes(a) + PayloadBytes(b)
  {
    if a == [] {
      assert a + b == b;
    } else {
      PayloadBytesAppend(a[1..], b);
      assert (a + b)[1..] == a[1..] + b;
    }
  }

  lemma NalCounts(a: seq<Nal>, b: seq<Nal>, c: seq<Nal>)
    requires PayloadBytes(a) != PayloadBytes(b)
    ensures a + c != b + c
  {
    PayloadBytesAppend(a, c);
    PayloadBytesAppend(b, c);
  }

  /** Which of the two codes leads a stream does not change its NALs. */
  lemma FourOrThreeLeads(after: Bytes)
    ensures Split(Code(true) + after).nals == Split(Code(false) + after).nals
  {
    hide FindStartCode, Split, Unit;
    var s4, s3 := Code(true) + after, Code(false) + after;
    FirstCodeOfFrame(true, after);
    FirstCodeOfFrame(false, after);
    SecondOfFourOrThree(after);
    match FindStartCode(s4, 4)
    case None =>
      SplitHolds(s4, StartCode(0, 4));
      SplitHolds(s3, StartCode(0, 3));
    case Some(n) =>
      SplitStep(s4, StartCode(0, 4), n);
      SplitStep(s3, StartCode(0, 3), StartCode(n.offset - 1, n.length));
      SlicesOfFourOrThree(after, n.offset);
  }

  lemma SlicesOfFourOrThree(after: Bytes, to: nat)
    requires 4 <= to <= |after| + 4
    ensures (Code(true) + after)[4..to] == (Code(false) + after)[3..to - 1]
    ensures (Code(true) + after)[to..] == (Code(false) + after)[to - 1..]
  {}

  lemma SecondOfFourOrThree(after: Bytes)
    ensures match FindStartCode(Code(true) + after, 4)
            case None => FindStartCode(Code(false) + after, 3) == None
            case Some(n) =>
              && 4 <= n.offset
              && FindStartCode(Code(false) + after, 3) == Some(StartCode(n.offset - 1, n.length))
  {
    var s4, s3 := Code(true) + after, Code(false) + after;
    FirstCodeOfFrame(true, after);
    var n4 := FindStartCode(s4, 4);
    FindStartCodeSpec(s4, 4, n4);
    forall i | 3 <= i
      ensures CodeAt(s3, i) <==> CodeAt(s4, i + 1)
    {}
    match n4
    case None =>
      FindStartCodeSpec(s3, 3, None);
    case Some(n) =>
      SecondCodeNeverOverlaps(s4, StartCode(0, 4));
      assert CodeAt(s4, n.offset - 1 + n.length - 3 + 1);
      assert CodeAt(s3, n.offset - 1 + n.length - 3);
      FindStartCodeSpec(s3, 3, Some(StartCode(n.offset - 1, n.length)));
  }
}

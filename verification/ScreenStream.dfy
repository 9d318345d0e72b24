/** The splitter of the live preview: an H.264 byte stream, in whatever chunks the
    pipe delivers, cut into NAL units (ITU-T H.264, Annex B and section 7.3.1). */
module ScreenStream {
  import opened Wrappers

  type Byte = b: int | 0 <= b < 256
  type Bytes = seq<Byte>

  const NAL_NON_IDR: Byte := 1
  const NAL_IDR: Byte := 5
  const NAL_SPS: Byte := 7
  const NAL_PPS: Byte := 8

  datatype Nal = Nal(kind: Byte, payload: Bytes)
  datatype StartCode = StartCode(offset: nat, length: nat)
  datatype Parse = Parse(nals: seq<Nal>, rest: Bytes)

  // ---- finding start codes ------------------------------------------------

  predicate CodeAt(s: Bytes, i: int) {
    0 <= i && i + 3 <= |s| && s[i] == 0 && s[i + 1] == 0 && s[i + 2] == 1
  }

  ghost predicate CodeFree(s: Bytes) {
    forall i :: !CodeAt(s, i)
  }

  /** `bytes.find` for the three bytes 00 00 01. */
  function Find(s: Bytes, start: nat): (r: Option<nat>)
    ensures r.Some? ==> start <= r.value <= |s| - 3
    decreases |s| - start
  {
    if start + 3 > |s| then None
    else if CodeAt(s, start) then Some(start)
    else Find(s, start + 1)
  }

  /** `Find` reports the first occurrence, and none only when there is none. */
  lemma {:induction false} FindIsFirst(s: Bytes, start: nat)
    ensures Find(s, start).Some? ==> CodeAt(s, Find(s, start).value)
    ensures forall i :: start <= i && (Find(s, start).Some? ==> i < Find(s, start).value) ==> !CodeAt(s, i)
    decreases |s| - start
  {
    if start + 3 <= |s| && !CodeAt(s, start) {
      FindIsFirst(s, start + 1);
    }
  }

  function FindStartCode(s: Bytes, start: nat): (r: Option<StartCode>)
    ensures r.Some? ==>
              && r.value.length in {3, 4}
              && start + 3 <= r.value.offset + r.value.length <= |s|
  {
    match Find(s, start)
    case None => None
    case Some(at) => Some(if at > 0 && s[at - 1] == 0 then StartCode(at - 1, 4) else StartCode(at, 3))
  }

  /** What the next start code at or after `start` is, said of the bytes alone. */
  ghost predicate IsNextCode(s: Bytes, start: nat, code: Option<StartCode>) {
    match code
    case None => forall i :: start <= i ==> !CodeAt(s, i)
    case Some(c) =>
      var at := c.offset + c.length - 3;
      && c.length in {3, 4} && start <= at && CodeAt(s, at)
      && (c.length == 4 <==> at > 0 && s[at - 1] == 0)
      && forall i :: start <= i < at ==> !CodeAt(s, i)
  }

  /** `FindStartCode` computes it, and nothing else does. */
  lemma FindStartCodeSpec(s: Bytes, start: nat, code: Option<StartCode>)
    ensures FindStartCode(s, start) == code <==> IsNextCode(s, start, code)
  {
    FindIsFirst(s, start);
    var found := FindStartCode(s, start);
    assert IsNextCode(s, start, found);
    if IsNextCode(s, start, code) && code.Some? && found.Some? {
      var at, at' := code.value.offset + code.value.length - 3, found.value.offset + found.value.length - 3;
      assert CodeAt(s, at) && CodeAt(s, at');
    }
  }

  /** Python's `payload[0] & 0x1F`: the low five bits are the type of the NAL. */
  function NalOf(payload: Bytes): Nal
    requires payload != []
  {
    Nal(payload[0] % 32, payload)
  }

  /** A NAL a viewer can use: not empty, free of start codes, typed by the low five bits of its first byte, which
      is three bits and then the type. */
  ghost predicate Sound(n: Nal) {
    && n.payload != [] && CodeFree(n.payload)
    && 0 <= n.kind < 32 && n.payload[0] == 32 * (n.payload[0] / 32) + n.kind
  }

  lemma SoundIsTyped(n: Nal)
    requires n.payload != [] && CodeFree(n.payload)
    ensures Sound(n) <==> n == NalOf(n.payload)
  {
    hide CodeFree;
  }

  function Unit(payload: Bytes): seq<Nal> {
    if payload == [] then [] else [NalOf(payload)]
  }

  /** The search for the second code starts right behind the first one's 01, so the
      zero it may absorb can never be a byte of the first. */
  lemma SecondCodeNeverOverlaps(s: Bytes, first: StartCode)
    requires FindStartCode(s, 0) == Some(first)
    ensures match FindStartCode(s, first.offset + first.length)
            case None => true
            case Some(second) => first.offset + first.length <= second.offset
  {
    var from := first.offset + first.length;
    FindStartCodeSpec(s, 0, Some(first));
    FindStartCodeSpec(s, from, FindStartCode(s, from));
    assert s[from - 1] == 1;
  }

  /** NALs already emitted, ahead of a parse. */
  function Then(nals: seq<Nal>, parse: Parse): Parse {
    Parse(nals + parse.nals, parse.rest)
  }

  lemma ThenThen(first: seq<Nal>, second: seq<Nal>, parse: Parse)
    ensures Then(first, Then(second, parse)) == Then(first + second, parse)
  {
    assert first + (second + parse.nals) == first + second + parse.nals;
  }

  /** What the splitter makes of a whole buffer. */
  function Split(s: Bytes): Parse
    decreases |s|
  {
    match FindStartCode(s, 0)
    case None => Parse([], s)
    case Some(first) =>
      var from := first.offset + first.length;
      match FindStartCode(s, from)
      case None => Parse([], s[first.offset..])
      case Some(second) =>
        SecondCodeNeverOverlaps(s, first);
        Then(Unit(s[from..second.offset]), Split(s[second.offset..]))
  }

  /** The buffer the splitter leaves behind: no start code at all, or exactly one,
      at offset 0. */
  ghost predicate Settled(s: Bytes) {
    CodeFree(s) ||
    match FindStartCode(s, 0)
    case None => false
    case Some(first) => first.offset == 0 && FindStartCode(s, first.length) == None
  }

  /** What a flush emits, and the buffer it leaves. */
  function FlushNals(s: Bytes): seq<Nal> {
    match FindStartCode(s, 0)
    case None => []
    case Some(first) => Unit(s[first.offset + first.length..])
  }

  function FlushRest(s: Bytes): Bytes {
    if FindStartCode(s, 0).None? then s else []
  }

  /** Everything a stream yields: fed in one piece, then flushed. */
  function Total(s: Bytes): seq<Nal> {
    Split(s).nals + FlushNals(Split(s).rest)
  }

  class AnnexBSplitter {
    var buffer: Bytes

    ghost predicate Valid()
      reads this
    {
      Settled(buffer)
    }

    constructor ()
      ensures buffer == [] && Valid()
    {
      buffer := [];
    }

    method Flush() returns (nals: seq<Nal>)
      requires Valid()
      modifies this
      ensures Valid()
      ensures nals == FlushNals(old(buffer)) && buffer == FlushRest(old(buffer))
      ensures |nals| <= 1 && forall n <- nals :: Sound(n)
    {
      FlushEmitsPayloads(buffer);
      var first := FindStartCode(buffer, 0);
      if first.None? {
        return [];
      }
      var payload := buffer[first.value.offset + first.value.length..];
      buffer := [];
      return Unit(payload);
    }

    method Feed(chunk: Bytes) returns (nals: seq<Nal>)
      requires Valid()
      modifies this
      ensures Valid()
      ensures Parse(nals, buffer) == Split(old(buffer) + chunk)
      ensures forall n <- nals :: Sound(n)
    {
      hide FindStartCode, Settled, Sound, Split;
      buffer := buffer + chunk;
      nals := [];
      ghost var stream := buffer;
      while true
        invariant Then(nals, Split(buffer)) == Split(stream)
        decreases |buffer|
      {
        FeedRound(nals, buffer);
        var first := FindStartCode(buffer, 0);
        if first.None? {
          break;
        }
        var from := first.value.offset + first.value.length;
        var second := FindStartCode(buffer, from);
        if second.None? {
          buffer := buffer[first.value.offset..];
          break;
        }
        var payload := buffer[from..second.value.offset];
        if payload != [] {
          nals := nals + [NalOf(payload)];
        }
        buffer := buffer[second.value.offset..];
      }
      SplitSettles(stream);
      SplitEmitsPayloads(stream);
    }
  }

  /** One round of the splitter's loop leaves the parse of everything unchanged. */
  lemma FeedRound(nals: seq<Nal>, s: Bytes)
    ensures match FindStartCode(s, 0)
            case None => Then(nals, Split(s)) == Parse(nals, s)
            case Some(first) =>
              var from := first.offset + first.length;
              match FindStartCode(s, from)
              case None => Then(nals, Split(s)) == Parse(nals, s[first.offset..])
              case Some(second) =>
                && from <= second.offset <= |s|
                && var p := s[from..second.offset];
                   Then(nals, Split(s)) == Then(if p == [] then nals else nals + [NalOf(p)], Split(s[second.offset..]))
  {
    hide FindStartCode;
    match FindStartCode(s, 0)
    case None =>
    case Some(first) =>
      hide Split;
      match FindStartCode(s, first.offset + first.length)
      case None => SplitHolds(s, first);
      case Some(second) =>
        SplitStep(s, first, second);
        var p := s[first.offset + first.length..second.offset];
        ThenThen(nals, Unit(p), Split(s[second.offset..]));
        AppendUnit(nals, p);
  }

  lemma AppendUnit(nals: seq<Nal>, p: Bytes)
    ensures nals + Unit(p) == if p == [] then nals else nals + [NalOf(p)]
  {}

  // ---- what every parse keeps ---------------------------------------------

  /** Cutting a buffer at a start code re-finds that code at offset 0, as long as it
      was, and every later code where it was. */
  lemma CutAtCode(s: Bytes, code: StartCode)
    requires FindStartCode(s, 0) == Some(code)
    ensures FindStartCode(s[code.offset..], 0) == Some(StartCode(0, code.length))
    ensures match FindStartCode(s, code.offset + code.length)
            case None => FindStartCode(s[code.offset..], code.length) == None
            case Some(next) =>
              && code.offset <= next.offset
              && FindStartCode(s[code.offset..], code.length)
                 == Some(StartCode(next.offset - code.offset, next.length))
  {
    var c, from := s[code.offset..], code.offset + code.length;
    var next := FindStartCode(s, from);
    FindStartCodeSpec(s, 0, Some(code));
    FindStartCodeSpec(s, from, next);
    forall i
      ensures CodeAt(c, i) <==> 0 <= i && CodeAt(s, code.offset + i)
    {}
    assert CodeAt(c, code.length - 3);
    FindStartCodeSpec(c, 0, Some(StartCode(0, code.length)));
    match next
    case None =>
      FindStartCodeSpec(c, code.length, None);
    case Some(n) =>
      SecondCodeNeverOverlaps(s, code);
      var n' := StartCode(n.offset - code.offset, n.length);
      assert CodeAt(c, n'.offset + n'.length - 3);
      FindStartCodeSpec(c, code.length, Some(n'));
  }

  lemma SplitFromFirstCode(s: Bytes)
    ensures match FindStartCode(s, 0)
            case None => true
            case Some(first) => Split(s) == Split(s[first.offset..])
  {
    hide FindStartCode, Unit, Then;
    match FindStartCode(s, 0)
    case None =>
    case Some(first) =>
      CutAtCode(s, first);
      SecondCodeNeverOverlaps(s, first);
      var c := s[first.offset..];
      match FindStartCode(s, first.offset + first.length)
      case None => assert c[0..] == c;
      case Some(second) =>
        assert c[first.length..second.offset - first.offset] == s[first.offset + first.length..second.offset];
        assert c[second.offset - first.offset..] == s[second.offset..];
  }

  lemma {:induction false} SplitSettles(s: Bytes)
    ensures Settled(Split(s).rest)
    decreases |s|
  {
    match FindStartCode(s, 0)
    case None => FindStartCodeSpec(s, 0, None);
    case Some(first) =>
      match FindStartCode(s, first.offset + first.length)
      case None => CutAtCode(s, first);
      case Some(second) =>
        SecondCodeNeverOverlaps(s, first);
        SplitSettles(s[second.offset..]);
  }

  lemma UnitSound(p: Bytes)
    requires CodeFree(p)
    ensures forall n <- Unit(p) :: Sound(n)
  {
    if p != [] {
      SoundIsTyped(NalOf(p));
    }
    hide CodeFree;
  }

  lemma PayloadCodeFree(s: Bytes, from: nat, next: StartCode)
    requires FindStartCode(s, from) == Some(next) && from <= next.offset
    ensures CodeFree(s[from..next.offset])
  {
    FindStartCodeSpec(s, from, Some(next));
    NoCodeInSlice(s, from, next.offset);
  }

  /** Every payload emitted is non-empty, free of start codes and typed by its first byte. */
  lemma {:induction false} SplitEmitsPayloads(s: Bytes)
    ensures forall n <- Split(s).nals :: Sound(n)
    decreases |s|
  {
    hide FindStartCode, CodeFree, Sound, Unit, CodeAt;
    match FindStartCode(s, 0)
    case None =>
    case Some(first) =>
      var from := first.offset + first.length;
      match FindStartCode(s, from)
      case None =>
      case Some(second) =>
        SecondCodeNeverOverlaps(s, first);
        SplitEmitsPayloads(s[second.offset..]);
        PayloadCodeFree(s, from, second);
        UnitSound(s[from..second.offset]);
  }

  lemma FlushEmitsPayloads(s: Bytes)
    requires Settled(s)
    ensures forall n <- FlushNals(s) :: Sound(n)
  {
    FindStartCodeSpec(s, 0, None);
    match FindStartCode(s, 0)
    case None =>
    case Some(first) =>
      FindStartCodeSpec(s, first.length, None);
      NoCodeInSlice(s, first.length, |s|);
      assert s[first.length..|s|] == s[first.length..];
  }

  lemma NoCodeInSlice(s: Bytes, from: nat, to: nat)
    requires from <= to <= |s|
    requires forall i :: from <= i && i + 3 <= to ==> !CodeAt(s, i)
    ensures CodeFree(s[from..to])
  {
    forall i
      ensures !CodeAt(s[from..to], i)
    {
      assert CodeAt(s[from..to], i) ==> CodeAt(s, from + i);
    }
  }

  // ---- chunk independence -------------------------------------------------

  /** More bytes do not move the codes already found. */
  lemma FindIsStable(a: Bytes, b: Bytes, start: nat)
    requires FindStartCode(a, start).Some?
    ensures FindStartCode(a + b, start) == FindStartCode(a, start)
  {
    var code := FindStartCode(a, start);
    FindStartCodeSpec(a, start, code);
    assert forall i :: i + 3 <= |a| ==> (CodeAt(a + b, i) <==> CodeAt(a, i));
    FindStartCodeSpec(a + b, start, code);
  }

  lemma SliceOfConcat(a: Bytes, b: Bytes, from: nat, to: nat)
    requires from <= to <= |a|
    ensures (a + b)[from..to] == a[from..to] && (a + b)[to..] == a[to..] + b
  {}

  lemma SplitStep(s: Bytes, first: StartCode, second: StartCode)
    requires FindStartCode(s, 0) == Some(first)
    requires FindStartCode(s, first.offset + first.length) == Some(second)
    ensures first.offset + first.length <= second.offset <= |s|
    ensures Split(s) == Then(Unit(s[first.offset + first.length..second.offset]), Split(s[second.offset..]))
  {
    hide FindStartCode, Unit, Then;
    SecondCodeNeverOverlaps(s, first);
  }

  lemma SplitHolds(s: Bytes, first: StartCode)
    requires FindStartCode(s, 0) == Some(first)
    requires FindStartCode(s, first.offset + first.length) == None
    ensures Split(s) == Parse([], s[first.offset..])
  {
    hide FindStartCode;
  }

  lemma {:induction false} SplitConcat(a: Bytes, b: Bytes)
    ensures Split(a + b) == Then(Split(a).nals, Split(Split(a).rest + b))
    decreases |a|
  {
    hide FindStartCode, Unit;
    match FindStartCode(a, 0)
    case None =>
    case Some(first) =>
      FindIsStable(a, b, 0);
      var from := first.offset + first.length;
      match FindStartCode(a, from)
      case None =>
        SplitFromFirstCode(a + b);
        SliceOfConcat(a, b, 0, first.offset);
      case Some(second) =>
        FindIsStable(a, b, from);
        SplitStep(a, first, second);
        SplitStep(a + b, first, second);
        SliceOfConcat(a, b, from, second.offset);
        var tail := a[second.offset..];
        SplitConcat(tail, b);
        ThenThen(Unit(a[from..second.offset]), Split(tail).nals, Split(Split(tail).rest + b));
  }

  function Concat(chunks: seq<Bytes>): Bytes {
    if chunks == [] then [] else chunks[0] + Concat(chunks[1..])
  }

  /** Feeding chunk after chunk into a splitter that holds `buffer`. */
  function FeedAll(buffer: Bytes, chunks: seq<Bytes>): Parse
    decreases |chunks|
  {
    if chunks == [] then Parse([], buffer) else
      var step := Split(buffer + chunks[0]);
      Then(step.nals, FeedAll(step.rest, chunks[1..]))
  }

  /** However the pipe cuts the stream, the NALs and the final buffer are those of one
      feed of all of it. */
  lemma {:induction false} ChunkIndependence(buffer: Bytes, chunks: seq<Bytes>)
    requires Split(buffer) == Parse([], buffer)
    ensures FeedAll(buffer, chunks) == Split(buffer + Concat(chunks))
    decreases |chunks|
  {
    hide Split, Then;
    if chunks == [] {
      assert buffer + [] == buffer;
    } else {
      var head, tail := buffer + chunks[0], Concat(chunks[1..]);
      SplitAgain(head);
      ChunkIndependence(Split(head).rest, chunks[1..]);
      SplitConcat(head, tail);
      assert buffer + (chunks[0] + tail) == head + tail;
    }
  }

  /** A settled buffer has nothing more to give: splitting it again changes nothing. */
  lemma SplitAgain(s: Bytes)
    ensures Split(Split(s).rest) == Parse([], Split(s).rest)
  {
    SplitSettles(s);
    SettledSplit(Split(s).rest);
  }

  lemma SettledSplit(s: Bytes)
    requires Settled(s)
    ensures Split(s) == Parse([], s)
  {
    FindStartCodeSpec(s, 0, None);
    assert s[0..] == s;
  }
}

/** The assembler: NAL units grouped into the access units a browser decodes. */
module AccessUnits {
  import opened Wrappers
  import opened ScreenStream
  import opened Framing

  datatype AccessUnit = AccessUnit(isKey: bool, framed: Bytes)
  datatype Assembly = Assembly(units: seq<AccessUnit>, pending: seq<Bytes>)

  predicate IsParam(n: Nal) {
    n.kind == NAL_SPS || n.kind == NAL_PPS
  }

  predicate IsSlice(n: Nal) {
    n.kind == NAL_IDR || n.kind == NAL_NON_IDR
  }

  /** The unit one NAL completes, given the parameter sets waiting for an IDR. */
  function UnitOf(pending: seq<Bytes>, n: Nal): Option<AccessUnit> {
    if n.kind == NAL_IDR then Some(AccessUnit(true, Render(FourByte(pending)) + Code(true) + n.payload))
    else if n.kind == NAL_NON_IDR then Some(AccessUnit(false, Code(true) + n.payload))
    else None
  }

  function PendingAfter(pending: seq<Bytes>, n: Nal): seq<Bytes> {
    if IsParam(n) then pending + [n.payload]
    else if n.kind == NAL_IDR then []
    else pending
  }

  class AccessUnitAssembler {
    var pendingParams: seq<Bytes>

    constructor ()
      ensures pendingParams == []
    {
      pendingParams := [];
    }

    method Feed(kind: Byte, payload: Bytes) returns (unit: Option<AccessUnit>)
      modifies this
      ensures unit == UnitOf(old(pendingParams), Nal(kind, payload))
      ensures pendingParams == PendingAfter(old(pendingParams), Nal(kind, payload))
    {
      if kind == NAL_SPS || kind == NAL_PPS {
        pendingParams := pendingParams + [payload];
        return None;
      }
      if kind == NAL_IDR {
        var framed := Render(FourByte(pendingParams)) + Code(true) + payload;
        pendingParams := [];
        return Some(AccessUnit(true, framed));
      }
      if kind == NAL_NON_IDR {
        return Some(AccessUnit(false, Code(true) + payload));
      }
      return None;
    }
  }

  /** What a NAL does is told by its first byte modulo 32: 5 completes a key unit, 1 one that is not, 7 and 8 are
      parameter sets that wait, 5 takes them all; any other NAL does nothing. */
  lemma FirstByteDecides(pending: seq<Bytes>, n: Nal)
    requires Sound(n)
    ensures var kind, unit, waiting := n.payload[0] % 32, UnitOf(pending, n), PendingAfter(pending, n);
            && (unit.Some? <==> kind == 5 || kind == 1)
            && (unit.Some? ==> (unit.value.isKey <==> kind == 5))
            && (kind == 7 || kind == 8 ==> waiting == pending + [n.payload])
            && (kind == 5 ==> waiting == [])
            && (kind !in {5, 7, 8} ==> waiting == pending)
    ensures IsParam(n) <==> n.payload[0] % 32 == 7 || n.payload[0] % 32 == 8
    ensures IsSlice(n) <==> n.payload[0] % 32 == 5 || n.payload[0] % 32 == 1
  {
    hide CodeFree, Render, FourByte, Code;
  }

  function ToSeq<T>(o: Option<T>): seq<T> {
    if o.Some? then [o.value] else []
  }

  /** Feeding NAL after NAL to an assembler that already holds `pending`. */
  function Assemble(pending: seq<Bytes>, nals: seq<Nal>): Assembly
    decreases |nals|
  {
    if nals == [] then Assembly([], pending) else
      var later := Assemble(PendingAfter(pending, nals[0]), nals[1..]);
      Assembly(ToSeq(UnitOf(pending, nals[0])) + later.units, later.pending)
  }

  lemma {:induction false} AssembleConcat(pending: seq<Bytes>, a: seq<Nal>, b: seq<Nal>)
    ensures var first := Assemble(pending, a);
            var second := Assemble(first.pending, b);
            Assemble(pending, a + b) == Assembly(first.units + second.units, second.pending)
    decreases |a|
  {
    hide UnitOf, PendingAfter;
    if a == [] {
      assert a + b == b;
    } else {
      AssembleConcat(PendingAfter(pending, a[0]), a[1..], b);
      assert (a + b)[1..] == a[1..] + b;
    }
  }

  // ---- which NALs make up which unit ----------------------------------------------

  /** The parameter sets that arrived before NAL `i` and after the last IDR before it. */
  function ParamsSinceIdr(nals: seq<Nal>, i: nat): seq<Nal>
    requires i <= |nals|
  {
    if i == 0 || nals[i - 1].kind == NAL_IDR then []
    else if IsParam(nals[i - 1]) then ParamsSinceIdr(nals, i - 1) + [nals[i - 1]]
    else ParamsSinceIdr(nals, i - 1)
  }

  function Payloads(nals: seq<Nal>): seq<Bytes> {
    seq(|nals|, i requires 0 <= i < |nals| => nals[i].payload)
  }

  /** The NALs of the unit that NAL `i` completes, if it completes one. */
  function UnitNals(nals: seq<Nal>, i: nat): Option<seq<Nal>>
    requires i < |nals|
  {
    if nals[i].kind == NAL_IDR then Some(ParamsSinceIdr(nals, i) + [nals[i]])
    else if nals[i].kind == NAL_NON_IDR then Some([nals[i]])
    else None
  }

  /** Every unit completed by the first `count` NALs, each as the NALs it carries. */
  function AllUnitNals(nals: seq<Nal>, count: nat): seq<seq<Nal>>
    requires count <= |nals|
  {
    if count == 0 then [] else AllUnitNals(nals, count - 1) + ToSeq(UnitNals(nals, count - 1))
  }

  function Frames(units: seq<seq<Nal>>): seq<Bytes> {
    seq(|units|, k requires 0 <= k < |units| => Render(FourByte(Payloads(units[k]))))
  }

  function Framed(units: seq<AccessUnit>): seq<Bytes> {
    seq(|units|, k requires 0 <= k < |units| => units[k].framed)
  }

  lemma RenderNone()
    ensures Render([]) == []
  {}

  lemma {:induction false} RenderSnoc(payloads: seq<Bytes>, last: Bytes)
    ensures Render(FourByte(payloads + [last])) == Render(FourByte(payloads)) + Code(true) + last
  {
    hide Render;
    var all := FourByte(payloads + [last]);
    if payloads == [] {
      RenderNone();
      assert all == Ahead(Frame(true, last), []);
      RenderAhead(Frame(true, last), []);
    } else {
      var head, rest := Frame(true, payloads[0]), payloads[1..];
      RenderSnoc(rest, last);
      assert (payloads + [last])[1..] == rest + [last];
      assert all == Ahead(head, FourByte(rest + [last]));
      assert FourByte(payloads) == Ahead(head, FourByte(rest));
      RenderAhead(head, FourByte(rest + [last]));
      RenderAhead(head, FourByte(rest));
    }
  }

  lemma UnitOfParams(nals: seq<Nal>, i: nat)
    requires i < |nals|
    ensures var unit := UnitOf(Payloads(ParamsSinceIdr(nals, i)), nals[i]);
            match UnitNals(nals, i)
            case None => unit == None
            case Some(u) => unit.Some? && unit.value.framed == Render(FourByte(Payloads(u)))
                            && unit.value.isKey == (nals[i].kind == NAL_IDR)
  {
    var params, n := ParamsSinceIdr(nals, i), nals[i];
    RenderSnoc(Payloads(params), n.payload);
    assert Payloads(params + [n]) == Payloads(params) + [n.payload];
    RenderSnoc([], n.payload);
    assert Payloads([n]) == [] + [n.payload];
    assert Render(FourByte([])) == [];
  }

  lemma FramesConcat(a: seq<seq<Nal>>, b: seq<seq<Nal>>)
    ensures Frames(a + b) == Frames(a) + Frames(b)
  {
    hide Render, FourByte, Payloads;
  }

  lemma PendingFollows(nals: seq<Nal>, i: nat)
    requires i < |nals|
    ensures PendingAfter(Payloads(ParamsSinceIdr(nals, i)), nals[i]) == Payloads(ParamsSinceIdr(nals, i + 1))
  {
    assert Payloads(ParamsSinceIdr(nals, i) + [nals[i]]) == Payloads(ParamsSinceIdr(nals, i)) + [nals[i].payload];
  }

  /** The units are, in order, exactly: for each IDR, the parameter sets pending since the
      last IDR and then the IDR; for each non-IDR slice, that slice alone. */
  lemma {:induction false} UnitsAreParamsThenSlice(nals: seq<Nal>, count: nat)
    requires count <= |nals|
    ensures var a := Assemble([], nals[..count]);
            && Framed(a.units) == Frames(AllUnitNals(nals, count))
            && a.pending == Payloads(ParamsSinceIdr(nals, count))
  {
    hide UnitOf, UnitNals, Render, FourByte, PendingAfter;
    if count > 0 {
      var i, n := count - 1, nals[count - 1];
      UnitsAreParamsThenSlice(nals, i);
      AssembleConcat([], nals[..i], [n]);
      assert nals[..count] == nals[..i] + [n];
      var pending := Payloads(ParamsSinceIdr(nals, i));
      var last := Assemble(pending, [n]);
      AssembleOne(pending, n);
      UnitOfParams(nals, i);
      assert Framed(last.units) == Frames(ToSeq(UnitNals(nals, i)));
      PendingFollows(nals, i);
      var a := Assemble([], nals[..i]);
      assert Framed(a.units + last.units) == Framed(a.units) + Framed(last.units);
      FramesConcat(AllUnitNals(nals, i), ToSeq(UnitNals(nals, i)));
    }
  }

  // ---- re-splitting a unit ----------------------------------------------------------

  lemma {:induction false} ParamsAreSound(nals: seq<Nal>, i: nat)
    requires i <= |nals| && forall n <- nals :: Sound(n)
    ensures forall n <- ParamsSinceIdr(nals, i) :: Sound(n)
  {
    hide Sound;
    if i > 0 {
      ParamsAreSound(nals, i - 1);
    }
  }

  lemma SoundNalsResplit(nals: seq<Nal>)
    requires forall n <- nals :: Sound(n)
    ensures Total(Render(FourByte(Payloads(nals)))) == nals
  {
    hide Total, Render, FourByte, CodeFree;
    var payloads := Payloads(nals);
    forall p <- payloads
      ensures p != [] && CodeFree(p)
    {
      var i :| 0 <= i < |payloads| && payloads[i] == p;
      assert Sound(nals[i]);
    }
    FourByteRoundTrip(payloads);
    assert forall i :: 0 <= i < |nals| ==> Sound(nals[i]);
  }

  /** A viewer that splits a unit again finds exactly the NALs that went into it. */
  lemma ResplitUnit(nals: seq<Nal>, i: nat)
    requires i < |nals| && forall n <- nals :: Sound(n)
    ensures match UnitOf(Payloads(ParamsSinceIdr(nals, i)), nals[i])
            case None => !IsSlice(nals[i])
            case Some(unit) =>
              && unit.isKey == (nals[i].kind == NAL_IDR)
              && Total(unit.framed) == if unit.isKey then ParamsSinceIdr(nals, i) + [nals[i]] else [nals[i]]
  {
    hide Total, Render, FourByte, Sound;
    UnitOfParams(nals, i);
    ParamsAreSound(nals, i);
    SoundNalsResplit(ParamsSinceIdr(nals, i) + [nals[i]]);
    SoundNalsResplit([nals[i]]);
  }

  lemma {:induction false} ParamsAreParams(nals: seq<Nal>, i: nat)
    requires i <= |nals|
    ensures forall n <- ParamsSinceIdr(nals, i) :: n.kind == 7 || n.kind == 8
  {
    if i > 0 {
      ParamsAreParams(nals, i - 1);
    }
  }

  /** The unit is marked as its NALs are: key if and only if a viewer finds an IDR picture in it. */
  ghost predicate MarkedRight(unit: AccessUnit) {
    unit.isKey <==> exists n :: n in Total(unit.framed) && n.kind == 5
  }

  lemma UnitIsMarkedRight(nals: seq<Nal>, i: nat)
    requires i < |nals| && forall n <- nals :: Sound(n)
    ensures var unit := UnitOf(Payloads(ParamsSinceIdr(nals, i)), nals[i]); unit.Some? ==> MarkedRight(unit.value)
  {
    hide Total, Sound, UnitOf, Payloads;
    ResplitUnit(nals, i);
    ParamsAreParams(nals, i);
    var unit := UnitOf(Payloads(ParamsSinceIdr(nals, i)), nals[i]);
    if unit.Some? {
      assert nals[i] in Total(unit.value.framed);
    }
  }

  lemma {:induction false} UnitsAreMarkedRight(nals: seq<Nal>, count: nat)
    requires count <= |nals| && forall n <- nals :: Sound(n)
    ensures forall unit <- Assemble([], nals[..count]).units :: MarkedRight(unit)
  {
    hide UnitOf, Sound, ParamsSinceIdr, Payloads, Assemble, MarkedRight, Framed, Frames;
    if count == 0 {
      NothingAssembled(nals);
    } else {
      var i := count - 1;
      UnitsAreMarkedRight(nals, i);
      UnitsAreParamsThenSlice(nals, i);
      AssembleConcat([], nals[..i], [nals[i]]);
      assert nals[..count] == nals[..i] + [nals[i]];
      AssembleOne(Payloads(ParamsSinceIdr(nals, i)), nals[i]);
      UnitIsMarkedRight(nals, i);
    }
  }

  lemma NothingAssembled(nals: seq<Nal>)
    ensures Assemble([], nals[..0]).units == []
  {}

  function Slices(nals: seq<Nal>): seq<Nal> {
    if nals == [] then [] else (if IsSlice(nals[0]) then [nals[0]] else []) + Slices(nals[1..])
  }

  lemma {:induction false} SlicesConcat(a: seq<Nal>, b: seq<Nal>)
    ensures Slices(a + b) == Slices(a) + Slices(b)
  {
    hide IsSlice;
    if a == [] {
      assert a + b == b;
    } else {
      SlicesConcat(a[1..], b);
      assert (a + b)[1..] == a[1..] + b;
      var head := if IsSlice(a[0]) then [a[0]] else [];
      assert head + (Slices(a[1..]) + Slices(b)) == head + Slices(a[1..]) + Slices(b);
    }
  }

  lemma {:induction false} NoSliceAmongParams(nals: seq<Nal>, i: nat)
    requires i <= |nals|
    ensures Slices(ParamsSinceIdr(nals, i)) == []
  {
    if i > 0 && nals[i - 1].kind != NAL_IDR && IsParam(nals[i - 1]) {
      NoSliceAmongParams(nals, i - 1);
      SlicesConcat(ParamsSinceIdr(nals, i - 1), [nals[i - 1]]);
    } else if i > 0 && nals[i - 1].kind != NAL_IDR {
      NoSliceAmongParams(nals, i - 1);
    }
  }

  /** What a viewer decodes from a list of framed units. */
  function Decoded(units: seq<Bytes>): seq<Nal> {
    if units == [] then [] else Decoded(units[..|units| - 1]) + Total(units[|units| - 1])
  }

  function DecodedUnit(unit: Option<AccessUnit>): seq<Nal> {
    if unit.Some? then Total(unit.value.framed) else []
  }

  lemma SlicesOfUnit(nals: seq<Nal>, i: nat)
    requires i < |nals| && forall n <- nals :: Sound(n)
    ensures Slices(DecodedUnit(UnitOf(Payloads(ParamsSinceIdr(nals, i)), nals[i]))) == Slices([nals[i]])
  {
    hide UnitOf, Total, Sound;
    ResplitUnit(nals, i);
    NoSliceAmongParams(nals, i);
    SlicesConcat(ParamsSinceIdr(nals, i), [nals[i]]);
  }

  lemma NothingSent()
    ensures Slices(Decoded(Framed(Assemble([], []).units))) == Slices([])
  {}

  lemma AssembleOne(pending: seq<Bytes>, n: Nal)
    ensures Assemble(pending, [n]) == Assembly(ToSeq(UnitOf(pending, n)), PendingAfter(pending, n))
  {
    hide UnitOf, PendingAfter;
  }

  /** No picture is lost, repeated or reordered: the slices in the units are the slices
      of the stream. */
  lemma {:induction false} EverySliceIsSentOnce(nals: seq<Nal>, count: nat)
    requires count <= |nals| && forall n <- nals :: Sound(n)
    ensures Slices(Decoded(Framed(Assemble([], nals[..count]).units))) == Slices(nals[..count])
  {
    hide UnitOf, DecodedUnit, Sound, ParamsSinceIdr, Payloads, Slices, Decoded, Assemble, Framed;
    if count == 0 {
      assert nals[..0] == [];
      NothingSent();
    } else {
      var i, n := count - 1, nals[count - 1];
      EverySliceIsSentOnce(nals, i);
      UnitsAreParamsThenSlice(nals, i);
      AssembleConcat([], nals[..i], [n]);
      assert nals[..count] == nals[..i] + [n];
      var before := Assemble([], nals[..i]);
      var unit := UnitOf(before.pending, n);
      AssembleOne(before.pending, n);
      DecodedSnoc(before.units, unit);
      SlicesOfUnit(nals, i);
      SlicesConcat(nals[..i], [n]);
      SlicesConcat(Decoded(Framed(before.units)), DecodedUnit(unit));
    }
  }

  lemma DecodedSnoc(units: seq<AccessUnit>, next: Option<AccessUnit>)
    ensures Decoded(Framed(units + ToSeq(next)))
            == Decoded(Framed(units)) + DecodedUnit(next)
  {
    hide Total;
    if next.Some? {
      var all := Framed(units + [next.value]);
      assert all == Framed(units) + [next.value.framed];
      assert all[..|all| - 1] == Framed(units);
    } else {
      assert units + [] == units;
    }
  }
}

/**
 The encoder produces the wire form of a struct, exactly when the struct is
 acceptable and its wire form fits the buffer.
 */
module QmiEncodeExact {
  import opened Basics
  import opened QmiSchema
  import opened QmiWire
  import opened QmiEncode
  import opened QmiMessage

  /** `r` is the encoding `w` if `ok` holds, and no encoding otherwise. */
  predicate Gives(r: Result, ok: bool, w: seq<byte>) {
    if ok then r == Encoded(w) else !r.Encoded?
  }

  /** What the encode loop does with one present group, given `left` bytes. */
  function GroupEnc(ei: seq<Elem>, i: nat, s: seq<byte>, left: int, nested: bool, dlv: nat): Result
    requires i < |ei| && GroupOk(ei, i, |s|, nested)
  {
    var e := ei[PayloadIdx(ei, i)];
    if Counted(ei, i) then
      var c := CountField(ei[AfterFlag(ei, i)], s);
      var b := LeBytes(c, CountSize(ei[AfterFlag(ei, i)]));
      if |b| + TLV_HEADER > left then Rejected
      else if c == 0 then Encoded(b)
      else if e.elemLen < c then Rejected
      else Prefixed(b, EncodePayload(e, c, Field(s, e), left - |b|, nested))
    else
      var d := if ei[i].kind.OptFlag? then 1 else dlv;
      if e.arrayType.VarLenArray? && (d == 0 || e.elemLen < d) then Rejected
      else EncodePayload(e, if e.arrayType.VarLenArray? then d else Capacity(e), Field(s, e), left, nested)
  }

  function Prefixed(b: seq<byte>, r: Result): Result {
    match r
    case Encoded(w) => Encoded(b + w)
    case r => r
  }

  // ---------------------------------------------------------------------
  // One group, exactly

  lemma StringExact(e: Elem, f: seq<byte>, left: int, nested: bool)
    requires e.kind.Str? && PayloadOk(e) && |f| == Extent(e)
    ensures var w := StrWire(e, CStr(f), nested);
            Gives(EncodeString(e, f, left, nested), |CStr(f)| < e.elemLen && |w| + TLV_HEADER <= left, w)
  {
  }

  lemma {:induction false} StructsExact(e: Elem, n: nat, b: seq<byte>, room: int, acc: seq<byte>)
    requires e.kind.Struct? && |e.sub| > 0 && Shape(e.sub, 0, e.elemSize, true) && Span(n, e.elemSize) <= |b|
    ensures var w := acc + StructsWire(e, n, b);
            Gives(EncodeStructs(e, n, b, room, acc), AcceptsElems(e, n, b) && (n == 0 || |w| + TLV_HEADER <= room), w)
    decreases e, n
  {
    hide Wire, EncodeFrom, Accepts;
    if n > 0 {
      ShapeElems(e.sub, 0, e.elemSize, true);
      var b0, b1 := b[..e.elemSize], b[e.elemSize..];
      NestedExact(e.sub, 0, b0, room - |acc|, [], 0);
      var w0 := Wire(e.sub, 0, b0, true);
      assert [] + w0 == w0;
      StructsExact(e, n - 1, b1, room, acc + w0);
      assert acc + (w0 + StructsWire(e, n - 1, b1)) == (acc + w0) + StructsWire(e, n - 1, b1);
    }
  }

  lemma {:induction false} PayloadExact(e: Elem, n: nat, f: seq<byte>, left: int, nested: bool)
    requires PayloadOk(e) && n <= Capacity(e) && |f| == Extent(e) && (n > 0 || !e.kind.Struct?)
    ensures var w := PayloadWire(e, n, f, nested);
            Gives(EncodePayload(e, n, f, left, nested), AcceptsPayload(e, n, f) && |w| + TLV_HEADER <= left, w)
    decreases e, n + 1
  {
    SpanMono(n, Capacity(e), e.elemSize);
    if e.kind.Struct? {
      StructsExact(e, n, f, left, []);
      assert [] + StructsWire(e, n, f) == StructsWire(e, n, f);
    } else if e.kind.Str? {
      StringExact(e, f, left, nested);
    }
  }

  lemma {:induction false} GroupExact(ei: seq<Elem>, i: nat, s: seq<byte>, left: int, nested: bool, dlv: nat)
    requires i < |ei| && GroupOk(ei, i, |s|, nested)
    ensures var w := GroupWire(ei, i, s, nested);
            Gives(GroupEnc(ei, i, s, left, nested, dlv), AcceptsGroup(ei, i, s, nested, dlv) && |w| + TLV_HEADER <= left, w)
    decreases ei, |ei| - i, 0
  {
    hide LeBytes, PayloadWire, EncodePayload;
    var e := ei[PayloadIdx(ei, i)];
    var n := Count(ei, i, s, nested);
    if Counted(ei, i) {
      var c := CountField(ei[AfterFlag(ei, i)], s);
      if c == 0 {
        EmptyPayload(e, Field(s, e), nested);
      } else if c <= e.elemLen {
        PayloadExact(e, c, Field(s, e), left - CountSize(ei[AfterFlag(ei, i)]), nested);
      }
    } else {
      var d := if ei[i].kind.OptFlag? then 1 else dlv;
      if e.arrayType.VarLenArray? {
        if 0 < d <= e.elemLen {
          PayloadExact(e, d, Field(s, e), left, nested);
          StrAnyCount(e, d, n, Field(s, e), nested);
        }
      } else {
        PayloadExact(e, n, Field(s, e), left, nested);
      }
      assert [] + PayloadWire(e, n, Field(s, e), nested) == PayloadWire(e, n, Field(s, e), nested);
    }
  }

  lemma EmptyPayload(e: Elem, f: seq<byte>, nested: bool)
    requires PayloadOk(e) && |f| == Extent(e) && !e.kind.Str?
    ensures PayloadWire(e, 0, f, nested) == [] && AcceptsPayload(e, 0, f)
  {
  }

  lemma StrAnyCount(e: Elem, m: nat, n: nat, f: seq<byte>, nested: bool)
    requires PayloadOk(e) && |f| == Extent(e) && e.kind.Str? && m <= Capacity(e) && n <= Capacity(e)
    ensures PayloadWire(e, m, f, nested) == PayloadWire(e, n, f, nested)
    ensures AcceptsPayload(e, m, f) == AcceptsPayload(e, n, f)
  {
  }

  // ---------------------------------------------------------------------
  // The loop, group by group

  /** The loop goes on from `t` after a round that produced `r`. */
  function Continue(ei: seq<Elem>, t: nat, s: seq<byte>, room: int, level: nat, done: seq<byte>, open: seq<byte>, dlv: nat,
                    r: Result, tlvType: byte): Result
    requires t <= |ei| && ElemsOk(ei, |s|)
  {
    match r
    case Encoded(w) =>
      if level == 1 then EncodeFrom(ei, t, s, room, level, done + Tlv(tlvType, open + w), [], dlv)
      else EncodeFrom(ei, t, s, room, level, done, open + w, dlv)
    case r => r
  }

  lemma NestedLoop(ei: seq<Elem>, i: nat, s: seq<byte>, room: int, open: seq<byte>, dlv: nat)
    requires i < |ei| && Shape(ei, i, |s|, true) && ElemsOk(ei, |s|)
    ensures EncodeFrom(ei, i, s, room, 2, [], open, dlv)
         == Continue(ei, NextGroup(ei, i), s, room, 2, [], open, LengthAfter(ei, i, s, true, dlv),
                     GroupEnc(ei, i, s, room - |open|, true, dlv), 0)
  {
    hide EncodePayload, LeBytes;
    if Counted(ei, i) {
      var c := CountField(ei[i], s);
      var b := LeBytes(c, CountSize(ei[i]));
      if 0 < c <= ei[i + 1].elemLen { CountedPayload(ei, i, s, room, 2, [], open + b, c); }
      var r := GroupEnc(ei, i, s, room - |open|, true, dlv);
      if r.Encoded? && c != 0 {
        var pw := EncodePayload(ei[i + 1], c, Field(s, ei[i + 1]), room - |open| - |b|, true).bytes;
        assert (open + b) + pw == open + (b + pw);
      }
    }
  }

  /** The round of the loop that encodes a payload whose count has been read. */
  lemma CountedPayload(ei: seq<Elem>, i: nat, s: seq<byte>, room: int, level: nat, done: seq<byte>, open: seq<byte>, c: nat)
    requires level in {1, 2} && i < |ei| && GroupOk(ei, i, |s|, level > 1) && Counted(ei, i) && ElemsOk(ei, |s|)
    requires 0 < c <= ei[PayloadIdx(ei, i)].elemLen
    ensures var q := PayloadIdx(ei, i);
            EncodeFrom(ei, q, s, room, level, done, open, c) ==
            Continue(ei, q + 1, s, room, level, done, open, c,
                     EncodePayload(ei[q], c, Field(s, ei[q]), room - |done| - |open|, level > 1), ei[q].tlvType)
  {
    hide EncodePayload, LeBytes, Tlv;
  }

  lemma {:induction false} NestedExact(ei: seq<Elem>, i: nat, s: seq<byte>, room: int, open: seq<byte>, dlv: nat)
    requires Shape(ei, i, |s|, true) && ElemsOk(ei, |s|)
    ensures var w := open + Wire(ei, i, s, true);
            Gives(EncodeFrom(ei, i, s, room, 2, [], open, dlv),
                  Accepts(ei, i, s, true, dlv) && (i == |ei| || |w| + TLV_HEADER <= room), w)
    decreases ei, |ei| - i, 1
  {
    hide GroupWire, AcceptsGroup, GroupEnc, EncodePayload;
    if i == |ei| {
      assert [] + open == open + [];
    } else {
      var w0, w1 := GroupWire(ei, i, s, true), Wire(ei, NextGroup(ei, i), s, true);
      GroupExact(ei, i, s, room - |open|, true, dlv);
      NestedLoop(ei, i, s, room, open, dlv);
      NestedExact(ei, NextGroup(ei, i), s, room, open + w0, LengthAfter(ei, i, s, true, dlv));
      assert open + (w0 + w1) == (open + w0) + w1;
    }
  }

  // ---------------------------------------------------------------------
  // The top level

  /** Skipping by TLV type leaves the current group and nothing else. */
  lemma {:induction false} SkipGroup(ei: seq<Elem>, i: nat, t: nat)
    requires i < |ei| && TypedGroup(ei, i) && i <= t < NextGroup(ei, i) <= |ei|
    ensures SkipToNext(ei, t, 1) == NextGroup(ei, i)
    decreases |ei| - t
  {
    assert HasType(ei, i, ei[i].tlvType) && HasType(ei, t, ei[i].tlvType);
    if t + 1 < |ei| {
      assert HasType(ei, t + 1, ei[i].tlvType) <==> t + 1 < NextGroup(ei, i);
      if t + 1 < NextGroup(ei, i) {
        SkipGroup(ei, i, t + 1);
      }
    }
  }

  lemma AbsentLoop(ei: seq<Elem>, i: nat, s: seq<byte>, room: int, done: seq<byte>, dlv: nat)
    requires i < |ei| && Shape(ei, i, |s|, false) && ElemsOk(ei, |s|) && TypedGroup(ei, i) && !Present(ei, i, s)
    ensures EncodeFrom(ei, i, s, room, 1, done, [], dlv) == EncodeFrom(ei, NextGroup(ei, i), s, room, 1, done, [], 1)
  {
    SkipGroup(ei, i, i);
  }

  lemma FlagLoop(ei: seq<Elem>, i: nat, s: seq<byte>, room: int, done: seq<byte>, dlv: nat)
    requires i < |ei| && Shape(ei, i, |s|, false) && ElemsOk(ei, |s|) && Present(ei, i, s)
    ensures EncodeFrom(ei, i, s, room, 1, done, [], dlv)
         == EncodeFrom(ei, AfterFlag(ei, i), s, room, 1, done, [], if ei[i].kind.OptFlag? then 1 else dlv)
  {
  }

  lemma CountLoop(ei: seq<Elem>, i: nat, s: seq<byte>, room: int, done: seq<byte>, d: nat, dlv: nat)
    requires i < |ei| && Shape(ei, i, |s|, false) && ElemsOk(ei, |s|) && TypedGroup(ei, i) && Present(ei, i, s) && Counted(ei, i)
    ensures EncodeFrom(ei, AfterFlag(ei, i), s, room, 1, done, [], d)
         == Continue(ei, NextGroup(ei, i), s, room, 1, done, [], LengthAfter(ei, i, s, false, dlv),
                     GroupEnc(ei, i, s, room - |done|, false, dlv), ei[i].tlvType)
  {
    hide EncodePayload, LeBytes, Tlv;
    var p, q := AfterFlag(ei, i), PayloadIdx(ei, i);
    var c := CountField(ei[p], s);
    var b := LeBytes(c, CountSize(ei[p]));
    assert HasType(ei, i, ei[i].tlvType) && HasType(ei, p, ei[i].tlvType) && HasType(ei, q, ei[i].tlvType);
    assert [] + b == b;
    if 0 < c <= ei[q].elemLen {
      CountedPayload(ei, i, s, room, 1, done, b, c);
      var r := EncodePayload(ei[q], c, Field(s, ei[q]), room - |done| - |b|, false);
      assert r.Encoded? ==> [] + (b + r.bytes) == b + r.bytes;
    } else if c == 0 {
      SkipGroup(ei, i, q);
    }
  }

  lemma TopLoop(ei: seq<Elem>, i: nat, s: seq<byte>, room: int, done: seq<byte>, dlv: nat)
    requires i < |ei| && Shape(ei, i, |s|, false) && ElemsOk(ei, |s|) && TypedGroup(ei, i) && Present(ei, i, s)
    ensures EncodeFrom(ei, i, s, room, 1, done, [], dlv)
         == Continue(ei, NextGroup(ei, i), s, room, 1, done, [], LengthAfter(ei, i, s, false, dlv),
                     GroupEnc(ei, i, s, room - |done|, false, dlv), ei[i].tlvType)
  {
    hide EncodePayload, LeBytes, Tlv;
    var d := if ei[i].kind.OptFlag? then 1 else dlv;
    FlagLoop(ei, i, s, room, done, dlv);
    if Counted(ei, i) {
      CountLoop(ei, i, s, room, done, d, dlv);
    } else {
      var q := PayloadIdx(ei, i);
      assert HasType(ei, i, ei[i].tlvType) && HasType(ei, q, ei[i].tlvType);
      assert ElemOk(ei, q, |s|) && PayloadOk(ei[q]);
    }
  }

  lemma {:induction false} TopExact(ei: seq<Elem>, i: nat, s: seq<byte>, room: int, done: seq<byte>, dlv: nat)
    requires Shape(ei, i, |s|, false) && ElemsOk(ei, |s|) && Typed(ei, i) && |done| <= room
    ensures var w := done + Wire(ei, i, s, false);
            Gives(EncodeFrom(ei, i, s, room, 1, done, [], dlv), Accepts(ei, i, s, false, dlv) && |w| <= room, w)
    decreases |ei| - i
  {
    hide GroupWire, AcceptsGroup, GroupEnc, EncodePayload, Tlv;
    if i == |ei| {
      assert done + [] == done;
    } else {
      var j := NextGroup(ei, i);
      var w1 := Wire(ei, j, s, false);
      if Present(ei, i, s) {
        var w0 := GroupWire(ei, i, s, false);
        var tlv := Tlv(ei[i].tlvType, w0);
        GroupExact(ei, i, s, room - |done|, false, dlv);
        TopLoop(ei, i, s, room, done, dlv);
        assert [] + w0 == w0;
        if |done + tlv| <= room {
          TopExact(ei, j, s, room, done + tlv, LengthAfter(ei, i, s, false, dlv));
        }
        assert done + (tlv + w1) == (done + tlv) + w1;
      } else {
        AbsentLoop(ei, i, s, room, done, dlv);
        TopExact(ei, j, s, room, done, 1);
      }
    }
  }

  /** Exact encoding: the encoder succeeds just when the struct is acceptable and
      its wire form fits the buffer, and then produces that wire form. */
  lemma EncodeExact(ei: seq<Elem>, s: seq<byte>, room: nat)
    requires Shape(ei, 0, |s|, false) && Typed(ei, 0)
    ensures Encode(ei, s, room).Encoded? <==> Accepts(ei, 0, s, false, 0) && |Wire(ei, 0, s, false)| <= room
    ensures Encode(ei, s, room).Encoded? ==> Encode(ei, s, room).bytes == Wire(ei, 0, s, false)
  {
    ShapeElems(ei, 0, |s|, false);
    TopExact(ei, 0, s, room, [], 0);
    assert [] + Wire(ei, 0, s, false) == Wire(ei, 0, s, false);
  }

  // ---------------------------------------------------------------------
  // Never past the buffer

  /** The elements of a table that are encoded: none of them a string, at any depth. */
  predicate NoStrings(ei: seq<Elem>)
    decreases ei
  {
    forall k | 0 <= k < |ei| :: !ei[k].kind.Str? && (ei[k].kind.Struct? ==> NoStrings(ei[k].sub))
  }

  /** Top-level strings are terminated and no string is inside a struct. */
  predicate StringsSafe(ei: seq<Elem>, s: seq<byte>) {
    forall k | 0 <= k < |ei| ::
      && (ei[k].kind.Str? && Inside(ei[k], |s|) ==> |CStr(Field(s, ei[k]))| < ei[k].elemLen)
      && (ei[k].kind.Struct? ==> NoStrings(ei[k].sub))
  }

  lemma {:induction false} StructsInBuffer(e: Elem, n: nat, b: seq<byte>, room: int, acc: seq<byte>)
    requires e.kind.Struct? && Shape(e.sub, 0, e.elemSize, true) && Span(n, e.elemSize) <= |b| && NoStrings(e.sub)
    ensures !EncodeStructs(e, n, b, room, acc).Overrun?
    decreases e, n
  {
    hide EncodeFrom, NoStrings;
    if n > 0 {
      ShapeElems(e.sub, 0, e.elemSize, true);
      LoopInBuffer(e.sub, 0, b[..e.elemSize], room - |acc|, 2, [], [], 0);
      var r := EncodeFrom(e.sub, 0, b[..e.elemSize], room - |acc|, 2, [], [], 0);
      if r.Encoded? {
        StructsInBuffer(e, n - 1, b[e.elemSize..], room, acc + r.bytes);
      }
    }
  }

  lemma {:induction false} PayloadInBuffer(e: Elem, n: nat, f: seq<byte>, room: int, nested: bool)
    requires PayloadOk(e) && n <= Capacity(e) && |f| == Extent(e)
    requires e.kind.Struct? ==> NoStrings(e.sub)
    requires e.kind.Str? ==> !nested && |CStr(f)| < e.elemLen
    ensures !EncodePayload(e, n, f, room, nested).Overrun?
    decreases e, n + 1
  {
    SpanMono(n, Capacity(e), e.elemSize);
    if e.kind.Struct? {
      StructsInBuffer(e, n, f, room, []);
    }
  }

  lemma {:induction false} LoopInBuffer(ei: seq<Elem>, t: nat, s: seq<byte>, room: int, level: nat,
                                        done: seq<byte>, open: seq<byte>, dlv: nat)
    requires t <= |ei| && ElemsOk(ei, |s|) && level in {1, 2}
    requires if level == 1 then StringsSafe(ei, s) else NoStrings(ei)
    ensures !EncodeFrom(ei, t, s, room, level, done, open, dlv).Overrun?
    decreases ei, |ei| - t
  {
    hide EncodePayload, Tlv, LeBytes;
    if t < |ei| {
      var e := ei[t];
      assert ElemOk(ei, t, |s|);
      if e.arrayType.VarLenArray? && (dlv == 0 || e.elemLen < dlv) {
      } else if e.kind.OptFlag? {
        LoopInBuffer(ei, if Field(s, e)[0] != 0 then t + 1 else SkipToNext(ei, t, level), s, room, level, done, open, 1);
      } else if e.kind.DataLen? {
        var c := CountField(e, s);
        var open1 := open + LeBytes(c, CountSize(e));
        LoopInBuffer(ei, t + 1, s, room, level, done, open1, c);
        LoopInBuffer(ei, SkipToNext(ei, t + 1, level), s, room, level, done + Tlv(e.tlvType, open1), [], 0);
        LoopInBuffer(ei, SkipToNext(ei, t + 1, level), s, room, level, done, open1, 0);
      } else {
        var n := if e.arrayType.VarLenArray? then dlv else Capacity(e);
        PayloadInBuffer(e, n, Field(s, e), room - |done| - |open|, level > 1);
        var r := EncodePayload(e, n, Field(s, e), room - |done| - |open|, level > 1);
        if r.Encoded? {
          LoopInBuffer(ei, t + 1, s, room, level, done + Tlv(e.tlvType, open + r.bytes), [], n);
          LoopInBuffer(ei, t + 1, s, room, level, done, open + r.bytes, n);
        }
      }
    }
  }

  /** No byte is written outside the buffer when no string is inside a struct. */
  lemma EncodeInBuffer(ei: seq<Elem>, s: seq<byte>, room: nat)
    requires Shape(ei, 0, |s|, false) && StringsSafe(ei, s)
    ensures !Encode(ei, s, room).Overrun?
  {
    ShapeElems(ei, 0, |s|, false);
    LoopInBuffer(ei, 0, s, room, 1, [], [], 0);
  }

  /** The check before a string inside a struct leaves no room for the TLV header. */
  lemma StringOverrun(e: Elem, f: seq<byte>, left: int, nested: bool)
    requires e.kind.Str? && PayloadOk(e) && |f| == Extent(e) && |CStr(f)| < e.elemLen
    ensures var w := StrWire(e, CStr(f), nested);
            EncodeString(e, f, left, nested).Overrun? <==> nested && |w| <= left < |w| + TLV_HEADER
  {
  }

  const NAME := Elem(Str, 4, 1, NoArray, 0, 0, [])
  const RECORD := Elem(Struct, 1, 4, NoArray, 1, 0, [NAME])

  /** A two-character string in a struct, three bytes without the TLV header,
      is written past the end of every buffer of three to five bytes. */
  lemma NestedStringPastBuffer(room: nat)
    requires 3 <= room <= 5
    ensures var s: seq<byte> := [65, 66, 0, 0];
            && Shape([RECORD], 0, |s|, false) && Typed([RECORD], 0) && |CStr(s)| == 2
            && Encode([RECORD], s, room) == Overrun
  {
    var s: seq<byte> := [65, 66, 0, 0];
    assert CStr(s[1..]) == [66] by { assert CStr(s[2..]) == []; }
    assert CStr(s) == [65, 66];
    assert Span(1, 4) == 4 by { assert Span(0, 4) == 0; }
    assert Shape([NAME], 0, 4, true) by { assert GroupOk([NAME], 0, 4, true); assert Shape([NAME], 1, 4, true); }
    assert Shape([RECORD], 0, 4, false) by { assert GroupOk([RECORD], 0, 4, false); assert Shape([RECORD], 1, 4, false); }
    ShapeElems([NAME], 0, 4, true);
    ShapeElems([RECORD], 0, 4, false);
    assert s[..4] == s && s[0..4] == s;
    StringOverrun(NAME, s, room, true);
    assert EncodePayload(NAME, 1, s, room, true) == Overrun;
    assert EncodeFrom([NAME], 0, s, room, 2, [], [], 0) == Overrun by { assert Field(s, NAME) == s; assert ElemOk([NAME], 0, 4); }
    assert EncodeStructs(RECORD, 1, s, room, []) == Overrun;
    assert EncodePayload(RECORD, 1, s, room, false) == Overrun;
    assert Field(s, RECORD) == s && ElemOk([RECORD], 0, 4);
  }
}

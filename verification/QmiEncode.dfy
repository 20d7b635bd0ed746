/**
 The encoder, element by element, and what it produces.

 `done` holds the TLVs already closed and `open` the bytes written since; inside
 a struct there are no TLVs and `done` stays empty.  `room` is the length the
 code believes it may still use.  It counts from the start of the current TLV, so
 inside a struct the bytes that can really be written are `room - 3`.
 `Overrun` marks the points where the code would write past the buffer or read
 past an unterminated string.
 */
module QmiEncode {
  import opened Basics
  import opened QmiSchema
  import opened QmiWire

  datatype Result = Encoded(bytes: seq<byte>) | Rejected | Overrun

  function SkipToNext(ei: seq<Elem>, t: nat, level: nat): (k: nat)
    requires t < |ei|
    ensures t < k <= |ei|
    decreases |ei| - t
  {
    if level > 1 || t + 1 == |ei| || ei[t + 1].tlvType != ei[t].tlvType then t + 1
    else SkipToNext(ei, t + 1, level)
  }

  /** Every element lies in the struct and is well formed by itself. */
  predicate ElemOk(ei: seq<Elem>, t: nat, size: nat)
    requires t < |ei|
  {
    var e := ei[t];
    && Inside(e, size)
    && (if e.kind.OptFlag? then e.arrayType.NoArray?
        else if e.kind.DataLen? then e.arrayType.NoArray? && e.elemSize in {1, 2, 4} && t + 1 < |ei| && PayloadOk(ei[t + 1])
        else PayloadOk(e))
  }

  predicate ElemsOk(ei: seq<Elem>, size: nat) {
    forall t | 0 <= t < |ei| :: ElemOk(ei, t, size)
  }

  function EncodeString(e: Elem, f: seq<byte>, room: int, nested: bool): Result
    requires e.kind.Str? && PayloadOk(e) && |f| == Extent(e)
  {
    var t := CStr(f);
    var w := StrWire(e, t, nested);
    if |t| == |f| then Overrun
    else if |w| + (if nested then 0 else TLV_HEADER) > room then Rejected
    else if |w| + TLV_HEADER > room then Overrun
    else Encoded(w)
  }

  function EncodeStructs(e: Elem, n: nat, b: seq<byte>, room: int, acc: seq<byte>): Result
    requires e.kind.Struct? && Shape(e.sub, 0, e.elemSize, true)
    requires Span(n, e.elemSize) <= |b|
    decreases e, n, 0
  {
    if n == 0 then Encoded(acc)
    else
      ShapeElems(e.sub, 0, e.elemSize, true);
      match EncodeFrom(e.sub, 0, b[..e.elemSize], room - |acc|, 2, [], [], 0)
      case Encoded(w) => EncodeStructs(e, n - 1, b[e.elemSize..], room, acc + w)
      case r => r
  }

  function EncodePayload(e: Elem, n: nat, f: seq<byte>, room: int, nested: bool): Result
    requires PayloadOk(e) && n <= Capacity(e) && |f| == Extent(e)
    decreases e, n, 1
  {
    SpanMono(n, Capacity(e), e.elemSize);
    if e.kind.Basic? then
      if Span(n, e.elemSize) + TLV_HEADER > room then Rejected else Encoded(f[..Span(n, e.elemSize)])
    else if e.kind.Struct? then EncodeStructs(e, n, f, room, [])
    else EncodeString(e, f, room, nested)
  }

  /** The encode loop from element `t` on. */
  function EncodeFrom(ei: seq<Elem>, t: nat, s: seq<byte>, room: int, level: nat,
                      done: seq<byte>, open: seq<byte>, dlv: nat): Result
    requires t <= |ei| && ElemsOk(ei, |s|)
    decreases ei, |ei| - t, 2
  {
    if t == |ei| then Encoded(done + open)
    else
      var e := ei[t];
      var left := room - |done| - |open|;
      assert ElemOk(ei, t, |s|);
      if e.arrayType.VarLenArray? && (dlv == 0 || e.elemLen < dlv) then Rejected
      else if e.kind.OptFlag? then
        EncodeFrom(ei, if Field(s, e)[0] != 0 then t + 1 else SkipToNext(ei, t, level), s, room, level, done, open, 1)
      else if e.kind.DataLen? then
        var c := CountField(e, s);
        var open1 := open + LeBytes(c, CountSize(e));
        if CountSize(e) + TLV_HEADER > left then Rejected
        else if c != 0 then EncodeFrom(ei, t + 1, s, room, level, done, open1, c)
        else if level == 1 then
          EncodeFrom(ei, SkipToNext(ei, t + 1, level), s, room, level, done + Tlv(e.tlvType, open1), [], 0)
        else EncodeFrom(ei, SkipToNext(ei, t + 1, level), s, room, level, done, open1, 0)
      else
        var n := if e.arrayType.VarLenArray? then dlv else Capacity(e);
        match EncodePayload(e, n, Field(s, e), left, level > 1)
        case Encoded(w) =>
          if level == 1 then EncodeFrom(ei, t + 1, s, room, level, done + Tlv(e.tlvType, open + w), [], n)
          else EncodeFrom(ei, t + 1, s, room, level, done, open + w, n)
        case r => r
  }

  lemma {:induction false} ShapeElems(ei: seq<Elem>, i: nat, size: nat, nested: bool)
    requires Shape(ei, i, size, nested)
    ensures forall t | i <= t < |ei| :: ElemOk(ei, t, size)
    decreases |ei| - i
  {
    if i < |ei| {
      ShapeElems(ei, NextGroup(ei, i), size, nested);
      var p, q := AfterFlag(ei, i), PayloadIdx(ei, i);
      assert PayloadOk(ei[q]);
      assert ElemOk(ei, i, size) && ElemOk(ei, p, size) && ElemOk(ei, q, size);
      forall t | i <= t < |ei| ensures ElemOk(ei, t, size) {
        assert t == i || t == p || t == q || NextGroup(ei, i) <= t;
      }
    }
  }

  // ---------------------------------------------------------------------
  // Which structs the encoder accepts

  /** The length left over when the group at `i` is done. */
  function LengthAfter(ei: seq<Elem>, i: nat, s: seq<byte>, nested: bool, dlv: nat): nat
    requires i < |ei| && GroupOk(ei, i, |s|, nested)
  {
    var e := ei[PayloadIdx(ei, i)];
    if !nested && !Present(ei, i, s) then 1
    else if Counted(ei, i) then CountField(ei[AfterFlag(ei, i)], s)
    else if e.arrayType.VarLenArray? then if ei[i].kind.OptFlag? then 1 else dlv
    else Capacity(e)
  }

  /** Counts stay within their arrays, strings are terminated, and a string
      declared as a variable-length array finds a usable length. */
  predicate Accepts(ei: seq<Elem>, i: nat, s: seq<byte>, nested: bool, dlv: nat)
    requires Shape(ei, i, |s|, nested)
    decreases ei, |ei| - i, 1
  {
    i < |ei| ==>
      && ((!nested && !Present(ei, i, s)) || AcceptsGroup(ei, i, s, nested, dlv))
      && Accepts(ei, NextGroup(ei, i), s, nested, LengthAfter(ei, i, s, nested, dlv))
  }

  predicate AcceptsGroup(ei: seq<Elem>, i: nat, s: seq<byte>, nested: bool, dlv: nat)
    requires i < |ei| && GroupOk(ei, i, |s|, nested)
    decreases ei, |ei| - i, 0
  {
    var e := ei[PayloadIdx(ei, i)];
    var d := if ei[i].kind.OptFlag? then 1 else dlv;
    && (Counted(ei, i) ==> CountField(ei[AfterFlag(ei, i)], s) <= e.elemLen)
    && (!Counted(ei, i) && e.arrayType.VarLenArray? ==> 0 < d <= e.elemLen)
    && AcceptsPayload(e, Count(ei, i, s, nested), Field(s, e))
  }

  predicate AcceptsPayload(e: Elem, n: nat, f: seq<byte>)
    requires PayloadOk(e) && n <= Capacity(e) && |f| == Extent(e)
    decreases e, n, 1
  {
    && (e.kind.Str? ==> |CStr(f)| < e.elemLen)
    && (e.kind.Struct? ==> (SpanMono(n, Capacity(e), e.elemSize); AcceptsElems(e, n, f)))
  }

  predicate AcceptsElems(e: Elem, n: nat, b: seq<byte>)
    requires e.kind.Struct? && Shape(e.sub, 0, e.elemSize, true)
    requires Span(n, e.elemSize) <= |b|
    decreases e, n, 0
  {
    n == 0 ||
    (&& Accepts(e.sub, 0, b[..e.elemSize], true, 0)
     && AcceptsElems(e, n - 1, b[e.elemSize..]))
  }

  /** The encoder as it is called on a whole message struct. */
  function Encode(ei: seq<Elem>, s: seq<byte>, room: nat): Result
    requires Shape(ei, 0, |s|, false)
  {
    ShapeElems(ei, 0, |s|, false);
    EncodeFrom(ei, 0, s, room, 1, [], [], 0)
  }
}

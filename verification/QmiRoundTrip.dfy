/**
 Decoding what was encoded gives back what the owner of the struct had put in.
 */
module QmiRoundTrip {
  import opened Basics
  import opened QmiSchema
  import opened QmiWire
  import opened QmiDecode

  // ---------------------------------------------------------------------
  // Schemas for which the round trip holds

  predicate Disjoint(a: Elem, b: Elem) {
    a.offset + Extent(a) <= b.offset || b.offset + Extent(b) <= a.offset
  }

  /** No array of the same table is so long that its length would leave bits
      above a count that is read later (a count overwrites only its own bytes). */
  predicate StaleSafe(ei: seq<Elem>) {
    DlvOk(ei, 1) &&
    forall d, j {:trigger StalePair(ei[d], ei[j])} | 0 <= d < |ei| && 0 <= j < |ei| :: StalePair(ei[d], ei[j])
  }

  predicate StalePair(e: Elem, other: Elem) {
    other.arrayType.StaticArray? || TakesCount(other) ==> LengthOk(e, other.elemLen)
  }

  /** Reading element `e` is not disturbed by a length `d` left over from an
      earlier element. */
  predicate LengthOk(e: Elem, d: nat) {
    && (e.kind.DataLen? ==> d < CountBound(CountSize(e)))
    && (e.kind.Str? && e.arrayType.VarLenArray? ==> d <= e.elemLen)
  }

  predicate Sound(ei: seq<Elem>)
    decreases ei
  {
    && (forall j, k {:trigger Disjoint(ei[j], ei[k])} | 0 <= j < |ei| && 0 <= k < |ei| && j != k :: Disjoint(ei[j], ei[k]))
    && StaleSafe(ei)
    && (forall k {:trigger Sound(ei[k].sub)} | 0 <= k < |ei| && ei[k].kind.Struct? :: Sound(ei[k].sub))
  }

  predicate DlvOk(ei: seq<Elem>, dlv: nat) {
    forall k {:trigger LengthOk(ei[k], dlv)} | 0 <= k < |ei| :: LengthOk(ei[k], dlv)
  }

  // ---------------------------------------------------------------------
  // Writing one field

  lemma PutField(s: seq<byte>, e: Elem, b: seq<byte>)
    requires Inside(e, |s|) && |b| == Extent(e)
    ensures Field(Put(s, e.offset, b), e) == b
  {
  }

  lemma PutOther(s: seq<byte>, e: Elem, b: seq<byte>, o: Elem)
    requires Inside(e, |s|) && |b| == Extent(e)
    requires Inside(o, |s|) && Disjoint(e, o)
    ensures Field(Put(s, e.offset, b), o) == Field(s, o)
  {
    var r := Put(s, e.offset, b);
    if e.offset + Extent(e) <= o.offset {
      assert r[o.offset..] == s[o.offset..];
      assert r[o.offset..][..Extent(o)] == Field(r, o);
      assert s[o.offset..][..Extent(o)] == Field(s, o);
    } else {
      assert r[..o.offset + Extent(o)] == s[..o.offset + Extent(o)];
    }
  }

  /** The four bytes that the decoder stores hold the count at the width the
      schema declares. */
  lemma StoredCount(d: nat, size: nat)
    requires size in {1, 2, 4} && d < 65536 && (size == 1 ==> d < 256)
    ensures LeValue(Le4Bytes(d)[..size]) == d
  {
    var b := Le4Bytes(d)[..size];
    assert LeValue(b[1..]) == if size == 1 then 0 else (b[1] as int) + 256 * LeValue(b[2..]);
    if size == 4 {
      assert LeValue(b[2..]) == (b[2] as int) + 256 * LeValue(b[3..]);
      assert LeValue(b[3..]) == (b[3] as int) + 256 * LeValue(b[4..]);
    }
  }

  lemma {:induction false} CStrExact(t: seq<byte>, rest: seq<byte>)
    requires forall k | 0 <= k < |t| :: t[k] != 0
    ensures CStr(t + [0] + rest) == t
  {
    if |t| > 0 {
      assert (t + [0] + rest)[1..] == t[1..] + [0] + rest;
      CStrExact(t[1..], rest);
    }
  }

  // ---------------------------------------------------------------------
  // Frame: a group's view depends on the group's own fields only

  lemma GroupViewFrame(ei: seq<Elem>, i: nat, a: seq<byte>, b: seq<byte>, nested: bool)
    requires |a| == |b| && i < |ei| && GroupOk(ei, i, |a|, nested)
    requires Field(a, ei[i]) == Field(b, ei[i])
    requires Field(a, ei[AfterFlag(ei, i)]) == Field(b, ei[AfterFlag(ei, i)])
    requires Field(a, ei[PayloadIdx(ei, i)]) == Field(b, ei[PayloadIdx(ei, i)])
    ensures GroupViewOf(ei, i, a, nested) == GroupViewOf(ei, i, b, nested)
  {
  }

  // ---------------------------------------------------------------------
  // Strings

  lemma StringRT(e: Elem, src: seq<byte>, dst: seq<byte>, tail: seq<byte>, tlvLen: nat, nested: bool)
    returns (out: seq<byte>)
    requires e.kind.Str? && PayloadOk(e) && |src| == |dst| == Extent(e)
    requires |CStr(src)| < e.elemLen
    requires nested ==> |CStr(src)| < CountBound(PrefixSize(e))
    requires if nested then |StrWire(e, CStr(src), true)| <= tlvLen else tlvLen == |CStr(src)|
    ensures DecodeString(e, dst, StrWire(e, CStr(src), nested) + tail, tlvLen, nested)
         == Done(|StrWire(e, CStr(src), nested)|, out)
    ensures |out| == |dst| && CStr(out) == CStr(src)
  {
    var t := CStr(src);
    out := Put(dst, 0, t + [0]);
    assert out == t + [0] + dst[|t| + 1..];
    CStrExact(t, dst[|t| + 1..]);
    if nested {
      PrefixedString(e, t, dst, tail, tlvLen);
    } else {
      assert StrWire(e, t, nested) == t;
      assert (t + tail)[0..|t|] == t;
    }
  }

  lemma PrefixedString(e: Elem, t: seq<byte>, dst: seq<byte>, tail: seq<byte>, tlvLen: nat)
    requires e.kind.Str? && PayloadOk(e) && |dst| == Extent(e)
    requires |t| < e.elemLen && |t| < CountBound(PrefixSize(e)) && PrefixSize(e) + |t| <= tlvLen
    ensures DecodeString(e, dst, StrWire(e, t, true) + tail, tlvLen, true)
         == Done(PrefixSize(e) + |t|, Put(dst, 0, t + [0]))
  {
    var pre := PrefixSize(e);
    var inp := StrWire(e, t, true) + tail;
    assert inp == LeBytes(|t|, pre) + (t + tail);
    assert inp[..pre] == LeBytes(|t|, pre);
    assert inp[pre..pre + |t|] == t;
    LeRoundTrip(|t|, pre);
  }

  // ---------------------------------------------------------------------
  // Every nested group puts at least one byte on the wire

  lemma PayloadNonEmpty(e: Elem, n: nat, f: seq<byte>)
    requires PayloadOk(e) && 0 < n <= Capacity(e) && |f| == Extent(e)
    ensures |PayloadWire(e, n, f, true)| >= 1
    decreases e, 0
  {
    SpanMono(n, Capacity(e), e.elemSize);
    if e.kind.Struct? {
      assert Shape(e.sub, 0, e.elemSize, true);
      WireNonEmpty(e.sub, 0, f[..e.elemSize]);
    }
  }

  lemma GroupNonEmpty(ei: seq<Elem>, i: nat, s: seq<byte>)
    requires i < |ei| && GroupOk(ei, i, |s|, true)
    ensures |GroupWire(ei, i, s, true)| >= 1
    decreases ei, 0
  {
    var e := ei[PayloadIdx(ei, i)];
    if !Counted(ei, i) {
      PayloadNonEmpty(e, Count(ei, i, s, true), Field(s, e));
    }
  }

  lemma WireNonEmpty(ei: seq<Elem>, i: nat, s: seq<byte>)
    requires i < |ei| && Shape(ei, i, |s|, true)
    ensures |Wire(ei, i, s, true)| >= 1
    decreases ei, 1
  {
    GroupNonEmpty(ei, i, s);
  }

  // ---------------------------------------------------------------------
  // The round trip, by mutual induction over groups, struct arrays and structs

  lemma StructsWireCons(e: Elem, n: nat, src: seq<byte>, tail: seq<byte>)
    requires e.kind.Struct? && Shape(e.sub, 0, e.elemSize, true)
    requires n > 0 && Span(n, e.elemSize) <= |src|
    ensures var w0, w1 := Wire(e.sub, 0, src[..e.elemSize], true), StructsWire(e, n - 1, src[e.elemSize..]);
            |StructsWire(e, n, src)| == |w0| + |w1| && StructsWire(e, n, src) + tail == w0 + (w1 + tail)
  {
  }

  lemma WireCons(ei: seq<Elem>, i: nat, src: seq<byte>, tail: seq<byte>)
    requires i < |ei| && Shape(ei, i, |src|, true)
    ensures var w0, w1 := GroupWire(ei, i, src, true), Wire(ei, NextGroup(ei, i), src, true);
            |Wire(ei, i, src, true)| == |w0| + |w1| && Wire(ei, i, src, true) + tail == w0 + (w1 + tail)
  {
  }

  lemma StructsStep(e: Elem, n: nat, dst: seq<byte>, w0: seq<byte>, rest: seq<byte>, room: nat, level: nat,
                    b0: seq<byte>, b1: seq<byte>, c: nat)
    requires e.kind.Struct? && Shape(e.sub, 0, e.elemSize, true)
    requires n > 0 && Span(n, e.elemSize) <= |dst| && level >= 2 && room < U32 && 0 < |w0| <= room
    requires DecodeNested(e.sub, 0, dst[..e.elemSize], w0 + rest, room, 0, level) == Done(|w0|, b0)
    requires DecodeStructs(e, n - 1, dst[e.elemSize..], rest, room - |w0|, level) == Done(c, b1)
    ensures DecodeStructs(e, n, dst, w0 + rest, room, level) == Done(|w0| + c, b0 + b1)
  {
    hide DecodeNested;
    assert (w0 + rest)[|w0|..] == rest;
  }

  lemma ViewElemsCons(e: Elem, n: nat, src: seq<byte>, b0: seq<byte>, b1: seq<byte>)
    requires e.kind.Struct? && Shape(e.sub, 0, e.elemSize, true)
    requires n > 0 && Span(n, e.elemSize) <= |src| && |src| == |b0 + b1| && e.elemSize == |b0|
    requires View(e.sub, 0, b0, true) == View(e.sub, 0, src[..e.elemSize], true)
    requires ViewElems(e, n - 1, b1) == ViewElems(e, n - 1, src[e.elemSize..])
    ensures ViewElems(e, n, b0 + b1) == ViewElems(e, n, src)
  {
    assert (b0 + b1)[..e.elemSize] == b0 && (b0 + b1)[e.elemSize..] == b1;
  }

  lemma {:induction false} StructsRT(e: Elem, n: nat, src: seq<byte>, dst: seq<byte>, tail: seq<byte>, room: nat, level: nat)
    returns (out: seq<byte>)
    requires e.kind.Struct? && |e.sub| > 0 && Shape(e.sub, 0, e.elemSize, true) && Sound(e.sub)
    requires Span(n, e.elemSize) <= |src| && |src| == |dst| && level >= 2 && room < U32
    requires FitsElems(e, n, src)
    requires |StructsWire(e, n, src)| <= room
    requires level == 2 ==> |StructsWire(e, n, src)| == room
    ensures DecodeStructs(e, n, dst, StructsWire(e, n, src) + tail, room, level) == Done(|StructsWire(e, n, src)|, out)
    ensures |out| == |dst| && ViewElems(e, n, out) == ViewElems(e, n, src)
    decreases e, n
  {
    hide Wire, View, DecodeNested, Fits;
    if n == 0 {
      assert StructsWire(e, n, src) + tail == tail;
      return dst;
    }
    var sz := e.elemSize;
    var w0, w1 := Wire(e.sub, 0, src[..sz], true), StructsWire(e, n - 1, src[sz..]);
    StructsWireCons(e, n, src, tail);
    WireNonEmpty(e.sub, 0, src[..sz]);
    var b0 := NestedRT(e.sub, 0, src[..sz], dst[..sz], w1 + tail, room, 0, level);
    var b1 := StructsRT(e, n - 1, src[sz..], dst[sz..], tail, room - |w0|, level);
    StructsGlue(e, n, src, dst, tail, room, level, b0, b1);
    out := b0 + b1;
  }

  lemma StructsGlue(e: Elem, n: nat, src: seq<byte>, dst: seq<byte>, tail: seq<byte>, room: nat, level: nat,
                    b0: seq<byte>, b1: seq<byte>)
    requires e.kind.Struct? && Shape(e.sub, 0, e.elemSize, true)
    requires n > 0 && Span(n, e.elemSize) <= |src| && |src| == |dst| == |b0| + |b1| && level >= 2 && room < U32 && |b0| == e.elemSize
    requires 0 < |Wire(e.sub, 0, src[..e.elemSize], true)| <= room
    requires var sz := e.elemSize;
             var w0, w1 := Wire(e.sub, 0, src[..sz], true), StructsWire(e, n - 1, src[sz..]);
             && DecodeNested(e.sub, 0, dst[..sz], w0 + (w1 + tail), room, 0, level) == Done(|w0|, b0)
             && DecodeStructs(e, n - 1, dst[sz..], w1 + tail, room - |w0|, level) == Done(|w1|, b1)
             && View(e.sub, 0, b0, true) == View(e.sub, 0, src[..sz], true)
             && ViewElems(e, n - 1, b1) == ViewElems(e, n - 1, src[sz..])
    ensures DecodeStructs(e, n, dst, StructsWire(e, n, src) + tail, room, level) == Done(|StructsWire(e, n, src)|, b0 + b1)
    ensures ViewElems(e, n, b0 + b1) == ViewElems(e, n, src)
  {
    hide Wire, View, DecodeNested;
    var w0, w1 := Wire(e.sub, 0, src[..e.elemSize], true), StructsWire(e, n - 1, src[e.elemSize..]);
    StructsWireCons(e, n, src, tail);
    StructsStep(e, n, dst, w0, w1 + tail, room, level, b0, b1, |w1|);
    ViewElemsCons(e, n, src, b0, b1);
  }

  /** The length that decoding a payload leaves behind. */
  function LeftOver(e: Elem, dlv: nat): nat {
    if e.arrayType.VarLenArray? then dlv else Capacity(e)
  }

  predicate PayloadFits(e: Elem, n: nat, src: seq<byte>, dst: seq<byte>, tlvLen: nat, dlv: nat, level: nat) {
    && PayloadOk(e) && |src| == |dst| == Extent(e)
    && level >= 1 && tlvLen < U32 && n <= Capacity(e)
    && (if TakesCount(e) then n == dlv else n == Capacity(e) && LengthOk(e, dlv))
    && FitsPayload(e, n, src, level > 1)
    && var w := |PayloadWire(e, n, src, level > 1)|;
       if level == 1 then w == tlvLen else w <= tlvLen
  }

  lemma BasicRT(e: Elem, n: nat, src: seq<byte>, dst: seq<byte>, tail: seq<byte>, tlvLen: nat, dlv: nat, level: nat)
    returns (out: seq<byte>)
    requires PayloadFits(e, n, src, dst, tlvLen, dlv, level) && e.kind.Basic?
    ensures DecodePayload(e, dst, PayloadWire(e, n, src, level > 1) + tail, tlvLen, dlv, level)
         == GroupDone(|PayloadWire(e, n, src, level > 1)|, out, LeftOver(e, dlv))
    ensures |out| == |dst| && Span(n, e.elemSize) <= Extent(e) && out[..Span(n, e.elemSize)] == src[..Span(n, e.elemSize)]
  {
    SpanMono(n, Capacity(e), e.elemSize);
    var w := src[..Span(n, e.elemSize)];
    out := Put(dst, 0, w);
    assert (w + tail)[..|w|] == w;
  }

  lemma {:induction false} PayloadRT(e: Elem, n: nat, src: seq<byte>, dst: seq<byte>, tail: seq<byte>, tlvLen: nat, dlv: nat, level: nat)
    returns (out: seq<byte>)
    requires PayloadFits(e, n, src, dst, tlvLen, dlv, level) && (e.kind.Struct? ==> Sound(e.sub))
    ensures DecodePayload(e, dst, PayloadWire(e, n, src, level > 1) + tail, tlvLen, dlv, level)
         == GroupDone(|PayloadWire(e, n, src, level > 1)|, out, LeftOver(e, dlv))
    ensures |out| == |dst| && SamePayload(e, n, out, src)
    decreases e, n + 1
  {
    SpanMono(n, Capacity(e), e.elemSize);
    if e.kind.Basic? {
      out := BasicRT(e, n, src, dst, tail, tlvLen, dlv, level);
    } else if e.kind.Struct? {
      out := StructsRT(e, n, src, dst, tail, tlvLen, level + 1);
      assert PayloadWire(e, n, src, level > 1) == StructsWire(e, n, src);
    } else {
      out := StringRT(e, src, dst, tail, tlvLen, level > 1);
      assert PayloadWire(e, n, src, level > 1) == StrWire(e, CStr(src), level > 1);
    }
  }

  /** Fields outside the group at `i` are the same in `a` and `b`. */
  predicate OthersKept(ei: seq<Elem>, i: nat, a: seq<byte>, b: seq<byte>)
    requires i < |ei| && |a| == |b|
  {
    forall k {:trigger Field(a, ei[k])} {:trigger Field(b, ei[k])} | 0 <= k < |ei| && !(i <= k < NextGroup(ei, i)) && Inside(ei[k], |a|) ::
      Field(a, ei[k]) == Field(b, ei[k])
  }

  lemma PutKeeps(ei: seq<Elem>, i: nat, k: nat, s: seq<byte>, b: seq<byte>)
    requires Sound(ei) && i < |ei| && i <= k < NextGroup(ei, i) && k < |ei|
    requires Inside(ei[k], |s|) && |b| == Extent(ei[k])
    ensures OthersKept(ei, i, s, Put(s, ei[k].offset, b))
  {
    forall j | 0 <= j < |ei| && !(i <= j < NextGroup(ei, i)) && Inside(ei[j], |s|)
      ensures Field(s, ei[j]) == Field(Put(s, ei[k].offset, b), ei[j])
    {
      PutOther(s, ei[k], b, ei[j]);
    }
  }

  /** A count comes back over a left-over length exactly when that length fits the
      bytes of the count. */
  lemma OverlayExact(d: nat, n: nat, size: nat)
    requires size in {1, 2} && n < CountBound(size)
    ensures Overlay(d, LeBytes(n, size)) == n <==> d < CountBound(size)
    ensures d >= CountBound(size) ==> Overlay(d, LeBytes(n, size)) >= CountBound(size)
  {
    LeRoundTrip(n, size);
  }

  function SetCount(ei: seq<Elem>, i: nat, s: seq<byte>, n: nat): (r: seq<byte>)
    requires i < |ei| && GroupOk(ei, i, |s|, false)
    ensures |r| == |s|
  {
    if Counted(ei, i) then Put(s, ei[AfterFlag(ei, i)].offset, Le4Bytes(n)) else s
  }

  /** The struct after a group's flag, count and payload have been written. */
  function Filled(ei: seq<Elem>, i: nat, s: seq<byte>, n: nat, f: seq<byte>): (r: seq<byte>)
    requires i < |ei| && GroupOk(ei, i, |s|, false) && |f| == Extent(ei[PayloadIdx(ei, i)])
    ensures |r| == |s|
  {
    Put(SetCount(ei, i, SetFlag(ei, i, s), n), ei[PayloadIdx(ei, i)].offset, f)
  }

  lemma FilledFields(ei: seq<Elem>, i: nat, s: seq<byte>, n: nat, f: seq<byte>)
    requires i < |ei| && GroupOk(ei, i, |s|, false) && |f| == Extent(ei[PayloadIdx(ei, i)]) && Sound(ei)
    ensures var r := Filled(ei, i, s, n, f);
            && Field(r, ei[PayloadIdx(ei, i)]) == f
            && (Counted(ei, i) ==> Field(r, ei[AfterFlag(ei, i)]) == Le4Bytes(n))
            && (ei[i].kind.OptFlag? ==> Field(r, ei[i]) == [1])
  {
    var p, q := AfterFlag(ei, i), PayloadIdx(ei, i);
    var s1 := SetFlag(ei, i, s);
    var s2 := SetCount(ei, i, s1, n);
    PutField(s2, ei[q], f);
    if Counted(ei, i) {
      PutField(s1, ei[p], Le4Bytes(n));
      PutOther(s2, ei[q], f, ei[p]);
    }
    if ei[i].kind.OptFlag? {
      PutField(s, ei[i], [1]);
      if Counted(ei, i) {
        PutOther(s1, ei[p], Le4Bytes(n), ei[i]);
      }
      PutOther(s2, ei[q], f, ei[i]);
    }
  }

  lemma FilledKeeps(ei: seq<Elem>, i: nat, s: seq<byte>, n: nat, f: seq<byte>)
    requires i < |ei| && GroupOk(ei, i, |s|, false) && |f| == Extent(ei[PayloadIdx(ei, i)]) && Sound(ei)
    ensures OthersKept(ei, i, s, Filled(ei, i, s, n, f))
  {
    var p, q := AfterFlag(ei, i), PayloadIdx(ei, i);
    var s1 := SetFlag(ei, i, s);
    var s2 := SetCount(ei, i, s1, n);
    if ei[i].kind.OptFlag? { PutKeeps(ei, i, i, s, [1]); }
    if Counted(ei, i) { PutKeeps(ei, i, p, s1, Le4Bytes(n)); }
    PutKeeps(ei, i, q, s2, f);
  }

  /** Payload `f` carries the same meaning as the payload of `src`. */
  predicate SamePayload(e: Elem, n: nat, f: seq<byte>, src: seq<byte>)
    requires PayloadOk(e) && n <= Capacity(e)
    requires |f| == |src| == Extent(e)
  {
    SpanMono(n, Capacity(e), e.elemSize);
    if e.kind.Basic? then f[..Span(n, e.elemSize)] == src[..Span(n, e.elemSize)]
    else if e.kind.Struct? then ViewElems(e, n, f) == ViewElems(e, n, src)
    else CStr(f) == CStr(src)
  }

  lemma FilledView(ei: seq<Elem>, i: nat, src: seq<byte>, dst: seq<byte>, f: seq<byte>, nested: bool)
    requires |src| == |dst| && i < |ei| && GroupOk(ei, i, |src|, nested) && GroupOk(ei, i, |src|, false) && Sound(ei)
    requires nested || Present(ei, i, src)
    requires |f| == Extent(ei[PayloadIdx(ei, i)])
    requires var e, n := ei[PayloadIdx(ei, i)], Count(ei, i, src, nested);
             PayloadOk(e) && (Counted(ei, i) ==> n < CountBound(CountSize(ei[AfterFlag(ei, i)]))) && SamePayload(e, n, f, Field(src, e))
    ensures GroupViewOf(ei, i, Filled(ei, i, dst, Count(ei, i, src, nested), f), nested) == GroupViewOf(ei, i, src, nested)
  {
    var e, n := ei[PayloadIdx(ei, i)], Count(ei, i, src, nested);
    FilledFields(ei, i, dst, n, f);
    if Counted(ei, i) { StoredCount(n, ei[AfterFlag(ei, i)].elemSize); }
    var r := Filled(ei, i, dst, n, f);
    assert Count(ei, i, r, nested) == n;
  }

  lemma DecodeCounted(ei: seq<Elem>, i: nat, s: seq<byte>, n: nat, rest: seq<byte>, tlvLen: nat, dlv: nat, level: nat,
                      c: nat, f: seq<byte>, d: nat)
    requires level >= 1 && tlvLen < U32 && i < |ei| && GroupOk(ei, i, |s|, level > 1) && GroupOk(ei, i, |s|, false)
    requires Counted(ei, i) && CountSize(ei[AfterFlag(ei, i)]) <= tlvLen
    requires dlv < CountBound(CountSize(ei[AfterFlag(ei, i)])) && n < CountBound(CountSize(ei[AfterFlag(ei, i)]))
    requires var e := ei[PayloadIdx(ei, i)]; PayloadOk(e)
    requires var e, sz := ei[PayloadIdx(ei, i)], CountSize(ei[AfterFlag(ei, i)]);
             && |f| == Extent(e)
             && DecodePayload(e, Field(SetCount(ei, i, SetFlag(ei, i, s), n), e), rest, tlvLen - sz, n, level) == GroupDone(c, f, d)
    ensures var sz := CountSize(ei[AfterFlag(ei, i)]);
            DecodeGroup(ei, i, s, LeBytes(n, sz) + rest, tlvLen, dlv, level) == GroupDone(sz + c, Filled(ei, i, s, n, f), d)
  {
    hide DecodePayload;
    var sz := CountSize(ei[AfterFlag(ei, i)]);
    OverlayExact(dlv, n, sz);
    assert (LeBytes(n, sz) + rest)[..sz] == LeBytes(n, sz);
    assert (LeBytes(n, sz) + rest)[sz..] == rest;
  }

  lemma DlvOkAfter(ei: seq<Elem>, i: nat, dlv: nat, size: nat, nested: bool)
    requires i < |ei| && GroupOk(ei, i, size, nested) && Sound(ei)
    requires TakesCount(ei[PayloadIdx(ei, i)]) ==> dlv <= ei[PayloadIdx(ei, i)].elemLen
    requires !TakesCount(ei[PayloadIdx(ei, i)]) ==> DlvOk(ei, dlv)
    ensures DlvOk(ei, LeftOver(ei[PayloadIdx(ei, i)], dlv))
  {
    var e := ei[PayloadIdx(ei, i)];
    forall k | 0 <= k < |ei| ensures LengthOk(ei[k], LeftOver(e, dlv)) {
      assert StalePair(ei[k], e) && LengthOk(ei[k], 1);
      assert LengthOk(ei[k], dlv) || TakesCount(e);
    }
  }

  lemma CountsFit(ei: seq<Elem>, i: nat, src: seq<byte>, dlv: nat, nested: bool)
    requires i < |ei| && GroupOk(ei, i, |src|, nested) && Sound(ei) && DlvOk(ei, dlv)
    ensures LengthOk(ei[PayloadIdx(ei, i)], dlv)
    ensures Counted(ei, i) ==>
              var b := CountBound(CountSize(ei[AfterFlag(ei, i)])); dlv < b && Count(ei, i, src, nested) < b
  {
    var p, q := AfterFlag(ei, i), PayloadIdx(ei, i);
    assert LengthOk(ei[p], dlv) && LengthOk(ei[q], dlv);
    assert StalePair(ei[p], ei[q]);
  }

  lemma Assoc(w: seq<byte>, a: seq<byte>, b: seq<byte>, tail: seq<byte>)
    requires w == a + b
    ensures w + tail == a + (b + tail)
  {
  }

  /** The wire form of a group is its count bytes followed by its payload. */
  lemma GroupDecodes(ei: seq<Elem>, i: nat, src: seq<byte>, dst: seq<byte>, tail: seq<byte>, tlvLen: nat, dlv: nat, level: nat,
                     n: nat, f: seq<byte>, d: nat)
    requires level >= 1 && tlvLen < U32 && |src| == |dst|
    requires i < |ei| && GroupOk(ei, i, |src|, level > 1) && GroupOk(ei, i, |src|, false)
    requires n == Count(ei, i, src, level > 1) && |f| == Extent(ei[PayloadIdx(ei, i)])
    requires Counted(ei, i) ==> var sz := CountSize(ei[AfterFlag(ei, i)]); dlv < CountBound(sz) && n < CountBound(sz) && sz <= tlvLen
    requires var e := ei[PayloadIdx(ei, i)];
             var sz := if Counted(ei, i) then CountSize(ei[AfterFlag(ei, i)]) else 0;
             var pw := PayloadWire(e, n, Field(src, e), level > 1);
             DecodePayload(e, Field(SetCount(ei, i, SetFlag(ei, i, dst), n), e), pw + tail, tlvLen - sz,
                           if Counted(ei, i) then n else dlv, level) == GroupDone(|pw|, f, d)
    ensures DecodeGroup(ei, i, dst, GroupWire(ei, i, src, level > 1) + tail, tlvLen, dlv, level)
         == GroupDone(|GroupWire(ei, i, src, level > 1)|, Filled(ei, i, dst, n, f), d)
  {
    var e := ei[PayloadIdx(ei, i)];
    var w := GroupWire(ei, i, src, level > 1);
    var pw := PayloadWire(e, n, Field(src, e), level > 1);
    if Counted(ei, i) {
      var sz := CountSize(ei[AfterFlag(ei, i)]);
      Assoc(w, LeBytes(n, sz), pw, tail);
      DecodeCounted(ei, i, dst, n, pw + tail, tlvLen, dlv, level, |pw|, f, d);
    } else {
      assert w == pw;
    }
  }

  lemma {:induction false} GroupRT(ei: seq<Elem>, i: nat, src: seq<byte>, dst: seq<byte>, tail: seq<byte>, tlvLen: nat, dlv: nat, level: nat)
    returns (out: seq<byte>, n: nat)
    requires level >= 1 && tlvLen < U32 && |src| == |dst|
    requires i < |ei| && GroupOk(ei, i, |src|, level > 1) && Sound(ei) && DlvOk(ei, dlv)
    requires FitsGroup(ei, i, src, level > 1)
    requires level == 1 ==> Present(ei, i, src)
    requires |GroupWire(ei, i, src, level > 1)| <= tlvLen
    requires level == 1 ==> |GroupWire(ei, i, src, false)| == tlvLen
    ensures DecodeGroup(ei, i, dst, GroupWire(ei, i, src, level > 1) + tail, tlvLen, dlv, level)
         == GroupDone(|GroupWire(ei, i, src, level > 1)|, out, n)
    ensures |out| == |dst| && DlvOk(ei, n) && OthersKept(ei, i, dst, out)
    ensures GroupViewOf(ei, i, out, level > 1) == GroupViewOf(ei, i, src, level > 1)
    decreases ei, |ei| - i, 0
  {
    hide PayloadWire, LeBytes, DecodeGroup, DecodePayload, GroupViewOf, Put;
    var e := ei[PayloadIdx(ei, i)];
    var c := Count(ei, i, src, level > 1);
    var s2 := SetCount(ei, i, SetFlag(ei, i, dst), c);
    var sz := if Counted(ei, i) then CountSize(ei[AfterFlag(ei, i)]) else 0;
    var d := if Counted(ei, i) then c else dlv;
    CountsFit(ei, i, src, dlv, level > 1);
    DlvOkAfter(ei, i, d, |src|, level > 1);
    var f := PayloadRT(e, c, Field(src, e), Field(s2, e), tail, tlvLen - sz, d, level);
    n := LeftOver(e, d);
    GroupDecodes(ei, i, src, dst, tail, tlvLen, dlv, level, c, f, n);
    out := Filled(ei, i, dst, c, f);
    FilledView(ei, i, src, dst, f, level > 1);
    FilledKeeps(ei, i, dst, c, f);
  }

  lemma {:induction false} NestedGroupRT(ei: seq<Elem>, i: nat, src: seq<byte>, dst: seq<byte>, tail: seq<byte>, room: nat, dlv: nat, level: nat)
    returns (out: seq<byte>, n: nat)
    requires level >= 2 && room < U32 && |src| == |dst|
    requires i < |ei| && GroupOk(ei, i, |src|, true) && Sound(ei) && DlvOk(ei, dlv) && FitsGroup(ei, i, src, true)
    requires |GroupWire(ei, i, src, true)| <= room
    ensures DecodeGroup(ei, i, dst, GroupWire(ei, i, src, true) + tail, room, dlv, level)
         == GroupDone(|GroupWire(ei, i, src, true)|, out, n)
    ensures |out| == |dst| && DlvOk(ei, n) && FieldsKept(ei, i, dst, out)
    ensures GroupViewOf(ei, i, out, true) == GroupViewOf(ei, i, src, true) && |GroupWire(ei, i, src, true)| > 0
    decreases ei, |ei| - i, 1
  {
    GroupNonEmpty(ei, i, src);
    out, n := GroupRT(ei, i, src, dst, tail, room, dlv, level);
  }

  lemma NestedStep(ei: seq<Elem>, i: nat, dst: seq<byte>, w0: seq<byte>, rest: seq<byte>, room: nat, dlv: nat, level: nat,
                   s1: seq<byte>, n: nat, s2: seq<byte>, c: nat)
    requires i < |ei| && Shape(ei, i, |dst|, true) && level >= 2 && 0 < |w0| <= room < U32 && |s1| == |dst|
    requires DecodeGroup(ei, i, dst, w0 + rest, room, dlv, level) == GroupDone(|w0|, s1, n)
    requires DecodeNested(ei, NextGroup(ei, i), s1, rest, room - |w0|, n, level) == Done(c, s2)
    ensures DecodeNested(ei, i, dst, w0 + rest, room, dlv, level) == Done(|w0| + c, s2)
  {
    hide DecodeGroup;
    assert (w0 + rest)[|w0|..] == rest;
  }

  lemma KeptView(ei: seq<Elem>, i: nat, src: seq<byte>, s1: seq<byte>, s2: seq<byte>)
    requires i < |ei| && |src| == |s1| == |s2| && Shape(ei, i, |src|, true)
    requires GroupViewOf(ei, i, s1, true) == GroupViewOf(ei, i, src, true)
    requires FieldsKept(ei, NextGroup(ei, i), s1, s2)
    requires View(ei, NextGroup(ei, i), s2, true) == View(ei, NextGroup(ei, i), src, true)
    ensures View(ei, i, s2, true) == View(ei, i, src, true)
  {
    GroupViewFrame(ei, i, s1, s2, true);
  }

  lemma {:induction false} NestedRT(ei: seq<Elem>, i: nat, src: seq<byte>, dst: seq<byte>, tail: seq<byte>, room: nat, dlv: nat, level: nat)
    returns (out: seq<byte>)
    requires |src| == |dst| && Shape(ei, i, |src|, true) && Sound(ei) && DlvOk(ei, dlv)
    requires level >= 2 && room < U32
    requires Fits(ei, i, src, true)
    requires |Wire(ei, i, src, true)| <= room
    ensures DecodeNested(ei, i, dst, Wire(ei, i, src, true) + tail, room, dlv, level) == Done(|Wire(ei, i, src, true)|, out)
    ensures |out| == |dst| && FieldsKept(ei, i, dst, out)
    ensures View(ei, i, out, true) == View(ei, i, src, true)
    decreases ei, |ei| - i, 2
  {
    hide GroupWire, GroupViewOf, DecodeGroup, FitsGroup;
    if i == |ei| {
      assert Wire(ei, i, src, true) + tail == tail;
      return dst;
    }
    var j := NextGroup(ei, i);
    var w0, w1 := GroupWire(ei, i, src, true), Wire(ei, j, src, true);
    WireCons(ei, i, src, tail);
    var s1, n := NestedGroupRT(ei, i, src, dst, w1 + tail, room, dlv, level);
    out := NestedRT(ei, j, src, s1, tail, room - |w0|, n, level);
    NestedGlue(ei, i, src, dst, tail, room, dlv, level, s1, n, out);
  }

  lemma NestedGlue(ei: seq<Elem>, i: nat, src: seq<byte>, dst: seq<byte>, tail: seq<byte>, room: nat, dlv: nat, level: nat,
                   s1: seq<byte>, n: nat, out: seq<byte>)
    requires i < |ei| && |src| == |dst| == |s1| == |out| && Shape(ei, i, |src|, true) && level >= 2 && room < U32
    requires 0 < |GroupWire(ei, i, src, true)| <= room
    requires var j := NextGroup(ei, i);
             var w0, w1 := GroupWire(ei, i, src, true), Wire(ei, j, src, true);
             && DecodeGroup(ei, i, dst, w0 + (w1 + tail), room, dlv, level) == GroupDone(|w0|, s1, n)
             && DecodeNested(ei, j, s1, w1 + tail, room - |w0|, n, level) == Done(|w1|, out)
             && FieldsKept(ei, i, dst, s1) && FieldsKept(ei, j, s1, out)
             && GroupViewOf(ei, i, s1, true) == GroupViewOf(ei, i, src, true)
             && View(ei, j, out, true) == View(ei, j, src, true)
    ensures DecodeNested(ei, i, dst, Wire(ei, i, src, true) + tail, room, dlv, level) == Done(|Wire(ei, i, src, true)|, out)
    ensures FieldsKept(ei, i, dst, out) && View(ei, i, out, true) == View(ei, i, src, true)
  {
    hide GroupWire, GroupViewOf, DecodeGroup;
    var w0, w1 := GroupWire(ei, i, src, true), Wire(ei, NextGroup(ei, i), src, true);
    WireCons(ei, i, src, tail);
    NestedStep(ei, i, dst, w0, w1 + tail, room, dlv, level, s1, n, out, |w1|);
    KeptView(ei, i, src, s1, out);
  }

  /** Fields of the elements before `i` are the same in `a` and `b`. */
  predicate FieldsKept(ei: seq<Elem>, i: nat, a: seq<byte>, b: seq<byte>)
    requires i <= |ei| && |a| == |b|
  {
    forall k {:trigger Field(a, ei[k])} {:trigger Field(b, ei[k])} | 0 <= k < i && Inside(ei[k], |a|) :: Field(a, ei[k]) == Field(b, ei[k])
  }
}

/**
 Where the decoder's own limits lie.  A count overwrites only its own bytes of the
 running length: exactly which left-over lengths let a count come back, and a schema
 whose messages are encoded and then refused.  A string needs a place for its
 terminating NUL: exactly which lengths leave one.
 */
module QmiLimits {
  import opened Basics
  import opened QmiSchema
  import opened QmiWire
  import opened QmiDecode
  import opened QmiRoundTrip
  import opened QmiMessage
  import opened QmiEncode
  import opened QmiEncodeExact

  /** How a counted group goes on after its count bytes, for any left-over length: with
      the count itself exactly when the length fits the bytes of the count. */
  lemma CountComesBack(ei: seq<Elem>, i: nat, s: seq<byte>, n: nat, rest: seq<byte>, tlvLen: nat, dlv: nat, level: nat)
    requires level >= 1 && tlvLen < U32 && i < |ei| && GroupOk(ei, i, |s|, level > 1) && Counted(ei, i)
    requires n < CountBound(CountSize(ei[AfterFlag(ei, i)]))
    ensures var p, e, sz := AfterFlag(ei, i), ei[PayloadIdx(ei, i)], CountSize(ei[AfterFlag(ei, i)]);
            var d := Overlay(dlv, LeBytes(n, sz));
            var s1 := Put(SetFlag(ei, i, s), ei[p].offset, Le4Bytes(d));
            && DecodeGroup(ei, i, s, LeBytes(n, sz) + rest, tlvLen, dlv, level)
               == DecodeInto(e, s1, rest, Sub32(tlvLen, sz), d, level, sz)
            && (d == n <==> dlv < CountBound(sz))
  {
    hide DecodeInto, LeBytes, Overlay;
    var sz := CountSize(ei[AfterFlag(ei, i)]);
    OverlayExact(dlv, n, sz);
    assert (LeBytes(n, sz) + rest)[..sz] == LeBytes(n, sz);
    assert (LeBytes(n, sz) + rest)[sz..] == rest;
  }

  /** If the array is shorter than that, a left-over length that does not fit makes
      the group invalid, whatever its bytes. */
  lemma StaleRefused(ei: seq<Elem>, i: nat, s: seq<byte>, n: nat, rest: seq<byte>, tlvLen: nat, dlv: nat, level: nat)
    requires level >= 1 && tlvLen < U32 && i < |ei| && GroupOk(ei, i, |s|, level > 1) && Counted(ei, i)
    requires var b := CountBound(CountSize(ei[AfterFlag(ei, i)]));
             n < b && dlv >= b && ei[PayloadIdx(ei, i)].elemLen < b
    ensures DecodeGroup(ei, i, s, LeBytes(n, CountSize(ei[AfterFlag(ei, i)])) + rest, tlvLen, dlv, level) == GroupFail(EINVAL)
  {
    hide LeBytes, Overlay, DecodeGroup;
    CountComesBack(ei, i, s, n, rest, tlvLen, dlv, level);
    OverlayExact(dlv, n, CountSize(ei[AfterFlag(ei, i)]));
  }

  /** In a message: a TLV that leaves such a length makes a counted TLV right behind
      it invalid. */
  lemma StaleMessage(ei: seq<Elem>, s: seq<byte>, w: seq<byte>, g: nat, n: nat, body: seq<byte>, dlv: nat, s1: seq<byte>, d: nat)
    requires TopShape(ei, |s|) && |s1| == |s| && |w| >= TLV_HEADER
    requires g < |ei| && FindEi(ei, ei[g].tlvType) == g && GroupOk(ei, g, |s|, false) && Counted(ei, g)
    requires var sz := CountSize(ei[AfterFlag(ei, g)]);
             n < CountBound(sz) && d >= CountBound(sz) && ei[PayloadIdx(ei, g)].elemLen < CountBound(sz)
             && sz + |body| < 65536
    requires var t := Tlv(ei[g].tlvType, LeBytes(n, CountSize(ei[AfterFlag(ei, g)])) + body);
             StepTop(ei, s, w + t, dlv) == Next(|w|, s1, d)
    ensures var t := Tlv(ei[g].tlvType, LeBytes(n, CountSize(ei[AfterFlag(ei, g)])) + body);
            DecodeTop(ei, s, w + t, |w + t|, dlv) == Fail(EINVAL)
  {
    hide LeBytes, DecodeGroup, Tlv;
    var gw := LeBytes(n, CountSize(ei[AfterFlag(ei, g)])) + body;
    var t := Tlv(ei[g].tlvType, gw);
    assert Drop(w + t, |w|) == t;
    TlvHeader(ei[g].tlvType, gw, []);
    assert t + [] == t;
    StaleRefused(ei, g, s1, n, body, |gw|, d, 1);
    assert gw + [] == gw;
    assert StepTop(ei, s1, t, d) == Stop(Fail(EINVAL));
  }

  // ---------------------------------------------------------------------
  // A schema with a long array before a one-byte count

  const LONG := Elem(Basic, 300, 1, StaticArray, 1, 0, [])
  const COUNT := Elem(DataLen, 1, 1, NoArray, 2, 300, [])
  const SHORT := Elem(Basic, 10, 1, VarLenArray, 2, 304, [])
  const TABLE := [LONG, COUNT, SHORT]
  const SIZE := 314

  lemma TableOk()
    ensures Shape(TABLE, 0, SIZE, false) && Typed(TABLE, 0)
    ensures forall j, k | 0 <= j < 3 && 0 <= k < 3 && j != k :: Disjoint(TABLE[j], TABLE[k])
    ensures GroupOk(TABLE, 0, SIZE, false) && GroupOk(TABLE, 1, SIZE, false) && Extent(LONG) == 300 && Extent(SHORT) == 10
    ensures NextGroup(TABLE, 0) == 1 && NextGroup(TABLE, 1) == 3 && Counted(TABLE, 1) && PayloadIdx(TABLE, 1) == 2
    ensures AfterFlag(TABLE, 1) == 1 && !Counted(TABLE, 0) && PayloadIdx(TABLE, 0) == 0
  {
    SpanIsProduct(300, 1);
    SpanIsProduct(10, 1);
    assert GroupOk(TABLE, 0, SIZE, false) && GroupOk(TABLE, 1, SIZE, false);
    assert Shape(TABLE, 3, SIZE, false);
    assert Shape(TABLE, 1, SIZE, false);
    assert Typed(TABLE, 3);
    assert Typed(TABLE, 1);
  }

  lemma TableFinds()
    ensures FindEi(TABLE, 1) == 0 && FindEi(TABLE, 2) == 1 && TopShape(TABLE, SIZE)
  {
    TableOk();
    assert TABLE[1..][0].tlvType == 2;
    forall t: byte | FindEi(TABLE, t) < |TABLE| ensures GroupOk(TABLE, FindEi(TABLE, t), SIZE, false) {
      var k := FindEi(TABLE, t);
      assert TABLE[1].tlvType == TABLE[2].tlvType;
      assert k != 2;
    }
  }

  /** The two TLVs of a struct. */
  lemma TableWire(s: seq<byte>) returns (n: nat, body: seq<byte>)
    requires |s| == SIZE && s[300] <= 10 && Shape(TABLE, 0, SIZE, false)
    ensures n == s[300] && |body| <= 10
    ensures Wire(TABLE, 0, s, false) == Tlv(1, s[..300]) + Tlv(2, LeBytes(n, 1) + body)
    ensures Accepts(TABLE, 0, s, false, 0)
  {
    hide Tlv, LeBytes, Span;
    TableOk();
    SpanIsProduct(300, 1);
    n := s[300];
    SpanIsProduct(n, 1);
    assert LeValue(s[301..301]) == 0;
    assert Field(s, COUNT)[..1] == [s[300]] && LeValue([s[300]]) == s[300];
    body := Field(s, SHORT)[..n];
    assert GroupWire(TABLE, 0, s, false) == s[..300];
    assert GroupWire(TABLE, 1, s, false) == LeBytes(n, 1) + body;
    assert Wire(TABLE, 3, s, false) == [];
    assert Wire(TABLE, 1, s, false) == Tlv(2, LeBytes(n, 1) + body);
    TableAccepted(s);
  }

  lemma TableAccepted(s: seq<byte>)
    requires |s| == SIZE && s[300] <= 10 && Shape(TABLE, 0, SIZE, false)
    ensures Accepts(TABLE, 0, s, false, 0)
  {
    hide Span;
    TableOk();
    assert Field(s, COUNT)[..1] == [s[300]];
    assert LeValue([s[300]]) == s[300] by { assert LeValue([s[300]][1..]) == 0; }
    var d0 := LengthAfter(TABLE, 0, s, false, 0);
    var d1 := LengthAfter(TABLE, 1, s, false, d0);
    assert AcceptsGroup(TABLE, 1, s, false, d0);
    assert Accepts(TABLE, 3, s, false, d1);
    assert Accepts(TABLE, 1, s, false, d0);
    assert AcceptsGroup(TABLE, 0, s, false, 0);
  }

  /** The long array decodes and leaves its length. */
  lemma LongDecodes(dst: seq<byte>, a: seq<byte>, rest: seq<byte>) returns (s1: seq<byte>)
    requires |dst| == SIZE && |a| == 300 && TopShape(TABLE, SIZE)
    ensures |s1| == SIZE && StepTop(TABLE, dst, Tlv(1, a) + rest, 0) == Next(303, s1, 300)
  {
    hide Tlv, Span, StepTop;
    TableOk();
    TableFinds();
    SpanIsProduct(300, 1);
    s1 := Put(dst, 0, Put(Field(dst, LONG), 0, (a + rest)[..300]));
    assert DecodePayload(LONG, Field(dst, LONG), a + rest, 300, 0, 1)
        == GroupDone(300, Put(Field(dst, LONG), 0, (a + rest)[..300]), 300);
    assert DecodeGroup(TABLE, 0, dst, a + rest, 300, 0, 1) == GroupDone(300, s1, 300);
    KnownStep(TABLE, dst, 0, a, rest, 0, s1, 300);
  }

  /** Every struct of this table is encoded, and no message of it is decoded: the
      table has everything that a schema needs except for the left-over length. */
  lemma EncodedThenRefused(s: seq<byte>, dst: seq<byte>, room: nat)
    requires |s| == SIZE && s[300] <= 10 && |dst| == SIZE && room >= SIZE + 6
    ensures Shape(TABLE, 0, SIZE, false) && Typed(TABLE, 0) && TopShape(TABLE, SIZE) && !StaleSafe(TABLE)
    ensures Encode(TABLE, s, room).Encoded?
    ensures var w := Encode(TABLE, s, room).bytes; DecodeTop(TABLE, dst, w, |w|, 0) == Fail(EINVAL)
  {
    hide Wire, Accepts, DecodeTop, StepTop, Tlv, EncodeFrom;
    TableOk();
    TableFinds();
    var n, body := TableWire(s);
    EncodeExact(TABLE, s, room);
    var t := Tlv(2, LeBytes(n, 1) + body);
    var s1 := LongDecodes(dst, s[..300], t);
    StaleMessage(TABLE, dst, Tlv(1, s[..300]), 1, n, body, 0, s1, 300);
    assert !StalePair(TABLE[1], TABLE[0]);
  }

  // ---------------------------------------------------------------------
  // Strings declared as variable-length arrays, and the place of the NUL

  /** Such a string is refused exactly for a left-over length above its capacity; its
      own length does not matter. */
  lemma StaleString(e: Elem, f: seq<byte>, text: seq<byte>, dlv: nat)
    requires e.kind.Str? && e.arrayType.VarLenArray? && PayloadOk(e) && |f| == Extent(e) && |text| < e.elemLen < U32
    ensures DecodePayload(e, f, text, |text|, dlv, 1) == GroupFail(EINVAL) <==> dlv > e.elemLen
  {
  }

  /** A TLV with a string: it is refused if it is longer than the field, it writes its
      NUL past the field exactly if it fills the field, and else it is stored. */
  lemma StringTlv(ei: seq<Elem>, s: seq<byte>, g: nat, text: seq<byte>, rest: seq<byte>, dlv: nat)
    requires TopShape(ei, |s|) && g < |ei| && FindEi(ei, ei[g].tlvType) == g && GroupOk(ei, g, |s|, false)
    requires var e := ei[PayloadIdx(ei, g)]; e.kind.Str? && (e.arrayType.VarLenArray? ==> dlv <= e.elemLen)
    requires |text| < 65536
    ensures var e := ei[PayloadIdx(ei, g)];
            var r := StepTop(ei, s, Tlv(ei[g].tlvType, text) + rest, dlv);
            && (r == Stop(Fail(EINVAL)) <==> |text| > e.elemLen)
            && (r == Stop(Outcome.Overrun) <==> |text| == e.elemLen)
            && (r.Next? <==> |text| < e.elemLen)
  {
    hide Tlv, DecodeGroup;
    TlvHeader(ei[g].tlvType, text, rest);
    StringGroup(ei, s, g, text, rest, dlv);
  }

  lemma StringGroup(ei: seq<Elem>, s: seq<byte>, g: nat, text: seq<byte>, rest: seq<byte>, dlv: nat)
    requires g < |ei| && GroupOk(ei, g, |s|, false) && |text| < 65536
    requires var e := ei[PayloadIdx(ei, g)]; e.kind.Str? && (e.arrayType.VarLenArray? ==> dlv <= e.elemLen)
    ensures var e := ei[PayloadIdx(ei, g)];
            var r := DecodeGroup(ei, g, s, text + rest, |text|, dlv, 1);
            && (r == GroupFail(EINVAL) <==> |text| > e.elemLen)
            && (r == GroupOverrun <==> |text| == e.elemLen)
            && (r.GroupDone? <==> |text| < e.elemLen)
  {
    hide Span, Put;
    var e, s1 := ei[PayloadIdx(ei, g)], SetFlag(ei, g, s);
    assert PayloadOk(e) && !Counted(ei, g);
    var f := Field(s1, e);
    assert DecodeString(e, f, text + rest, |text|, false)
        == if |text| > e.elemLen then Fail(EINVAL) else if |text| == e.elemLen then Outcome.Overrun
           else Done(|text|, Put(f, 0, (text + rest)[0..|text|] + [0]));
    assert DecodeGroup(ei, g, s, text + rest, |text|, dlv, 1) == DecodeInto(e, s1, text + rest, |text|, dlv, 1, 0);
  }

  /** From any state of the decoder, a string that fills its field makes it write past
      the field. */
  lemma StringPastField(ei: seq<Elem>, s: seq<byte>, g: nat, text: seq<byte>, rest: seq<byte>, dlv: nat)
    requires TopShape(ei, |s|) && g < |ei| && FindEi(ei, ei[g].tlvType) == g && GroupOk(ei, g, |s|, false)
    requires var e := ei[PayloadIdx(ei, g)]; e.kind.Str? && e.arrayType.NoArray? && |text| == e.elemLen < 65536
    ensures var m := Tlv(ei[g].tlvType, text) + rest; DecodeTop(ei, s, m, |m|, dlv) == Outcome.Overrun
  {
    hide Tlv, StepTop;
    StringTlv(ei, s, g, text, rest, dlv);
  }
}

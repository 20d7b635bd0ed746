/**
 Encoder and decoder together: whole messages with their header.
 */
module QmiCodec {
  import opened Basics
  import opened QmiSchema
  import opened QmiWire
  import opened QmiDecode
  import opened QmiMessage
  import opened QmiEncode
  import opened QmiEncodeExact
  import Encoder = QmiEncoder
  import Decoder = QmiDecoder

  // ---------------------------------------------------------------------
  // What the encoder accepted is not truncated

  lemma {:induction false} AcceptedElems(e: Elem, n: nat, b: seq<byte>)
    requires e.kind.Struct? && Shape(e.sub, 0, e.elemSize, true) && Span(n, e.elemSize) <= |b|
    requires AcceptsElems(e, n, b) && |StructsWire(e, n, b)| < 65536
    ensures FitsElems(e, n, b)
    decreases e, n
  {
    if n > 0 {
      Accepted(e.sub, 0, b[..e.elemSize], true, 0);
      AcceptedElems(e, n - 1, b[e.elemSize..]);
    }
  }

  lemma {:induction false} AcceptedGroup(ei: seq<Elem>, i: nat, s: seq<byte>, nested: bool, dlv: nat)
    requires i < |ei| && GroupOk(ei, i, |s|, nested)
    requires AcceptsGroup(ei, i, s, nested, dlv) && |GroupWire(ei, i, s, nested)| < 65536
    ensures FitsGroup(ei, i, s, nested)
    decreases ei, |ei| - i, 0
  {
    var e, n := ei[PayloadIdx(ei, i)], Count(ei, i, s, nested);
    assert PayloadOk(e);
    SpanMono(n, Capacity(e), e.elemSize);
    if e.kind.Struct? {
      AcceptedElems(e, n, Field(s, e));
    }
  }

  lemma {:induction false} Accepted(ei: seq<Elem>, i: nat, s: seq<byte>, nested: bool, dlv: nat)
    requires Shape(ei, i, |s|, nested) && Accepts(ei, i, s, nested, dlv)
    requires if nested then |Wire(ei, i, s, nested)| < 65536 else ShortTlvs(ei, i, s)
    ensures Fits(ei, i, s, nested)
    decreases ei, |ei| - i, 1
  {
    hide AcceptsGroup, FitsGroup, GroupWire;
    if i < |ei| {
      if nested || Present(ei, i, s) {
        AcceptedGroup(ei, i, s, nested, dlv);
      }
      Accepted(ei, NextGroup(ei, i), s, nested, LengthAfter(ei, i, s, nested, dlv));
    }
  }

  /** The payload of every TLV fits its 16-bit length. */
  predicate ShortTlvs(ei: seq<Elem>, i: nat, s: seq<byte>)
    requires Shape(ei, i, |s|, false)
    decreases |ei| - i
  {
    i < |ei| ==>
      (Present(ei, i, s) ==> |GroupWire(ei, i, s, false)| < 65536) && ShortTlvs(ei, NextGroup(ei, i), s)
  }

  /** A short message has short TLVs. */
  lemma {:induction false} ShortMessage(ei: seq<Elem>, i: nat, s: seq<byte>)
    requires Shape(ei, i, |s|, false) && |Wire(ei, i, s, false)| < 65536
    ensures ShortTlvs(ei, i, s)
    decreases |ei| - i
  {
    hide GroupWire;
    if i < |ei| {
      ShortMessage(ei, NextGroup(ei, i), s);
    }
  }

  /** Whatever the encoder produces, if its TLVs fit their lengths, the decoder turns
      back into a struct that reads the same. */
  lemma {:induction false} EncodeThenDecode(ei: seq<Elem>, src: seq<byte>, dst: seq<byte>, room: nat)
    returns (out: seq<byte>)
    requires |src| == |dst| && Schema(ei, |src|) && Cleared(ei, dst)
    requires Encode(ei, src, room).Encoded? && ShortTlvs(ei, 0, src)
    ensures TopShape(ei, |dst|) && |out| == |dst|
    ensures var w := Encode(ei, src, room).bytes; DecodeTop(ei, dst, w, |w|, 0) == Done(|w|, out)
    ensures View(ei, 0, out, false) == View(ei, 0, src, false)
  {
    EncodeExact(ei, src, room);
    Accepted(ei, 0, src, false, 0);
    out := RoundTrip(ei, src, dst);
  }

  // ---------------------------------------------------------------------
  // Messages

  const HEADER_SIZE := 7

  datatype Rc = Length(n: nat) | Einval | Efault | Emsgsize | Past

  /** The header: message type, transaction id, message id and payload length. */
  function Header(msgType: nat, txn: nat, msgId: nat, len: nat): (h: seq<byte>)
    ensures |h| == HEADER_SIZE
  {
    LeBytes(msgType, 1) + LeBytes(txn, 2) + LeBytes(msgId, 2) + LeBytes(len, 2)
  }

  /** The shortest message of a table, as the encoder computes it. */
  function MinLength(ei: seq<Elem>, t: nat, level: nat): nat
    decreases ei, |ei| - t
  {
    if t >= |ei| then 0
    else
      var e := ei[t];
      if e.kind.OptFlag? then MinLength(ei, SkipToNext(ei, t, level), level)
      else if e.kind.DataLen? then CountSize(e) + MinLength(ei, t + 1, level)
      else
        (if e.kind.Struct? then MinLength(e.sub, 0, level + 1)
         else e.elemLen * e.elemSize + if e.kind.Str? && level > 1 then PrefixSize(e) else 0)
        + (if level == 1 then TLV_HEADER else 0) + MinLength(ei, t + 1, level)
  }

  /** Every group is optional. */
  predicate AllOptional(ei: seq<Elem>, i: nat)
    decreases |ei| - i
  {
    i < |ei| ==> ei[i].kind.OptFlag? && AllOptional(ei, NextGroup(ei, i))
  }

  /** A message can be empty exactly when every group is optional. */
  lemma {:induction false} EmptyAllowed(ei: seq<Elem>, i: nat, size: nat)
    requires Shape(ei, i, size, false) && Typed(ei, i)
    ensures MinLength(ei, i, 1) == 0 <==> AllOptional(ei, i)
    decreases |ei| - i
  {
    if i < |ei| && ei[i].kind.OptFlag? {
      SkipGroup(ei, i, i);
      EmptyAllowed(ei, NextGroup(ei, i), size);
    }
  }

  /** What stands behind the header: nothing if there is no struct. */
  function Body(ei: seq<Elem>, src: Option<seq<byte>>): seq<byte>
    requires src.Some? ==> Shape(ei, 0, |src.value|, false)
  {
    if src.Some? then Wire(ei, 0, src.value, false) else []
  }

  /** Encodes a struct, if there is one, behind the header of a packet buffer. */
  method EncodeMessage(ei: seq<Elem>, src: Option<seq<byte>>, size: nat, pkt: array<byte>, msgType: nat, msgId: nat, txn: nat)
    returns (rc: Rc)
    requires Shape(ei, 0, size, false) && Typed(ei, 0) && (src.Some? ==> |src.value| == size)
    modifies pkt
    ensures rc.Length? <==> HEADER_SIZE + |Body(ei, src)| <= pkt.Length
                            && if src.Some? then Accepts(ei, 0, src.value, false, 0) else AllOptional(ei, 0)
    ensures rc.Length? ==> rc.n == HEADER_SIZE + |Body(ei, src)| &&
                           pkt[..rc.n] == Header(msgType, txn, msgId, |Body(ei, src)|) + Body(ei, src)
    ensures src.None? && !AllOptional(ei, 0) ==> rc == Einval
    ensures pkt.Length < HEADER_SIZE && (src.Some? || AllOptional(ei, 0)) ==> rc == Emsgsize
    ensures rc == Past ==> src.Some? && !StringsSafe(ei, src.value)
  {
    hide Wire, Accepts, StringsSafe, LeBytes, MinLength, AllOptional;
    if src == None {
      EmptyAllowed(ei, 0, size);
      if MinLength(ei, 0, 1) != 0 { return Einval; }
    }
    if pkt.Length < HEADER_SIZE { return Emsgsize; }
    ghost var w := Body(ei, src);
    var n := 0;
    if src.Some? {
      rc := EncodeBody(ei, src.value, pkt);
      if !rc.Length? { return; }
      n := rc.n;
    }
    Encoder.CopyBytes(pkt, 0, Header(msgType, txn, msgId, n));
    assert pkt[HEADER_SIZE..HEADER_SIZE + n] == w;
    rc := Length(HEADER_SIZE + n);
    assert pkt[..rc.n] == pkt[..HEADER_SIZE] + pkt[HEADER_SIZE..HEADER_SIZE + n];
  }

  method EncodeBody(ei: seq<Elem>, s: seq<byte>, pkt: array<byte>) returns (rc: Rc)
    requires Shape(ei, 0, |s|, false) && Typed(ei, 0) && HEADER_SIZE <= pkt.Length
    modifies pkt
    ensures rc.Length? <==> Accepts(ei, 0, s, false, 0) && HEADER_SIZE + |Wire(ei, 0, s, false)| <= pkt.Length
    ensures rc.Length? ==> rc.n == |Wire(ei, 0, s, false)| && pkt[HEADER_SIZE..HEADER_SIZE + rc.n] == Wire(ei, 0, s, false)
    ensures rc != Emsgsize && (rc == Past ==> !StringsSafe(ei, s))
  {
    hide Wire, Accepts, StringsSafe, LeBytes, EncodeFrom;
    var room := pkt.Length - HEADER_SIZE;
    EncodeExact(ei, s, room);
    ShapeElems(ei, 0, |s|, false);
    var r := Encoder.EncodeTable(ei, pkt, HEADER_SIZE, s, room, 1);
    match r {
      case Einval => return Einval;
      case Past =>
        if StringsSafe(ei, s) { EncodeInBuffer(ei, s, room); }
        return Past;
      case Bytes(n) =>
        assert pkt[HEADER_SIZE..HEADER_SIZE + n] == Wire(ei, 0, s, false);
        return Length(n);
    }
  }

  /** The packet's type and id, as far as they can be read, are the expected ones. */
  predicate Expected(pkt: seq<byte>, msgType: nat, msgId: nat) {
    |pkt| > 0 && pkt[0] == msgType && (|pkt| >= 5 ==> LeValue(pkt[3..5]) == msgId)
  }

  /** Decodes the struct behind the header of a packet.  A packet with the expected
      type that is shorter than a header is read past its end. */
  method DecodeMessage(ei: seq<Elem>, out: array<byte>, pkt: seq<byte>, msgType: nat, msgId: nat) returns (rc: Rc, txn: nat)
    requires TopShape(ei, out.Length)
    modifies out
    ensures !Expected(pkt, msgType, msgId) ==> rc == Einval && out[..] == old(out[..])
    ensures Expected(pkt, msgType, msgId) && |pkt| < HEADER_SIZE ==> rc == Past
    ensures rc.Length? <==> Expected(pkt, msgType, msgId) && |pkt| >= HEADER_SIZE &&
                            DecodeTop(ei, old(out[..]), pkt[HEADER_SIZE..], |pkt| - HEADER_SIZE, 0).Done?
    ensures rc.Length? ==> DecodeTop(ei, old(out[..]), pkt[HEADER_SIZE..], |pkt| - HEADER_SIZE, 0) == Done(rc.n, out[..])
    ensures rc.Length? ==> txn == LeValue(pkt[1..3])
  {
    txn := 0;
    if |pkt| == 0 || pkt[0] != msgType { return Einval, txn; }
    if |pkt| < 5 { return Past, txn; }
    if LeValue(pkt[3..5]) != msgId { return Einval, txn; }
    txn := LeValue(pkt[1..3]);
    if |pkt| < HEADER_SIZE { return Past, txn; }
    assert Decoder.Region(out[..], 0, out.Length) == out[..];
    var r := Decoder.DecodeTlvs(ei, out, 0, out.Length, pkt[HEADER_SIZE..], |pkt| - HEADER_SIZE);
    assert Decoder.Region(out[..], 0, out.Length) == out[..];
    match r {
      case Used(n) => rc := Length(n);
      case Err(x) => rc := if x.EINVAL? then Einval else Efault;
      case Past => rc := Past;
    }
  }

  /** A message sent and received: type, id, transaction and length arrive
      unchanged and the struct reads as it did at the sender. */
  lemma {:induction false} MessageRoundTrip(ei: seq<Elem>, s: seq<byte>, dst: seq<byte>, msgType: nat, msgId: nat, txn: nat)
    returns (out: seq<byte>)
    requires |s| == |dst| && Schema(ei, |s|) && Cleared(ei, dst)
    requires msgType < 256 && msgId < 65536 && txn < 65536
    requires Accepts(ei, 0, s, false, 0) && |Wire(ei, 0, s, false)| < 65536
    ensures TopShape(ei, |dst|) && |out| == |dst|
    ensures var w := Wire(ei, 0, s, false);
            var pkt := Header(msgType, txn, msgId, |w|) + w;
            && pkt[0] == msgType && LeValue(pkt[1..3]) == txn && LeValue(pkt[3..5]) == msgId
            && LeValue(pkt[5..7]) == |pkt| - HEADER_SIZE
            && DecodeTop(ei, dst, pkt[HEADER_SIZE..], |pkt| - HEADER_SIZE, 0) == Done(|w|, out)
    ensures View(ei, 0, out, false) == View(ei, 0, s, false)
  {
    hide Wire, View, DecodeTop, Accepts, Fits, TopShape;
    ShortMessage(ei, 0, s);
    Accepted(ei, 0, s, false, 0);
    out := RoundTrip(ei, s, dst);
    var w := Wire(ei, 0, s, false);
    HeaderFields(msgType, txn, msgId, |w|, w);
  }

  lemma HeaderFields(msgType: nat, txn: nat, msgId: nat, len: nat, w: seq<byte>)
    requires msgType < 256 && msgId < 65536 && txn < 65536 && len < 65536
    ensures var pkt := Header(msgType, txn, msgId, len) + w;
            && pkt[0] == msgType && LeValue(pkt[1..3]) == txn && LeValue(pkt[3..5]) == msgId
            && LeValue(pkt[5..7]) == len && pkt[HEADER_SIZE..] == w
  {
    var pkt := Header(msgType, txn, msgId, len) + w;
    assert pkt[1..3] == LeBytes(txn, 2) && pkt[3..5] == LeBytes(msgId, 2) && pkt[5..7] == LeBytes(len, 2);
    LeRoundTrip(txn, 2);
    LeRoundTrip(msgId, 2);
    LeRoundTrip(len, 2);
  }
}

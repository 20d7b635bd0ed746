/**
 Two element tables of the remote file system protocol, as laid out on a 64-bit
 machine: both are well-formed schemas, so the round trip holds for their
 messages.
 */
module QmiShipped {
  import opened Basics
  import opened QmiSchema
  import opened QmiRoundTrip
  import opened QmiMessage
  import opened QmiEncode
  import opened QmiEncodeExact

  function Scalar(size: nat, tlv: byte, offset: nat): Elem {
    Elem(Basic, 1, size, NoArray, tlv, offset, [])
  }

  // ---------------------------------------------------------------------
  // The transfer request

  const ENTRY := [Scalar(4, 0, 0), Scalar(4, 0, 4), Scalar(4, 0, 8)]

  const IOVEC_REQ_SIZE := 3080

  const IOVEC_REQ := [
    Scalar(4, 1, 0),
    Scalar(1, 2, 4),
    Elem(DataLen, 1, 1, NoArray, 3, 8, []),
    Elem(Struct, 255, 12, VarLenArray, 3, 16, ENTRY),
    Scalar(1, 4, 3076)
  ]

  // ---------------------------------------------------------------------
  // The answer to an open request, with its optional handle

  const RESULT := [Scalar(2, 0, 0), Scalar(2, 0, 2)]

  const OPEN_RESP_SIZE := 12

  const OPEN_RESP := [
    Elem(Struct, 1, 4, NoArray, 2, 0, RESULT),
    Elem(OptFlag, 1, 1, NoArray, 16, 4, []),
    Scalar(4, 16, 8)
  ]

  lemma EntryShape()
    ensures Shape(ENTRY, 0, 12, true) && Sound(ENTRY)
  {
    assert Shape(ENTRY, 3, 12, true);
    assert Shape(ENTRY, 2, 12, true);
    assert Shape(ENTRY, 1, 12, true);
  }

  lemma ShapeStep(ei: seq<Elem>, i: nat, next: nat, size: nat, nested: bool)
    requires i < |ei| && GroupOk(ei, i, size, nested) && NextGroup(ei, i) == next && Shape(ei, next, size, nested)
    ensures Shape(ei, i, size, nested)
  {
  }

  lemma IovecExtents()
    ensures Extent(IOVEC_REQ[0]) == 4 && Extent(IOVEC_REQ[1]) == 1 && Extent(IOVEC_REQ[2]) == 4
    ensures Extent(IOVEC_REQ[3]) == 3060 && Extent(IOVEC_REQ[4]) == 1
  {
    SpanIsProduct(255, 12);
    SpanIsProduct(1, 4);
    SpanIsProduct(1, 1);
  }

  lemma IovecShape()
    ensures Shape(IOVEC_REQ, 0, IOVEC_REQ_SIZE, false)
  {
    hide Extent, Span;
    EntryShape();
    IovecExtents();
    assert PayloadOk(IOVEC_REQ[3]);
    assert Shape(IOVEC_REQ, 5, IOVEC_REQ_SIZE, false);
    ShapeStep(IOVEC_REQ, 4, 5, IOVEC_REQ_SIZE, false);
    ShapeStep(IOVEC_REQ, 2, 4, IOVEC_REQ_SIZE, false);
    ShapeStep(IOVEC_REQ, 1, 2, IOVEC_REQ_SIZE, false);
    ShapeStep(IOVEC_REQ, 0, 1, IOVEC_REQ_SIZE, false);
  }

  lemma IovecSound()
    ensures Sound(IOVEC_REQ)
  {
    hide Extent, Span;
    EntryShape();
    IovecExtents();
  }

  lemma IovecTyped()
    ensures Typed(IOVEC_REQ, 0)
  {
    assert Typed(IOVEC_REQ, 5);
    assert Typed(IOVEC_REQ, 4);
    assert Typed(IOVEC_REQ, 2);
    assert Typed(IOVEC_REQ, 1);
  }

  /** The transfer request and the open response are well-formed schemas. */
  lemma ShippedSchemas()
    ensures Schema(IOVEC_REQ, IOVEC_REQ_SIZE)
    ensures Schema(OPEN_RESP, OPEN_RESP_SIZE)
  {
    IovecShape();
    IovecSound();
    IovecTyped();
    OpenShape();
    OpenTyped();
  }

  lemma ResultShape()
    ensures Shape(RESULT, 0, 4, true) && Sound(RESULT)
  {
    assert Shape(RESULT, 2, 4, true);
    assert Shape(RESULT, 1, 4, true);
  }

  lemma OpenShape()
    ensures Shape(OPEN_RESP, 0, OPEN_RESP_SIZE, false) && Sound(OPEN_RESP)
  {
    ResultShape();
    assert PayloadOk(OPEN_RESP[0]);
    assert Shape(OPEN_RESP, 3, OPEN_RESP_SIZE, false);
    ShapeStep(OPEN_RESP, 1, 3, OPEN_RESP_SIZE, false);
    ShapeStep(OPEN_RESP, 0, 1, OPEN_RESP_SIZE, false);
  }

  lemma OpenTyped()
    ensures Typed(OPEN_RESP, 0)
  {
    assert Typed(OPEN_RESP, 3);
    assert Typed(OPEN_RESP, 1);
  }

  // ---------------------------------------------------------------------
  // The open request begins with a string declared as a variable-length array

  const OPEN_REQ_SIZE := 260

  const OPEN_REQ := [Elem(Str, 256, 1, VarLenArray, 1, 4, [])]

  /** A message that begins with such a string is never encoded: no length has been
      seen when the string is reached. */
  lemma LeadingStringRefused(ei: seq<Elem>, s: seq<byte>, room: nat)
    requires Shape(ei, 0, |s|, false) && Typed(ei, 0)
    requires ei != [] && ei[0].kind.Str? && ei[0].arrayType.VarLenArray?
    ensures !Encode(ei, s, room).Encoded?
  {
    hide EncodeFrom;
    EncodeExact(ei, s, room);
    assert !AcceptsGroup(ei, 0, s, false, 0);
  }

  lemma OpenRequestRefused(s: seq<byte>, room: nat)
    requires |s| == OPEN_REQ_SIZE
    ensures Schema(OPEN_REQ, OPEN_REQ_SIZE) && !Encode(OPEN_REQ, s, room).Encoded?
  {
    assert Shape(OPEN_REQ, 1, OPEN_REQ_SIZE, false);
    ShapeStep(OPEN_REQ, 0, 1, OPEN_REQ_SIZE, false);
    LeadingStringRefused(OPEN_REQ, s, room);
  }
}

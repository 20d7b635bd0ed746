/**
 The QMI wire format, described group by group: what bytes a struct stands for.
 */
module QmiWire {
  import opened Basics
  import opened QmiSchema

  const TLV_HEADER := 3
  const OPTIONAL_TLV_TYPE_START := 0x10

  /** The low `size` bytes of `n`, least significant first. */
  function LeBytes(n: nat, size: nat): (b: seq<byte>)
    requires size in {1, 2}
    ensures |b| == size
  {
    if size == 1 then [n % 256] else [n % 256, n / 256 % 256]
  }

  function CountBound(size: nat): nat
    requires size in {1, 2}
  {
    if size == 1 then 256 else 65536
  }

  lemma LeRoundTrip(n: nat, size: nat)
    requires size in {1, 2} && n < CountBound(size)
    ensures LeValue(LeBytes(n, size)) == n
  {
  }

  // Reading and writing parts of a buffer

  function Put(s: seq<byte>, at: nat, b: seq<byte>): (r: seq<byte>)
    requires at + |b| <= |s|
    ensures |r| == |s|
  {
    s[..at] + b + s[at + |b|..]
  }

  lemma PutPut(s: seq<byte>, at: nat, x: seq<byte>, y: seq<byte>)
    requires at + |x| + |y| <= |s|
    ensures Put(Put(s, at, x), at + |x|, y) == Put(s, at, x + y)
  {
  }

  function Drop(b: seq<byte>, n: nat): seq<byte> {
    if n <= |b| then b[n..] else []
  }

  /** The bytes `w` stand in buffer `b` from position `p` on. */
  predicate At(b: seq<byte>, p: nat, w: seq<byte>) {
    (w == [] || p + |w| <= |b|) && forall j {:trigger b[j]} | p <= j < p + |w| :: b[j] == w[j - p]
  }

  /** Two states of a buffer agree before position `n`. */
  predicate Same(a: seq<byte>, b: seq<byte>, n: nat) {
    |a| == |b| && forall j {:trigger a[j]} {:trigger b[j]} | 0 <= j < n && j < |a| :: a[j] == b[j]
  }

  function Tlv(t: byte, payload: seq<byte>): (b: seq<byte>)
    ensures |b| == TLV_HEADER + |payload|
  {
    [t] + LeBytes(|payload|, 2) + payload
  }

  function StrWire(e: Elem, t: seq<byte>, nested: bool): seq<byte> {
    (if nested then LeBytes(|t|, PrefixSize(e)) else []) + t
  }

  function PayloadWire(e: Elem, n: nat, f: seq<byte>, nested: bool): (b: seq<byte>)
    requires PayloadOk(e)
    requires n <= Capacity(e) && |f| == Extent(e)
    decreases e, n, 1
  {
    SpanMono(n, Capacity(e), e.elemSize);
    if e.kind.Basic? then f[..Span(n, e.elemSize)]
    else if e.kind.Struct? then StructsWire(e, n, f)
    else StrWire(e, CStr(f), nested)
  }

  function StructsWire(e: Elem, n: nat, b: seq<byte>): seq<byte>
    requires e.kind.Struct? && Shape(e.sub, 0, e.elemSize, true)
    requires Span(n, e.elemSize) <= |b|
    decreases e, n, 0
  {
    if n == 0 then [] else
    Wire(e.sub, 0, b[..e.elemSize], true) + StructsWire(e, n - 1, b[e.elemSize..])
  }

  /** Count and payload of one group, without the TLV header. */
  function GroupWire(ei: seq<Elem>, i: nat, s: seq<byte>, nested: bool): seq<byte>
    requires i < |ei| && GroupOk(ei, i, |s|, nested)
    decreases ei, |ei| - i, 0
  {
    var e := ei[PayloadIdx(ei, i)];
    var n := Count(ei, i, s, nested);
    (if Counted(ei, i) then LeBytes(n, CountSize(ei[AfterFlag(ei, i)])) else [])
    + PayloadWire(e, n, Field(s, e), nested)
  }

  /** The wire form of the groups from `i` on.  At the top level every present
      group is one TLV; inside a struct the groups follow each other bare. */
  function Wire(ei: seq<Elem>, i: nat, s: seq<byte>, nested: bool): seq<byte>
    requires Shape(ei, i, |s|, nested)
    decreases ei, |ei| - i, 1
  {
    if i == |ei| then []
    else
      var rest := Wire(ei, NextGroup(ei, i), s, nested);
      if nested then GroupWire(ei, i, s, true) + rest
      else if Present(ei, i, s) then Tlv(ei[i].tlvType, GroupWire(ei, i, s, false)) + rest
      else rest
  }

  // ---------------------------------------------------------------------
  // Which structs can be put on the wire

  /** Encodable, and no length is cut off when it is written to the wire: a
      nested string fits its length prefix and a TLV fits its 16-bit length. */
  predicate Fits(ei: seq<Elem>, i: nat, s: seq<byte>, nested: bool)
    requires Shape(ei, i, |s|, nested)
    decreases ei, |ei| - i, 1
  {
    i < |ei| ==>
      && ((!nested && !Present(ei, i, s)) || FitsGroup(ei, i, s, nested))
      && Fits(ei, NextGroup(ei, i), s, nested)
  }

  predicate FitsGroup(ei: seq<Elem>, i: nat, s: seq<byte>, nested: bool)
    requires i < |ei| && GroupOk(ei, i, |s|, nested)
    decreases ei, |ei| - i, 0
  {
    var e := ei[PayloadIdx(ei, i)];
    && (Counted(ei, i) ==> CountField(ei[AfterFlag(ei, i)], s) <= e.elemLen)
    && (!nested ==> |GroupWire(ei, i, s, false)| < 65536)
    && FitsPayload(e, Count(ei, i, s, nested), Field(s, e), nested)
  }

  predicate FitsPayload(e: Elem, n: nat, f: seq<byte>, nested: bool)
    requires PayloadOk(e)
    requires n <= Capacity(e) && |f| == Extent(e)
    decreases e, n, 1
  {
    && (e.kind.Str? ==> |CStr(f)| < e.elemLen && (nested ==> |CStr(f)| < CountBound(PrefixSize(e))))
    && (e.kind.Struct? ==> (SpanMono(n, Capacity(e), e.elemSize); FitsElems(e, n, f)))
  }

  predicate FitsElems(e: Elem, n: nat, b: seq<byte>)
    requires e.kind.Struct? && Shape(e.sub, 0, e.elemSize, true)
    requires Span(n, e.elemSize) <= |b|
    decreases e, n, 0
  {
    n == 0 ||
    (&& Fits(e.sub, 0, b[..e.elemSize], true)
     && FitsElems(e, n - 1, b[e.elemSize..]))
  }
}

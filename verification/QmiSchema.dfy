/**
 Schemas of QMI messages and the C structs they describe.

 A schema is the flat element table that the encoder and the decoder walk.
 A C struct is the sequence of its bytes; each element names a field by its
 offset.  `View` reads a struct the way its owner does, without regard to any
 wire format.
 */
module QmiSchema {
  import opened Basics

  /** The seven integer and enumeration types of the source are all `Basic`:
      the codec distinguishes them only by `elemSize`. */
  datatype Kind = OptFlag | DataLen | Basic | Struct | Str

  datatype ArrayType = NoArray | StaticArray | VarLenArray

  datatype Elem = Elem(
    kind: Kind,
    elemLen: nat,
    elemSize: nat,
    arrayType: ArrayType,
    tlvType: byte,
    offset: nat,
    sub: seq<Elem>
  )

  // ---------------------------------------------------------------------
  // Groups: [OPT_FLAG] [DATA_LEN] payload

  function AfterFlag(ei: seq<Elem>, i: nat): nat
    requires i < |ei|
  {
    if ei[i].kind.OptFlag? then i + 1 else i
  }

  function PayloadIdx(ei: seq<Elem>, i: nat): nat
    requires i < |ei|
  {
    var p := AfterFlag(ei, i);
    if p < |ei| && ei[p].kind.DataLen? then p + 1 else p
  }

  function NextGroup(ei: seq<Elem>, i: nat): nat
    requires i < |ei|
  {
    PayloadIdx(ei, i) + 1
  }

  predicate Counted(ei: seq<Elem>, i: nat)
    requires i < |ei|
  {
    PayloadIdx(ei, i) != AfterFlag(ei, i)
  }

  /** Number of array slots of a payload element. */
  function Capacity(e: Elem): nat {
    if e.arrayType.NoArray? then 1 else e.elemLen
  }

  /** The bytes of `n` items of `k` bytes each: `n * k`, added up. */
  function Span(n: nat, k: nat): (b: nat)
    ensures n > 0 ==> k <= b
  {
    if n == 0 then 0 else k + Span(n - 1, k)
  }

  lemma {:induction false} SpanIsProduct(n: nat, k: nat)
    ensures Span(n, k) == n * k
  {
    if n > 0 {
      SpanIsProduct(n - 1, k);
    }
  }

  lemma {:induction false} SpanMono(n: nat, cap: nat, k: nat)
    requires n <= cap
    ensures Span(n, k) <= Span(cap, k)
    decreases cap
  {
    if n < cap {
      SpanMono(n, cap - 1, k);
    }
  }

  /** Bytes of the struct that belong to an element. */
  function Extent(e: Elem): nat {
    match e.kind
    case OptFlag => 1
    case DataLen => 4
    case Basic => Span(Capacity(e), e.elemSize)
    case Struct => Span(Capacity(e), e.elemSize)
    case Str => e.elemLen
  }

  predicate Inside(e: Elem, size: nat) {
    e.offset + Extent(e) <= size
  }

  /** Bytes that a count occupies on the wire. */
  function CountSize(e: Elem): nat {
    if e.elemSize == 1 then 1 else 2
  }

  /** Bytes of the length prefix of a string inside a nested struct. */
  function PrefixSize(e: Elem): nat {
    if e.elemLen <= 256 then 1 else 2
  }

  predicate PayloadOk(e: Elem)
    decreases e, 1
  {
    && e.elemSize >= 1
    && e.elemLen >= 1
    && match e.kind
       case Basic => true
       case Str => e.elemSize == 1
       case Struct => |e.sub| > 0 && Shape(e.sub, 0, e.elemSize, true)
       case _ => false
  }

  /** Whether an element takes its number of items from a count.  A string may be
      declared as a variable-length array, but its length is its own. */
  predicate TakesCount(e: Elem) {
    e.arrayType.VarLenArray? && !e.kind.Str?
  }

  /** The group that starts at `i` is complete and lies inside a struct of
      `size` bytes.  Optional groups occur only at the top level. */
  predicate GroupOk(ei: seq<Elem>, i: nat, size: nat, nested: bool)
    requires i < |ei|
    decreases ei, |ei| - i, 0
  {
    var p := AfterFlag(ei, i);
    var q := PayloadIdx(ei, i);
    && q < |ei|
    && (p != i ==> !nested && ei[i].arrayType.NoArray?)
    && Inside(ei[i], size) && Inside(ei[p], size) && Inside(ei[q], size)
    && (Counted(ei, i) ==> ei[p].elemSize in {1, 2, 4} && ei[p].arrayType.NoArray?)
    && (Counted(ei, i) <==> TakesCount(ei[q]))
    && PayloadOk(ei[q])
  }

  predicate Shape(ei: seq<Elem>, i: nat, size: nat, nested: bool)
    decreases ei, |ei| - i, 1
  {
    i <= |ei| &&
    (i < |ei| ==> GroupOk(ei, i, size, nested) && Shape(ei, NextGroup(ei, i), size, nested))
  }

  // ---------------------------------------------------------------------
  // Reading a struct

  function Field(s: seq<byte>, e: Elem): (f: seq<byte>)
    requires Inside(e, |s|)
    ensures |f| == Extent(e)
  {
    s[e.offset..e.offset + Extent(e)]
  }

  /** The value of little-endian bytes. */
  function LeValue(b: seq<byte>): (n: nat)
    ensures |b| == 1 ==> n < 256
    ensures |b| == 2 ==> n < 65536
  {
    if |b| == 0 then 0 else (b[0] as int) + 256 * LeValue(b[1..])
  }

  /** A C string: the bytes before the first NUL. */
  function CStr(b: seq<byte>): (t: seq<byte>)
    ensures |t| <= |b| && t == b[..|t|]
    ensures |t| < |b| ==> b[|t|] == 0
    ensures forall k | 0 <= k < |t| :: t[k] != 0
  {
    if |b| == 0 || b[0] == 0 then [] else [b[0]] + CStr(b[1..])
  }

  /** What the owner of a struct sees of one group. */
  datatype GroupView =
    | Absent
    | Data(count: nat, bytes: seq<byte>)
    | Structs(elems: seq<seq<GroupView>>)
    | Text(chars: seq<byte>)

  predicate Present(ei: seq<Elem>, i: nat, s: seq<byte>)
    requires i < |ei| && GroupOk(ei, i, |s|, false)
  {
    ei[i].kind.OptFlag? ==> Field(s, ei[i])[0] != 0
  }

  /** The count stored in a struct. */
  function CountField(e: Elem, s: seq<byte>): (n: nat)
    requires Inside(e, |s|) && e.kind.DataLen? && e.elemSize <= 4
  {
    LeValue(Field(s, e)[..e.elemSize])
  }

  /** The number of array elements a group holds, never more than its capacity. */
  function Count(ei: seq<Elem>, i: nat, s: seq<byte>, nested: bool): (n: nat)
    requires i < |ei| && GroupOk(ei, i, |s|, nested)
    ensures n <= Capacity(ei[PayloadIdx(ei, i)])
  {
    var e := ei[PayloadIdx(ei, i)];
    if Counted(ei, i)
    then
      var c := CountField(ei[AfterFlag(ei, i)], s);
      if c <= e.elemLen then c else e.elemLen
    else Capacity(e)
  }

  function GroupViewOf(ei: seq<Elem>, i: nat, s: seq<byte>, nested: bool): GroupView
    requires i < |ei| && GroupOk(ei, i, |s|, nested)
    decreases ei, |ei| - i, 0
  {
    if !nested && !Present(ei, i, s) then Absent else
    var e := ei[PayloadIdx(ei, i)];
    var n := Count(ei, i, s, nested);
    assert PayloadOk(e);
    SpanMono(n, Capacity(e), e.elemSize);
    if e.kind.Basic? then Data(n, Field(s, e)[..Span(n, e.elemSize)])
    else if e.kind.Struct? then Structs(ViewElems(e, n, Field(s, e)))
    else Text(CStr(Field(s, e)))
  }

  function ViewElems(e: Elem, n: nat, b: seq<byte>): (v: seq<seq<GroupView>>)
    requires e.kind.Struct? && Shape(e.sub, 0, e.elemSize, true)
    requires Span(n, e.elemSize) <= |b|
    decreases e, n
  {
    if n == 0 then [] else
    [View(e.sub, 0, b[..e.elemSize], true)] + ViewElems(e, n - 1, b[e.elemSize..])
  }

  function View(ei: seq<Elem>, i: nat, s: seq<byte>, nested: bool): seq<GroupView>
    requires Shape(ei, i, |s|, nested)
    decreases ei, |ei| - i, 1
  {
    if i == |ei| then []
    else [GroupViewOf(ei, i, s, nested)] + View(ei, NextGroup(ei, i), s, nested)
  }
}

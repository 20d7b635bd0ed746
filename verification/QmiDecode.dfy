/**
 The decoder, as a function of the bytes it reads and the struct it fills.

 `inp` holds every byte the decoder could touch from its current position on;
 `room` and `tlvLen` are the lengths the code believes in.  `Overrun` marks the
 points where the code would read past the end of `inp` or, for a string that
 leaves no place for its terminating NUL, write past the end of its field.
 */
module QmiDecode {
  import opened Basics
  import opened QmiSchema
  import opened QmiWire

  datatype Errno = EINVAL | EFAULT

  datatype Outcome =
    | Done(used: nat, out: seq<byte>)
    | Fail(errno: Errno)
    | Overrun

  datatype GroupOutcome =
    | GroupDone(used: nat, out: seq<byte>, dlv: nat)
    | GroupFail(errno: Errno)
    | GroupOverrun

  const U32 := 0x1_0000_0000

  /** 32-bit subtraction. */
  function Sub32(a: int, b: int): (r: nat)
    requires 0 <= a < U32 && 0 <= b < U32
    ensures r < U32
    ensures b <= a ==> r == a - b
  {
    if b <= a then a - b else a - b + U32
  }

  function Le4Bytes(d: nat): (b: seq<byte>)
    ensures |b| == 4
  {
    [d % 256, d / 256 % 256, d / 65536 % 256, d / 16777216 % 256]
  }

  /** Reading a count overwrites only the low bytes of the running length. */
  function Overlay(d: nat, b: seq<byte>): nat
    requires |b| in {1, 2}
  {
    d - d % CountBound(|b|) + LeValue(b)
  }

  /** `r` with `n` more bytes consumed in front. */
  function After(n: nat, r: Outcome): Outcome {
    match r
    case Done(c, s) => Done(n + c, s)
    case err => err
  }

  function DecodeString(e: Elem, f: seq<byte>, inp: seq<byte>, tlvLen: nat, nested: bool): (r: Outcome)
    requires e.kind.Str? && PayloadOk(e) && |f| == Extent(e)
    ensures r.Done? ==> |r.out| == |f| && r.used <= |inp|
  {
    var pre := if nested then PrefixSize(e) else 0;
    if |inp| < pre then Overrun else
    var len := if nested then LeValue(inp[..pre]) else tlvLen;
    if len > e.elemLen then Fail(EINVAL)
    else if len > tlvLen then Fail(EFAULT)
    else if |inp| < pre + len || len == e.elemLen then Overrun
    else Done(pre + len, Put(f, 0, inp[pre..pre + len] + [0]))
  }

  /** `level` is the level of the elements of the struct array. */
  function DecodeStructs(e: Elem, n: nat, b: seq<byte>, inp: seq<byte>, room: int, level: nat): (r: Outcome)
    requires e.kind.Struct? && Shape(e.sub, 0, e.elemSize, true)
    requires Span(n, e.elemSize) <= |b| && room < U32 && level >= 2
    ensures r.Done? ==> |r.out| == |b| && r.used <= |inp|
    decreases e, n, 0
  {
    if n == 0 || room <= 0 then
      if (level <= 2 && room != 0) || (level > 2 && (n > 0 || room < 0)) then Fail(EFAULT)
      else Done(0, b)
    else
      match DecodeNested(e.sub, 0, b[..e.elemSize], inp, room, 0, level)
      case Done(c, b0) =>
        (match DecodeStructs(e, n - 1, b[e.elemSize..], inp[c..], room - c, level)
         case Done(c', b1) => Done(c + c', b0 + b1)
         case err => err)
      case err => err
  }

  function DecodePayload(e: Elem, f: seq<byte>, inp: seq<byte>, tlvLen: nat, dlv: nat, level: nat): (r: GroupOutcome)
    requires PayloadOk(e) && |f| == Extent(e)
    requires tlvLen < U32 && level >= 1
    ensures r.GroupDone? ==> |r.out| == |f| && r.used <= |inp|
    decreases e, dlv + e.elemLen + 2, 1
  {
    if e.arrayType.VarLenArray? && dlv > e.elemLen then GroupFail(EINVAL) else
    var n := if e.arrayType.VarLenArray? then dlv else Capacity(e);
    SpanMono(n, Capacity(e), e.elemSize);
    if e.kind.Basic? then
      if |inp| < Span(n, e.elemSize) then GroupOverrun
      else GroupDone(Span(n, e.elemSize), Put(f, 0, inp[..Span(n, e.elemSize)]), n)
    else
      var r := if e.kind.Struct? then DecodeStructs(e, n, f, inp, tlvLen, level + 1)
               else DecodeString(e, f, inp, tlvLen, level > 1);
      match r
      case Done(c, b) => GroupDone(c, b, n)
      case Fail(x) => GroupFail(x)
      case Overrun => GroupOverrun
  }

  function SetFlag(ei: seq<Elem>, i: nat, s: seq<byte>): (r: seq<byte>)
    requires i < |ei| && Inside(ei[i], |s|)
    ensures |r| == |s|
  {
    if ei[i].kind.OptFlag? then Put(s, ei[i].offset, [1]) else s
  }

  function DecodeInto(e: Elem, s: seq<byte>, inp: seq<byte>, tlvLen: nat, dlv: nat, level: nat, skipped: nat): (r: GroupOutcome)
    requires PayloadOk(e) && Inside(e, |s|)
    requires tlvLen < U32 && level >= 1
    ensures r.GroupDone? ==> |r.out| == |s| && skipped <= r.used <= skipped + |inp|
    decreases e, dlv + e.elemLen + 2, 2
  {
    match DecodePayload(e, Field(s, e), inp, tlvLen, dlv, level)
    case GroupDone(c, f, n) => GroupDone(skipped + c, Put(s, e.offset, f), n)
    case err => err
  }

  /** One round of the decode loop: flag, count and payload of the group at `i`. */
  function DecodeGroup(ei: seq<Elem>, i: nat, s: seq<byte>, inp: seq<byte>, tlvLen: nat, dlv: nat, level: nat): (r: GroupOutcome)
    requires level >= 1 && tlvLen < U32
    requires i < |ei| && GroupOk(ei, i, |s|, level > 1)
    ensures r.GroupDone? ==> |r.out| == |s| && r.used <= |inp|
    decreases ei, |ei| - i, 0
  {
    var p := AfterFlag(ei, i);
    var q := PayloadIdx(ei, i);
    var s1 := SetFlag(ei, i, s);
    if Counted(ei, i) then
      var sz := CountSize(ei[p]);
      if |inp| < sz then GroupOverrun else
      var d := Overlay(dlv, inp[..sz]);
      var s2 := Put(s1, ei[p].offset, Le4Bytes(d));
      DecodeInto(ei[q], s2, inp[sz..], Sub32(tlvLen, sz), d, level, sz)
    else
      DecodeInto(ei[q], s1, inp, tlvLen, dlv, level, 0)
  }

  /** The decode loop inside a struct: groups in schema order until the schema
      or the available length ends. */
  function DecodeNested(ei: seq<Elem>, i: nat, s: seq<byte>, inp: seq<byte>, room: int, dlv: nat, level: nat): (r: Outcome)
    requires Shape(ei, i, |s|, true) && room < U32 && level >= 2
    ensures r.Done? ==> |r.out| == |s| && r.used <= |inp|
    decreases ei, |ei| - i, 1
  {
    if room <= 0 || i == |ei| then Done(0, s)
    else
      match DecodeGroup(ei, i, s, inp, room, dlv, level)
      case GroupDone(c, s1, d) => After(c, DecodeNested(ei, NextGroup(ei, i), s1, inp[c..], room - c, d, level))
      case GroupFail(x) => Fail(x)
      case GroupOverrun => Overrun
  }

  /** The first element with a given TLV type, or the length of the schema. */
  function FindEi(ei: seq<Elem>, t: byte): (k: nat)
    ensures k <= |ei|
    ensures k < |ei| ==> ei[k].tlvType == t
    ensures forall j | 0 <= j < k :: ei[j].tlvType != t
  {
    if |ei| == 0 || ei[0].tlvType == t then 0 else 1 + FindEi(ei[1..], t)
  }

  predicate TopShape(ei: seq<Elem>, size: nat) {
    Shape(ei, 0, size, false) &&
    forall t: byte | FindEi(ei, t) < |ei| :: GroupOk(ei, FindEi(ei, t), size, false)
  }

  /** One round of the decode loop over the TLVs of a message. */
  datatype TopStep = Stop(r: Outcome) | Next(n: nat, s: seq<byte>, dlv: nat)

  function StepTop(ei: seq<Elem>, s: seq<byte>, inp: seq<byte>, dlv: nat): (r: TopStep)
    requires TopShape(ei, |s|)
    ensures r.Next? ==> |r.s| == |s| && r.n >= TLV_HEADER
    ensures r.Stop? ==> !r.r.Done?
  {
    if |inp| < TLV_HEADER then Stop(Overrun)
    else
      var len := LeValue(inp[1..3]);
      var i := FindEi(ei, inp[0]);
      if i == |ei| then
        if inp[0] < OPTIONAL_TLV_TYPE_START then Stop(Fail(EINVAL)) else Next(TLV_HEADER + len, s, dlv)
      else
        match DecodeGroup(ei, i, s, inp[TLV_HEADER..], len, dlv, 1)
        case GroupDone(c, s1, d) => Next(TLV_HEADER + c, s1, d)
        case GroupFail(x) => Stop(Fail(x))
        case GroupOverrun => Stop(Overrun)
  }

  /** The decode loop over the TLVs of a message. */
  function DecodeTop(ei: seq<Elem>, s: seq<byte>, inp: seq<byte>, room: int, dlv: nat): (r: Outcome)
    requires TopShape(ei, |s|)
    ensures r.Done? ==> |r.out| == |s|
    decreases room
  {
    if room <= 0 then Done(0, s)
    else
      match StepTop(ei, s, inp, dlv)
      case Stop(r) => r
      case Next(n, s1, d) => After(n, DecodeTop(ei, s1, Drop(inp, n), room - n, d))
  }
}

/**
 The decoder as it runs: a cursor over the message, filling a struct in place.
 */
module QmiDecoder {
  import opened Basics
  import opened QmiSchema
  import opened QmiWire
  import opened QmiDecode

  datatype Rc = Used(n: nat) | Err(errno: Errno) | Past

  /** Return code and the bytes of the struct agree with the outcome `r`. */
  predicate Agrees(rc: Rc, now: seq<byte>, r: Outcome) {
    match r
    case Done(n, b) => rc == Used(n) && now == b
    case Fail(x) => rc == Err(x)
    case Overrun => rc == Past
  }

  predicate AgreesGroup(rc: Rc, now: seq<byte>, dlv: nat, r: GroupOutcome) {
    match r
    case GroupDone(n, b, d) => rc == Used(n) && now == b && dlv == d
    case GroupFail(x) => rc == Err(x)
    case GroupOverrun => rc == Past
  }

  /** The `n` bytes of memory at `p`. */
  function Region(m: seq<byte>, p: nat, n: nat): (b: seq<byte>)
    requires p + n <= |m|
    ensures |b| == n
  {
    m[p..p + n]
  }

  /** Two states of memory agree outside `n` bytes at `p`. */
  predicate Outside(a: seq<byte>, b: seq<byte>, p: nat, n: nat) {
    |a| == |b| && forall j {:trigger a[j]} {:trigger b[j]} | 0 <= j < |a| && !(p <= j < p + n) :: a[j] == b[j]
  }

  method Store(out: array<byte>, p: nat, b: seq<byte>)
    requires p + |b| <= out.Length
    modifies out
    ensures Region(out[..], p, |b|) == b && Outside(old(out[..]), out[..], p, |b|)
  {
    for k := 0 to |b|
      invariant forall j | 0 <= j < out.Length :: out[j] == if p <= j < p + k then b[j - p] else old(out[j])
    {
      out[p + k] := b[k];
    }
  }

  lemma SliceOfSlice(m: seq<byte>, base: nat, size: nat, at: nat, n: nat)
    requires base + size <= |m| && at + n <= size
    ensures Region(m, base, size)[at..at + n] == Region(m, base + at, n)
  {
    var a, b := Region(m, base, size)[at..at + n], Region(m, base + at, n);
    assert |a| == |b| && forall k | 0 <= k < n :: a[k] == m[base + at + k] == b[k];
  }

  /** Storing inside a region is `Put` on the region. */
  lemma StoredInside(was: seq<byte>, now: seq<byte>, base: nat, size: nat, at: nat, b: seq<byte>)
    requires |was| == |now| && base + size <= |was| && at + |b| <= size
    requires Region(now, base + at, |b|) == b && Outside(was, now, base + at, |b|)
    ensures Region(now, base, size) == Put(Region(was, base, size), at, b) && Outside(was, now, base, size)
  {
    SliceOfSlice(now, base, size, at, |b|);
  }

  method DecodeStringElem(e: Elem, out: array<byte>, dst: nat, inp: seq<byte>, tlvLen: nat, nested: bool) returns (rc: Rc)
    requires e.kind.Str? && PayloadOk(e) && dst + Extent(e) <= out.Length
    modifies out
    ensures Agrees(rc, Region(out[..], dst, Extent(e)), DecodeString(e, Region(old(out[..]), dst, Extent(e)), inp, tlvLen, nested))
    ensures Outside(old(out[..]), out[..], dst, Extent(e))
  {
    hide Region, LeValue, Put;
    var pre, len := 0, tlvLen;
    if nested {
      pre := PrefixSize(e);
      if |inp| < pre { return Past; }
      len := LeValue(inp[..pre]);
    }
    if len > e.elemLen { return Err(EINVAL); }
    if len > tlvLen { return Err(EFAULT); }
    if |inp| < pre + len || len == e.elemLen { return Past; }
    var text := inp[pre..pre + len] + [0];
    Store(out, dst, text);
    StoredInside(old(out[..]), out[..], dst, Extent(e), 0, text);
    rc := Used(pre + len);
  }

  /** An outcome with `c` bytes read into `b` in front. */
  function Cat(c: nat, b: seq<byte>, r: Outcome): Outcome {
    match r
    case Done(c', b') => Done(c + c', b + b')
    case err => err
  }

  lemma StructsRound(e: Elem, n: nat, b: seq<byte>, inp: seq<byte>, room: int, level: nat, c: nat, b0: seq<byte>,
                     d: nat, acc: seq<byte>)
    requires e.kind.Struct? && Shape(e.sub, 0, e.elemSize, true)
    requires 0 < n && Span(n, e.elemSize) <= |b| && 0 < room < U32 && level >= 2
    requires DecodeNested(e.sub, 0, b[..e.elemSize], inp, room, 0, level) == Done(c, b0)
    ensures c <= |inp|
    ensures Cat(d, acc, DecodeStructs(e, n, b, inp, room, level))
         == Cat(d + c, acc + b0, DecodeStructs(e, n - 1, b[e.elemSize..], inp[c..], room - c, level))
  {
    hide DecodeNested;
    var r := DecodeStructs(e, n - 1, b[e.elemSize..], inp[c..], room - c, level);
    if r.Done? {
      assert acc + (b0 + r.out) == (acc + b0) + r.out;
    }
  }

  /** A region of which only the `k` bytes at `p` have changed. */
  lemma Advance(was: seq<byte>, now: seq<byte>, dst: nat, a: nat, k: nat, b: nat)
    requires Outside(was, now, dst + a, k) && dst + a + k + b <= |was|
    ensures var rest := Region(was, dst + a, k + b);
            && rest[..k] == Region(was, dst + a, k) && rest[k..] == Region(now, dst + a + k, b)
            && Region(now, dst, a + k) == Region(was, dst, a) + Region(now, dst + a, k)
  {
    var rest := Region(was, dst + a, k + b);
    SliceOfSlice(was, dst + a, k + b, 0, k);
    SliceOfSlice(was, dst + a, k + b, k, b);
    assert Region(was, dst + a + k, b) == Region(now, dst + a + k, b);
    assert Region(now, dst, a) == Region(was, dst, a);
    Joined(now, dst, a, k);
  }

  lemma Joined(m: seq<byte>, p: nat, a: nat, b: nat)
    requires p + a + b <= |m|
    ensures Region(m, p, a) + Region(m, p + a, b) == Region(m, p, a + b)
  {
  }

  /** A struct array: elements are decoded while items and bytes remain. */
  method DecodeStructElem(e: Elem, out: array<byte>, dst: nat, size: nat, n: nat, inp: seq<byte>, room: nat, level: nat)
    returns (rc: Rc)
    requires e.kind.Struct? && PayloadOk(e) && Span(n, e.elemSize) <= size && dst + size <= out.Length
    requires room < U32 && level >= 2
    modifies out
    ensures Agrees(rc, Region(out[..], dst, size), DecodeStructs(e, n, Region(old(out[..]), dst, size), inp, room, level))
    ensures Outside(old(out[..]), out[..], dst, size)
    decreases e, 0
  {
    hide DecodeNested, DecodeStructs, Region, Cat;
    ghost var goal := DecodeStructs(e, n, Region(old(out[..]), dst, size), inp, room, level);
    var i: nat, decoded: nat, src: seq<byte>, p: nat := 0, 0, inp, dst;
    ghost var acc: seq<byte> := [];
    CatNothing(goal);
    while i < n && decoded < room
      invariant 0 <= i <= n && p == dst + |acc| && |acc| + Span(n - i, e.elemSize) <= size
      invariant Region(out[..], dst, |acc|) == acc && Outside(old(out[..]), out[..], dst, size)
      invariant goal == Cat(decoded, acc, DecodeStructs(e, n - i, Region(out[..], p, size - |acc|), src, room - decoded, level))
      decreases n - i
    {
      ghost var was := out[..];
      ghost var rest := Region(was, p, size - |acc|);
      var r := DecodeTable(e.sub, out, p, e.elemSize, src, room - decoded, level);
      Advance(was, out[..], dst, |acc|, e.elemSize, size - |acc| - e.elemSize);
      if !r.Used? {
        StructsStop(e, n - i, rest, src, room - decoded, level, decoded, acc);
        return r;
      }
      ghost var b0 := Region(out[..], p, e.elemSize);
      StructsRound(e, n - i, rest, src, room - decoded, level, r.n, b0, decoded, acc);
      acc := acc + b0;
      src := src[r.n..];
      decoded, p, i := decoded + r.n, p + e.elemSize, i + 1;
    }
    StructsEnd(e, n - i, Region(out[..], p, size - |acc|), src, room - decoded, level, decoded, acc);
    Joined(out[..], dst, |acc|, size - |acc|);
    if (level <= 2 && decoded != room) || (level > 2 && (i < n || decoded > room)) { return Err(EFAULT); }
    rc := Used(decoded);
  }

  lemma CatNothing(r: Outcome)
    ensures Cat(0, [], r) == r
  {
    if r.Done? {
      assert [] + r.out == r.out;
    }
  }

  lemma StructsStop(e: Elem, n: nat, b: seq<byte>, inp: seq<byte>, room: int, level: nat, d: nat, acc: seq<byte>)
    requires e.kind.Struct? && Shape(e.sub, 0, e.elemSize, true)
    requires 0 < n && Span(n, e.elemSize) <= |b| && 0 < room < U32 && level >= 2
    requires !DecodeNested(e.sub, 0, b[..e.elemSize], inp, room, 0, level).Done?
    ensures Cat(d, acc, DecodeStructs(e, n, b, inp, room, level)) == DecodeNested(e.sub, 0, b[..e.elemSize], inp, room, 0, level)
  {
    hide DecodeNested;
  }

  lemma StructsEnd(e: Elem, n: nat, b: seq<byte>, inp: seq<byte>, room: int, level: nat, d: nat, acc: seq<byte>)
    requires e.kind.Struct? && Shape(e.sub, 0, e.elemSize, true)
    requires Span(n, e.elemSize) <= |b| && room < U32 && level >= 2 && (n == 0 || room <= 0)
    ensures Cat(d, acc, DecodeStructs(e, n, b, inp, room, level))
         == if (level <= 2 && room != 0) || (level > 2 && (n > 0 || room < 0)) then Fail(EFAULT) else Done(d, acc + b)
  {
  }

  method DecodePayloadElem(e: Elem, out: array<byte>, dst: nat, inp: seq<byte>, tlvLen: nat, dlv: nat, level: nat)
    returns (rc: Rc, n: nat)
    requires PayloadOk(e) && dst + Extent(e) <= out.Length && tlvLen < U32 && level >= 1
    modifies out
    ensures AgreesGroup(rc, Region(out[..], dst, Extent(e)), n, DecodePayload(e, Region(old(out[..]), dst, Extent(e)), inp, tlvLen, dlv, level))
    ensures Outside(old(out[..]), out[..], dst, Extent(e))
    decreases e, 1
  {
    hide Region, Put, DecodeStructs, DecodeString;
    n := if e.arrayType.VarLenArray? then dlv else Capacity(e);
    if e.arrayType.VarLenArray? && dlv > e.elemLen { return Err(EINVAL), n; }
    SpanMono(n, Capacity(e), e.elemSize);
    if e.kind.Basic? {
      if |inp| < Span(n, e.elemSize) { return Past, n; }
      Store(out, dst, inp[..Span(n, e.elemSize)]);
      StoredInside(old(out[..]), out[..], dst, Extent(e), 0, inp[..Span(n, e.elemSize)]);
      rc := Used(Span(n, e.elemSize));
    } else if e.kind.Struct? {
      rc := DecodeStructElem(e, out, dst, Extent(e), n, inp, tlvLen, level + 1);
    } else {
      rc := DecodeStringElem(e, out, dst, inp, tlvLen, level > 1);
    }
  }

  /** Flag, count and payload of one group of the struct at `base`. */
  method DecodeGroupElems(ei: seq<Elem>, i: nat, out: array<byte>, base: nat, size: nat, inp: seq<byte>,
                          tlvLen: nat, dlv: nat, level: nat) returns (rc: Rc, n: nat)
    requires level >= 1 && tlvLen < U32 && base + size <= out.Length
    requires i < |ei| && GroupOk(ei, i, size, level > 1)
    modifies out
    ensures AgreesGroup(rc, Region(out[..], base, size), n,
                        DecodeGroup(ei, i, Region(old(out[..]), base, size), inp, tlvLen, dlv, level))
    ensures Outside(old(out[..]), out[..], base, size)
    decreases ei, |ei| - i, 0
  {
    hide Region, DecodePayload;
    StoreFlag(ei, i, out, base, size);
    ghost var s1 := Region(out[..], base, size);
    var t: nat, src: seq<byte>, left: nat, skipped: nat := AfterFlag(ei, i), inp, tlvLen, 0;
    n := dlv;
    if ei[t].kind.DataLen? {
      skipped := CountSize(ei[t]);
      if |inp| < skipped { return Past, n; }
      n := Overlay(dlv, inp[..skipped]);
      StoreField(ei[t], out, base, size, Le4Bytes(n));
      src, left, t := inp[skipped..], Sub32(tlvLen, skipped), t + 1;
    }
    rc, n := DecodeField(ei[t], out, base, size, src, left, n, level, skipped);
  }

  /** Overwrites one field of the struct at `base`. */
  method StoreField(e: Elem, out: array<byte>, base: nat, size: nat, b: seq<byte>)
    requires base + size <= out.Length && Inside(e, size) && |b| == Extent(e)
    modifies out
    ensures Region(out[..], base, size) == Put(Region(old(out[..]), base, size), e.offset, b)
    ensures Outside(old(out[..]), out[..], base, size)
  {
    hide Region, Put;
    Store(out, base + e.offset, b);
    StoredInside(old(out[..]), out[..], base, size, e.offset, b);
  }

  method StoreFlag(ei: seq<Elem>, i: nat, out: array<byte>, base: nat, size: nat)
    requires base + size <= out.Length && i < |ei| && Inside(ei[i], size)
    modifies out
    ensures Region(out[..], base, size) == SetFlag(ei, i, Region(old(out[..]), base, size))
    ensures Outside(old(out[..]), out[..], base, size)
  {
    hide Region, Put;
    if ei[i].kind.OptFlag? {
      StoreField(ei[i], out, base, size, [1]);
    }
  }

  method DecodeField(e: Elem, out: array<byte>, base: nat, size: nat, inp: seq<byte>, tlvLen: nat, dlv: nat, level: nat,
                     skipped: nat) returns (rc: Rc, n: nat)
    requires PayloadOk(e) && Inside(e, size) && base + size <= out.Length && tlvLen < U32 && level >= 1
    modifies out
    ensures AgreesGroup(rc, Region(out[..], base, size), n,
                        DecodeInto(e, Region(old(out[..]), base, size), inp, tlvLen, dlv, level, skipped))
    ensures Outside(old(out[..]), out[..], base, size)
    decreases e, 2
  {
    hide DecodePayload;
    SliceOfSlice(out[..], base, size, e.offset, Extent(e));
    rc, n := DecodePayloadElem(e, out, base + e.offset, inp, tlvLen, dlv, level);
    StoredInside(old(out[..]), out[..], base, size, e.offset, Region(out[..], base + e.offset, Extent(e)));
    if rc.Used? { rc := Used(skipped + rc.n); }
  }

  /** The decode loop inside a struct. */
  method DecodeTable(ei: seq<Elem>, out: array<byte>, base: nat, size: nat, inp: seq<byte>, room: nat, level: nat)
    returns (rc: Rc)
    requires Shape(ei, 0, size, true) && base + size <= out.Length && room < U32 && level >= 2
    modifies out
    ensures Agrees(rc, Region(out[..], base, size), DecodeNested(ei, 0, Region(old(out[..]), base, size), inp, room, 0, level))
    ensures Outside(old(out[..]), out[..], base, size)
    decreases ei, |ei| + 1
  {
    hide Region, DecodeGroup;
    ghost var goal := DecodeNested(ei, 0, Region(old(out[..]), base, size), inp, room, 0, level);
    var i: nat, decoded: nat, src: seq<byte>, dlv: nat := 0, 0, inp, 0;
    while decoded < room && i < |ei|
      invariant 0 <= i <= |ei| && Shape(ei, i, size, true)
      invariant Outside(old(out[..]), out[..], base, size)
      invariant goal == After(decoded, DecodeNested(ei, i, Region(out[..], base, size), src, room - decoded, dlv, level))
      decreases |ei| - i
    {
      var r, d := DecodeGroupElems(ei, i, out, base, size, src, room - decoded, dlv, level);
      if !r.Used? { return r; }
      decoded, src, dlv, i := decoded + r.n, src[r.n..], d, NextGroup(ei, i);
    }
    rc := Used(decoded);
  }

  method FindElem(ei: seq<Elem>, t: byte) returns (k: nat)
    ensures k == FindEi(ei, t)
  {
    k := 0;
    while k < |ei| && ei[k].tlvType != t
      invariant 0 <= k <= |ei| && FindEi(ei, t) == k + FindEi(ei[k..], t)
    {
      k := k + 1;
    }
  }

  /** One TLV: unknown optional types are skipped. */
  method DecodeTlv(ei: seq<Elem>, out: array<byte>, base: nat, size: nat, inp: seq<byte>, dlv: nat) returns (rc: Rc, d: nat)
    requires TopShape(ei, size) && base + size <= out.Length
    modifies out
    ensures match StepTop(ei, Region(old(out[..]), base, size), inp, dlv)
            case Next(n, s1, d1) => rc == Used(n) && Region(out[..], base, size) == s1 && d == d1
            case Stop(r) => !rc.Used? && Agrees(rc, [], r)
    ensures Outside(old(out[..]), out[..], base, size)
  {
    hide Region, DecodeGroup;
    d := dlv;
    if |inp| < TLV_HEADER { return Past, d; }
    var len := LeValue(inp[1..3]);
    var i := FindElem(ei, inp[0]);
    if i == |ei| {
      if inp[0] < OPTIONAL_TLV_TYPE_START { return Err(EINVAL), d; }
      rc := Used(TLV_HEADER + len);
    } else {
      rc, d := DecodeGroupElems(ei, i, out, base, size, inp[TLV_HEADER..], len, dlv, 1);
      if rc.Used? { rc := Used(TLV_HEADER + rc.n); }
    }
  }

  /** The decode loop over the TLVs of a message. */
  method DecodeTlvs(ei: seq<Elem>, out: array<byte>, base: nat, size: nat, inp: seq<byte>, room: nat) returns (rc: Rc)
    requires TopShape(ei, size) && base + size <= out.Length
    modifies out
    ensures Agrees(rc, Region(out[..], base, size), DecodeTop(ei, Region(old(out[..]), base, size), inp, room, 0))
    ensures Outside(old(out[..]), out[..], base, size)
  {
    hide Region, StepTop;
    ghost var goal := DecodeTop(ei, Region(old(out[..]), base, size), inp, room, 0);
    var decoded: nat, src: seq<byte>, dlv: nat := 0, inp, 0;
    while decoded < room
      invariant Outside(old(out[..]), out[..], base, size)
      invariant goal == After(decoded, DecodeTop(ei, Region(out[..], base, size), src, room - decoded, dlv))
      decreases room - decoded
    {
      var r, d := DecodeTlv(ei, out, base, size, src, dlv);
      if !r.Used? { return r; }
      decoded, src, dlv := decoded + r.n, Drop(src, r.n), d;
    }
    rc := Used(decoded);
  }
}

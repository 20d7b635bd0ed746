/**
 The encoder as it runs: cursors over an output buffer that is written in place.
 */
module QmiEncoder {
  import opened Basics
  import opened QmiSchema
  import opened QmiWire
  import opened QmiEncode
  import opened QmiEncodeExact

  datatype Rc = Bytes(n: nat) | Einval | Past

  /** Return code and buffer contents agree with the result `r`. */
  predicate Agrees(rc: Rc, b: seq<byte>, p: nat, r: Result) {
    match r
    case Encoded(w) => rc == Bytes(|w|) && At(b, p, w)
    case Rejected => rc == Einval
    case Overrun => rc == Past
  }

  /** The bytes from `p` on are the same. */
  predicate Beyond(a: seq<byte>, b: seq<byte>, p: nat) {
    |a| == |b| && forall k | p <= k < |a| :: a[k] == b[k]
  }

  method SkipToNextElem(ei: seq<Elem>, t: nat, level: nat) returns (k: nat)
    requires t < |ei|
    ensures k == SkipToNext(ei, t, level)
  {
    k := t + 1;
    if level <= 1 {
      while k < |ei| && ei[k].tlvType == ei[k - 1].tlvType
        invariant t < k <= |ei|
        invariant SkipToNext(ei, t, level) == SkipToNext(ei, k - 1, level)
      {
        k := k + 1;
      }
    }
  }

  method CopyBytes(buf: array<byte>, at: nat, src: seq<byte>)
    requires at + |src| <= buf.Length
    modifies buf
    ensures buf[..] == Put(old(buf[..]), at, src) && At(buf[..], at, src)
    ensures Same(old(buf[..]), buf[..], at) && Beyond(old(buf[..]), buf[..], at + |src|)
  {
    for k := 0 to |src|
      invariant forall j | 0 <= j < buf.Length :: buf[j] == if at <= j < at + k then src[j - at] else old(buf[j])
    {
      buf[at + k] := src[k];
    }
  }

  /** Copies `n` items of `size` bytes each. */
  method EncodeBasicElem(buf: array<byte>, dst: nat, src: seq<byte>, n: nat, size: nat) returns (rc: nat)
    requires Span(n, size) <= |src| && dst + Span(n, size) <= buf.Length
    modifies buf
    ensures rc == Span(n, size)
    ensures buf[..] == Put(old(buf[..]), dst, src[..rc])
  {
    rc := 0;
    for i := 0 to n
      invariant rc == Span(i, size) <= Span(n, size)
      invariant buf[..] == Put(old(buf[..]), dst, src[..rc])
    {
      SpanMono(i + 1, n, size);
      CopyBytes(buf, dst + rc, src[rc..rc + size]);
      PutPut(old(buf[..]), dst, src[..rc], src[rc..rc + size]);
      assert src[..rc] + src[rc..rc + size] == src[..rc + size];
      rc := rc + size;
    }
  }

  /** The length of the string in a field, or of the whole field if unterminated. */
  method StrLen(f: seq<byte>) returns (len: nat)
    ensures len == |CStr(f)|
  {
    len := 0;
    while len < |f| && f[len] != 0
      invariant 0 <= len <= |f| && |CStr(f)| == len + |CStr(f[len..])|
    {
      len := len + 1;
    }
  }

  /** Strings inside a struct carry their length in front. */
  method EncodeStringElem(e: Elem, buf: array<byte>, dst: nat, f: seq<byte>, room: int, nested: bool) returns (rc: Rc)
    requires e.kind.Str? && PayloadOk(e) && |f| == Extent(e) && dst + room - TLV_HEADER <= buf.Length
    modifies buf
    ensures Agrees(rc, buf[..], dst, EncodeString(e, f, room, nested))
    ensures Same(old(buf[..]), buf[..], dst) && (rc.Bytes? ==> Beyond(old(buf[..]), buf[..], dst + rc.n))
  {
    hide LeBytes, CStr;
    var len := StrLen(f);
    if len == |f| { return Past; }
    var size := if nested then PrefixSize(e) else 0;
    if nested && len + size > room { return Einval; }
    if !nested && len + TLV_HEADER > room { return Einval; }
    if len + size + TLV_HEADER > room { return Past; }
    ghost var head: seq<byte> := [];
    if nested {
      head := LeBytes(len, size);
      CopyBytes(buf, dst, LeBytes(len, size));
    }
    CopyBytes(buf, dst + size, f[..len]);
    assert StrWire(e, CStr(f), nested) == head + f[..len];
    rc := Bytes(size + len);
  }

  /** A struct array: its elements one after the other. */
  method EncodeStructElem(e: Elem, buf: array<byte>, dst: nat, src: seq<byte>, n: nat, room: int) returns (rc: Rc)
    requires e.kind.Struct? && PayloadOk(e) && Span(n, e.elemSize) <= |src| && dst + room - TLV_HEADER <= buf.Length
    modifies buf
    ensures Agrees(rc, buf[..], dst, EncodeStructs(e, n, src, room, []))
    ensures Same(old(buf[..]), buf[..], dst) && (rc.Bytes? ==> Beyond(old(buf[..]), buf[..], dst + rc.n))
    decreases e, 0
  {
    hide EncodeFrom;
    var encoded := 0;
    var rest := src;
    ghost var acc: seq<byte> := [];
    for i := 0 to n
      invariant encoded == |acc| && At(buf[..], dst, acc)
      invariant Span(n - i, e.elemSize) <= |rest|
      invariant Same(old(buf[..]), buf[..], dst) && Beyond(old(buf[..]), buf[..], dst + encoded)
      invariant EncodeStructs(e, n, src, room, []) == EncodeStructs(e, n - i, rest, room, acc)
    {
      ShapeElems(e.sub, 0, e.elemSize, true);
      var r := EncodeTable(e.sub, buf, dst + encoded, rest[..e.elemSize], room - encoded, 2);
      if !r.Bytes? { return r; }
      ghost var w := EncodeFrom(e.sub, 0, rest[..e.elemSize], room - encoded, 2, [], [], 0).bytes;
      acc := acc + w;
      rest := rest[e.elemSize..];
      encoded := encoded + r.n;
    }
    rc := Bytes(encoded);
  }

  method EncodePayloadElem(e: Elem, buf: array<byte>, dst: nat, f: seq<byte>, n: nat, room: int, nested: bool) returns (rc: Rc)
    requires PayloadOk(e) && n <= Capacity(e) && |f| == Extent(e) && dst + room - TLV_HEADER <= buf.Length
    modifies buf
    ensures Agrees(rc, buf[..], dst, EncodePayload(e, n, f, room, nested))
    ensures Same(old(buf[..]), buf[..], dst) && (rc.Bytes? ==> Beyond(old(buf[..]), buf[..], dst + rc.n))
    decreases e, 1
  {
    SpanMono(n, Capacity(e), e.elemSize);
    if e.kind.Basic? {
      if Span(n, e.elemSize) + TLV_HEADER > room { return Einval; }
      var k := EncodeBasicElem(buf, dst, f, n, e.elemSize);
      rc := Bytes(k);
    } else if e.kind.Struct? {
      rc := EncodeStructElem(e, buf, dst, f, n, room);
    } else {
      rc := EncodeStringElem(e, buf, dst, f, room, nested);
    }
  }

  /** Closed TLVs from `at` on, then a gap for a header, then the open bytes;
      inside a struct only the open bytes. */
  predicate Layout(b: seq<byte>, at: nat, level: nat, done: seq<byte>, open: seq<byte>) {
    if level == 1 then At(b, at, done) && At(b, at + |done| + TLV_HEADER, open)
    else done == [] && At(b, at, open)
  }

  function Cursor(at: nat, level: nat, done: seq<byte>, open: seq<byte>): nat {
    if level == 1 then at + |done| + TLV_HEADER + |open| else at + |open|
  }

  lemma LayoutWrite(was: seq<byte>, now: seq<byte>, at: nat, level: nat, done: seq<byte>, open: seq<byte>, w: seq<byte>)
    requires Layout(was, at, level, done, open) && level in {1, 2}
    requires Same(was, now, Cursor(at, level, done, open)) && At(now, Cursor(at, level, done, open), w)
    ensures Layout(now, at, level, done, open + w)
  {
  }

  /** Writing the header into its gap closes a TLV. */
  lemma LayoutClose(was: seq<byte>, now: seq<byte>, at: nat, done: seq<byte>, open: seq<byte>, t: byte)
    requires Layout(was, at, 1, done, open) && at + |done| + TLV_HEADER <= |was|
    requires now == Put(was, at + |done|, [t] + LeBytes(|open|, 2))
    ensures Layout(now, at, 1, done + Tlv(t, open), []) && Same(was, now, at)
  {
    hide LeBytes;
    var p := at + |done|;
    var h := [t] + LeBytes(|open|, 2);
    assert At(now, p, h) && Same(was, now, p) && At(now, p + |h|, open);
    assert Tlv(t, open) == h + open;
  }

  /** The cursors of the encode loop. */
  datatype Cursors = Cursors(t: nat, dlv: nat, encoded: nat, tlvPointer: nat, tlvLen: nat, bufDst: nat)

  /** Cursors and buffer `b` show `done` and `open`, and encoding from here on
      gives the result `goal`. */
  ghost predicate Running(ei: seq<Elem>, s: seq<byte>, room: int, level: nat, at: nat, b: seq<byte>,
                          c: Cursors, done: seq<byte>, open: seq<byte>, goal: Result)
    requires ElemsOk(ei, |s|)
  {
    && c.t <= |ei| && level in {1, 2} && at + room - (if level == 1 then 0 else TLV_HEADER) <= |b|
    && c.encoded == |done| + |open| && c.tlvPointer == at + |done| && c.tlvLen == |open|
    && c.bufDst == Cursor(at, level, done, open)
    && Layout(b, at, level, done, open)
    && (level == 1 && open != [] ==> c.t > 0 && ei[c.t - 1].kind.DataLen?)
    && EncodeFrom(ei, c.t, s, room, level, done, open, c.dlv) == goal
  }

  /** Where the next byte is written: at the header of a TLV that is still empty, or
      behind the open bytes. */
  function Frontier(c: Cursors, level: nat): nat {
    if level == 1 && c.tlvLen == 0 then c.tlvPointer else c.bufDst
  }

  /** Writes the header of the TLV that ends at the cursor. */
  method CloseTlv(buf: array<byte>, at: nat, tlvType: byte, c: Cursors, ghost done: seq<byte>, ghost open: seq<byte>)
    returns (c': Cursors)
    requires c.encoded == |done| + |open| && c.tlvPointer == at + |done| && c.tlvLen == |open|
    requires c.bufDst == Cursor(at, 1, done, open) && Layout(buf[..], at, 1, done, open)
    requires at + |done| + TLV_HEADER <= buf.Length
    modifies buf
    ensures Layout(buf[..], at, 1, done + Tlv(tlvType, open), []) && Same(old(buf[..]), buf[..], at)
    ensures Beyond(old(buf[..]), buf[..], c.bufDst)
    ensures c' == Cursors(c.t, c.dlv, c.encoded + TLV_HEADER, c.bufDst, 0, c.bufDst + TLV_HEADER)
  {
    hide LeBytes;
    CopyBytes(buf, c.tlvPointer, [tlvType] + LeBytes(c.tlvLen, 2));
    LayoutClose(old(buf[..]), buf[..], at, done, open, tlvType);
    c' := Cursors(c.t, c.dlv, c.encoded + TLV_HEADER, c.bufDst, 0, c.bufDst + TLV_HEADER);
  }

  /** The round for a count: an empty array ends its group at once. */
  method EncodeCount(ei: seq<Elem>, buf: array<byte>, at: nat, s: seq<byte>, room: int, level: nat, c: Cursors,
                     ghost done: seq<byte>, ghost open: seq<byte>, ghost goal: Result)
    returns (rc: Rc, c': Cursors, ghost done': seq<byte>, ghost open': seq<byte>)
    requires ElemsOk(ei, |s|) && Running(ei, s, room, level, at, buf[..], c, done, open, goal)
    requires c.t < |ei| && ei[c.t].kind.DataLen?
    modifies buf
    ensures rc.Bytes? ==> Running(ei, s, room, level, at, buf[..], c', done', open', goal) && c.t < c'.t
    ensures !rc.Bytes? ==> Agrees(rc, buf[..], at, goal)
    ensures Same(old(buf[..]), buf[..], at)
    ensures rc.Bytes? ==> Frontier(c, level) <= Frontier(c', level) && Beyond(old(buf[..]), buf[..], Frontier(c', level))
  {
    hide LeBytes, Tlv, Layout, SkipToNext, EncodePayload, Put, At;
    var e := ei[c.t];
    c', done', open' := c, done, open;
    assert ElemOk(ei, c.t, |s|) && (c.t > 0 ==> ElemOk(ei, c.t - 1, |s|));
    var n, size := CountField(e, s), CountSize(e);
    if size + c.encoded + TLV_HEADER > room { return Einval, c', done', open'; }
    CopyBytes(buf, c.bufDst, LeBytes(n, size));
    LayoutWrite(old(buf[..]), buf[..], at, level, done, open, LeBytes(n, size));
    open' := open + LeBytes(n, size);
    c' := Cursors(c.t + 1, n, c.encoded + size, c.tlvPointer, c.tlvLen + size, c.bufDst + size);
    if n == 0 {
      var t := SkipToNextElem(ei, c.t + 1, level);
      c' := c'.(t := t);
      if level == 1 {
        c' := CloseTlv(buf, at, e.tlvType, c', done', open');
        done', open' := done + Tlv(e.tlvType, open'), [];
      }
    }
    rc := Bytes(0);
  }

  /** The round for a payload. */
  method EncodeData(ei: seq<Elem>, buf: array<byte>, at: nat, s: seq<byte>, room: int, level: nat, c: Cursors,
                    ghost done: seq<byte>, ghost open: seq<byte>, ghost goal: Result)
    returns (rc: Rc, c': Cursors, ghost done': seq<byte>, ghost open': seq<byte>)
    requires ElemsOk(ei, |s|) && Running(ei, s, room, level, at, buf[..], c, done, open, goal)
    requires c.t < |ei| && !ei[c.t].kind.DataLen? && !ei[c.t].kind.OptFlag?
    requires ei[c.t].arrayType.VarLenArray? ==> 0 < c.dlv <= ei[c.t].elemLen
    modifies buf
    ensures rc.Bytes? ==> Running(ei, s, room, level, at, buf[..], c', done', open', goal) && c.t < c'.t
    ensures !rc.Bytes? ==> Agrees(rc, buf[..], at, goal)
    ensures Same(old(buf[..]), buf[..], at)
    ensures rc.Bytes? ==> Frontier(c, level) <= Frontier(c', level) && Beyond(old(buf[..]), buf[..], Frontier(c', level))
    decreases ei, 1
  {
    hide LeBytes, Tlv, EncodePayload;
    var e := ei[c.t];
    c', done', open' := c, done, open;
    assert ElemOk(ei, c.t, |s|) && PayloadOk(e);
    var n := if e.arrayType.VarLenArray? then c.dlv else Capacity(e);
    rc := EncodePayloadElem(e, buf, c.bufDst, Field(s, e), n, room - c.encoded, level > 1);
    if !rc.Bytes? { return; }
    ghost var w := EncodePayload(e, n, Field(s, e), room - c.encoded, level > 1).bytes;
    PayloadExact(e, n, Field(s, e), room - c.encoded, level > 1);
    LayoutWrite(old(buf[..]), buf[..], at, level, done, open, w);
    open' := open + w;
    c' := Cursors(c.t + 1, n, c.encoded + rc.n, c.tlvPointer, c.tlvLen + rc.n, c.bufDst + rc.n);
    if level == 1 {
      c' := CloseTlv(buf, at, e.tlvType, c', done', open');
      done', open' := done + Tlv(e.tlvType, open'), [];
    }
  }

  /** The encode loop: one element of the table a round. */
  method EncodeTable(ei: seq<Elem>, buf: array<byte>, at: nat, s: seq<byte>, room: int, level: nat) returns (rc: Rc)
    requires ElemsOk(ei, |s|) && level in {1, 2}
    requires at + room - (if level == 1 then 0 else TLV_HEADER) <= buf.Length
    modifies buf
    ensures Agrees(rc, buf[..], at, EncodeFrom(ei, 0, s, room, level, [], [], 0))
    ensures Same(old(buf[..]), buf[..], at) && (rc.Bytes? ==> Beyond(old(buf[..]), buf[..], at + rc.n))
    decreases ei, 2
  {
    hide EncodePayload, LeBytes, Tlv;
    ghost var goal := EncodeFrom(ei, 0, s, room, level, [], [], 0);
    ghost var done: seq<byte>, open: seq<byte> := [], [];
    var c := Cursors(0, 0, 0, at, 0, if level == 1 then at + TLV_HEADER else at);
    while c.t < |ei|
      invariant Running(ei, s, room, level, at, buf[..], c, done, open, goal)
      invariant Same(old(buf[..]), buf[..], at) && Beyond(old(buf[..]), buf[..], Frontier(c, level))
      decreases |ei| - c.t
    {
      var e := ei[c.t];
      assert ElemOk(ei, c.t, |s|) && (c.t > 0 ==> ElemOk(ei, c.t - 1, |s|));
      if e.arrayType.VarLenArray? && (c.dlv == 0 || e.elemLen < c.dlv) { return Einval; }
      if e.kind.OptFlag? {
        var t := c.t + 1;
        if Field(s, e)[0] == 0 { t := SkipToNextElem(ei, c.t, level); }
        c := c.(t := t, dlv := 1);
      } else if e.kind.DataLen? {
        rc, c, done, open := EncodeCount(ei, buf, at, s, room, level, c, done, open, goal);
        if !rc.Bytes? { return; }
      } else {
        rc, c, done, open := EncodeData(ei, buf, at, s, room, level, c, done, open, goal);
        if !rc.Bytes? { return; }
      }
    }
    assert |ei| > 0 ==> ElemOk(ei, |ei| - 1, |s|);
    assert done + open == if level == 1 then done else open;
    rc := Bytes(c.encoded);
  }
}

/**
 Whole messages: TLVs may arrive in any order and with unknown optional TLVs
 in between; the decoded struct is the same.
 */
module QmiMessage {
  import opened Basics
  import opened QmiSchema
  import opened QmiWire
  import opened QmiDecode
  import opened QmiRoundTrip

  /** `g` is the first element of a group of the table from `i` on. */
  predicate IsStart(ei: seq<Elem>, i: nat, g: nat)
    decreases |ei| - i
  {
    i < |ei| && (g == i || IsStart(ei, NextGroup(ei, i), g))
  }

  predicate HasType(ei: seq<Elem>, k: nat, t: byte)
    requires k < |ei|
  {
    ei[k].tlvType == t
  }

  /** A group has a TLV type of its own, different from the type 0 of the
      terminating element. */
  predicate TypedGroup(ei: seq<Elem>, g: nat)
    requires g < |ei|
  {
    ei[g].tlvType != 0 &&
    forall k {:trigger HasType(ei, k, ei[g].tlvType)} | 0 <= k < |ei| :: HasType(ei, k, ei[g].tlvType) <==> g <= k < NextGroup(ei, g)
  }

  predicate Typed(ei: seq<Elem>, i: nat)
    decreases |ei| - i
  {
    i < |ei| ==> TypedGroup(ei, i) && Typed(ei, NextGroup(ei, i))
  }

  /** A well-formed message schema for structs of `size` bytes. */
  predicate Schema(ei: seq<Elem>, size: nat) {
    Shape(ei, 0, size, false) && Sound(ei) && Typed(ei, 0)
  }

  // ---------------------------------------------------------------------
  // Groups of a schema

  lemma {:induction false} StartFacts(ei: seq<Elem>, i: nat, g: nat, size: nat)
    requires Shape(ei, i, size, false) && Typed(ei, i) && IsStart(ei, i, g)
    ensures i <= g < |ei| && GroupOk(ei, g, size, false) && TypedGroup(ei, g)
    ensures g == i || NextGroup(ei, i) <= g
    decreases |ei| - i
  {
    if g != i {
      StartFacts(ei, NextGroup(ei, i), g, size);
    }
  }

  lemma {:induction false} FitsAt(ei: seq<Elem>, i: nat, g: nat, s: seq<byte>)
    requires Shape(ei, i, |s|, false) && IsStart(ei, i, g) && Fits(ei, i, s, false)
    ensures g < |ei| && GroupOk(ei, g, |s|, false) && (Present(ei, g, s) ==> FitsGroup(ei, g, s, false))
    decreases |ei| - i
  {
    if g != i {
      FitsAt(ei, NextGroup(ei, i), g, s);
    }
  }

  lemma {:induction false} GroupOf(ei: seq<Elem>, i: nat, k: nat, size: nat) returns (g: nat)
    requires Shape(ei, i, size, false) && i <= k < |ei|
    ensures IsStart(ei, i, g) && g <= k && g < |ei| && k < NextGroup(ei, g)
    decreases |ei| - i
  {
    if k < NextGroup(ei, i) {
      g := i;
    } else {
      g := GroupOf(ei, NextGroup(ei, i), k, size);
    }
  }

  /** Looking a TLV type up finds the start of the group with that type. */
  lemma FindStart(ei: seq<Elem>, size: nat, g: nat)
    requires Schema(ei, size) && IsStart(ei, 0, g)
    ensures g < |ei| && FindEi(ei, ei[g].tlvType) == g
  {
    StartFacts(ei, 0, g, size);
    var t := ei[g].tlvType;
    assert HasType(ei, g, t);
    assert HasType(ei, FindEi(ei, t), t);
  }

  lemma SchemaTopShape(ei: seq<Elem>, size: nat)
    requires Schema(ei, size)
    ensures TopShape(ei, size)
  {
    forall t: byte | FindEi(ei, t) < |ei|
      ensures GroupOk(ei, FindEi(ei, t), size, false)
    {
      var k := FindEi(ei, t);
      var g := GroupOf(ei, 0, k, size);
      StartFacts(ei, 0, g, size);
      assert HasType(ei, k, ei[g].tlvType);
      FindStart(ei, size, g);
    }
  }

  /** Two different groups have no element in common. */
  lemma {:induction false} StartsApart(ei: seq<Elem>, i: nat, g: nat, h: nat, size: nat)
    requires Shape(ei, i, size, false) && Typed(ei, i) && IsStart(ei, i, g) && IsStart(ei, i, h) && g != h
    ensures g < |ei| && h < |ei| && (NextGroup(ei, g) <= h || NextGroup(ei, h) <= g)
    decreases |ei| - i
  {
    StartFacts(ei, i, g, size);
    StartFacts(ei, i, h, size);
    if g != i && h != i {
      StartsApart(ei, NextGroup(ei, i), g, h, size);
    }
  }

  // ---------------------------------------------------------------------
  // Streams of TLVs

  /** A TLV of a message: the encoding of the group at `start`, or a TLV whose
      type the schema does not know. */
  datatype Piece = Known(start: nat) | Unknown(t: byte, payload: seq<byte>)

  predicate PieceOk(ei: seq<Elem>, src: seq<byte>, p: Piece)
    requires Schema(ei, |src|)
  {
    match p
    case Known(g) => IsStart(ei, 0, g) && (StartFacts(ei, 0, g, |src|); Present(ei, g, src))
    case Unknown(t, payload) => OPTIONAL_TLV_TYPE_START <= t && FindEi(ei, t) == |ei| && |payload| < 65536
  }

  function PieceWire(ei: seq<Elem>, src: seq<byte>, p: Piece): (w: seq<byte>)
    requires Schema(ei, |src|) && PieceOk(ei, src, p)
    ensures |w| >= TLV_HEADER
  {
    match p
    case Known(g) => StartFacts(ei, 0, g, |src|); Tlv(ei[g].tlvType, GroupWire(ei, g, src, false))
    case Unknown(t, payload) => Tlv(t, payload)
  }

  function Stream(ei: seq<Elem>, src: seq<byte>, ps: seq<Piece>): seq<byte>
    requires Schema(ei, |src|) && forall p | p in ps :: PieceOk(ei, src, p)
  {
    if ps == [] then [] else PieceWire(ei, src, ps[0]) + Stream(ei, src, ps[1..])
  }

  /** The group at `g` reads the same in `a` and `b`. */
  predicate SameGroup(ei: seq<Elem>, g: nat, a: seq<byte>, b: seq<byte>)
    requires |a| == |b| && g < |ei| && GroupOk(ei, g, |a|, false)
  {
    GroupViewOf(ei, g, a, false) == GroupViewOf(ei, g, b, false)
  }

  lemma OthersSame(ei: seq<Elem>, g: nat, h: nat, a: seq<byte>, b: seq<byte>)
    requires |a| == |b| && Schema(ei, |a|) && IsStart(ei, 0, g) && IsStart(ei, 0, h) && g != h && g < |ei|
    requires OthersKept(ei, g, a, b)
    ensures h < |ei| && GroupOk(ei, h, |a|, false) && SameGroup(ei, h, a, b)
  {
    StartFacts(ei, 0, h, |a|);
    StartsApart(ei, 0, g, h, |a|);
    GroupViewFrame(ei, h, a, b, false);
  }

  lemma TlvHeader(t: byte, payload: seq<byte>, rest: seq<byte>)
    requires |payload| < 65536
    ensures var inp := Tlv(t, payload) + rest;
            && inp[0] == t && LeValue(inp[1..3]) == |payload|
            && inp[TLV_HEADER..] == payload + rest && inp[TLV_HEADER + |payload|..] == rest
  {
    var inp := Tlv(t, payload) + rest;
    assert inp[1..3] == LeBytes(|payload|, 2);
    LeRoundTrip(|payload|, 2);
  }

  lemma UnknownStep(ei: seq<Elem>, s: seq<byte>, t: byte, payload: seq<byte>, rest: seq<byte>, dlv: nat)
    requires TopShape(ei, |s|) && |payload| < 65536
    requires OPTIONAL_TLV_TYPE_START <= t && FindEi(ei, t) == |ei|
    ensures StepTop(ei, s, Tlv(t, payload) + rest, dlv) == Next(|Tlv(t, payload)|, s, dlv)
  {
    TlvHeader(t, payload, rest);
  }

  lemma KnownStep(ei: seq<Elem>, s: seq<byte>, g: nat, gw: seq<byte>, rest: seq<byte>, dlv: nat, s1: seq<byte>, d: nat)
    requires TopShape(ei, |s|) && |s1| == |s| && |gw| < 65536
    requires g < |ei| && FindEi(ei, ei[g].tlvType) == g && GroupOk(ei, g, |s|, false)
    requires DecodeGroup(ei, g, s, gw + rest, |gw|, dlv, 1) == GroupDone(|gw|, s1, d)
    ensures StepTop(ei, s, Tlv(ei[g].tlvType, gw) + rest, dlv) == Next(|Tlv(ei[g].tlvType, gw)|, s1, d)
  {
    TlvHeader(ei[g].tlvType, gw, rest);
  }

  /** Decoding one TLV at the head of a message. */
  lemma {:induction false} PieceRT(ei: seq<Elem>, src: seq<byte>, dst: seq<byte>, p: Piece, rest: seq<byte>, dlv: nat)
    returns (s1: seq<byte>, d: nat)
    requires |src| == |dst| && Schema(ei, |src|) && Fits(ei, 0, src, false) && PieceOk(ei, src, p) && DlvOk(ei, dlv)
    requires TopShape(ei, |dst|)
    ensures |s1| == |dst| && DlvOk(ei, d)
    ensures StepTop(ei, dst, PieceWire(ei, src, p) + rest, dlv) == Next(|PieceWire(ei, src, p)|, s1, d)
    ensures p.Unknown? ==> s1 == dst
    ensures p.Known? ==> p.start < |ei| && GroupOk(ei, p.start, |dst|, false) &&
                         SameGroup(ei, p.start, s1, src) && OthersKept(ei, p.start, dst, s1)
  {
    match p {
      case Unknown(t, payload) =>
        s1, d := dst, dlv;
        UnknownStep(ei, dst, t, payload, rest, dlv);
      case Known(g) =>
        StartFacts(ei, 0, g, |src|);
        FitsAt(ei, 0, g, src);
        FindStart(ei, |src|, g);
        var gw := GroupWire(ei, g, src, false);
        s1, d := GroupRT(ei, g, src, dst, rest, |gw|, dlv, 1);
        KnownStep(ei, dst, g, gw, rest, dlv, s1, d);
    }
  }

  /** What decoding a stream of TLVs leaves in the struct: the groups that were
      in the stream read as in `src`, all others as before. */
  ghost predicate Merged(ei: seq<Elem>, src: seq<byte>, dst: seq<byte>, ps: seq<Piece>, out: seq<byte>)
    requires |src| == |dst| == |out| && Schema(ei, |src|)
  {
    forall g: nat | IsStart(ei, 0, g) ::
      g < |ei| && GroupOk(ei, g, |src|, false) &&
      SameGroup(ei, g, out, if Known(g) in ps then src else dst)
  }

  lemma MergedCons(ei: seq<Elem>, src: seq<byte>, dst: seq<byte>, ps: seq<Piece>, s1: seq<byte>, out: seq<byte>)
    requires |src| == |dst| == |out| == |s1| && Schema(ei, |src|) && ps != []
    requires Merged(ei, src, s1, ps[1..], out)
    requires ps[0].Unknown? ==> s1 == dst
    requires ps[0].Known? ==> IsStart(ei, 0, ps[0].start) && ps[0].start < |ei| && GroupOk(ei, ps[0].start, |dst|, false) &&
                              SameGroup(ei, ps[0].start, s1, src) && OthersKept(ei, ps[0].start, dst, s1)
    ensures Merged(ei, src, dst, ps, out)
  {
    forall g: nat | IsStart(ei, 0, g)
      ensures g < |ei| && GroupOk(ei, g, |src|, false) && SameGroup(ei, g, out, if Known(g) in ps then src else dst)
    {
      if ps[0].Known? && ps[0].start != g {
        OthersSame(ei, ps[0].start, g, dst, s1);
      }
      MergedAt(ei, src, dst, ps, s1, out, g);
    }
  }

  lemma MergedAt(ei: seq<Elem>, src: seq<byte>, dst: seq<byte>, ps: seq<Piece>, s1: seq<byte>, out: seq<byte>, g: nat)
    requires |src| == |dst| == |out| == |s1| && ps != [] && g < |ei| && GroupOk(ei, g, |src|, false)
    requires SameGroup(ei, g, out, if Known(g) in ps[1..] then src else s1)
    requires if ps[0] == Known(g) then SameGroup(ei, g, s1, src) else SameGroup(ei, g, s1, dst)
    ensures SameGroup(ei, g, out, if Known(g) in ps then src else dst)
  {
    assert ps == [ps[0]] + ps[1..];
  }

  lemma MergedNil(ei: seq<Elem>, src: seq<byte>, dst: seq<byte>)
    requires |src| == |dst| && Schema(ei, |src|)
    ensures Merged(ei, src, dst, [], dst)
  {
    forall g: nat | IsStart(ei, 0, g) ensures g < |ei| && GroupOk(ei, g, |src|, false) {
      StartFacts(ei, 0, g, |src|);
    }
  }

  lemma TopCons(ei: seq<Elem>, s: seq<byte>, w: seq<byte>, rest: seq<byte>, dlv: nat, s1: seq<byte>, d: nat, out: seq<byte>)
    requires TopShape(ei, |s|) && |s1| == |s| && |w| >= TLV_HEADER
    requires StepTop(ei, s, w + rest, dlv) == Next(|w|, s1, d)
    requires DecodeTop(ei, s1, rest, |rest|, d) == Done(|rest|, out)
    ensures DecodeTop(ei, s, w + rest, |w + rest|, dlv) == Done(|w + rest|, out)
  {
    assert Drop(w + rest, |w|) == rest;
  }

  lemma {:induction false} StreamRT(ei: seq<Elem>, src: seq<byte>, dst: seq<byte>, ps: seq<Piece>, dlv: nat)
    returns (out: seq<byte>)
    requires |src| == |dst| && Schema(ei, |src|) && Fits(ei, 0, src, false) && DlvOk(ei, dlv)
    requires forall p | p in ps :: PieceOk(ei, src, p)
    requires TopShape(ei, |dst|)
    ensures |out| == |dst| && Merged(ei, src, dst, ps, out)
    ensures DecodeTop(ei, dst, Stream(ei, src, ps), |Stream(ei, src, ps)|, dlv) == Done(|Stream(ei, src, ps)|, out)
    decreases ps
  {
    if ps == [] {
      out := dst;
      MergedNil(ei, src, dst);
    } else {
      var w, rest := PieceWire(ei, src, ps[0]), Stream(ei, src, ps[1..]);
      var s1, d := PieceRT(ei, src, dst, ps[0], rest, dlv);
      out := StreamRT(ei, src, s1, ps[1..], d);
      TopCons(ei, dst, w, rest, dlv, s1, d, out);
      MergedCons(ei, src, dst, ps, s1, out);
    }
  }

  // ---------------------------------------------------------------------
  // Main results

  /** No optional group of a cleared struct is present. */
  predicate Cleared(ei: seq<Elem>, s: seq<byte>) {
    forall k | 0 <= k < |ei| && ei[k].kind.OptFlag? && ei[k].offset < |s| :: s[ei[k].offset] == 0
  }

  lemma {:induction false} ViewFromGroups(ei: seq<Elem>, i: nat, a: seq<byte>, b: seq<byte>)
    requires |a| == |b| && Shape(ei, i, |a|, false)
    requires forall g: nat | IsStart(ei, i, g) :: g < |ei| && GroupOk(ei, g, |a|, false) && SameGroup(ei, g, a, b)
    ensures View(ei, i, a, false) == View(ei, i, b, false)
    decreases |ei| - i
  {
    if i < |ei| {
      assert IsStart(ei, i, i);
      var j := NextGroup(ei, i);
      forall g: nat | IsStart(ei, j, g) ensures g < |ei| && GroupOk(ei, g, |a|, false) && SameGroup(ei, g, a, b) {
        assert IsStart(ei, i, g);
      }
      ViewFromGroups(ei, j, a, b);
    }
  }

  /** Order independence: the TLVs of a struct in any order, repeated or mixed
      with unknown optional TLVs, decode to a struct that reads the same. */
  lemma {:induction false} DecodeAnyOrder(ei: seq<Elem>, src: seq<byte>, dst: seq<byte>, ps: seq<Piece>)
    returns (out: seq<byte>)
    requires |src| == |dst| && Schema(ei, |src|) && Fits(ei, 0, src, false) && Cleared(ei, dst)
    requires forall p | p in ps :: PieceOk(ei, src, p)
    requires forall g: nat | IsStart(ei, 0, g) && PieceOk(ei, src, Known(g)) :: Known(g) in ps
    ensures TopShape(ei, |dst|) && |out| == |dst|
    ensures DecodeTop(ei, dst, Stream(ei, src, ps), |Stream(ei, src, ps)|, 0) == Done(|Stream(ei, src, ps)|, out)
    ensures View(ei, 0, out, false) == View(ei, 0, src, false)
  {
    SchemaTopShape(ei, |dst|);
    out := StreamRT(ei, src, dst, ps, 0);
    forall g: nat | IsStart(ei, 0, g) ensures g < |ei| && GroupOk(ei, g, |src|, false) && SameGroup(ei, g, out, src) {
      StartFacts(ei, 0, g, |src|);
      assert SameGroup(ei, g, out, if Known(g) in ps then src else dst);
      if Known(g) !in ps {
        assert !Present(ei, g, src) && !Present(ei, g, dst);
      }
    }
    ViewFromGroups(ei, 0, out, src);
  }

  /** The TLVs of the groups from `i` on, in schema order. */
  function InOrder(ei: seq<Elem>, i: nat, src: seq<byte>): (ps: seq<Piece>)
    requires Schema(ei, |src|) && Shape(ei, i, |src|, false)
    decreases |ei| - i
  {
    if i == |ei| then []
    else (if Present(ei, i, src) then [Known(i)] else []) + InOrder(ei, NextGroup(ei, i), src)
  }

  lemma {:induction false} InOrderPieces(ei: seq<Elem>, i: nat, src: seq<byte>)
    requires Schema(ei, |src|) && Shape(ei, i, |src|, false)
    requires forall g: nat | IsStart(ei, i, g) :: IsStart(ei, 0, g)
    ensures forall p | p in InOrder(ei, i, src) :: PieceOk(ei, src, p)
    ensures forall g: nat | IsStart(ei, i, g) && PieceOk(ei, src, Known(g)) :: Known(g) in InOrder(ei, i, src)
    ensures Stream(ei, src, InOrder(ei, i, src)) == Wire(ei, i, src, false)
    decreases |ei| - i
  {
    if i < |ei| {
      var j := NextGroup(ei, i);
      assert IsStart(ei, i, i);
      forall g: nat | IsStart(ei, j, g) ensures IsStart(ei, 0, g) {
        assert IsStart(ei, i, g);
      }
      InOrderPieces(ei, j, src);
      var ps := InOrder(ei, j, src);
      assert PieceOk(ei, src, Known(i)) <==> Present(ei, i, src);
      if Present(ei, i, src) {
        assert ([Known(i)] + ps)[1..] == ps;
      } else {
        assert [] + ps == ps;
      }
    }
  }

  /** Round trip: decoding the wire form of a struct into a cleared struct gives
      a struct with the same flags, counts, data, nested structs and strings. */
  lemma {:induction false} RoundTrip(ei: seq<Elem>, src: seq<byte>, dst: seq<byte>) returns (out: seq<byte>)
    requires |src| == |dst| && Schema(ei, |src|) && Fits(ei, 0, src, false) && Cleared(ei, dst)
    ensures TopShape(ei, |dst|) && |out| == |dst|
    ensures DecodeTop(ei, dst, Wire(ei, 0, src, false), |Wire(ei, 0, src, false)|, 0) == Done(|Wire(ei, 0, src, false)|, out)
    ensures View(ei, 0, out, false) == View(ei, 0, src, false)
  {
    InOrderPieces(ei, 0, src);
    out := DecodeAnyOrder(ei, src, dst, InOrder(ei, 0, src));
  }
}

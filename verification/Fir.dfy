/**
 The FIR filter over interleaved 16-bit samples: what one block gives, and why
 any split of a stream into blocks gives the convolution of the whole stream.
 */
module Fir {
  /** Filter settings; `taps` holds one set of `length` taps, or one per channel. */
  datatype Filter = Filter(channels: nat, length: nat, perChannel: bool, taps: seq<int>) {
    ghost predicate Valid() {
      channels > 0 && length > 0
      && |taps| == TapCount(channels, length, perChannel)
    }

    /** The second lane has taps of its own. */
    predicate TwoSets() {
      channels > 1 && perChannel
    }

    /** Where the taps of a channel begin. */
    function Base(ch: nat): nat {
      if TwoSets() then ch * length else 0
    }

    /** Samples kept between blocks. */
    function Kept(): nat
      requires length > 0
    {
      MulMono(0, length - 1, channels);
      FramePos(length - 1, channels)
    }
  }

  function TapCount(channels: nat, length: nat, perChannel: bool): nat {
    if perChannel then length * channels else length
  }

  /** Blocks that the state of a filter for `room` frames can take. */
  predicate BlockFits(f: Filter, room: nat, samples: nat) {
    samples <= room || (samples == room + 1 && f.channels % 2 == 0)
  }

  /** The number of samples in `n` frames, or back over them if negative. */
  function FramePos(n: int, channels: nat): int {
    n * channels
  }

  const HALF := 0x8000_0000
  const WORD := 0x1_0000_0000

  predicate S16(v: int) {
    -32768 <= v <= 32767
  }

  predicate Samples(x: seq<int>) {
    forall i | 0 <= i < |x| :: S16(x[i])
  }

  /** The value a 32-bit accumulator holds for `v`. */
  function Wrap32(v: int): (r: int)
    ensures -HALF <= r < HALF
    ensures -HALF <= v < HALF ==> r == v
  {
    (v + HALF) % WORD - HALF
  }

  function Clamp16(v: int): (r: int)
    ensures S16(r)
  {
    if v > 32767 then 32767 else if v < -32768 then -32768 else v
  }

  /** The output for a full accumulator: an arithmetic shift by 15, saturated. */
  function Scaled(acc: int): (r: int)
    ensures S16(r)
  {
    Clamp16(acc / 32768)
  }

  /** Zero outside the sequence: the samples before a stream are silence. */
  function Get(x: seq<int>, i: int): int {
    if 0 <= i < |x| then x[i] else 0
  }

  /** The sample `d` positions back. */
  function Before(x: seq<int>, at: int, d: int): int {
    Get(x, at - d)
  }

  /** The sum over the first `k` taps, stepping back one frame at a time from `at`. */
  function Acc(x: seq<int>, at: int, step: nat, h: seq<int>, base: nat, k: nat): int {
    if k == 0 then 0
    else Acc(x, at, step, h, base, k - 1) + Before(x, at, FramePos(k - 1, step)) * Get(h, base + k - 1)
  }

  function Chan(i: nat, channels: nat): (c: nat)
    requires channels > 0
    ensures c < channels
  {
    i % channels
  }

  /** The filter's output for sample `i` of a stream. */
  function FilterAt(f: Filter, x: seq<int>, i: nat): (r: int)
    requires f.Valid()
    ensures S16(r)
  {
    Scaled(Wrap32(Acc(x, i, f.channels, f.taps, f.Base(Chan(i, f.channels)), f.length)))
  }

  function Filtered(f: Filter, x: seq<int>): seq<int>
    requires f.Valid()
  {
    seq(|x|, i requires 0 <= i < |x| => FilterAt(f, x, i))
  }

  // ---------------------------------------------------------------------
  // Blocks

  function Zeros(n: nat): seq<int> {
    seq(n, _ => 0)
  }

  function BlockOut(f: Filter, tail: seq<int>, block: seq<int>): seq<int>
    requires f.Valid()
  {
    seq(|block|, i requires 0 <= i < |block| => FilterAt(f, tail + block, |tail| + i))
  }

  function NextTail(tail: seq<int>, block: seq<int>): (r: seq<int>)
    ensures |r| == |tail|
  {
    (tail + block)[|block|..]
  }

  /** The output of a filter fed block by block. */
  function Run(f: Filter, tail: seq<int>, blocks: seq<seq<int>>): seq<int>
    requires f.Valid()
    decreases |blocks|
  {
    if blocks == [] then []
    else BlockOut(f, tail, blocks[0]) + Run(f, NextTail(tail, blocks[0]), blocks[1..])
  }

  function Concat(blocks: seq<seq<int>>): seq<int> {
    if blocks == [] then [] else blocks[0] + Concat(blocks[1..])
  }

  /** Blocks hold whole frames. */
  predicate Frames(f: Filter, x: seq<int>)
    requires f.channels > 0
  {
    Chan(|x|, f.channels) == 0
  }

  // ---------------------------------------------------------------------
  // Arithmetic

  lemma MulMono(a: int, b: int, c: nat)
    requires a <= b
    ensures a * c <= b * c
  {
    assert (b - a) * c >= 0;
  }

  /** A frame of the state with the spare sample behind channel `ch` is inside it. */
  lemma FrameInside(n: nat, ch: nat, channels: nat, frames: nat)
    requires ch < channels && (n + 2 <= frames || (n + 1 == frames && ch + 1 < channels))
    ensures 0 <= FramePos(n, channels) + ch && FramePos(n, channels) + ch + 1 < FramePos(frames, channels)
  {
    MulMono(0, n, channels);
    if n + 2 <= frames {
      MulMono(n + 2, frames, channels);
    }
  }

  /** Quotient and remainder are unique. */
  lemma UniqueFrame(q: int, r: int, s: int, c: int, n: nat)
    requires 0 <= r < n && 0 <= c < n && q * n + r == s * n + c
    ensures q == s && r == c
  {
    if q > s {
      MulMono(s + 1, q, n);
      assert false;
    } else if q < s {
      MulMono(q + 1, s, n);
      assert false;
    }
  }

  lemma ChanOfFrame(s: nat, c: nat, channels: nat)
    requires c < channels
    ensures Chan(s * channels + c, channels) == c
  {
    var i := s * channels + c;
    UniqueFrame(i / channels, i % channels, s, c, channels);
  }

  /** Whole frames in front do not change a sample's channel. */
  lemma ChanShift(a: nat, i: nat, channels: nat)
    requires channels > 0 && Chan(a, channels) == 0
    ensures Chan(a + i, channels) == Chan(i, channels)
  {
    var s, t := a / channels, i / channels;
    assert a + i == (s + t) * channels + Chan(i, channels);
    ChanOfFrame(s + t, Chan(i, channels), channels);
  }

  /** The samples up to `n` positions back are the same. */
  predicate Agree(x: seq<int>, at: int, y: seq<int>, to: int, n: int) {
    forall d | 0 <= d <= n :: Before(x, at, d) == Before(y, to, d)
  }

  lemma {:induction false} AccSame(x: seq<int>, at: int, y: seq<int>, to: int, step: nat, h: seq<int>, base: nat, k: nat)
    requires Agree(x, at, y, to, (k - 1) * step)
    ensures Acc(x, at, step, h, base, k) == Acc(y, to, step, h, base, k)
  {
    if k > 0 {
      MulMono(0, k - 1, step);
      AccSame(x, at, y, to, step, h, base, k - 1);
    }
  }

  /** The output depends only on the frames the taps reach back to. */
  lemma FilterSame(f: Filter, x: seq<int>, at: nat, y: seq<int>, to: nat)
    requires f.Valid() && Chan(at, f.channels) == Chan(to, f.channels)
    requires Agree(x, at, y, to, f.Kept())
    ensures FilterAt(f, x, at) == FilterAt(f, y, to)
  {
    hide Agree, Chan;
    AccSame(x, at, y, to, f.channels, f.taps, f.Base(Chan(at, f.channels)), f.length);
  }

  // ---------------------------------------------------------------------
  // Any split of a stream gives the convolution of the stream

  /** What the filter keeps after a stream: its last samples, with silence before. */
  function Tail(f: Filter, x: seq<int>): (r: seq<int>)
    requires f.Valid()
    ensures |r| == f.Kept()
  {
    (Zeros(f.Kept()) + x)[|x|..]
  }

  lemma TailStep(f: Filter, x: seq<int>, block: seq<int>)
    requires f.Valid()
    ensures Tail(f, x + block) == NextTail(Tail(f, x), block)
  {
    var z := Zeros(f.Kept());
    assert z + (x + block) == (z + x) + block;
    assert (z + x + block)[|x|..] == (z + x)[|x|..] + block;
  }

  /** The tail stands in for everything before the block. */
  lemma BlockSample(f: Filter, x: seq<int>, block: seq<int>, i: nat)
    requires f.Valid() && Frames(f, x) && i < |block|
    ensures FilterAt(f, Tail(f, x) + block, f.Kept() + i) == FilterAt(f, x + block, |x| + i)
  {
    hide Chan, FilterAt;
    var t := Tail(f, x);
    assert Chan(f.Kept(), f.channels) == 0 by { ChanOfFrame(f.length - 1, 0, f.channels); }
    ChanShift(f.Kept(), i, f.channels);
    ChanShift(|x|, i, f.channels);
    assert Agree(t + block, f.Kept() + i, x + block, |x| + i, f.Kept());
    FilterSame(f, t + block, f.Kept() + i, x + block, |x| + i);
  }

  /** A sample's output does not depend on what comes later. */
  lemma Causal(f: Filter, x: seq<int>, block: seq<int>, i: nat)
    requires f.Valid() && i < |x|
    ensures FilterAt(f, x, i) == FilterAt(f, x + block, i)
  {
    FilterSame(f, x, i, x + block, i);
  }

  lemma BlockExtends(f: Filter, x: seq<int>, block: seq<int>)
    requires f.Valid() && Frames(f, x)
    ensures Filtered(f, x) + BlockOut(f, Tail(f, x), block) == Filtered(f, x + block)
  {
    forall i | 0 <= i < |x| ensures Filtered(f, x)[i] == Filtered(f, x + block)[i] {
      Causal(f, x, block, i);
    }
    forall i | 0 <= i < |block|
      ensures BlockOut(f, Tail(f, x), block)[i] == Filtered(f, x + block)[|x| + i]
    {
      BlockSample(f, x, block, i);
    }
  }

  lemma {:induction false} RunExtends(f: Filter, x: seq<int>, blocks: seq<seq<int>>)
    requires f.Valid() && Frames(f, x) && (forall b | b in blocks :: Frames(f, b))
    ensures Filtered(f, x) + Run(f, Tail(f, x), blocks) == Filtered(f, x + Concat(blocks))
    decreases |blocks|
  {
    hide Chan, Filtered, BlockOut, NextTail, Tail, FramePos;
    if blocks == [] {
      assert x + Concat(blocks) == x;
    } else {
      var b, rest := blocks[0], blocks[1..];
      BlockExtends(f, x, b);
      TailStep(f, x, b);
      ChanShift(|x|, |b|, f.channels);
      assert Frames(f, b) && Frames(f, x + b);
      RunExtends(f, x + b, rest);
      assert x + Concat(blocks) == x + b + Concat(rest);
    }
  }

  /** Streaming: from a reset filter, any split into blocks of whole frames gives
      the filtered stream. */
  lemma StreamingIsConvolution(f: Filter, blocks: seq<seq<int>>)
    requires f.Valid() && forall b | b in blocks :: Frames(f, b)
    ensures Run(f, Zeros(f.Kept()), blocks) == Filtered(f, Concat(blocks))
  {
    ChanOfFrame(0, 0, f.channels);
    assert Tail(f, []) == Zeros(f.Kept());
    assert [] + Concat(blocks) == Concat(blocks);
    RunExtends(f, [], blocks);
  }
}

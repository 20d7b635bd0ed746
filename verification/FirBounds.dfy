/**
 What the filter's output is channel by channel, exactly which taps keep the
 32-bit accumulator exact, and exactly when the second lane's taps are inside
 the tap buffer.
 */
module FirBounds {
  import opened Fir

  // ---------------------------------------------------------------------
  // The convolution of one channel

  function Tap(f: Filter, ch: nat, k: nat): int {
    Get(f.taps, if f.perChannel then ch * f.length + k else k)
  }

  /** Sample `n` of a channel; silence before the stream. */
  function Sample(f: Filter, x: seq<int>, n: int, ch: nat): int {
    if n < 0 then 0 else Get(x, n * f.channels + ch)
  }

  function Convolution(f: Filter, x: seq<int>, n: int, ch: nat, k: nat): int {
    if k == 0 then 0
    else Convolution(f, x, n, ch, k - 1) + Sample(f, x, n - (k - 1), ch) * Tap(f, ch, k - 1)
  }

  lemma {:induction false} AccIsConvolution(f: Filter, x: seq<int>, n: nat, ch: nat, k: nat)
    requires f.Valid() && ch < f.channels
    ensures Acc(x, n * f.channels + ch, f.channels, f.taps, f.Base(ch), k) == Convolution(f, x, n, ch, k)
  {
    if k > 0 {
      AccIsConvolution(f, x, n, ch, k - 1);
      var c, j := f.channels, k - 1;
      assert n * c + ch - j * c == (n - j) * c + ch;
      if n < j {
        MulMono(n - j, -1, c);
      }
      assert Before(x, n * c + ch, j * c) == Sample(f, x, n - j, ch);
      if f.perChannel && c == 1 {
        assert ch == 0;
      }
    }
  }

  /** Each output sample is the saturated, scaled convolution of its own channel
      with that channel's taps. */
  lemma ChannelConvolution(f: Filter, x: seq<int>, n: nat, ch: nat)
    requires f.Valid() && ch < f.channels
    ensures FilterAt(f, x, n * f.channels + ch) == Scaled(Wrap32(Convolution(f, x, n, ch, f.length)))
  {
    ChanOfFrame(n, ch, f.channels);
    AccIsConvolution(f, x, n, ch, f.length);
  }

  // ---------------------------------------------------------------------
  // The accumulator

  /** The 16-bit sample that makes a product with `h` largest. */
  function Best(h: int): int {
    if h < 0 then -32768 else 32767
  }

  function Worst(h: int): int {
    if h < 0 then 32767 else -32768
  }

  function Highest(h: seq<int>, base: nat, k: nat): (r: int)
    ensures r >= 0
  {
    if k == 0 then 0
    else Highest(h, base, k - 1) + Best(Get(h, base + k - 1)) * Get(h, base + k - 1)
  }

  function Lowest(h: seq<int>, base: nat, k: nat): (r: int)
    ensures r <= 0
  {
    if k == 0 then 0
    else Lowest(h, base, k - 1) + Worst(Get(h, base + k - 1)) * Get(h, base + k - 1)
  }

  /** Both extremes fit 32 bits. */
  predicate Fits(h: seq<int>, base: nat, k: nat) {
    -HALF <= Lowest(h, base, k) && Highest(h, base, k) < HALF
  }

  lemma ProductBounds(v: int, h: int)
    requires S16(v)
    ensures Worst(h) * h <= v * h <= Best(h) * h
  {
    if h < 0 {
      MulMono(Best(h), v, -h);
      MulMono(v, Worst(h), -h);
    } else {
      MulMono(v, Best(h), h);
      MulMono(Worst(h), v, h);
    }
  }

  lemma {:induction false} AccBounds(x: seq<int>, at: int, step: nat, h: seq<int>, base: nat, k: nat)
    requires Samples(x)
    ensures Lowest(h, base, k) <= Acc(x, at, step, h, base, k) <= Highest(h, base, k)
  {
    if k > 0 {
      AccBounds(x, at, step, h, base, k - 1);
      ProductBounds(Before(x, at, FramePos(k - 1, step)), Get(h, base + k - 1));
    }
  }

  /** Fewer taps stay within the bounds of more. */
  lemma {:induction false} FitsPrefix(h: seq<int>, base: nat, j: nat, k: nat)
    requires j <= k && Fits(h, base, k)
    ensures Fits(h, base, j)
    decreases k
  {
    if j < k {
      var t := Get(h, base + k - 1);
      ProductBounds(0, t);
      FitsPrefix(h, base, j, k - 1);
    }
  }

  /** Every 16-bit stream is accumulated without wrapping, at every step. */
  ghost predicate NeverWraps(h: seq<int>, base: nat, step: nat, length: nat) {
    forall x: seq<int>, at: int, k: nat | Samples(x) && k <= length ::
      Wrap32(Acc(x, at, step, h, base, k)) == Acc(x, at, step, h, base, k)
  }

  function Frame(i: int, step: nat): int
    requires step > 0
  {
    i / step
  }

  /** A stream that holds, `j` frames before its end, the extreme for tap `j`. */
  function Extreme(h: seq<int>, base: nat, step: nat, length: nat, high: bool): (x: seq<int>)
    requires step > 0
    ensures Samples(x)
  {
    seq(length * step, i requires 0 <= i < length * step =>
      Pick(Get(h, base + length - 1 - Frame(i, step)), high))
  }

  function Pick(h: int, high: bool): (v: int)
    ensures S16(v)
  {
    if high then Best(h) else Worst(h)
  }

  lemma ExtremeAt(h: seq<int>, base: nat, step: nat, length: nat, high: bool, j: nat)
    requires step > 0 && j < length
    ensures Before(Extreme(h, base, step, length, high), (length - 1) * step, j * step) == Pick(Get(h, base + j), high)
  {
    var i := (length - 1 - j) * step;
    MulMono(0, length - 1 - j, step);
    MulMono(length - j, length, step);
    assert (length - 1) * step - j * step == i;
    assert i < length * step;
    UniqueFrame(i / step, i % step, length - 1 - j, 0, step);
  }

  lemma {:induction false} ExtremeAcc(h: seq<int>, base: nat, step: nat, length: nat, high: bool, k: nat)
    requires step > 0 && k <= length
    ensures Acc(Extreme(h, base, step, length, high), (length - 1) * step, step, h, base, k)
         == if high then Highest(h, base, k) else Lowest(h, base, k)
  {
    if k > 0 {
      ExtremeAcc(h, base, step, length, high, k - 1);
      ExtremeAt(h, base, step, length, high, k - 1);
    }
  }

  /** The accumulator is exact for every input exactly when the two extremes fit. */
  lemma AccumulatorExact(h: seq<int>, base: nat, step: nat, length: nat)
    requires step > 0
    ensures NeverWraps(h, base, step, length) <==> Fits(h, base, length)
  {
    if Fits(h, base, length) {
      forall x: seq<int>, at: int, k: nat | Samples(x) && k <= length
        ensures Wrap32(Acc(x, at, step, h, base, k)) == Acc(x, at, step, h, base, k)
      {
        FitsPrefix(h, base, k, length);
        AccBounds(x, at, step, h, base, k);
      }
    }
    if NeverWraps(h, base, step, length) {
      ExtremeAcc(h, base, step, length, true, length);
      ExtremeAcc(h, base, step, length, false, length);
    }
  }

  function SumAbs(h: seq<int>, base: nat, k: nat): nat {
    if k == 0 then 0
    else
      var t := Get(h, base + k - 1);
      SumAbs(h, base, k - 1) + if t < 0 then -t else t
  }

  lemma {:induction false} SumAbsBounds(h: seq<int>, base: nat, k: nat)
    ensures Highest(h, base, k) <= 32768 * SumAbs(h, base, k)
    ensures -32768 * SumAbs(h, base, k) <= Lowest(h, base, k)
  {
    if k > 0 {
      SumAbsBounds(h, base, k - 1);
    }
  }

  /** Taps whose magnitudes add up to at most 65535 give the exact convolution,
      rounded down and saturated, for every stream. */
  lemma ExactConvolution(f: Filter, x: seq<int>, n: nat, ch: nat)
    requires f.Valid() && ch < f.channels && Samples(x)
    requires SumAbs(f.taps, f.Base(ch), f.length) <= 65535
    ensures FilterAt(f, x, n * f.channels + ch) == Clamp16(Convolution(f, x, n, ch, f.length) / 32768)
  {
    SumAbsBounds(f.taps, f.Base(ch), f.length);
    ChannelConvolution(f, x, n, ch);
    AccIsConvolution(f, x, n, ch, f.length);
    AccBounds(x, n * f.channels + ch, f.channels, f.taps, f.Base(ch), f.length);
  }

  /** Three full-scale taps are enough to wrap: the output has the wrong sign. */
  lemma WrapExample()
    ensures var f := Filter(1, 3, false, [32767, 32767, 32767]);
            FilterAt(f, [32767, 32767, 32767], 2) == -32768
  {
    var f := Filter(1, 3, false, [32767, 32767, 32767]);
    var x := [32767, 32767, 32767];
    assert Acc(x, 2, 1, f.taps, 0, 1) == 1073676289;
    assert Acc(x, 2, 1, f.taps, 0, 2) == 2147352578;
    assert Acc(x, 2, 1, f.taps, 0, 3) == 3221028867;
    assert f.Base(Chan(2, 1)) == 0;
  }

  // ---------------------------------------------------------------------
  // The state buffer

  /** A block is copied and read inside the state: every sample of it, and for each
      channel pair the sample behind the first lane, for every tap. */
  ghost predicate StateInside(f: Filter, room: nat, samples: nat)
    requires f.length > 0
  {
    && FramePos(f.length - 1 + samples, f.channels) <= FramePos(room + f.length, f.channels)
    && forall s: nat, ch: nat, k: nat | s < samples && ch < f.channels && ch % 2 == 0 && k < f.length ::
         0 <= LaneA(f, s, ch, k) && LaneA(f, s, ch, k) + 1 < FramePos(room + f.length, f.channels)
  }

  function LaneA(f: Filter, s: nat, ch: nat, k: nat): int {
    FramePos(f.length - 1 + s - k, f.channels) + ch
  }

  /** Exactly the blocks of at most `room` frames do, and with an even number of
      channels one frame more. */
  lemma BlockInside(f: Filter, room: nat, samples: nat)
    requires f.Valid()
    ensures StateInside(f, room, samples) <==> BlockFits(f, room, samples)
  {
    var c, l := f.channels, f.length;
    if BlockFits(f, room, samples) {
      MulMono(l - 1 + samples, room + l, c);
      forall s: nat, ch: nat, k: nat | s < samples && ch < c && ch % 2 == 0 && k < l
        ensures 0 <= LaneA(f, s, ch, k) && LaneA(f, s, ch, k) + 1 < FramePos(room + l, c)
      {
        FrameInside(l - 1 + s - k, ch, c, room + l);
      }
    } else if samples > room + 1 {
      MulMono(room + l + 1, l - 1 + samples, c);
      assert FramePos(room + l + 1, c) == FramePos(room + l, c) + c;
    } else {
      assert LaneA(f, room, c - 1, 0) + 1 == FramePos(room + l, c);
    }
  }

  // ---------------------------------------------------------------------
  // The second lane

  /** Channels are taken in pairs; the second lane reads taps for channel `ch + 1`
      even where the last pair has no such channel. */
  ghost predicate SecondLaneInside(f: Filter) {
    forall ch: nat, k: nat | ch < f.channels && ch % 2 == 0 && k < f.length ::
      LaneB(f, ch, k) < |f.taps|
  }

  function LaneB(f: Filter, ch: nat, k: nat): nat {
    (if f.TwoSets() then (ch + 1) * f.length else 0) + k
  }

  lemma LaneOfPair(f: Filter, ch: nat, k: nat)
    requires f.Valid() && f.TwoSets() && k < f.length && ch < f.channels
    ensures LaneB(f, ch, k) < |f.taps| <==> ch + 1 < f.channels
  {
    assert |f.taps| == f.channels * f.length;
    if ch + 1 < f.channels {
      MulMono(ch + 2, f.channels, f.length);
      assert (ch + 2) * f.length == (ch + 1) * f.length + f.length;
    }
  }

  /** The second lane stays inside the taps exactly for one filter, one channel or
      an even number of channels. */
  lemma SecondLane(f: Filter)
    requires f.Valid()
    ensures SecondLaneInside(f) <==> !f.perChannel || f.channels == 1 || f.channels % 2 == 0
  {
    if f.TwoSets() {
      hide LaneB;
      if f.channels % 2 == 0 {
        forall ch: nat, k: nat | ch < f.channels && ch % 2 == 0 && k < f.length
          ensures LaneB(f, ch, k) < |f.taps|
        {
          LaneOfPair(f, ch, k);
        }
      } else {
        LaneOfPair(f, f.channels - 1, 0);
      }
    }
  }
}

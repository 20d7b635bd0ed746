/**
 The filter as the program runs it: a state buffer of samples that each block is
 copied behind, filtered pair of channels by pair, and shifted back over.
 */
module FirFilter {
  import opened Fir

  lemma FrameStep(n: int, channels: nat)
    ensures FramePos(n + 1, channels) == FramePos(n, channels) + channels
  {
  }

  lemma FrameSum(a: int, b: int, channels: nat)
    ensures FramePos(a + b, channels) == FramePos(a, channels) + FramePos(b, channels)
  {
  }

  lemma FrameOrder(a: int, b: int, channels: nat)
    requires a <= b
    ensures FramePos(a, channels) <= FramePos(b, channels)
  {
    MulMono(a, b, channels);
  }

  class FirState {
    const f: Filter
    const room: nat
    const state: array<int>

    ghost predicate Valid()
      reads this, state
    {
      f.Valid() && state.Length == FramePos(room + f.length, f.channels)
    }

    /** The samples kept from earlier blocks. */
    ghost function Kept(): (t: seq<int>)
      requires Valid()
      reads this, state
      ensures |t| == f.Kept()
    {
      FrameOrder(f.length - 1, room + f.length, f.channels);
      state[..f.Kept()]
    }

    constructor (filter: Filter, inputLength: nat)
      requires filter.Valid()
      ensures Valid() && f == filter && room == inputLength && fresh(state)
      ensures Kept() == Zeros(f.Kept())
    {
      f := filter;
      room := inputLength;
      FrameOrder(0, filter.length - 1, filter.channels);
      FrameOrder(filter.length - 1, inputLength + filter.length, filter.channels);
      state := new int[FramePos(inputLength + filter.length, filter.channels)](_ => 0);
      new;
      assert state[..f.Kept()] == Zeros(f.Kept());
    }

    method Reset()
      requires Valid()
      modifies state
      ensures Valid() && Kept() == Zeros(f.Kept())
    {
      for i := 0 to state.Length
        invariant forall j | 0 <= j < i :: state[j] == 0
      {
        state[i] := 0;
      }
      assert state[..f.Kept()] == Zeros(f.Kept());
    }

    /** The two accumulators of one output frame of a channel pair. */
    method Accumulate(ch: nat, s: nat, baseA: nat, baseB: nat, ghost w: seq<int>)
      returns (accA: int, accB: int)
      requires Valid() && (s < room || (s == room && ch + 1 < f.channels)) && ch < f.channels
      requires baseA + f.length <= |f.taps|
      requires |w| <= state.Length && w == state[..|w|]
      ensures f.Kept() + FramePos(s, f.channels) + ch < |w| ==>
                accA == Wrap32(Acc(w, f.Kept() + FramePos(s, f.channels) + ch, f.channels, f.taps, baseA, f.length))
      ensures f.Kept() + FramePos(s, f.channels) + ch + 1 < |w| && baseB + f.length <= |f.taps| ==>
                accB == Wrap32(Acc(w, f.Kept() + FramePos(s, f.channels) + ch + 1, f.channels, f.taps, baseB, f.length))
    {
      hide FramePos, Wrap32;
      accA, accB := 0, 0;
      FrameSum(f.length - 1, s, f.channels);
      FrameSum(0, 0, f.channels);
      var offset := f.Kept() + FramePos(s, f.channels) + ch;
      ghost var at := offset;
      var k := 0;
      while k < f.length
        invariant 0 <= k <= f.length && offset == at - FramePos(k, f.channels)
        invariant at < |w| ==> accA == Wrap32(Acc(w, at, f.channels, f.taps, baseA, k))
        invariant at + 1 < |w| && baseB + f.length <= |f.taps| ==>
                    accB == Wrap32(Acc(w, at + 1, f.channels, f.taps, baseB, k))
      {
        FrameInside(f.length - 1 + s - k, ch, f.channels, room + f.length);
        FrameSum(f.length - 1 + s - k, k, f.channels);
        FrameStep(k, f.channels);
        FrameOrder(0, k, f.channels);
        assert offset == FramePos(f.length - 1 + s - k, f.channels) + ch;
        var coeffB: int;
        if baseB + k < |f.taps| {
          coeffB := f.taps[baseB + k];
        } else {
          coeffB := *;
        }
        assert at < |w| ==> state[offset] == Before(w, at, FramePos(k, f.channels));
        assert at + 1 < |w| ==> state[offset + 1] == Before(w, at + 1, FramePos(k, f.channels));
        accA := AddProduct(accA, state[offset], f.taps[baseA + k]);
        accB := AddProduct(accB, state[offset + 1], coeffB);
        k := k + 1;
        offset := offset - f.channels;
      }
    }

    /** Copies the block behind the kept samples. */
    method CopyIn(input: array<int>, n: nat)
      requires Valid() && n <= input.Length && f.Kept() + n <= state.Length && input != state
      modifies state
      ensures Valid() && state[..f.Kept() + n] == old(Kept()) + input[..n]
    {
      var t := f.Kept();
      for i := 0 to n
        invariant state[..t + i] == old(state[..t]) + input[..i]
      {
        state[t + i] := input[i];
        assert state[..t + i + 1] == state[..t + i] + [input[i]];
        assert input[..i + 1] == input[..i] + [input[i]];
      }
    }

    /** Moves the last samples to the front. */
    method Shift(n: nat)
      requires Valid() && f.Kept() + n <= state.Length
      modifies state
      ensures Valid() && Kept() == old(state[n..f.Kept() + n])
    {
      var t := f.Kept();
      for i := 0 to t
        invariant forall j | 0 <= j < i :: state[j] == old(state[n + j])
        invariant forall j | i <= j < state.Length :: state[j] == old(state[j])
      {
        state[i] := state[n + i];
      }
      assert state[..t] == old(state[n..t + n]);
    }

    /** The outputs of the channels `ch` and, if there is one, `ch + 1`. */
    method ProcessPair(ch: nat, baseA: nat, baseB: nat, output: array<int>, samples: nat, ghost w: seq<int>)
      requires Valid() && ch < f.channels && output != state
      requires samples <= room || (samples == room + 1 && ch + 1 < f.channels)
      requires FramePos(samples, f.channels) <= output.Length
      requires |w| == f.Kept() + FramePos(samples, f.channels) <= state.Length && w == state[..|w|]
      requires baseA == f.Base(ch) && baseA + f.length <= |f.taps|
      requires ch + 1 < f.channels ==> baseB == f.Base(ch + 1) && baseB + f.length <= |f.taps|
      modifies output
      ensures forall i | 0 <= i < FramePos(samples, f.channels) && Lane(f, i, ch) :: output[i] == FilterAt(f, w, f.Kept() + i)
      ensures forall i | 0 <= i < output.Length && !(i < FramePos(samples, f.channels) && Lane(f, i, ch)) ::
                output[i] == old(output[i])
    {
      hide Acc, Chan, FramePos, Wrap32, Scaled, Lane, FilterAt;
      FrameSum(0, 0, f.channels);
      FrameOrder(0, samples, f.channels);
      var p := ch;
      var s := 0;
      while s < samples
        invariant 0 <= s <= samples && FramePos(s, f.channels) <= FramePos(samples, f.channels)
        invariant p == FramePos(s, f.channels) + ch
        invariant forall i | 0 <= i < FramePos(s, f.channels) && Lane(f, i, ch) :: output[i] == FilterAt(f, w, f.Kept() + i)
        invariant forall i | 0 <= i < output.Length && !(i < FramePos(s, f.channels) && Lane(f, i, ch)) ::
                    output[i] == old(output[i])
      {
        var accA, accB := Accumulate(ch, s, baseA, baseB, w);
        PairFrame(f, s, samples, ch);
        PairValues(f, w, s, ch);
        FrameStep(s, f.channels);
        FrameOrder(s + 1, samples, f.channels);
        output[p] := Scaled(accA);
        if ch < f.channels - 1 {
          output[p + 1] := Scaled(accB);
        }
        p := p + f.channels;
        s := s + 1;
      }
    }

    /** Filters every channel, two at a time. */
    method ProcessChannels(output: array<int>, samples: nat, ghost w: seq<int>)
      requires Valid() && output != state
      requires BlockFits(f, room, samples) && FramePos(samples, f.channels) <= output.Length
      requires |w| == f.Kept() + FramePos(samples, f.channels) <= state.Length && w == state[..|w|]
      modifies output
      ensures forall i | 0 <= i < FramePos(samples, f.channels) :: output[i] == FilterAt(f, w, f.Kept() + i)
      ensures forall i | FramePos(samples, f.channels) <= i < output.Length :: output[i] == old(output[i])
    {
      hide Acc, FramePos, FilterAt, Chan;
      FrameOrder(0, samples, f.channels);
      FrameSum(0, 0, f.channels);
      var useSecond := f.channels > 1 && f.perChannel;
      var coeffA := 0;
      var coeffB := if useSecond then f.length else 0;
      var ch := 0;
      while ch < f.channels
        invariant ch % 2 == 0 && coeffA == f.Base(ch) && coeffB == f.Base(ch + 1)
        invariant forall i | 0 <= i < FramePos(samples, f.channels) && Chan(i, f.channels) < ch ::
                    output[i] == FilterAt(f, w, f.Kept() + i)
        invariant forall i | FramePos(samples, f.channels) <= i < output.Length :: output[i] == old(output[i])
      {
        BaseInside(f, ch);
        if ch + 1 < f.channels {
          BaseInside(f, ch + 1);
        }
        ProcessPair(ch, coeffA, coeffB, output, samples, w);
        if useSecond {
          coeffA := coeffA + 2 * f.length;
          coeffB := coeffB + 2 * f.length;
        }
        ch := ch + 2;
      }
    }

    /** One block, in place or into another buffer. */
    method Process(input: array<int>, output: array<int>, samples: nat)
      requires Valid() && BlockFits(f, room, samples) && input != state && output != state
      requires FramePos(samples, f.channels) <= input.Length && FramePos(samples, f.channels) <= output.Length
      modifies state, output
      ensures Valid()
      ensures var n: nat := FramePos(samples, f.channels);
              Kept() == NextTail(old(Kept()), old(input[..n]))
              && output[..n] == BlockOut(f, old(Kept()), old(input[..n]))
              && output[n..] == old(output[n..])
    {
      hide FramePos, FilterAt;
      FrameOrder(0, samples, f.channels);
      FrameSum(0, 0, f.channels);
      FrameSum(f.length - 1, samples, f.channels);
      FrameOrder(f.length - 1 + samples, room + f.length, f.channels);
      var n: nat := FramePos(samples, f.channels);
      CopyIn(input, n);
      ghost var w := state[..f.Kept() + n];
      ProcessChannels(output, samples, w);
      assert output[..n] == BlockOut(f, old(Kept()), old(input[..n]));
      Shift(n);
      assert Kept() == w[n..];
    }
  }

  lemma BaseInside(f: Filter, ch: nat)
    requires f.Valid() && ch < f.channels
    ensures f.Base(ch) + f.length <= |f.taps|
  {
    MulMono(ch + 1, f.channels, f.length);
  }

  /** A filter with silence before it, or none for no channels or no taps. */
  method Init(channels: nat, perChannel: bool, length: nat, inputLength: nat, coeffs: seq<int>)
    returns (fir: FirState?)
    requires |coeffs| >= TapCount(channels, length, perChannel)
    ensures fir == null <==> channels == 0 || length == 0
    ensures fir != null ==> fresh(fir) && fir.Valid() && fir.room == inputLength && fresh(fir.state)
    ensures fir != null ==>
              fir.f == Filter(channels, length, perChannel, coeffs[..TapCount(channels, length, perChannel)])
    ensures fir != null ==> fir.Kept() == Zeros(fir.f.Kept())
  {
    if channels == 0 || length == 0 {
      return null;
    }
    var n := TapCount(channels, length, perChannel);
    fir := new FirState(Filter(channels, length, perChannel, coeffs[..n]), inputLength);
  }

  /** Sample `i` belongs to the channel pair that begins with `ch`. */
  predicate Lane(f: Filter, i: nat, ch: nat)
    requires f.channels > 0
  {
    Chan(i, f.channels) == ch || Chan(i, f.channels) == ch + 1
  }

  /** Which samples of frame `s` a channel pair writes. */
  lemma PairFrame(f: Filter, s: nat, samples: nat, ch: nat)
    requires f.Valid() && s < samples && ch < f.channels
    ensures 0 <= FramePos(s, f.channels) && FramePos(s, f.channels) + f.channels <= FramePos(samples, f.channels)
    ensures forall i: nat | FramePos(s, f.channels) <= i < FramePos(s, f.channels) + f.channels ::
              Lane(f, i, ch) <==> i == FramePos(s, f.channels) + ch || i == FramePos(s, f.channels) + ch + 1
  {
    hide Chan;
    MulMono(0, s, f.channels);
    MulMono(s + 1, samples, f.channels);
    forall i: nat | FramePos(s, f.channels) <= i < FramePos(s, f.channels) + f.channels
      ensures Chan(i, f.channels) == i - FramePos(s, f.channels)
    {
      ChanOfFrame(s, i - FramePos(s, f.channels), f.channels);
    }
  }

  /** What the two samples should be. */
  lemma PairValues(f: Filter, w: seq<int>, s: nat, ch: nat)
    requires f.Valid() && ch < f.channels && 0 <= FramePos(s, f.channels)
    ensures LaneValue(f, w, s, ch) && (ch + 1 < f.channels ==> LaneValue(f, w, s, ch + 1))
  {
    ValueOfLane(f, w, s, ch);
    if ch + 1 < f.channels {
      ValueOfLane(f, w, s, ch + 1);
    }
  }

  ghost predicate LaneValue(f: Filter, w: seq<int>, s: nat, ch: nat)
    requires f.Valid() && 0 <= FramePos(s, f.channels)
  {
    var i := f.Kept() + FramePos(s, f.channels) + ch;
    FilterAt(f, w, i) == Scaled(Wrap32(Acc(w, i, f.channels, f.taps, f.Base(ch), f.length)))
  }

  lemma ValueOfLane(f: Filter, w: seq<int>, s: nat, ch: nat)
    requires f.Valid() && ch < f.channels && 0 <= FramePos(s, f.channels)
    ensures LaneValue(f, w, s, ch)
  {
    FrameSum(f.length - 1, s, f.channels);
    ChanOfFrame(f.length - 1 + s, ch, f.channels);
  }

  /** One step of a 32-bit accumulator; wrapping at each step or at the end is the same. */
  method AddProduct(acc: int, v: int, h: int) returns (r: int)
    ensures forall total | acc == Wrap32(total) :: r == Wrap32(total + v * h)
  {
    r := Wrap32(acc + v * h);
    forall total | acc == Wrap32(total) ensures r == Wrap32(total + v * h) {
      WrapStep(total, v * h);
    }
  }

  lemma WrapStep(a: int, b: int)
    ensures Wrap32(Wrap32(a) + b) == Wrap32(a + b)
  {
    var q := (a + HALF) / WORD;
    assert Wrap32(a) == a - q * WORD;
    WrapTurns(a + b, q);
  }

  lemma WrapTurns(a: int, q: int)
    ensures Wrap32(a - q * WORD) == Wrap32(a)
  {
    var v := a + HALF;
    UniqueFrame((v - q * WORD) / WORD, (v - q * WORD) % WORD, v / WORD - q, v % WORD, WORD);
  }
}

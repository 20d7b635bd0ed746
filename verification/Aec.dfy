/**
 The echo reference: speaker samples and their packet timestamps go through two
 FIFOs, and a signed byte counter tells each read which packet it begins in.
 */
module Aec {
  /** A written packet: when it was played and how many bytes of it were queued. */
  datatype Info = Info(bytes: nat, timestamp: int)

  /** The time of a read: a packet's timestamp and the bytes of it already played. */
  datatype Stamp = NoStamp | Stamp(timestamp: int, offset: int)

  datatype Ref<T> = Ref(spk: seq<T>, ts: seq<Info>, diff: int, last: Info)

  function Sum(infos: seq<Info>): (n: nat) {
    if infos == [] then 0 else Sum(infos[..|infos| - 1]) + infos[|infos| - 1].bytes
  }

  // ---------------------------------------------------------------------
  // Steps

  /** The first half of a write: the samples. */
  function Queued<T>(a: Ref<T>, data: seq<T>): Ref<T> {
    a.(spk := a.spk + data)
  }

  /** The second half: how many bytes were queued, and when they are played. */
  function Stamped<T>(a: Ref<T>, bytes: nat, timestamp: int): Ref<T> {
    a.(ts := a.ts + [Info(bytes, timestamp)])
  }

  function Flushed<T>(a: Ref<T>): Ref<T> {
    a.(spk := [], ts := [], diff := 0)
  }

  /** Takes timestamps while more bytes were read than the packets taken so far hold. */
  function Forward<T>(a: Ref<T>): Ref<T>
    decreases |a.ts|
  {
    if a.diff > 0 && a.ts != [] then Forward(Next(a)) else a
  }

  /** Takes one timestamp. */
  function Next<T>(a: Ref<T>): Ref<T>
    requires a.ts != []
  {
    a.(ts := a.ts[1..], diff := a.diff - a.ts[0].bytes, last := a.ts[0])
  }

  /** The time of the first of `n` bytes just read. */
  function TimeOf<T>(a: Ref<T>, n: nat): (Ref<T>, Stamp) {
    if a.diff < 0 then
      (Forward(a.(diff := a.diff + n)), Stamp(a.last.timestamp, a.last.bytes + a.diff))
    else if a.ts == [] then (a, NoStamp)
    else
      var b := Next(a);
      (Forward(b.(diff := b.diff + n)), Stamp(b.last.timestamp, 0))
  }

  /** Reads `n` bytes once that many are there; otherwise the caller times out. */
  function Reading<T>(a: Ref<T>, n: nat): (Ref<T>, Stamp)
    requires n <= |a.spk|
  {
    TimeOf(a.(spk := a.spk[n..]), n)
  }

  // ---------------------------------------------------------------------
  // History

  /** A write whose samples are queued and whose timestamp is not. */
  datatype Half = Whole | Half(bytes: nat)

  function Bytes(half: Half): nat {
    match half
    case Whole => 0
    case Half(n) => n
  }

  /** Everything written since the last flush, and how much of it was read. */
  datatype History<T> = History(data: seq<T>, packets: seq<Info>, half: Half, read: nat)

  /** Packet `i` holds byte `b` of the stream. */
  predicate Holds(packets: seq<Info>, i: nat, b: nat) {
    i < |packets| && Sum(packets[..i]) <= b < Sum(packets[..i + 1])
  }

  /** Timestamps taken so far. */
  function Taken<T>(a: Ref<T>, h: History<T>): int {
    |h.packets| - |a.ts|
  }

  /** The timestamps not taken are queued, and the counter is the bytes read minus
      the bytes of the packets whose timestamps were taken. */
  predicate InStep<T>(a: Ref<T>, h: History<T>) {
    && 0 <= Taken(a, h) && a.ts == h.packets[Taken(a, h)..]
    && a.diff == h.read - Sum(h.packets[..Taken(a, h)])
  }

  /** The packet taken last is at hand, and the counter reaches back into it at most. */
  predicate Latest<T>(a: Ref<T>, h: History<T>) {
    && 0 < Taken(a, h) <= |h.packets|
    && a.last == h.packets[Taken(a, h) - 1] && 0 <= a.last.bytes + a.diff
  }

  ghost predicate Inv<T(!new)>(a: Ref<T>, h: History<T>) {
    && |h.data| == Sum(h.packets) + Bytes(h.half)
    && h.read <= |h.data| && a.spk == h.data[h.read..]
    && InStep(a, h) && a.diff <= 0
    && (if Taken(a, h) == 0 then a.diff == 0 else Latest(a, h))
  }

  lemma {:induction false} SumMono(infos: seq<Info>, i: nat, j: nat)
    requires i <= j <= |infos|
    ensures Sum(infos[..i]) <= Sum(infos[..j])
    decreases j
  {
    if i < j {
      assert infos[..j][..j - 1] == infos[..j - 1];
      SumMono(infos, i, j - 1);
    }
  }

  lemma SumNext(infos: seq<Info>, i: nat)
    requires i < |infos|
    ensures Sum(infos[..i + 1]) == Sum(infos[..i]) + infos[i].bytes
  {
    assert infos[..i + 1][..i] == infos[..i];
  }

  /** Only bytes of packets with a timestamp have been read. */
  lemma ReadBound<T(!new)>(a: Ref<T>, h: History<T>)
    requires Inv(a, h)
    ensures h.read <= Sum(h.packets)
  {
    SumMono(h.packets, Taken(a, h), |h.packets|);
    assert h.packets[..|h.packets|] == h.packets;
  }

  lemma NextInStep<T>(a: Ref<T>, h: History<T>)
    requires InStep(a, h) && a.diff >= 0 && a.ts != []
    ensures InStep(Next(a), h) && Latest(Next(a), h)
  {
    SumNext(h.packets, Taken(a, h));
  }

  /** Going forward ends at a packet that reaches the byte read last. */
  lemma {:induction false} ForwardInStep<T>(a: Ref<T>, h: History<T>)
    requires InStep(a, h) && Latest(a, h) && h.read <= Sum(h.packets)
    ensures InStep(Forward(a), h) && Latest(Forward(a), h)
    ensures Forward(a).diff <= 0 && Forward(a).spk == a.spk
    decreases |a.ts|
  {
    if a.diff > 0 {
      assert h.packets[..|h.packets|] == h.packets;
      NextInStep(a, h);
      ForwardInStep(Next(a), h);
    }
  }

  /** Reading moves the counter and nothing else. */
  lemma ReadInStep<T>(a: Ref<T>, h: History<T>, n: nat)
    requires InStep(a, h) && Latest(a, h)
    ensures InStep(a.(diff := a.diff + n), h.(read := h.read + n))
    ensures Latest(a.(diff := a.diff + n), h.(read := h.read + n))
  {
  }

  // ---------------------------------------------------------------------
  // Every step keeps the invariant

  function AfterSamples<T>(h: History<T>, data: seq<T>): History<T> {
    h.(data := h.data + data, half := Half(|data|))
  }

  function AfterStamp<T>(h: History<T>, timestamp: int): History<T> {
    h.(packets := h.packets + [Info(Bytes(h.half), timestamp)], half := Whole)
  }

  lemma SamplesInv<T(!new)>(a: Ref<T>, h: History<T>, data: seq<T>)
    requires Inv(a, h) && h.half == Whole
    ensures Inv(Queued(a, data), AfterSamples(h, data))
  {
    assert (h.data + data)[h.read..] == h.data[h.read..] + data;
  }

  lemma StampInv<T(!new)>(a: Ref<T>, h: History<T>, timestamp: int)
    requires Inv(a, h) && h.half != Whole
    ensures Inv(Stamped(a, Bytes(h.half), timestamp), AfterStamp(h, timestamp))
  {
    var k := AfterStamp(h, timestamp);
    var t := Taken(a, h);
    assert k.packets[..|h.packets|] == h.packets;
    assert k.packets[..t] == h.packets[..t];
    assert k.packets[t..] == h.packets[t..] + [Info(Bytes(h.half), timestamp)];
  }

  /** The packet a read takes its time from. */
  function Chosen<T>(a: Ref<T>, h: History<T>): int {
    if a.diff < 0 then Taken(a, h) - 1 else Taken(a, h)
  }

  /** What the stamp of a read means: the packet that holds the first byte read,
      if that packet has bytes, and how far into it that byte is.  There is no stamp
      only if nothing was read, the counter is spent and no timestamp is queued. */
  ghost predicate Attributed<T(!new)>(a: Ref<T>, h: History<T>, n: nat, stamp: Stamp) {
    var i := Chosen(a, h);
    if stamp.NoStamp? then n == 0 && a.diff == 0 && a.ts == []
    else
      && 0 <= i < |h.packets|
      && stamp == Stamp(h.packets[i].timestamp, h.read - Sum(h.packets[..i]))
      && (Holds(h.packets, i, h.read) <==> h.packets[i].bytes > 0)
  }

  /** A read with a packet at hand or a timestamp queued. */
  lemma ReadForward<T>(a: Ref<T>, h: History<T>, n: nat)
    requires InStep(a, h) && h.read + n <= Sum(h.packets)
    requires if a.diff < 0 then Latest(a, h) else a.ts != []
    ensures var (b, k) := (TimeOf(a, n).0, h.(read := h.read + n));
            InStep(b, k) && Latest(b, k) && b.diff <= 0 && b.spk == a.spk
  {
    hide InStep, Latest, Forward, Sum;
    var d := a;
    if a.diff >= 0 {
      NextInStep(a, h);
      d := Next(a);
    }
    ReadInStep(d, h, n);
    ForwardInStep(d.(diff := d.diff + n), h.(read := h.read + n));
  }

  lemma ReadInside<T(!new)>(a: Ref<T>, h: History<T>, n: nat)
    requires Inv(a, h) && h.read + n <= Sum(h.packets) && n <= |a.spk|
    ensures Inv(Reading(a, n).0, h.(read := h.read + n))
  {
    hide Forward, Sum;
    var c := a.(spk := a.spk[n..]);
    assert c.spk == h.data[h.read + n..];
    assert InStep(c, h) && (Latest(a, h) ==> Latest(c, h));
    if a.diff == 0 && a.ts == [] {
      assert h.packets[..|h.packets|] == h.packets;
    } else {
      ReadForward(c, h, n);
    }
  }

  lemma ReadAttributed<T(!new)>(a: Ref<T>, h: History<T>, n: nat)
    requires Inv(a, h) && h.read + n <= Sum(h.packets) && n <= |a.spk|
    ensures Attributed(a, h, n, Reading(a, n).1)
  {
    hide Forward, Sum;
    if a.diff < 0 {
      SumNext(h.packets, Taken(a, h) - 1);
    } else if a.ts != [] {
      SumNext(h.packets, Taken(a, h));
    } else {
      assert h.packets[..|h.packets|] == h.packets;
    }
  }

  /** Reading keeps FIFOs and counter in step exactly when it takes no byte whose
      timestamp is still to come. */
  lemma ReadKeeps<T(!new)>(a: Ref<T>, h: History<T>, n: nat)
    requires Inv(a, h) && n <= |a.spk|
    ensures Inv(Reading(a, n).0, h.(read := h.read + n)) <==> h.read + n <= Sum(h.packets)
  {
    if h.read + n <= Sum(h.packets) {
      ReadInside(a, h, n);
    } else if Inv(Reading(a, n).0, h.(read := h.read + n)) {
      ReadBound(Reading(a, n).0, h.(read := h.read + n));
      assert false;
    }
  }

  /** So does losing the timestamp of a write exactly when the write has no bytes. */
  lemma LostStampKeeps<T(!new)>(a: Ref<T>, h: History<T>)
    requires Inv(a, h)
    ensures Inv(a, h.(half := Whole)) <==> Bytes(h.half) == 0
  {
  }

  /** A flush keeps them in step exactly when it does not come between the halves
      of a write that has bytes. */
  lemma FlushKeeps<T(!new)>(a: Ref<T>, h: History<T>)
    ensures Inv(Flushed(a), History([], [], h.half, 0)) <==> Bytes(h.half) == 0
  {
  }

  // ---------------------------------------------------------------------
  // Runs

  datatype Event<T> = Samples(data: seq<T>) | Timestamp(timestamp: int) | Lost | Read(n: nat) | Flush

  /** A timestamp is lost if its FIFO does not take it.  A read that asks for more
      than is queued times out and changes nothing. */
  function Apply<T>(a: Ref<T>, h: History<T>, e: Event<T>): (Ref<T>, History<T>) {
    match e
    case Samples(data) => (Queued(a, data), AfterSamples(h, data))
    case Timestamp(timestamp) => (Stamped(a, Bytes(h.half), timestamp), AfterStamp(h, timestamp))
    case Lost => (a, h.(half := Whole))
    case Read(n) => if n <= |a.spk| then (Reading(a, n).0, h.(read := h.read + n)) else (a, h)
    case Flush => (Flushed(a), History([], [], h.half, 0))
  }

  /** Writes have two halves, and neither a flush nor a read comes between the
      halves of a write whose bytes it touches.  Only writes without bytes lose their
      timestamps. */
  predicate Orderly<T>(a: Ref<T>, h: History<T>, e: Event<T>) {
    match e
    case Samples(_) => h.half == Whole
    case Timestamp(_) => h.half != Whole
    case Lost => h.half != Whole && Bytes(h.half) == 0
    case Read(n) => n <= |a.spk| ==> h.read + n <= Sum(h.packets)
    case Flush => Bytes(h.half) == 0
  }

  function Run<T>(last: Info, events: seq<Event<T>>): (Ref<T>, History<T>) {
    if events == [] then (Ref([], [], 0, last), History([], [], Whole, 0))
    else
      var (a, h) := Run(last, events[..|events| - 1]);
      Apply(a, h, events[|events| - 1])
  }

  predicate OrderlyRun<T>(last: Info, events: seq<Event<T>>) {
    events == [] ||
    (OrderlyRun(last, events[..|events| - 1])
     && var (a, h) := Run(last, events[..|events| - 1]);
        Orderly(a, h, events[|events| - 1]))
  }

  lemma StepInv<T(!new)>(a: Ref<T>, h: History<T>, e: Event<T>)
    requires Inv(a, h) && Orderly(a, h, e)
    ensures Inv(Apply(a, h, e).0, Apply(a, h, e).1)
  {
    hide Inv, Reading;
    match e
    case Samples(data) => SamplesInv(a, h, data);
    case Timestamp(timestamp) => StampInv(a, h, timestamp);
    case Lost => LostStampKeeps(a, h);
    case Read(n) => if n <= |a.spk| { ReadInside(a, h, n); }
    case Flush => FlushKeeps(a, h);
  }

  lemma {:induction false} RunInv<T(!new)>(last: Info, events: seq<Event<T>>)
    requires OrderlyRun(last, events)
    ensures Inv(Run(last, events).0, Run(last, events).1)
    decreases |events|
  {
    hide Inv, Apply, Orderly;
    if events != [] {
      var before := events[..|events| - 1];
      RunInv(last, before);
      StepInv(Run(last, before).0, Run(last, before).1, events[|events| - 1]);
    } else {
      StartInv<T>(last);
    }
  }

  lemma StartInv<T(!new)>(last: Info)
    ensures Inv<T>(Ref([], [], 0, last), History([], [], Whole, 0))
  {
  }

  predicate NonEmpty(packets: seq<Info>) {
    forall i | 0 <= i < |packets| :: packets[i].bytes > 0
  }

  /** After any orderly run, a read of at least one byte has a time, and it is that
      of the packet holding the first byte read, if every packet has bytes. */
  lemma TimestampAttribution<T(!new)>(last: Info, events: seq<Event<T>>, n: nat) returns (i: nat)
    requires OrderlyRun(last, events + [Read(n)])
    requires var (a, h) := Run(last, events);
             0 < n <= |a.spk| && NonEmpty(h.packets)
    ensures var (a, h) := Run(last, events);
            Holds(h.packets, i, h.read)
            && Reading(a, n).1 == Stamp(h.packets[i].timestamp, h.read - Sum(h.packets[..i]))
  {
    hide Run, Inv, Reading, Sum;
    assert (events + [Read(n)])[..|events|] == events;
    var (a, h) := Run(last, events);
    RunInv(last, events);
    ReadAttributed(a, h, n);
    i := Chosen(a, h);
  }

  /** A read that comes between the halves of the first write finds no timestamp,
      and the timestamp that arrives later stays ahead of the samples. */
  lemma EarlyRead<T(!new)>(last: Info, data: seq<T>, timestamp: int)
    requires data != []
    ensures var (a, h) := Run(last, [Samples(data)]);
            Reading(a, |data|).1 == NoStamp
    ensures var (a, h) := Run(last, [Samples(data), Read(|data|), Timestamp(timestamp)]);
            a.spk == [] && a.ts == [Info(|data|, timestamp)] && a.diff == 0
  {
    var e: seq<Event<T>> := [Samples(data), Read(|data|), Timestamp(timestamp)];
    var e2: seq<Event<T>> := [Samples(data), Read(|data|)];
    var e1: seq<Event<T>> := [Samples(data)];
    assert e[..2] == e2 && e2[..1] == e1 && e1[..0] == [];
    assert Run(last, e1).0 == Ref(data, [], 0, last) by { assert [] + data == data; }
    assert Run(last, e2).0 == Ref([], [], 0, last);
    assert Run(last, e2).1.half == Half(|data|);
    assert Run(last, e).0 == Ref([], [Info(|data|, timestamp)], 0, last);
  }

  /** If the first write loses its timestamp, a read of it gets the timestamp of the
      write behind it. */
  lemma LostStampMisleads<T(!new)>(last: Info, first: seq<T>, second: seq<T>, timestamp: int, n: nat)
    requires 0 < n <= |first|
    ensures var (a, h) := Run(last, [Samples(first), Lost, Samples(second), Timestamp(timestamp)]);
            && h.data == first + second && h.read == 0 && n <= |a.spk|
            && Reading(a, n).1 == Stamp(timestamp, 0)
  {
    var e: seq<Event<T>> := [Samples(first), Lost, Samples(second), Timestamp(timestamp)];
    assert e[..3][..2] == e[..2] && e[..2][..1] == e[..1] && e[..1][..0] == [];
    assert Run(last, e[..1]) == (Ref(first, [], 0, last), History(first, [], Half(|first|), 0)) by {
      assert [] + first == first;
    }
    assert Run(last, e[..2]) == (Ref(first, [], 0, last), History(first, [], Whole, 0));
    assert Run(last, e[..3]) == (Ref(first + second, [], 0, last), History(first + second, [], Half(|second|), 0));
    assert Run(last, e).0 == Ref(first + second, [Info(|second|, timestamp)], 0, last);
  }
}

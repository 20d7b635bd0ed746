/**
 Reading a file over TFTP: the server answers an acknowledgement with a window of
 data packets, and packets may be lost, repeated and reordered.
 */
module Tftp {
  import opened Basics

  const WRAP := 65536

  datatype Data = Data(number: nat, bytes: seq<byte>)

  datatype File = File(content: seq<byte>, blksize: nat, wsize: nat)

  /** Where a block begins. */
  function Offset(f: File, block: nat): nat {
    block * f.blksize
  }

  lemma OffsetNext(f: File, block: nat)
    ensures Offset(f, block + 1) == Offset(f, block) + f.blksize
  {
  }

  lemma OffsetOrder(f: File, a: nat, b: nat)
    requires a <= b
    ensures Offset(f, a) <= Offset(f, b)
  {
    assert (b - a) * f.blksize >= 0;
  }

  /** What a read at `o` gives: a full block, the rest of the file, or nothing. */
  function ReadAt(f: File, o: nat): (r: seq<byte>)
    ensures |r| <= f.blksize
    ensures r == [] <==> f.blksize == 0 || o >= |f.content|
  {
    if o >= |f.content| then []
    else if o + f.blksize <= |f.content| then f.content[o..o + f.blksize]
    else f.content[o..]
  }

  function Block(f: File, block: nat): (r: seq<byte>)
    ensures |r| <= f.blksize
    ensures r == [] <==> f.blksize == 0 || Offset(f, block) >= |f.content|
  {
    ReadAt(f, Offset(f, block))
  }

  /** The packet for a block: its number is one more, in 16 bits. */
  function Packet(f: File, block: nat): Data {
    Data((block + 1) % WRAP, Block(f, block))
  }

  /** The packets that the handler's loop sends in at most `rounds` rounds.  It counts
      blocks in 16 bits and ends at `limit` or at the end of the file. */
  function Loop(f: File, block: nat, limit: nat, rounds: nat): (r: seq<Data>)
    decreases rounds
  {
    if rounds == 0 || block >= limit || Block(f, block) == [] then []
    else [Packet(f, block)] + Loop(f, (block + 1) % WRAP, limit, rounds - 1)
  }

  /** The loop ends before its counter wraps if the window ends below it or if the
      file does. */
  predicate Returns(f: File, last: nat) {
    last + f.wsize < WRAP || Block(f, WRAP - 1) == []
  }

  /** The packets that an acknowledgement of block `last` brings, if the handler returns. */
  function Reply(f: File, last: nat): seq<Data> {
    Window(f, last, last + f.wsize)
  }

  function Window(f: File, block: nat, limit: nat): (r: seq<Data>)
    decreases limit - block
  {
    if block >= limit || Block(f, block) == [] then []
    else [Packet(f, block)] + Window(f, block + 1, limit)
  }

  /** If the handler returns, its loop sends the reply. */
  lemma {:induction false} LoopIsWindow(f: File, block: nat, limit: nat, rounds: nat)
    requires block < WRAP && (limit < WRAP || Block(f, WRAP - 1) == []) && block + rounds >= limit
    ensures Loop(f, block, limit, rounds) == Window(f, block, limit)
    decreases rounds
  {
    hide Block, Packet, Offset;
    if rounds > 0 && block < limit && Block(f, block) != [] {
      assert block + 1 < WRAP;
      LoopIsWindow(f, block + 1, limit, rounds - 1);
    }
  }

  /** Then every counter value is below the limit and has bytes to send. */
  lemma NeverEnds(f: File, last: nat, block: nat)
    requires !Returns(f, last) && block < WRAP
    ensures block < last + f.wsize && Block(f, block) != []
  {
    OffsetOrder(f, block, WRAP - 1);
  }

  lemma Wraps(x: nat)
    ensures (x % WRAP + 1) % WRAP == (x + 1) % WRAP
  {
  }

  /** If it does not return, every round sends one more packet: all blocks that the
      counter can name, over and over. */
  lemma {:induction false} LoopForever(f: File, last: nat, i: nat, rounds: nat)
    requires !Returns(f, last) && last < WRAP
    ensures var l := Loop(f, (last + i) % WRAP, last + f.wsize, rounds);
            |l| == rounds && forall j | 0 <= j < rounds :: l[j] == Packet(f, (last + i + j) % WRAP)
    decreases rounds
  {
    hide Block, Packet, Returns;
    var b := (last + i) % WRAP;
    NeverEnds(f, last, b);
    if rounds > 0 {
      Wraps(last + i);
      LoopForever(f, last, i + 1, rounds - 1);
      var l := Loop(f, b, last + f.wsize, rounds);
      forall j | 0 <= j < rounds ensures l[j] == Packet(f, (last + i + j) % WRAP) {
        if j > 0 {
          assert l[j] == l[1..][j - 1];
          assert last + (i + 1) + (j - 1) == last + i + j;
        }
      }
    }
  }

  /** All packets that an endless loop sends. */
  function All(f: File): set<Data> {
    set b | 0 <= b < WRAP :: Packet(f, b)
  }

  function Elems(l: seq<Data>): set<Data> {
    set p | p in l
  }

  /** They are the packets of its first 65536 rounds. */
  lemma LoopSendsAll(f: File, last: nat)
    requires !Returns(f, last) && last < WRAP
    ensures Elems(Loop(f, last, last + f.wsize, WRAP)) == All(f)
  {
    hide Block, Loop, Packet;
    LoopForever(f, last, 0, WRAP);
    var l := Loop(f, last, last + f.wsize, WRAP);
    forall p | p in All(f) ensures p in l {
      var b :| 0 <= b < WRAP && p == Packet(f, b);
      var j := if b >= last then b - last else b + WRAP - last;
      assert (last + 0 + j) % WRAP == b;
      assert l[j] == Packet(f, (last + 0 + j) % WRAP);
    }
    forall p | p in l ensures p in All(f) {
      var j :| 0 <= j < |l| && l[j] == p;
      assert l[j] == Packet(f, (last + 0 + j) % WRAP);
    }
  }

  // ---------------------------------------------------------------------
  // Which block a packet carries

  /** The block index that a number stands for. */
  function Source(number: nat): nat {
    if number == 0 then WRAP - 1 else number - 1
  }

  predicate Genuine(f: File, p: Data) {
    p.number < WRAP && p.bytes == Block(f, Source(p.number)) && p.bytes != []
  }

  lemma {:induction false} WindowGenuine(f: File, block: nat, limit: nat)
    requires block < WRAP && (limit < WRAP || Block(f, WRAP - 1) == [])
    ensures forall p | p in Window(f, block, limit) :: Genuine(f, p) && p.number != 0
    decreases limit - block
  {
    if block < limit && Block(f, block) != [] && block < WRAP - 1 {
      WindowGenuine(f, block + 1, limit);
    }
  }

  lemma AllGenuine(f: File, last: nat)
    requires !Returns(f, last)
    ensures forall p | p in All(f) :: Genuine(f, p)
  {
    forall b | 0 <= b < WRAP ensures Genuine(f, Packet(f, b)) {
      OffsetOrder(f, b, WRAP - 1);
    }
  }

  // ---------------------------------------------------------------------
  // The transfer

  /** Packets and acknowledgements ever sent may arrive at any time, again and
      again.  The server may hang in an endless loop.  The receiver has taken `count`
      blocks and is done when one was short. */
  datatype State = State(sent: set<Data>, acks: set<nat>, hung: bool, count: nat, got: seq<byte>, done: bool)

  datatype Event = Ack | Handle(last: nat) | Deliver(p: Data)

  /** Without options the server sends the first block at once; with options it
      waits for an acknowledgement of block 0. */
  function Start(f: File, options: bool): State {
    State(if options || Block(f, 0) == [] then {} else {Packet(f, 0)}, {}, false, 0, [], false)
  }

  predicate Enabled(s: State, e: Event) {
    match e
    case Ack => true
    case Handle(last) => last in s.acks && !s.hung
    case Deliver(p) => p in s.sent
  }

  function Apply(f: File, s: State, e: Event): State {
    match e
    case Ack => s.(acks := s.acks + {s.count % WRAP})
    case Handle(last) =>
      if Returns(f, last) then s.(sent := s.sent + Elems(Reply(f, last)))
      else s.(sent := s.sent + All(f), hung := true)
    case Deliver(p) =>
      if !s.done && p.number == (s.count + 1) % WRAP
      then s.(count := s.count + 1, got := s.got + p.bytes, done := |p.bytes| < f.blksize)
      else s
  }

  predicate Run(f: File, s: State, es: seq<Event>)
    decreases |es|
  {
    es == [] || (Enabled(s, es[0]) && Run(f, Apply(f, s, es[0]), es[1..]))
  }

  function After(f: File, s: State, es: seq<Event>): State
    decreases |es|
  {
    if es == [] then s else After(f, Apply(f, s, es[0]), es[1..])
  }

  /** `k` blocks as an in-order receiver takes them: the block index in 16 bits. */
  function Stream(f: File, k: nat): seq<byte> {
    if k == 0 then [] else Stream(f, k - 1) + Block(f, (k - 1) % WRAP)
  }

  predicate Full(f: File, block: nat) {
    |Block(f, block)| == f.blksize
  }

  ghost predicate Inv(f: File, s: State) {
    && (forall p | p in s.sent :: Genuine(f, p)) && s.got == Stream(f, s.count)
    && (if s.hung then All(f) <= s.sent
        else s.count < WRAP && (forall p | p in s.sent :: p.number != 0) && (forall a | a in s.acks :: a <= s.count))
    && (forall a | a in s.acks :: a < WRAP)
    && (forall j | 0 <= j < s.count - 1 :: Full(f, j % WRAP))
    && (s.done <==> s.count > 0 && !Full(f, (s.count - 1) % WRAP))
  }

  lemma NextNumber(k: nat, number: nat)
    requires number < WRAP && number == (k + 1) % WRAP
    ensures Source(number) == k % WRAP
    ensures number != 0 && k < WRAP ==> k + 1 < WRAP
  {
  }

  lemma HandleInv(f: File, s: State, last: nat)
    requires Inv(f, s) && Enabled(s, Handle(last))
    ensures Inv(f, Apply(f, s, Handle(last)))
  {
    hide Block, Window, All, Stream, Full, Genuine;
    if Returns(f, last) {
      WindowGenuine(f, last, last + f.wsize);
    } else {
      AllGenuine(f, last);
    }
  }

  lemma DeliverInv(f: File, s: State, p: Data)
    requires Inv(f, s) && Enabled(s, Deliver(p))
    ensures Inv(f, Apply(f, s, Deliver(p)))
  {
    hide Block, Window, All;
    if !s.done && p.number == (s.count + 1) % WRAP {
      NextNumber(s.count, p.number);
    }
  }

  lemma StepInv(f: File, s: State, e: Event)
    requires Inv(f, s) && Enabled(s, e)
    ensures Inv(f, Apply(f, s, e))
  {
    match e
    case Ack =>
      hide Block, Window, All, Stream, Full, Genuine, Returns;
    case Handle(last) =>
      HandleInv(f, s, last);
    case Deliver(p) =>
      DeliverInv(f, s, p);
  }

  lemma {:induction false} RunInv(f: File, s: State, es: seq<Event>)
    requires Inv(f, s) && Run(f, s, es)
    ensures Inv(f, After(f, s, es))
    decreases |es|
  {
    hide Inv, Enabled, Apply;
    if es != [] {
      StepInv(f, s, es[0]);
      RunInv(f, Apply(f, s, es[0]), es[1..]);
    }
  }

  lemma StartInv(f: File, options: bool)
    ensures Inv(f, Start(f, options))
  {
  }

  /** In every run, whatever the network does, the receiver holds the blocks it has
      counted, indexed in 16 bits, and every packet carries the block that its number
      stands for. */
  lemma Receives(f: File, options: bool, es: seq<Event>)
    requires Run(f, Start(f, options), es)
    ensures var s := After(f, Start(f, options), es);
            s.got == Stream(f, s.count) && forall p | p in s.sent :: Genuine(f, p)
  {
    StartInv(f, options);
    RunInv(f, Start(f, options), es);
  }

  // ---------------------------------------------------------------------
  // Prefixes

  /** The first `n` blocks of the file. */
  function Prefix(f: File, n: nat): seq<byte> {
    if Offset(f, n) <= |f.content| then f.content[..Offset(f, n)] else f.content
  }

  lemma PrefixNext(f: File, n: nat)
    ensures Prefix(f, n + 1) == Prefix(f, n) + Block(f, n)
  {
    OffsetNext(f, n);
  }

  /** Up to 65536 blocks the stream is the file. */
  lemma {:induction false} StreamIsPrefix(f: File, k: nat)
    requires k <= WRAP
    ensures Stream(f, k) == Prefix(f, k) <= f.content
  {
    if k > 0 {
      hide Block, Prefix, Offset;
      StreamIsPrefix(f, k - 1);
      PrefixNext(f, k - 1);
      PrefixOf(f, k);
      assert (k - 1) % WRAP == k - 1;
    } else {
      assert Offset(f, 0) == 0;
    }
  }

  lemma PrefixOf(f: File, k: nat)
    ensures Prefix(f, k) <= f.content
  {
  }

  lemma BlockFull(f: File, block: nat)
    ensures Full(f, block) <==> f.blksize == 0 || Offset(f, block + 1) <= |f.content|
  {
    OffsetNext(f, block);
  }

  /** A receiver that has taken more than 65536 blocks only ever saw full ones. */
  lemma CountBound(f: File, s: State)
    requires Inv(f, s) && f.blksize > 0 && |f.content| < Offset(f, WRAP)
    ensures s.count <= WRAP
  {
    hide Block, Genuine, All;
    BlockFull(f, WRAP - 1);
    var b: nat := (WRAP - 1) % WRAP;
    assert b == WRAP - 1;
    assert s.count > WRAP ==> Full(f, b);
  }
}

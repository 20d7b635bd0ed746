/**
 Exactly which files a transfer keeps in order and which it can complete.
 */
module TftpRuns {
  import opened Basics
  import opened Tftp

  // ---------------------------------------------------------------------
  // Progress

  /** An acknowledgement that is answered brings the next missing block exactly when
      there is one and the window is not empty. */
  lemma NextBlockSent(f: File, last: nat)
    requires Returns(f, last) && last < WRAP
    ensures (exists p | p in Reply(f, last) :: p.number == last + 1) <==> f.wsize > 0 && Block(f, last) != []
    ensures f.wsize > 0 && Block(f, last) != [] ==> Packet(f, last) in Reply(f, last) && last + 1 < WRAP
  {
    if f.wsize > 0 && Block(f, last) != [] {
      assert Reply(f, last)[0] == Packet(f, last);
    } else {
      assert Reply(f, last) == [];
    }
  }

  lemma RunOne(f: File, s: State, e: Event, es: seq<Event>)
    requires Enabled(s, e) && Run(f, Apply(f, s, e), es)
    ensures Run(f, s, [e] + es) && After(f, s, [e] + es) == After(f, Apply(f, s, e), es)
  {
    hide Enabled, Apply;
    assert ([e] + es)[1..] == es;
  }

  lemma NoEvents(f: File, s: State)
    ensures Run(f, s, []) && After(f, s, []) == s
  {
  }

  lemma {:induction false} RunConcat(f: File, s: State, a: seq<Event>, b: seq<Event>)
    requires Run(f, s, a) && Run(f, After(f, s, a), b)
    ensures Run(f, s, a + b) && After(f, s, a + b) == After(f, After(f, s, a), b)
    decreases |a|
  {
    hide Enabled, Apply;
    if a == [] {
      assert a + b == b;
    } else {
      RunConcat(f, Apply(f, s, a[0]), a[1..], b);
      RunOne(f, s, a[0], a[1..] + b);
      assert [a[0]] + (a[1..] + b) == a + b;
    }
  }

  lemma Takes(f: File, s: State)
    requires !s.done
    ensures Apply(f, s, Deliver(Packet(f, s.count % WRAP))).count == s.count + 1
  {
    Wraps(s.count);
  }

  /** A receiver that is not done and has a block to come can be brought that block. */
  lemma Advance(f: File, s: State) returns (es: seq<Event>)
    requires Inv(f, s) && f.wsize > 0 && !s.done && Block(f, s.count % WRAP) != []
    ensures Run(f, s, es) && After(f, s, es).count == s.count + 1
  {
    hide Block, Window, Run, After, All, Packet, Genuine;
    var p := Packet(f, s.count % WRAP);
    Takes(f, s);
    if s.hung {
      InAll(f, s.count % WRAP);
      NoEvents(f, Apply(f, s, Deliver(p)));
      RunOne(f, s, Deliver(p), []);
      es := [Deliver(p)] + [];
    } else {
      var last := s.count;
      var s1 := Apply(f, s, Ack);
      var s2 := Apply(f, s1, Handle(last));
      assert last in s1.acks;
      if Returns(f, last) { NextBlockSent(f, last); } else { InAll(f, last); }
      assert p in s2.sent;
      Takes(f, s2);
      var s3 := Apply(f, s2, Deliver(p));
      NoEvents(f, s3);
      RunOne(f, s2, Deliver(p), []);
      RunOne(f, s1, Handle(last), [Deliver(p)] + []);
      RunOne(f, s, Ack, [Handle(last)] + ([Deliver(p)] + []));
      es := [Ack] + ([Handle(last)] + ([Deliver(p)] + []));
    }
  }

  lemma InAll(f: File, b: nat)
    requires b < WRAP
    ensures Packet(f, b) in All(f)
  {
  }

  // ---------------------------------------------------------------------
  // Completing

  /** A receiver that does not have the file yet, on the way to it, is not done and
      has a block to come. */
  lemma OnTheWay(f: File, s: State, k: nat)
    requires Inv(f, s) && s.count <= k && Stream(f, k) == f.content && s.got != f.content
    ensures s.count < k && !s.done && Block(f, s.count % WRAP) != []
  {
    hide Genuine, All, Block, Offset;
    var n := s.count;
    if f.blksize == 0 {
      NoBytes(f, k);
      NoBytes(f, n);
      assert false;
    }
    if n < WRAP {
      StreamIsPrefix(f, n);
      Unfinished(f, n);
      if n > 0 { BlockFull(f, n - 1); }
    } else {
      FullAt(f, s, n % WRAP);
      if n > WRAP { FullAt(f, s, (n - 1) % WRAP); }
      else { StreamIsPrefix(f, n); Unfinished(f, n); BlockFull(f, n - 1); }
    }
  }

  lemma {:induction false} NoBytes(f: File, k: nat)
    requires f.blksize == 0
    ensures Stream(f, k) == []
  {
    if k > 0 { NoBytes(f, k - 1); }
  }

  lemma Unfinished(f: File, n: nat)
    requires Prefix(f, n) != f.content && f.blksize > 0
    ensures Offset(f, n) < |f.content| && Block(f, n) != []
  {
  }

  /** After more than 65536 blocks, every block was taken before and was full. */
  lemma FullAt(f: File, s: State, b: nat)
    requires Inv(f, s) && b < WRAP && f.blksize > 0 && (s.count > WRAP || (s.count == WRAP && b < WRAP - 1))
    ensures Full(f, b) && Block(f, b) != []
  {
    hide Block, Genuine, All;
    assert Full(f, b % WRAP);
  }

  /** Whatever has happened, a receiver on the way to the file can be brought all of it. */
  lemma {:induction false} Completes(f: File, s: State, k: nat) returns (es: seq<Event>)
    requires Inv(f, s) && f.wsize > 0 && s.count <= k && Stream(f, k) == f.content
    ensures Run(f, s, es) && After(f, s, es).got == f.content
    decreases k - s.count
  {
    hide Block, Run, After, Inv, Stream;
    NoEvents(f, s);
    es := [];
    if s.got != f.content {
      OnTheWay(f, s, k);
      es := Advance(f, s);
      RunInv(f, s, es);
      var rest := Completes(f, After(f, s, es), k);
      RunConcat(f, s, es, rest);
      es := es + rest;
    }
  }

  ghost predicate CanComplete(f: File, options: bool) {
    exists es :: Run(f, Start(f, options), es) && After(f, Start(f, options), es).got == f.content
  }

  /** With a window, a transfer can complete exactly when the file is some number of
      its own blocks, indexed in 16 bits. */
  lemma CompletesExactly(f: File, options: bool)
    requires f.wsize > 0
    ensures CanComplete(f, options) <==> exists k: nat :: Stream(f, k) == f.content
  {
    hide Run, After, Stream, Inv;
    if k: nat :| Stream(f, k) == f.content {
      StartInv(f, options);
      var es := Completes(f, Start(f, options), k);
    }
    if es :| Run(f, Start(f, options), es) && After(f, Start(f, options), es).got == f.content {
      Receives(f, options, es);
    }
  }

  /** A file of at most 65536 blocks is. */
  lemma ShortFile(f: File) returns (k: nat)
    requires f.blksize > 0 && |f.content| <= Offset(f, WRAP)
    ensures k <= WRAP && Stream(f, k) == f.content
  {
    k := WRAP;
    StreamIsPrefix(f, WRAP);
  }

  /** The file is `k` full blocks, and from block 65536 on each is the block that
      many before it. */
  predicate Repeats(f: File, k: nat) {
    Offset(f, k) == |f.content| && forall j | WRAP <= j < k :: Again(f, j)
  }

  predicate Again(f: File, j: nat) {
    Block(f, j) == Block(f, j % WRAP)
  }

  lemma {:induction false} RepeatsStream(f: File, k: nat, j: nat)
    requires Repeats(f, k) && j <= k
    ensures Stream(f, j) == Prefix(f, j)
    decreases j
  {
    hide Block, Offset, Prefix;
    if j <= WRAP {
      StreamIsPrefix(f, j);
    } else {
      RepeatsStream(f, k, j - 1);
      PrefixNext(f, j - 1);
      assert Again(f, j - 1);
    }
  }

  lemma StreamRepeats(f: File, k: nat)
    requires f.blksize > 0 && |f.content| > Offset(f, WRAP) && Stream(f, k) == f.content
    ensures Repeats(f, k)
  {
    hide Block, Offset, Stream, Prefix;
    AllFull(f, k);
    forall j | WRAP <= j < k ensures Again(f, j) {
      StreamGrows(f, j, k);
      StreamGrows(f, j + 1, k);
      AllFull(f, j);
      AllFull(f, j + 1);
      SamePrefix(f, j);
      SamePrefix(f, j + 1);
      StreamNext(f, j);
      PrefixNext(f, j);
      Cancel(Prefix(f, j), Block(f, j % WRAP), Block(f, j));
    }
  }

  lemma Cancel(a: seq<byte>, b: seq<byte>, c: seq<byte>)
    requires a + b == a + c
    ensures b == c
  {
    assert (a + b)[|a|..] == b && (a + c)[|a|..] == c;
  }

  lemma SamePrefix(f: File, j: nat)
    requires Stream(f, j) <= f.content && |Stream(f, j)| == Offset(f, j)
    ensures Stream(f, j) == Prefix(f, j)
  {
  }

  /** With a window, a transfer can complete exactly for files of at most 65536 blocks
      and for longer ones that repeat themselves. */
  lemma CompletesWhen(f: File, options: bool)
    requires f.wsize > 0 && f.blksize > 0
    ensures CanComplete(f, options) <==> |f.content| <= Offset(f, WRAP) || exists k: nat :: Repeats(f, k)
  {
    hide Block, Offset, Stream, Run, After, Repeats, Prefix;
    CompletesExactly(f, options);
    if |f.content| <= Offset(f, WRAP) {
      var k := ShortFile(f);
    } else {
      if k: nat :| Stream(f, k) == f.content {
        StreamRepeats(f, k);
      }
      if k: nat :| Repeats(f, k) {
        RepeatsStream(f, k, k);
        WholePrefix(f, k);
      }
    }
  }

  lemma WholePrefix(f: File, k: nat)
    requires Repeats(f, k)
    ensures Prefix(f, k) == f.content
  {
  }

  lemma StreamNext(f: File, k: nat)
    ensures Stream(f, k + 1) == Stream(f, k) + Block(f, k % WRAP)
  {
  }

  lemma {:induction false} StreamGrows(f: File, j: nat, k: nat)
    requires j <= k
    ensures Stream(f, j) <= Stream(f, k)
    decreases k
  {
    hide Block;
    if j < k {
      StreamGrows(f, j, k - 1);
    }
  }

  // ---------------------------------------------------------------------
  // Staying a prefix

  ghost predicate AlwaysPrefix(f: File, options: bool) {
    forall es | Run(f, Start(f, options), es) :: After(f, Start(f, options), es).got <= f.content
  }

  /** Without a window nothing follows what the server sends at the start. */
  ghost predicate NoneSent(f: File, options: bool, s: State) {
    s.sent <= Start(f, options).sent && !s.hung && s.count <= 1 && s.got == Stream(f, s.count)
    && (s.count == 1 ==> !options && Block(f, 0) != [])
  }

  lemma {:induction false} NoWindow(f: File, options: bool, s: State, es: seq<Event>)
    requires f.wsize == 0 && Inv(f, s) && NoneSent(f, options, s) && Run(f, s, es)
    ensures NoneSent(f, options, After(f, s, es))
    decreases |es|
  {
    hide Inv, Block, Stream;
    if es != [] {
      StepInv(f, s, es[0]);
      NoWindowStep(f, options, s, es[0]);
      NoWindow(f, options, Apply(f, s, es[0]), es[1..]);
    }
  }

  lemma NoWindowStep(f: File, options: bool, s: State, e: Event)
    requires f.wsize == 0 && Inv(f, s) && NoneSent(f, options, s) && Enabled(s, e)
    ensures NoneSent(f, options, Apply(f, s, e))
  {
    hide All;
    match e
    case Ack =>
    case Handle(last) => assert Returns(f, last) && Reply(f, last) == [];
    case Deliver(p) => StepInv(f, s, e);
  }

  lemma StartNone(f: File, options: bool)
    ensures NoneSent(f, options, Start(f, options))
  {
  }

  /** Without a window a transfer completes exactly for the empty file, and without
      options for a file of one block. */
  lemma NoWindowCompletes(f: File, options: bool)
    requires f.wsize == 0
    ensures CanComplete(f, options) <==> f.content == [] || (!options && f.content == Block(f, 0))
  {
    hide Inv, Block, Stream, Run, After, NoneSent;
    StartInv(f, options);
    StartNone(f, options);
    OneBlock(f);
    if es :| Run(f, Start(f, options), es) && After(f, Start(f, options), es).got == f.content {
      NoWindow(f, options, Start(f, options), es);
      Nothing(f, options, After(f, Start(f, options), es));
    }
    NoEvents(f, Start(f, options));
    if f.content != [] && !options && f.content == Block(f, 0) {
      FirstPacket(f);
      var s1 := Apply(f, Start(f, options), Deliver(Packet(f, 0)));
      NoEvents(f, s1);
      RunOne(f, Start(f, options), Deliver(Packet(f, 0)), []);
    }
  }

  lemma OneBlock(f: File)
    ensures Stream(f, 0) == [] && Stream(f, 1) == Block(f, 0)
  {
    assert Stream(f, 0) == [];
  }

  lemma Nothing(f: File, options: bool, s: State)
    requires NoneSent(f, options, s)
    ensures s.got == [] || (!options && s.got == Block(f, 0))
  {
    OneBlock(f);
  }

  lemma FirstPacket(f: File)
    requires Block(f, 0) != []
    ensures Enabled(Start(f, false), Deliver(Packet(f, 0)))
    ensures Apply(f, Start(f, false), Deliver(Packet(f, 0))).got == Block(f, 0)
  {
    assert [] + Block(f, 0) == Block(f, 0);
  }

  lemma StaysPrefix(f: File, options: bool, es: seq<Event>)
    requires Run(f, Start(f, options), es)
    requires f.wsize == 0 || f.blksize == 0 || |f.content| < Offset(f, WRAP)
    ensures After(f, Start(f, options), es).got <= f.content
  {
    hide Inv, Block, Stream, Run, After, NoneSent;
    StartInv(f, options);
    StartNone(f, options);
    RunInv(f, Start(f, options), es);
    var s := After(f, Start(f, options), es);
    Receives(f, options, es);
    if f.wsize == 0 {
      NoWindow(f, options, Start(f, options), es);
      AtMostOne(f, options, s);
      StreamIsPrefix(f, s.count);
    } else if f.blksize == 0 {
      NoBytes(f, s.count);
    } else {
      CountBound(f, s);
      StreamIsPrefix(f, s.count);
    }
  }

  lemma AtMostOne(f: File, options: bool, s: State)
    requires NoneSent(f, options, s)
    ensures s.count <= 1
  {
  }

  /** All blocks are full: the receiver is never done and takes any number of blocks. */
  lemma {:induction false} TakesAny(f: File, s: State, k: nat) returns (es: seq<Event>)
    requires Inv(f, s) && f.wsize > 0 && f.blksize > 0 && |f.content| >= Offset(f, WRAP) && s.count <= k
    ensures Run(f, s, es) && After(f, s, es).count == k && |After(f, s, es).got| == Offset(f, k)
    decreases k - s.count
  {
    hide Block, Run, After, Inv, Stream, Offset;
    NoEvents(f, s);
    es := [];
    GotStream(f, s);
    AllFull(f, s.count);
    if s.count < k {
      NotDone(f, s);
      es := Advance(f, s);
      RunInv(f, s, es);
      var rest := TakesAny(f, After(f, s, es), k);
      RunConcat(f, s, es, rest);
      es := es + rest;
    }
  }

  lemma GotStream(f: File, s: State)
    requires Inv(f, s)
    ensures s.got == Stream(f, s.count)
  {
  }

  lemma OneFull(f: File, b: nat)
    requires b < WRAP && f.blksize > 0 && |f.content| >= Offset(f, WRAP)
    ensures Full(f, b) && Block(f, b) != []
  {
    OffsetOrder(f, b + 1, WRAP);
    BlockFull(f, b);
  }

  lemma NotDone(f: File, s: State)
    requires Inv(f, s) && f.blksize > 0 && |f.content| >= Offset(f, WRAP)
    ensures !s.done && Block(f, s.count % WRAP) != []
  {
    hide Block, Genuine, All, Stream, Offset;
    OneFull(f, s.count % WRAP);
    if s.count > 0 { OneFull(f, (s.count - 1) % WRAP); }
  }

  lemma {:induction false} AllFull(f: File, k: nat)
    requires f.blksize > 0 && |f.content| >= Offset(f, WRAP)
    ensures |Stream(f, k)| == Offset(f, k)
  {
    hide Block;
    if k > 0 {
      AllFull(f, k - 1);
      OneFull(f, (k - 1) % WRAP);
      OffsetNext(f, k - 1);
    }
  }

  /** A receiver of a file of 65536 full blocks or more takes block 0 behind them. */
  lemma WrongBlock(f: File, options: bool) returns (es: seq<Event>)
    requires f.wsize > 0 && f.blksize > 0 && |f.content| >= Offset(f, WRAP)
    ensures Run(f, Start(f, options), es)
    ensures After(f, Start(f, options), es).got == f.content[..Offset(f, WRAP)] + Block(f, 0)
  {
    hide Block, Run, After, Inv, Stream, Offset;
    StartInv(f, options);
    es := TakesAny(f, Start(f, options), WRAP + 1);
    Receives(f, options, es);
    StreamNext(f, WRAP);
    StreamIsPrefix(f, WRAP);
  }

  /** Every run keeps the receiver at a prefix of the file exactly when there is no
      window, no block size, or the file is shorter than 65536 full blocks. */
  lemma PrefixExactly(f: File, options: bool)
    ensures AlwaysPrefix(f, options) <==> f.wsize == 0 || f.blksize == 0 || |f.content| < Offset(f, WRAP)
  {
    hide Run, After, Inv, Block, Stream, Offset;
    if f.wsize == 0 || f.blksize == 0 || |f.content| < Offset(f, WRAP) {
      forall es | Run(f, Start(f, options), es) ensures After(f, Start(f, options), es).got <= f.content {
        StaysPrefix(f, options, es);
      }
    } else {
      StartInv(f, options);
      var k := |f.content| + 1;
      var es := TakesAny(f, Start(f, options), k);
      Longer(f, k);
    }
  }

  lemma Longer(f: File, k: nat)
    requires f.blksize > 0
    ensures k <= Offset(f, k)
  {
    assert k * (f.blksize - 1) >= 0;
  }

  /** A packet is short, which tells the receiver that it is the last, exactly when
      the file ends inside its block; a file of full blocks has no short packet. */
  lemma ShortBlock(f: File, block: nat)
    requires Block(f, block) != []
    ensures |Block(f, block)| < f.blksize <==> Offset(f, block + 1) > |f.content|
  {
    OffsetNext(f, block);
  }
}

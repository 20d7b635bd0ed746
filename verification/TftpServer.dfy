/**
 The reading side of the server as the program runs it: packets are sent in a loop
 over a 16-bit block counter.
 */
module TftpServer {
  import opened Tftp

  class Reader {
    const f: File
    var sent: seq<Data>

    constructor (file: File)
      ensures f == file && sent == []
    {
      f := file;
      sent := [];
    }

    /** Sends what can be read at `offset`; sends nothing at the end of the file. */
    method SendData(block: nat, offset: nat) returns (n: nat)
      modifies this
      ensures n == 0 <==> ReadAt(f, offset) == []
      ensures sent == old(sent) + if n == 0 then [] else [Data(block % WRAP, ReadAt(f, offset))]
    {
      if offset >= |f.content| {
        return 0;
      }
      var len := if f.blksize < |f.content| - offset then f.blksize else |f.content| - offset;
      if len == 0 {
        return 0;
      }
      assert f.content[offset..offset + len] == ReadAt(f, offset);
      sent := sent + [Data(block % WRAP, f.content[offset..offset + len])];
      n := 4 + len;
    }

    /** An accepted read request; with options only their acknowledgement is sent. */
    method HandleRequest(options: bool)
      requires sent == []
      modifies this
      ensures (set p | p in sent) == Start(f, options).sent
    {
      if !options {
        var _ := SendData(1, 0);
        assert Offset(f, 0) == 0;
      }
    }

    /** The answer to an acknowledgement, observed for at most `rounds` rounds: it
        returns after the reply, or never. */
    method HandleAck(last: nat, rounds: nat) returns (returned: bool)
      requires last < WRAP
      modifies this
      ensures sent == old(sent) + Loop(f, last, last + f.wsize, rounds)
      ensures !Returns(f, last) ==> !returned
      ensures Returns(f, last) && rounds > f.wsize ==> returned && sent == old(sent) + Reply(f, last)
    {
      hide ReadAt, Offset, Window, Loop;
      var block: nat, i := last, 0;
      ghost var limit := last + f.wsize;
      returned := false;
      while i < rounds && !returned
        invariant 0 <= i <= rounds && 0 <= block < WRAP
        invariant Returns(f, last) && !returned ==> i <= f.wsize && block == last + i
        invariant returned ==> Returns(f, last) && sent == old(sent) + Loop(f, last, limit, rounds)
        invariant !returned ==> sent + Loop(f, block, limit, rounds - i) == old(sent) + Loop(f, last, limit, rounds)
        decreases rounds - i, !returned
      {
        if !Returns(f, last) { NeverEnds(f, last, block); }
        LoopRound(f, block, limit, rounds - i);
        if block < last + f.wsize {
          var n := SendData(block + 1, Offset(f, block));
          returned := n == 0;
          if n != 0 {
            block := (block + 1) % WRAP;
            i := i + 1;
          }
        } else {
          returned := true;
        }
      }
      LoopRound(f, block, limit, 0);
      if Returns(f, last) && rounds > f.wsize {
        LoopIsWindow(f, last, limit, rounds);
      }
    }
  }

  lemma LoopRound(f: File, block: nat, limit: nat, rounds: nat)
    ensures Loop(f, block, limit, rounds)
         == if rounds == 0 || block >= limit || Block(f, block) == [] then []
            else [Packet(f, block)] + Loop(f, (block + 1) % WRAP, limit, rounds - 1)
  {
  }
}

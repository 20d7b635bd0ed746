/**
 The echo reference as the program runs it: the FIFOs, the byte counter and the
 last timestamp are fields that each call updates.
 */
module AecReference {
  import opened Aec

  const ENOMEM := 12
  const ETIMEDOUT := 110

  class Reference<T> {
    var spk: seq<T>
    var ts: seq<Info>
    var diff: int
    var last: Info

    function State(): Ref<T>
      reads this
    {
      Ref(spk, ts, diff, last)
    }

    constructor (info: Info)
      ensures State() == Ref([], [], 0, info)
    {
      spk, ts, diff, last := [], [], 0, info;
    }

    /** Queues a buffer, of which the sample FIFO took `written` bytes.  Whether the
        other FIFO took the timestamp is not looked at. */
    method WriteToReferenceFifo(buffer: seq<T>, timestamp: int, written: nat, stamped: bool) returns (ret: int)
      requires written <= |buffer|
      modifies this
      ensures var a := Queued(old(State()), buffer[..written]);
              State() == if stamped then Stamped(a, written, timestamp) else a
      ensures ret == if written == |buffer| then 0 else -ENOMEM
    {
      ret := 0;
      spk := spk + buffer[..written];
      if written != |buffer| {
        ret := -ENOMEM;
      }
      if stamped {
        ts := ts + [Info(written, timestamp)];
      }
    }

    method GetSpkTimestamp(n: nat) returns (stamp: Stamp)
      modifies this
      ensures (State(), stamp) == TimeOf(old(State()), n)
    {
      stamp := NoStamp;
      var offset := 0;
      if diff < 0 {
        offset := last.bytes + diff;
      } else {
        if ts == [] {
          return;
        }
        last, ts := ts[0], ts[1..];
        diff := diff - last.bytes;
      }
      stamp := Stamp(last.timestamp, offset);
      diff := diff + n;
      var info := last;
      ghost var start := State();
      while diff > 0
        invariant last == start.last && spk == start.spk
        invariant Forward(State().(last := info)) == Forward(start)
        decreases |ts|
      {
        if ts == [] {
          break;
        }
        info, ts := ts[0], ts[1..];
        diff := diff - info.bytes;
      }
      last := info;
    }

    /** Takes `n` bytes if that many are queued when the waiting is over. */
    method GetReferenceSamples(n: nat) returns (ret: int, data: seq<T>, stamp: Stamp)
      modifies this
      ensures n > |old(spk)| ==> ret == -ETIMEDOUT && State() == old(State()) && data == []
      ensures n <= |old(spk)| ==>
                ret == 0 && data == old(spk)[..n] && (State(), stamp) == Reading(old(State()), n)
    {
      if |spk| < n {
        return -ETIMEDOUT, [], NoStamp;
      }
      data, spk := spk[..n], spk[n..];
      stamp := GetSpkTimestamp(n);
      ret := 0;
    }

    method FlushFifos()
      modifies this
      ensures State() == Flushed(old(State()))
    {
      spk := [];
      ts := [];
      diff := 0;
    }
  }
}

/**
 The transfer loop as the program runs it, over a mapped memory region and a
 shadow buffer that are updated in place.
 */
module RmtfsDaemon {
  import opened Basics
  import opened Rmtfs

  class Daemon {
    const address: nat
    const mem: array<byte>
    var disk: seq<byte>

    function State(): Store
      reads this, mem
    {
      Store(address, mem[..], disk)
    }

    constructor (base: nat, size: nat, image: seq<byte>)
      ensures fresh(mem) && address == base && mem.Length == size && disk == image
    {
      address := base;
      mem := new byte[size](_ => 0);
      disk := image;
    }

    /** Where a range of the region begins in the mapping, or -1. */
    method MemPtr(phys: nat, n: nat) returns (p: int)
      ensures p >= 0 <==> InRegion(State(), phys, n)
      ensures p >= 0 ==> p == phys - address
    {
      var start, end := phys, phys + n;
      if start < address || end > address + mem.Length {
        return -1;
      }
      p := phys - address;
    }

    method MemWrite(phys: nat, buf: seq<byte>) returns (o: Outcome)
      modifies mem
      ensures if InRegion(old(State()), phys, |buf|)
              then o == Done && mem[..] == Overlay(old(mem[..]), phys - address, buf)
              else o == Refused && mem[..] == old(mem[..])
    {
      var p := MemPtr(phys, |buf|);
      if p < 0 {
        return Refused;
      }
      for i := 0 to |buf|
        invariant forall k | 0 <= k < mem.Length :: mem[k] == if p <= k < p + i then buf[k - p] else old(mem[k])
      {
        mem[p + i] := buf[i];
      }
      assert mem[..] == Overlay(old(mem[..]), p, buf);
      o := Done;
    }

    /** Reads from the shadow buffer, zeros behind its end. */
    method StorageRead(at: nat, n: nat) returns (o: Outcome, buf: seq<byte>)
      ensures if at > |disk| then o == PastEnd else o == Done && buf == Padded(disk, at, n)
    {
      if at > |disk| {
        return PastEnd, [];
      }
      var len := if n < |disk| - at then n else |disk| - at;
      buf := disk[at..at + len] + seq(n - len, _ => 0);
      o := Done;
    }

    /** Writes to the shadow buffer; `gap` stands for the bytes of a fresh allocation
        between its old end and the position written. */
    method StorageWrite(buf: seq<byte>, at: nat, gap: Gap) returns (o: Outcome)
      modifies this
      ensures if at + |buf| >= STORAGE_MAX then o == Refused && disk == old(disk)
              else o == Done && disk == Overlay(Extended(old(disk), at, gap), at, buf)
    {
      var len := at + |buf|;
      if len >= STORAGE_MAX {
        return Refused;
      }
      if len > |disk| {
        var was := disk;
        disk := was + seq(len - |was|, i requires 0 <= i < len - |was| => gap(|was| + i));
      }
      assert disk[..at] == Extended(old(disk), at, gap)[..at];
      disk := disk[..at] + buf + disk[len..];
      o := Done;
    }

    method MoveSector(write: bool, phys: nat, at: nat, gap: Gap) returns (o: Outcome)
      modifies this, mem
      ensures (State(), o) == Sector(old(State()), write, phys, at, gap)
    {
      if write {
        var p := MemPtr(phys, SECTOR);
        if p < 0 {
          return Refused;
        }
        var buf := mem[p..p + SECTOR];
        o := StorageWrite(buf, at, gap);
      } else {
        var buf;
        o, buf := StorageRead(at, SECTOR);
        if o == Done {
          o := MemWrite(phys, buf);
        }
      }
    }

    method MoveEntry(write: bool, e: Entry, gap: Gap) returns (o: Outcome)
      modifies this, mem
      ensures (State(), o) == Sectors(old(State()), write, e, 0, e.sectors, gap)
    {
      hide Sector, SectorBase;
      var base := SectorBase(e);
      var offset := 0;
      for j := 0 to e.sectors
        invariant offset == j * SECTOR
        invariant Sectors(State(), write, e, j, e.sectors, gap) == Sectors(old(State()), write, e, 0, e.sectors, gap)
      {
        o := MoveSector(write, e.physOffset + offset, base + offset, gap);
        if o != Done {
          return;
        }
        offset := offset + SECTOR;
      }
      o := Done;
    }

    /** The transfer of a whole request. */
    method Iovec(write: bool, entries: seq<Entry>, gap: Gap) returns (o: Outcome)
      modifies this, mem
      ensures (State(), o) == Request(old(State()), write, entries, gap)
    {
      hide Sectors;
      for i := 0 to |entries|
        invariant Request(State(), write, entries[i..], gap) == Request(old(State()), write, entries, gap)
      {
        assert entries[i..][1..] == entries[i + 1..];
        o := MoveEntry(write, entries[i], gap);
        if o != Done {
          return;
        }
      }
      o := Done;
    }
  }
}

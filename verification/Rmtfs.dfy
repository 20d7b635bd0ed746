/**
 The sector transfers of the remote file system daemon, with the storage held in
 a shadow buffer and the shared memory mapped: 512-byte copies between a memory
 region and a growing byte buffer, one sector at a time until one fails.
 */
module Rmtfs {
  import opened Basics

  const SECTOR := 512
  const STORAGE_MAX := 16 * 1024 * 1024
  const WORD := 0x1_0000_0000

  datatype Entry = Entry(sectorAddr: nat, physOffset: nat, sectors: nat)

  /** The mapped region begins at `address`. */
  datatype Store = Store(address: nat, mem: seq<byte>, disk: seq<byte>)

  /** A transfer is done, is refused, or would read the shadow buffer from a position
      past its end, which the program does not guard against. */
  datatype Outcome = Done | Refused | PastEnd

  /** Byte position of the first sector, computed in 32 bits. */
  function SectorBase(e: Entry): nat {
    (e.sectorAddr * SECTOR) % WORD
  }

  /** The range is inside the mapped region. */
  predicate InRegion(s: Store, phys: nat, n: nat) {
    s.address <= phys && phys + n <= s.address + |s.mem|
  }

  /** Bytes of the buffer from `at` on, zero past its end. */
  function Padded(d: seq<byte>, at: nat, n: nat): (r: seq<byte>)
    ensures |r| == n
  {
    seq(n, i requires 0 <= i < n => if at + i < |d| then d[at + i] else 0)
  }

  /** Overwrites from `at` on, extending if need be. */
  function Overlay(d: seq<byte>, at: nat, b: seq<byte>): (r: seq<byte>)
    requires at <= |d|
    ensures |r| == if at + |b| <= |d| then |d| else at + |b|
  {
    d[..at] + b + if at + |b| <= |d| then d[at + |b|..] else []
  }

  /** The unspecified bytes that a write behind the end leaves in the gap, for each
      position of the buffer. */
  type Gap = nat -> byte

  /** The buffer, extended to `at` if it is shorter. */
  function Extended(d: seq<byte>, at: nat, gap: Gap): (r: seq<byte>)
    ensures at <= |r| && |d| <= |r| && r[..|d|] == d && (at <= |d| ==> r == d)
  {
    if at <= |d| then d else d + seq(at - |d|, i requires 0 <= i < at - |d| => gap(|d| + i))
  }

  // ---------------------------------------------------------------------
  // One sector after the other

  function Sector(s: Store, write: bool, phys: nat, at: nat, gap: Gap): (Store, Outcome) {
    if write then
      if !InRegion(s, phys, SECTOR) || at + SECTOR >= STORAGE_MAX then (s, Refused)
      else (CopyOut(s, phys, at, SECTOR, gap), Done)
    else
      if at > |s.disk| then (s, PastEnd)
      else if !InRegion(s, phys, SECTOR) then (s, Refused)
      else (CopyIn(s, phys, at, SECTOR), Done)
  }

  /** From memory to storage. */
  function CopyOut(s: Store, phys: nat, at: nat, n: nat, gap: Gap): Store
    requires InRegion(s, phys, n)
  {
    s.(disk := Overlay(Extended(s.disk, at, gap), at, s.mem[phys - s.address..phys - s.address + n]))
  }

  /** From storage to memory, padded with zeros. */
  function CopyIn(s: Store, phys: nat, at: nat, n: nat): Store
    requires InRegion(s, phys, n)
  {
    s.(mem := Overlay(s.mem, phys - s.address, Padded(s.disk, at, n)))
  }

  /** Sectors `j` to `n` of an entry, up to the first that is not done. */
  function Sectors(s: Store, write: bool, e: Entry, j: nat, n: nat, gap: Gap): (Store, Outcome)
    requires j <= n
    decreases n - j
  {
    if j == n then (s, Done)
    else
      var (t, o) := Sector(s, write, e.physOffset + j * SECTOR, SectorBase(e) + j * SECTOR, gap);
      if o != Done then (t, o) else Sectors(t, write, e, j + 1, n, gap)
  }

  function Request(s: Store, write: bool, es: seq<Entry>, gap: Gap): (Store, Outcome)
    decreases |es|
  {
    if es == [] then (s, Done)
    else
      var (t, o) := Sectors(s, write, es[0], 0, es[0].sectors, gap);
      if o != Done then (t, o) else Request(t, write, es[1..], gap)
  }

  // ---------------------------------------------------------------------
  // Whole ranges

  /** What `n` sectors of an entry copy, as one range. */
  function Copied(s: Store, write: bool, e: Entry, n: nat, gap: Gap): Store
    requires CanCopy(s, write, e, n)
  {
    if n == 0 then s
    else if write then CopyOut(s, e.physOffset, SectorBase(e), n * SECTOR, gap)
    else CopyIn(s, e.physOffset, SectorBase(e), n * SECTOR)
  }

  /** Exactly what the first `n` sectors need: the range is inside the region; a write
      stays below the limit; the last sector of a read begins inside the buffer or at
      its end. */
  predicate CanCopy(s: Store, write: bool, e: Entry, n: nat) {
    n == 0 ||
    (&& InRegion(s, e.physOffset, n * SECTOR)
     && if write then SectorBase(e) + n * SECTOR < STORAGE_MAX
        else SectorBase(e) + (n - 1) * SECTOR <= |s.disk|)
  }

  /** Why sector `k` of an entry is not copied. */
  function Why(s: Store, write: bool, e: Entry, k: nat): Outcome {
    if !write && SectorBase(e) + k * SECTOR > |s.disk| then PastEnd else Refused
  }

  lemma OverlayTwice(d: seq<byte>, at: nat, a: seq<byte>, b: seq<byte>)
    requires at <= |d|
    ensures Overlay(Overlay(d, at, a), at + |a|, b) == Overlay(d, at, a + b)
  {
    var l, r := Overlay(Overlay(d, at, a), at + |a|, b), Overlay(d, at, a + b);
    assert |l| == |r|;
    forall i | 0 <= i < |l| ensures l[i] == r[i] {
    }
  }

  lemma PaddedConcat(d: seq<byte>, at: nat, m: nat, n: nat)
    ensures Padded(d, at, m) + Padded(d, at + m, n) == Padded(d, at, m + n)
  {
  }

  lemma WriteMore(s: Store, e: Entry, n: nat, gap: Gap)
    requires CanCopy(s, true, e, n + 1) && n > 0
    ensures CopyOut(Copied(s, true, e, n, gap), e.physOffset + n * SECTOR, SectorBase(e) + n * SECTOR, SECTOR, gap)
         == Copied(s, true, e, n + 1, gap)
  {
    hide Overlay, SectorBase, Extended;
    var p := e.physOffset - s.address;
    var a, b := s.mem[p..p + n * SECTOR], s.mem[p + n * SECTOR..p + n * SECTOR + SECTOR];
    assert a + b == s.mem[p..p + (n + 1) * SECTOR];
    OverlayTwice(Extended(s.disk, SectorBase(e), gap), SectorBase(e), a, b);
  }

  lemma ReadMore(s: Store, e: Entry, n: nat, gap: Gap)
    requires CanCopy(s, false, e, n + 1) && n > 0
    ensures CopyIn(Copied(s, false, e, n, gap), e.physOffset + n * SECTOR, SectorBase(e) + n * SECTOR, SECTOR)
         == Copied(s, false, e, n + 1, gap)
  {
    hide Overlay, Padded, SectorBase;
    PaddedConcat(s.disk, SectorBase(e), n * SECTOR, SECTOR);
    OverlayTwice(s.mem, e.physOffset - s.address, Padded(s.disk, SectorBase(e), n * SECTOR),
                 Padded(s.disk, SectorBase(e) + n * SECTOR, SECTOR));
  }

  /** One more sector continues the range, or says why not. */
  lemma OneMore(s: Store, write: bool, e: Entry, n: nat, gap: Gap)
    requires CanCopy(s, write, e, n)
    ensures Sector(Copied(s, write, e, n, gap), write, e.physOffset + n * SECTOR, SectorBase(e) + n * SECTOR, gap)
         == if CanCopy(s, write, e, n + 1) then (Copied(s, write, e, n + 1, gap), Done)
            else (Copied(s, write, e, n, gap), Why(s, write, e, n))
  {
    hide Overlay, Padded, SectorBase, Extended;
    if n > 0 && CanCopy(s, write, e, n + 1) {
      if write {
        WriteMore(s, e, n, gap);
      } else {
        ReadMore(s, e, n, gap);
      }
    }
  }

  /** An entry copies one range: all of it, or up to the first sector that cannot be
      copied, with the reason. */
  lemma {:induction false} EntryIsRange(s: Store, write: bool, e: Entry, j: nat, n: nat, gap: Gap) returns (k: nat)
    requires j <= n && CanCopy(s, write, e, j)
    ensures j <= k <= n && CanCopy(s, write, e, k) && (k < n ==> !CanCopy(s, write, e, k + 1))
    ensures Sectors(Copied(s, write, e, j, gap), write, e, j, n, gap)
         == (Copied(s, write, e, k, gap), if k == n then Done else Why(s, write, e, k))
    decreases n - j
  {
    hide Copied, Sector, CanCopy, SectorBase, Why;
    k := j;
    if j < n {
      OneMore(s, write, e, j, gap);
      WhyNot(s, write, e, j);
      if CanCopy(s, write, e, j + 1) {
        k := EntryIsRange(s, write, e, j + 1, n, gap);
      }
    }
  }

  lemma WhyNot(s: Store, write: bool, e: Entry, k: nat)
    ensures Why(s, write, e, k) != Done
  {
  }

  // ---------------------------------------------------------------------
  // Whole requests

  /** Every entry can be copied when its turn comes. */
  predicate AllCan(s: Store, write: bool, es: seq<Entry>, gap: Gap)
    decreases |es|
  {
    es == [] ||
    (CanCopy(s, write, es[0], es[0].sectors)
     && AllCan(Copied(s, write, es[0], es[0].sectors, gap), write, es[1..], gap))
  }

  function Folded(s: Store, write: bool, es: seq<Entry>, gap: Gap): Store
    requires AllCan(s, write, es, gap)
    decreases |es|
  {
    if es == [] then s else Folded(Copied(s, write, es[0], es[0].sectors, gap), write, es[1..], gap)
  }

  /** The request stopped in entry `i` after `k` of its sectors, for the reason `o`. */
  predicate StoppedAt(s: Store, write: bool, es: seq<Entry>, gap: Gap, i: nat, k: nat, t: Store, o: Outcome) {
    && i < |es| && AllCan(s, write, es[..i], gap) && k < es[i].sectors
    && var m := Folded(s, write, es[..i], gap);
       && CanCopy(m, write, es[i], k) && !CanCopy(m, write, es[i], k + 1)
       && t == Copied(m, write, es[i], k, gap) && o == Why(m, write, es[i], k)
  }

  lemma StoppedLater(s: Store, write: bool, es: seq<Entry>, gap: Gap, i: nat, k: nat, t: Store, o: Outcome)
    requires es != [] && CanCopy(s, write, es[0], es[0].sectors)
    requires StoppedAt(Copied(s, write, es[0], es[0].sectors, gap), write, es[1..], gap, i, k, t, o)
    ensures StoppedAt(s, write, es, gap, i + 1, k, t, o)
  {
    hide CanCopy, Copied, Why;
    assert es[..i + 1][1..] == es[1..][..i] && es[..i + 1][0] == es[0];
  }

  /** A request is done exactly when every entry can be copied, and then it is the fold
      of the range copies; otherwise it is the sectors before the first that cannot be
      copied, and nothing else, with the reason for that sector. */
  lemma {:induction false} RequestIsRanges(s: Store, write: bool, es: seq<Entry>, gap: Gap) returns (i: nat, k: nat)
    ensures Request(s, write, es, gap).1 == Done <==> AllCan(s, write, es, gap)
    ensures AllCan(s, write, es, gap) ==> Request(s, write, es, gap).0 == Folded(s, write, es, gap)
    ensures !AllCan(s, write, es, gap) ==>
              StoppedAt(s, write, es, gap, i, k, Request(s, write, es, gap).0, Request(s, write, es, gap).1)
    decreases |es|
  {
    hide Copied, CanCopy, Sectors, Why;
    i, k := 0, 0;
    if es != [] {
      var n := es[0].sectors;
      NothingCopied(s, write, es[0], gap);
      k := EntryIsRange(s, write, es[0], 0, n, gap);
      WhyNot(s, write, es[0], k);
      if k == n {
        i, k := RequestIsRanges(Copied(s, write, es[0], n, gap), write, es[1..], gap);
        if !AllCan(s, write, es, gap) {
          StoppedLater(s, write, es, gap, i, k, Request(s, write, es, gap).0, Request(s, write, es, gap).1);
          i := i + 1;
        }
      } else {
        CanPrefix(s, write, es[0], k + 1, n);
        assert es[..0] == [];
      }
    }
  }

  lemma NothingCopied(s: Store, write: bool, e: Entry, gap: Gap)
    ensures CanCopy(s, write, e, 0) && Copied(s, write, e, 0, gap) == s
  {
  }

  /** Fewer sectors need less. */
  lemma CanPrefix(s: Store, write: bool, e: Entry, k: nat, n: nat)
    requires k <= n
    ensures CanCopy(s, write, e, n) ==> CanCopy(s, write, e, k)
  {
  }

  // ---------------------------------------------------------------------
  // What a request leaves alone, and reading back what was written

  /** What a transfer leaves alone, and what it does not shrink. */
  predicate Beside(s: Store, write: bool, t: Store) {
    && t.address == s.address && |t.mem| == |s.mem| && |s.disk| <= |t.disk|
    && if write then t.mem == s.mem else t.disk == s.disk
  }

  lemma {:induction false} SectorsBeside(s: Store, write: bool, e: Entry, j: nat, n: nat, gap: Gap)
    requires j <= n
    ensures Beside(s, write, Sectors(s, write, e, j, n, gap).0)
    decreases n - j
  {
    if j < n {
      var (t, o) := Sector(s, write, e.physOffset + j * SECTOR, SectorBase(e) + j * SECTOR, gap);
      SectorsBeside(t, write, e, j + 1, n, gap);
    }
  }

  /** A write leaves the memory as it is and a read the storage, done or not. */
  lemma {:induction false} OneSide(s: Store, write: bool, es: seq<Entry>, gap: Gap)
    ensures Beside(s, write, Request(s, write, es, gap).0)
    decreases |es|
  {
    hide Sectors;
    if es != [] {
      SectorsBeside(s, write, es[0], 0, es[0].sectors, gap);
      OneSide(Sectors(s, write, es[0], 0, es[0].sectors, gap).0, write, es[1..], gap);
    }
  }

  /** The first sector of the entries can be written. */
  predicate CanStart(s: Store, es: seq<Entry>) {
    exists k | 0 <= k < |es| ::
      es[k].sectors > 0 && CanCopy(s, true, es[k], 1) && forall i | 0 <= i < k :: es[i].sectors == 0
  }

  /** A write leaves bytes in an empty buffer exactly when its first sector can be written. */
  lemma {:induction false} FirstWrite(s: Store, es: seq<Entry>, gap: Gap)
    requires s.disk == []
    ensures Request(s, true, es, gap).0.disk != [] <==> CanStart(s, es)
    decreases |es|
  {
    if es != [] {
      var e, rest := es[0], es[1..];
      if e.sectors == 0 {
        FirstWrite(s, rest, gap);
        StartLater(s, es);
      } else {
        FirstSector(s, e, gap);
        var t := Sectors(s, true, e, 0, e.sectors, gap).0;
        OneSide(t, true, rest, gap);
        assert CanStart(s, es) <==> CanCopy(s, true, e, 1);
      }
    }
  }

  lemma StartLater(s: Store, es: seq<Entry>)
    requires es != [] && es[0].sectors == 0
    ensures CanStart(s, es) <==> CanStart(s, es[1..])
  {
    hide CanCopy;
    if CanStart(s, es[1..]) {
      var k :| 0 <= k < |es| - 1 && es[1..][k].sectors > 0 && CanCopy(s, true, es[1..][k], 1)
               && forall i | 0 <= i < k :: es[1..][i].sectors == 0;
      forall i | 0 <= i < k + 1 ensures es[i].sectors == 0 {
        if i > 0 { assert es[1..][i - 1] == es[i]; }
      }
      assert es[k + 1] == es[1..][k];
    }
    if CanStart(s, es) {
      var k :| 0 <= k < |es| && es[k].sectors > 0 && CanCopy(s, true, es[k], 1) && forall i | 0 <= i < k :: es[i].sectors == 0;
      assert es[1..][k - 1] == es[k];
    }
  }

  lemma FirstSector(s: Store, e: Entry, gap: Gap)
    requires s.disk == [] && e.sectors > 0
    ensures Sectors(s, true, e, 0, e.sectors, gap).0.disk != [] <==> CanCopy(s, true, e, 1)
    ensures !CanCopy(s, true, e, 1) ==> Sectors(s, true, e, 0, e.sectors, gap) == (s, Refused)
  {
    var (t, o) := Sector(s, true, e.physOffset, SectorBase(e), gap);
    if o == Done {
      SectorsBeside(t, true, e, 1, e.sectors, gap);
    }
  }

  /** A write is never stopped by the end of the buffer. */
  lemma WritesNotPastEnd(s: Store, es: seq<Entry>, gap: Gap)
    ensures Request(s, true, es, gap).1 != PastEnd
  {
    hide Request, AllCan, Folded, CanCopy, Copied;
    var i, k := RequestIsRanges(s, true, es, gap);
  }

  /** Sectors written and read back, to anywhere in the region, are the same. */
  lemma WriteReadBack(s: Store, e: Entry, phys: nat, gap: Gap)
    requires e.sectors > 0 && CanCopy(s, true, e, e.sectors) && InRegion(s, phys, e.sectors * SECTOR)
    ensures var t, back, n, p := Copied(s, true, e, e.sectors, gap), e.(physOffset := phys), e.sectors * SECTOR,
                                 e.physOffset - s.address;
            && CanCopy(t, false, back, e.sectors)
            && Copied(t, false, back, e.sectors, gap).mem == Overlay(s.mem, phys - s.address, s.mem[p..p + n])
  {
    var t, n, p := Copied(s, true, e, e.sectors, gap), e.sectors * SECTOR, e.physOffset - s.address;
    assert Padded(t.disk, SectorBase(e), n) == s.mem[p..p + n];
  }

  /** The position of a sector is exact below 2^23 and wraps above. */
  lemma SectorBaseExact(e: Entry)
    ensures SectorBase(e) == e.sectorAddr * SECTOR <==> e.sectorAddr < 0x80_0000
  {
  }
}

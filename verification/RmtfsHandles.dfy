/**
 The handle table of the remote file system: ten slots, one per open partition of
 a node, with its shadow buffer.  Requests name a slot and are answered only for
 the node it was given to.
 */
module RmtfsHandles {
  import opened Basics
  import opened Hash
  import opened RmtfsDaemon
  import R = Rmtfs

  const MAX_CALLERS := 10

  /** `image` is the shadow buffer.  A stray slot has one although it is closed. */
  datatype Handle =
    | Closed(node: nat)
    | Open(node: nat, path: string, image: seq<byte>)
    | Stray(node: nat, image: seq<byte>)

  predicate Known(path: string) {
    path in {"/boot/modem_fs1", "/boot/modem_fs2", "/boot/modem_fsc", "/boot/modem_fsg"}
  }

  predicate Has(h: Handle, node: nat, path: string) {
    h.Open? && h.node == node && h.path == path
  }

  /** The first slot from `i` on that the node has the path open in, or the size. */
  function FindOpen(t: seq<Handle>, node: nat, path: string, i: nat): (r: nat)
    requires i <= |t|
    ensures i <= r <= |t| && (r < |t| ==> Has(t[r], node, path))
    ensures forall j | i <= j < r :: !Has(t[j], node, path)
    decreases |t| - i
  {
    if i == |t| || Has(t[i], node, path) then i else FindOpen(t, node, path, i + 1)
  }

  function FindClosed(t: seq<Handle>, i: nat): (r: nat)
    requires i <= |t|
    ensures i <= r <= |t| && (r < |t| ==> t[r].Closed?)
    ensures forall j | i <= j < r :: !t[j].Closed?
    decreases |t| - i
  {
    if i == |t| || t[i].Closed? then i else FindClosed(t, i + 1)
  }

  datatype File = NoFile | File(image: seq<byte>)

  /** Opening: the slot and the new table; no slot is the size of the table. */
  function Opening(t: seq<Handle>, node: nat, path: string, file: File): (r: (nat, seq<Handle>))
    ensures |r.1| == |t|
  {
    if !Known(path) then (|t|, t)
    else
      var i := FindOpen(t, node, path, 0);
      if i < |t| then (i, t)
      else
        var j := FindClosed(t, 0);
        if j == |t| || file.NoFile? then (|t|, t)
        else (j, t[j := Open(node, path, file.image)])
  }

  /** What a request for a handle finds.  The id is turned into a signed number, so
      ids from 2^31 on lie before the table, which the program does not guard against. */
  datatype Found = NoHandle | Slot(i: nat) | BeforeTable

  function Get(t: seq<Handle>, node: nat, caller: u32): (f: Found)
    ensures f.Slot? ==> f.i == caller < |t| && t[f.i].node == node
  {
    if caller >= U32 / 2 then BeforeTable
    else if caller >= |t| || t[caller].node != node then NoHandle
    else Slot(caller)
  }

  /** The table after a close request, if it stays inside the table. */
  function Closing(t: seq<Handle>, node: nat, caller: u32): Option<seq<Handle>> {
    match Get(t, node, caller)
    case NoHandle => Some(t)
    case Slot(i) => Some(t[i := Closed(node)])
    case BeforeTable => None
  }

  function Image(h: Handle): seq<byte> {
    if h.Closed? then [] else h.image
  }

  /** A slot with a new shadow buffer.  A closed one has none until bytes are written. */
  function Stored(h: Handle, image: seq<byte>): Handle {
    if !h.Closed? then h.(image := image) else if image == [] then h else Stray(h.node, image)
  }

  /** A transfer between the shared memory, as it is at the time, and the shadow buffer
      of a handle, open or not. */
  datatype Transfer = Transfer(write: bool, entries: seq<R.Entry>, address: nat, mem: seq<byte>, gap: R.Gap)

  function Buffer(image: seq<byte>, x: Transfer): seq<byte> {
    R.Request(R.Store(x.address, x.mem, image), x.write, x.entries, x.gap).0.disk
  }

  function Moving(t: seq<Handle>, node: nat, caller: u32, x: Transfer): Option<seq<Handle>> {
    match Get(t, node, caller)
    case NoHandle => Some(t)
    case Slot(i) => Some(t[i := Stored(t[i], Buffer(Image(t[i]), x))])
    case BeforeTable => None
  }

  // ---------------------------------------------------------------------
  // Every run

  datatype Event =
    | OpenReq(node: nat, path: string, file: File)
    | CloseReq(node: nat, caller: u32)
    | MoveReq(node: nat, caller: u32, x: Transfer)

  function Apply(t: seq<Handle>, e: Event): (r: Option<seq<Handle>>)
    ensures r.Some? ==> |r.value| == |t|
  {
    match e
    case OpenReq(node, path, file) => Some(Opening(t, node, path, file).1)
    case CloseReq(node, caller) => Closing(t, node, caller)
    case MoveReq(node, caller, x) => Moving(t, node, caller, x)
  }

  /** The table after a run, unless a request left it. */
  function RunFrom(t: seq<Handle>, es: seq<Event>): (r: Option<seq<Handle>>)
    ensures r.Some? ==> |r.value| == |t|
  {
    if es == [] then Some(t)
    else
      match RunFrom(t, es[..|es| - 1])
      case Some(u) => Apply(u, es[|es| - 1])
      case None => None
  }

  function StartTable(): seq<Handle> {
    seq(MAX_CALLERS, _ => Closed(0))
  }

  /** A run stays inside the table exactly when every handle that it closes or uses
      has an id below 2^31. */
  lemma {:induction false} RunInside(t: seq<Handle>, es: seq<Event>)
    ensures RunFrom(t, es).Some? <==> forall e | e in es && !e.OpenReq? :: e.caller < U32 / 2
    decreases |es|
  {
    hide Buffer, Opening;
    if es != [] {
      RunInside(t, es[..|es| - 1]);
      assert es == es[..|es| - 1] + [es[|es| - 1]];
    }
  }

  /** Ten slots, only known partitions, and no partition twice for a node. */
  predicate Inv(t: seq<Handle>) {
    && |t| == MAX_CALLERS
    && (forall i | 0 <= i < |t| && t[i].Open? :: Known(t[i].path))
    && (forall i, j | 0 <= i < j < |t| && t[i].Open? && t[j].Open? :: t[i].node != t[j].node || t[i].path != t[j].path)
  }

  lemma {:induction false} RunInv(es: seq<Event>)
    requires RunFrom(StartTable(), es).Some?
    ensures Inv(RunFrom(StartTable(), es).value)
    decreases |es|
  {
    hide Inv, Apply;
    if es != [] {
      RunInv(es[..|es| - 1]);
      StepInv(RunFrom(StartTable(), es[..|es| - 1]).value, es[|es| - 1]);
    } else {
      StartInv();
    }
  }

  lemma StartInv()
    ensures Inv(StartTable())
  {
  }

  lemma StepInv(t: seq<Handle>, e: Event)
    requires Inv(t) && Apply(t, e).Some?
    ensures Inv(Apply(t, e).value)
  {
    hide Known, Buffer;
    if e.OpenReq? && Opening(t, e.node, e.path, e.file).1 != t {
      assert forall j | 0 <= j < |t| :: !Has(t[j], e.node, e.path);
    }
  }

  /** Requests of a node leave the buffers of every other node as they are. */
  lemma {:induction false} OthersKept(t: seq<Handle>, es: seq<Event>, i: nat)
    requires i < |t| && !t[i].Closed? && (forall e | e in es :: e.node != t[i].node) && RunFrom(t, es).Some?
    ensures RunFrom(t, es).value[i] == t[i]
    decreases |es|
  {
    hide Known, Buffer;
    if es != [] {
      OthersKept(t, es[..|es| - 1], i);
      assert es[|es| - 1] in es;
    }
  }

  /** What the transfers of a node through a handle make of its buffer. */
  function Written(image: seq<byte>, es: seq<Event>, node: nat, c: nat): seq<byte> {
    if es == [] then image
    else
      var e, before := es[|es| - 1], Written(image, es[..|es| - 1], node, c);
      if e.MoveReq? && e.node == node && e.caller == c then Buffer(before, e.x) else before
  }

  /** As long as its node does not close it, an open handle keeps its partition, and its
      buffer is what the node's own transfers through it have made of it, whatever
      else is opened, closed and transferred. */
  lemma {:induction false} HoldsWritten(t: seq<Handle>, es: seq<Event>, c: nat)
    requires c < |t| && t[c].Open? && RunFrom(t, es).Some?
    requires forall e | e in es && e.CloseReq? && e.node == t[c].node :: e.caller != c
    ensures RunFrom(t, es).value[c] == t[c].(image := Written(t[c].image, es, t[c].node, c))
    decreases |es|
  {
    hide Known, Buffer;
    if es != [] {
      HoldsWritten(t, es[..|es| - 1], c);
      assert es[|es| - 1] in es;
    }
  }

  // ---------------------------------------------------------------------
  // Who is answered

  /** The node whose open request was given slot `c` last, if there was one. */
  function LastGiven(t: seq<Handle>, es: seq<Event>, c: nat): Option<nat>
    requires RunFrom(t, es).Some?
  {
    if es == [] then None
    else
      var e, u := es[|es| - 1], RunFrom(t, es[..|es| - 1]).value;
      if e.OpenReq? && c < |u| && Opening(u, e.node, e.path, e.file).0 == c then Some(e.node)
      else LastGiven(t, es[..|es| - 1], c)
  }

  /** After every run a slot answers exactly the node that was given it last, open or
      closed; a slot that was given to none answers whom it answered before. */
  lemma {:induction false} Answers(t: seq<Handle>, es: seq<Event>, node: nat, c: u32)
    requires |t| == MAX_CALLERS && RunFrom(t, es).Some?
    ensures Get(RunFrom(t, es).value, node, c) == Slot(c) <==>
            match LastGiven(t, es, c) case Some(m) => m == node case None => Get(t, node, c) == Slot(c)
    decreases |es|
  {
    hide Known, Buffer;
    if es != [] {
      Answers(t, es[..|es| - 1], node, c);
    }
  }

  /** Opening works exactly for a known partition that is open already, or that
      has a file and a free slot; the slot then belongs to node and path. */
  lemma OpenWorks(t: seq<Handle>, node: nat, path: string, file: File)
    requires Inv(t)
    ensures var (i, u) := Opening(t, node, path, file);
            && (i < |t| <==> Known(path) && ((exists j | 0 <= j < |t| :: Has(t[j], node, path))
                                             || (file.File? && exists j | 0 <= j < |t| :: t[j].Closed?)))
            && (i < |t| ==> Has(u[i], node, path) && Get(u, node, i) == Slot(i))
            && (forall j | 0 <= j < |t| && !t[j].Closed? :: u[j] == t[j])
  {
    hide Known;
  }

  /** Opening again gives the same slot and changes nothing, whatever the file. */
  lemma OpenAgain(t: seq<Handle>, node: nat, path: string, file: File, again: File)
    requires Inv(t) && Opening(t, node, path, file).0 < |t|
    ensures var (i, u) := Opening(t, node, path, file); Opening(u, node, path, again) == (i, u)
  {
    hide Known;
    var (i, u) := Opening(t, node, path, file);
    assert Has(u[i], node, path);
    StepInv(t, OpenReq(node, path, file));
    var k := FindOpen(u, node, path, 0);
    assert k == i;
  }

  // ---------------------------------------------------------------------
  // Slots that are lost

  /** A closed slot turns stray exactly when its node writes through it and the first
      sector can be written; transfers make no other slot stray. */
  lemma StrayExactly(t: seq<Handle>, node: nat, caller: u32, x: Transfer, i: nat)
    requires i < |t| && Moving(t, node, caller, x).Some?
    ensures Moving(t, node, caller, x).value[i].Stray? <==>
            t[i].Stray? || (t[i].Closed? && t[i].node == node && caller == i
                            && x.write && R.CanStart(R.Store(x.address, x.mem, []), x.entries))
  {
    hide R.Request, R.CanStart;
    var s := R.Store(x.address, x.mem, []);
    if x.write {
      R.FirstWrite(s, x.entries, x.gap);
    } else {
      R.OneSide(s, false, x.entries, x.gap);
    }
  }

  /** A stray slot stays lost exactly as long as its node does not close it again. */
  lemma {:induction false} StrayExactlyUntil(t: seq<Handle>, es: seq<Event>, c: nat)
    requires c < |t| && t[c].Stray? && RunFrom(t, es).Some?
    ensures (forall k | 0 <= k <= |es| :: StrayAfter(t, es[..k], c))
       <==> (forall e | e in es && e.CloseReq? && e.node == t[c].node :: e.caller != c)
    decreases |es|
  {
    hide Known, Buffer, StrayAfter;
    if es == [] {
      StrayNow(t, c);
      assert es[..0] == [];
    } else {
      var fs, e := es[..|es| - 1], es[|es| - 1];
      StrayExactlyUntil(t, fs, c);
      assert es == fs + [e] && es[..|es|] == es && fs[..|fs|] == fs;
      forall k | 0 <= k <= |fs| ensures es[..k] == fs[..k] {
      }
      assert (forall k | 0 <= k <= |es| :: StrayAfter(t, es[..k], c))
        <==> (forall k | 0 <= k <= |fs| :: StrayAfter(t, fs[..k], c)) && StrayAfter(t, es, c);
      if StrayAfter(t, fs, c) {
        StrayStep(t, fs, e, c);
      }
    }
  }

  /** The slot is stray after the run and has the node it had. */
  predicate StrayAfter(t: seq<Handle>, es: seq<Event>, c: nat) {
    c < |t| && match RunFrom(t, es) case Some(u) => u[c].Stray? && u[c].node == t[c].node case None => false
  }

  lemma StrayNow(t: seq<Handle>, c: nat)
    requires c < |t| && t[c].Stray?
    ensures StrayAfter(t, [], c)
  {
  }

  lemma StrayStep(t: seq<Handle>, fs: seq<Event>, e: Event, c: nat)
    requires StrayAfter(t, fs, c) && RunFrom(t, fs + [e]).Some?
    ensures StrayAfter(t, fs + [e], c) <==> !(e.CloseReq? && e.node == t[c].node && e.caller == c)
  {
    hide Known, Buffer;
    assert (fs + [e])[..|fs|] == fs;
  }

  /** Open, close and write, `k` times. */
  function Rounds(k: nat, node: nat, file: File, x: Transfer): seq<Event>
    requires k <= MAX_CALLERS
  {
    if k == 0 then []
    else Rounds(k - 1, node, file, x)
         + [OpenReq(node, "/boot/modem_fs1", file)] + [CloseReq(node, k - 1)] + [MoveReq(node, k - 1, x)]
  }

  lemma OneMore(t: seq<Handle>, es: seq<Event>, e: Event)
    ensures RunFrom(t, es + [e]) == match RunFrom(t, es) case Some(u) => Apply(u, e) case None => None
  {
    hide Apply;
    assert (es + [e])[..|es|] == es;
  }

  /** The first `k` slots are stray, the others as at the start. */
  predicate StrayUpTo(t: seq<Handle>, k: nat) {
    && |t| == MAX_CALLERS
    && forall j | 0 <= j < |t| :: if j < k then t[j].Stray? else t[j] == Closed(0)
  }

  /** One round: the slot is given, closed, and written through. */
  lemma OneRound(t: seq<Handle>, c: nat, node: nat, file: File, x: Transfer)
    requires c < MAX_CALLERS && StrayUpTo(t, c)
    requires file.File? && x.write && R.CanStart(R.Store(x.address, x.mem, []), x.entries)
    ensures var t1, t2 := Opening(t, node, "/boot/modem_fs1", file).1, t[c := Closed(node)];
            && Closing(t1, node, c) == Some(t2)
            && Moving(t2, node, c, x).Some? && StrayUpTo(Moving(t2, node, c, x).value, c + 1)
  {
    hide Buffer, R.CanStart;
    var t1, t2 := t[c := Open(node, "/boot/modem_fs1", file.image)], t[c := Closed(node)];
    assert t[c] == Closed(0) && FindClosed(t, 0) == c && FindOpen(t, node, "/boot/modem_fs1", 0) == |t|;
    assert t1[c := Closed(node)] == t2;
    StrayExactly(t2, node, c, x, c);
  }

  lemma {:induction false} RoundsStray(k: nat, node: nat, file: File, x: Transfer)
    requires k <= MAX_CALLERS && file.File? && x.write && R.CanStart(R.Store(x.address, x.mem, []), x.entries)
    ensures var r := RunFrom(StartTable(), Rounds(k, node, file, x)); r.Some? && StrayUpTo(r.value, k)
    decreases k
  {
    hide Buffer, R.CanStart, RunFrom, Opening, Closing, Moving, StrayUpTo;
    if k == 0 {
      NoneStray();
    } else {
      RoundsStray(k - 1, node, file, x);
      var es, c := Rounds(k - 1, node, file, x), k - 1;
      var e1, e2 := OpenReq(node, "/boot/modem_fs1", file), CloseReq(node, c);
      OneRound(RunFrom(StartTable(), es).value, c, node, file, x);
      OneMore(StartTable(), es, e1);
      OneMore(StartTable(), es + [e1], e2);
      OneMore(StartTable(), es + [e1] + [e2], MoveReq(node, c, x));
    }
  }

  lemma NoneStray()
    ensures RunFrom(StartTable(), []) == Some(StartTable()) && StrayUpTo(StartTable(), 0)
  {
  }

  /** After ten rounds every slot is lost: no partition is open, and no node can open
      one. */
  lemma HandlesRunOut(node: nat, file: File, x: Transfer, other: nat, path: string, wanted: File)
    requires file.File? && x.write && R.CanStart(R.Store(x.address, x.mem, []), x.entries)
    ensures var r := RunFrom(StartTable(), Rounds(MAX_CALLERS, node, file, x));
            && r.Some? && (forall j | 0 <= j < MAX_CALLERS :: !r.value[j].Open?)
            && Opening(r.value, other, path, wanted).0 == MAX_CALLERS
  {
    hide Rounds, R.CanStart, RunFrom;
    RoundsStray(MAX_CALLERS, node, file, x);
  }

  // ---------------------------------------------------------------------
  // The table in place

  class Table {
    const slots: array<Handle>

    constructor ()
      ensures fresh(slots) && slots[..] == StartTable()
    {
      slots := new Handle[MAX_CALLERS](_ => Closed(0));
      new;
      assert slots[..] == StartTable();
    }

    method StorageOpen(node: nat, path: string, file: File) returns (id: nat)
      modifies slots
      ensures (id, slots[..]) == Opening(old(slots[..]), node, path, file)
    {
      id := slots.Length;
      if !Known(path) {
        return;
      }
      var i := 0;
      while i < slots.Length && !Has(slots[i], node, path)
        invariant 0 <= i <= slots.Length
        invariant FindOpen(slots[..], node, path, i) == FindOpen(slots[..], node, path, 0)
      {
        i := i + 1;
      }
      if i < slots.Length {
        return i;
      }
      i := 0;
      while i < slots.Length && !slots[i].Closed?
        invariant 0 <= i <= slots.Length && FindClosed(slots[..], i) == FindClosed(slots[..], 0)
      {
        i := i + 1;
      }
      if i == slots.Length || file.NoFile? {
        return;
      }
      slots[i] := Open(node, path, file.image);
      id := i;
      assert slots[..] == old(slots[..])[i := Open(node, path, file.image)];
    }

    method StorageGet(node: nat, caller: u32) returns (f: Found)
      requires slots.Length == MAX_CALLERS
      ensures f == Get(slots[..], node, caller)
    {
      var id: int := if caller >= U32 / 2 then caller - U32 else caller;
      if id >= MAX_CALLERS {
        return NoHandle;
      }
      if id < 0 {
        return BeforeTable;
      }
      f := if slots[id].node != node then NoHandle else Slot(id);
    }

    method CloseRequest(node: nat, caller: u32) returns (f: Found)
      requires slots.Length == MAX_CALLERS
      modifies slots
      ensures f == Get(old(slots[..]), node, caller)
      ensures f != BeforeTable ==> Closing(old(slots[..]), node, caller) == Some(slots[..])
    {
      f := StorageGet(node, caller);
      if f.Slot? {
        slots[f.i] := Closed(slots[f.i].node);
        assert slots[..] == old(slots[..])[f.i := Closed(node)];
      }
    }

    /** A transfer over the memory that `d` maps; `d` works on the buffer of the handle. */
    method MoveRequest(node: nat, caller: u32, write: bool, entries: seq<R.Entry>, d: Daemon, gap: R.Gap)
      returns (f: Found, o: R.Outcome)
      requires slots.Length == MAX_CALLERS
      modifies slots, d, d.mem
      ensures f == Get(old(slots[..]), node, caller)
      ensures f != BeforeTable ==>
                Moving(old(slots[..]), node, caller, Transfer(write, entries, d.address, old(d.mem[..]), gap)) == Some(slots[..])
      ensures f.Slot? ==> var s := R.Store(d.address, old(d.mem[..]), Image(old(slots[..])[f.i]));
                          (d.State(), o) == R.Request(s, write, entries, gap)
    {
      hide R.Request;
      o := R.Refused;
      f := StorageGet(node, caller);
      if f.Slot? {
        d.disk := Image(slots[f.i]);
        o := d.Iovec(write, entries, gap);
        slots[f.i] := Stored(slots[f.i], d.disk);
        assert slots[..] == old(slots[..])[f.i := Stored(old(slots[..])[f.i], d.disk)];
      }
    }
  }
}

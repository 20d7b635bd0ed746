/**
 Runs of the registry that go wrong, one for each condition of the run theorems: a
 port put behind a tombstone, before a removal and before a bye, and a registration
 that hides a server.
 */
module RegistryExamples {
  import opened Basics
  import opened Hash
  import opened NameService
  import opened NameServiceObservers
  import opened Registry
  import opened RegistryEvery
  import opened RegistryRefines
  import opened RegistryRuns
  import P = ProbeTable

  // ---------------------------------------------------------------------
  // A key that is put behind a tombstone

  /** Two keys are put and the first is removed. */
  function Gap<V>(k1: nat, v1: V, k2: nat, v2: V): seq<P.Slot<V>> {
    P.Removed(P.Put(P.Put([], k1, v1), k2, v2), k1)
  }

  function Blank<V>(): seq<P.Slot<V>> {
    seq(256, _ => P.Empty)
  }

  lemma BlankCount<V>()
    ensures P.LiveCount(Blank<V>()) == 0 && P.Grown<V>([]) == Blank() && P.LiveCount<V>([]) == 0
  {
    P.NoneLive(Blank<V>());
  }

  /** If they have the same home, a tombstone is there and the second is behind it. */
  lemma GapIs<V(!new)>(k1: nat, v1: V, k2: nat, v2: V)
    requires k1 != k2 && k1 % 256 == k2 % 256
    ensures var h := k1 % 256;
            var h1 := P.Step(h, 1, 256);
            var t := Gap(k1, v1, k2, v2);
            && P.Looked(P.Put(P.Put([], k1, v1), k2, v2), k1) == Some(v1)
            && t == Blank()[h := P.Deleted][h1 := P.Live(k2, v2)] && P.LiveCount(t) == 1
            && !P.Clean(t, k2) && P.Looked(t, k2) == Some(v2)
  {
    hide P.LiveCount;
    var e, h := Blank<V>(), k1 % 256;
    var h1 := P.Step(h, 1, 256);
    BlankCount<V>();
    var t1 := e[h := P.Live(k1, v1)];
    assert P.Put([], k1, v1) == t1;
    P.LiveCountUpdate(e, h, P.Live(k1, v1));
    assert P.StopFrom(t1, k2, 0) == 1;
    var t2 := t1[h1 := P.Live(k2, v2)];
    assert P.Put(t1, k2, v2) == t2;
    P.LiveCountUpdate(t1, h1, P.Live(k2, v2));
    assert P.FindSlot(t2, k1) == h;
    var t := t2[h := P.Deleted];
    P.LiveCountUpdate(t2, h, P.Deleted);
    assert P.Dist(h, h1, 256) == 1 && t[P.Step(h, 0, 256)].Deleted?;
    assert P.FindFrom(t, k2, 1) == h1;
  }

  /** Put again, the second key is there twice. */
  lemma Twice<V(!new)>(k1: nat, v1: V, k2: nat, v2: V)
    requires k1 != k2 && k1 % 256 == k2 % 256
    ensures var h := k1 % 256;
            P.Put(Gap(k1, v1, k2, v2), k2, v2) == Blank()[h := P.Live(k2, v2)][P.Step(h, 1, 256) := P.Live(k2, v2)]
  {
    hide P.LiveCount;
    GapIs(k1, v1, k2, v2);
  }

  lemma StillFound<V(!new)>(k1: nat, v1: V, k2: nat, v2: V)
    requires k1 != k2 && k1 % 256 == k2 % 256
    ensures P.Looked(P.Removed(P.Put(Gap(k1, v1, k2, v2), k2, v2), k2), k2) == Some(v2)
  {
    var h := k1 % 256;
    var h1 := P.Step(h, 1, 256);
    Twice(k1, v1, k2, v2);
    var t := Blank()[h := P.Live(k2, v2)][h1 := P.Live(k2, v2)];
    assert P.FindSlot(t, k2) == h;
    assert P.FindFrom(t[h := P.Deleted], k2, 1) == h1;
  }

  /** If the home is the last slot, the second entry is in the first, which the visit
      has passed when it takes the other. */
  lemma StillFoundAtFront<V(!new)>(k1: nat, v1: V, k2: nat, v2: V)
    requires k1 != k2 && k1 % 256 == k2 % 256 == 255
    ensures P.Looked(P.RemovedEach(P.Put(Gap(k1, v1, k2, v2), k2, v2), 0), k2) == Some(v2)
  {
    Twice(k1, v1, k2, v2);
    var t := Blank()[255 := P.Live(k2, v2)][0 := P.Live(k2, v2)];
    assert P.FindSlot(t, k2) == 255;
    var u := t[255 := P.Deleted];
    P.SkipDead(u, 1, 256);
    assert P.FindFrom(u, k2, 1) == 0;
  }

  // ---------------------------------------------------------------------
  // Packets from a node about its own servers

  /** What the records of a run say: both are servers of node `n`, on two ports that
      have the same home in a table of 256 slots. */
  predicate SameHome(x: Server, y: Server, n: u32) {
    && x.addr.node == n && y.addr.node == n && x.service != 0 && y.service != 0
    && x.addr.port != 0 && y.addr.port != 0 && x.addr.port != y.addr.port
    && HashU32(x.addr.port) % 256 == HashU32(y.addr.port) % 256
  }

  /** Each packet of a node about its server does one thing to the node's table. */
  lemma OwnPacket(r: Reg, from: Addr, srv: Server)
    requires Filed(r) && from.node == srv.addr.node && srv.service != 0 && srv.addr.port != 0
    requires from.node == r.local ==> from == srv.addr
    ensures var t, k := Services(r.nodes, from.node), HashU32(srv.addr.port);
            var new', del := Handle(r, from, NewServer(srv)).0, Handle(r, from, DelServer(srv)).0;
            && Filed(new') && new'.local == r.local && Services(new'.nodes, from.node) == P.Put(t, k, srv)
            && Filed(del) && del.local == r.local && Services(del.nodes, from.node) == P.Removed(t, k)
  {
    hide Handle, Services, HashU32, P.Put, P.Removed, Sound, TabFits, LookupsOk;
    HandleTable(r, from, NewServer(srv));
    HandleFiled(r, from, NewServer(srv));
    HandleTable(r, from, DelServer(srv));
    HandleFiled(r, from, DelServer(srv));
  }

  /** The registry after `x` and `y` registered, `x` left, and `y` registered again. */
  function Prepared(r: Reg, fx: Addr, x: Server, fy: Addr, y: Server): Reg {
    var r1 := Handle(r, fx, NewServer(x)).0;
    var r2 := Handle(r1, fy, NewServer(y)).0;
    var r3 := Handle(r2, fx, DelServer(x)).0;
    Handle(r3, fy, NewServer(y)).0
  }

  lemma PreparedIs(r: Reg, fx: Addr, x: Server, fy: Addr, y: Server, n: u32)
    requires Filed(r) && Services(r.nodes, n) == [] && SameHome(x, y, n) && fx.node == fy.node == n
    requires n == r.local ==> fx == x.addr && fy == y.addr
    ensures var kx, ky := HashU32(x.addr.port), HashU32(y.addr.port);
            var r3 := Handle(Handle(Handle(r, fx, NewServer(x)).0, fy, NewServer(y)).0, fx, DelServer(x)).0;
            var r4 := Prepared(r, fx, x, fy, y);
            && Filed(r3) && r3.local == r.local && Services(r3.nodes, n) == Gap(kx, x, ky, y)
            && Filed(r4) && r4.local == r.local && Services(r4.nodes, n) == P.Put(Gap(kx, x, ky, y), ky, y)
            && kx != ky
  {
    hide Handle, Services, HashU32, P.Put, P.Removed, Filed;
    var r1 := Handle(r, fx, NewServer(x)).0;
    OwnPacket(r, fx, x);
    var r2 := Handle(r1, fy, NewServer(y)).0;
    OwnPacket(r1, fy, y);
    OwnPacket(r2, fx, x);
    OwnPacket(Handle(r2, fx, DelServer(x)).0, fy, y);
    HashInjective(x.addr.port, y.addr.port);
  }

  /** One packet of a run. */
  lemma RunStep(r: Reg, ps: seq<Packet>, i: nat)
    requires i < |ps|
    ensures var (r1, out) := Handle(r, ps[i].from, ps[i].msg);
            && After(r, ps[i..]) == After(r1, ps[i + 1..]) && Sent(r, ps[i..]) == out + Sent(r1, ps[i + 1..])
            && (CleanRun(r, ps[i..]) <==> CleanPacket(r, ps[i].from, ps[i].msg) && CleanRun(r1, ps[i + 1..]))
  {
    hide Handle, CleanPacket;
    assert ps[i..][1..] == ps[i + 1..];
  }

  /** The packets of the local clients, and one more. */
  function Packets(x: Server, y: Server, last: Packet): seq<Packet> {
    [Packet(x.addr, NewServer(x)), Packet(y.addr, NewServer(y)), Packet(x.addr, DelServer(x)),
     Packet(y.addr, NewServer(y)), last]
  }

  lemma PacketsRun(local: u32, x: Server, y: Server, last: Packet)
    requires SameHome(x, y, local)
    ensures var r := Prepared(StartReg(local), x.addr, x, y.addr, y);
            && Filed(r) && r.local == local
            && Services(r.nodes, local) == P.Put(Gap(HashU32(x.addr.port), x, HashU32(y.addr.port), y), HashU32(y.addr.port), y)
            && After(StartReg(local), Packets(x, y, last)) == Handle(r, last.from, last.msg).0
            && !CleanRun(StartReg(local), Packets(x, y, last))
  {
    hide Handle, Services, HashU32, Filed, Gap, P.Put, P.Clean;
    var r0, ps := StartReg(local), Packets(x, y, last);
    StartFiled(local);
    NoServers(local, local);
    PreparedIs(r0, x.addr, x, y.addr, y, local);
    var r1 := Handle(r0, x.addr, NewServer(x)).0;
    var r2 := Handle(r1, y.addr, NewServer(y)).0;
    var r3 := Handle(r2, x.addr, DelServer(x)).0;
    var r4 := Handle(r3, y.addr, NewServer(y)).0;
    RunStep(r0, ps, 0);
    RunStep(r1, ps, 1);
    RunStep(r2, ps, 2);
    RunStep(r3, ps, 3);
    RunStep(r4, ps, 4);
    assert ps[0..] == ps && ps[5..] == [];
    GapIs(HashU32(x.addr.port), x, HashU32(y.addr.port), y);
    assert !CleanPacket(r3, y.addr, NewServer(y));
  }

  lemma NoServers(local: u32, n: u32)
    ensures Services(StartReg(local).nodes, n) == []
  {
  }

  /** Ports 1 and 257 have the same home.  The client on port 257 registers, registers
      again behind the tombstone of port 1, and closes: its server is still found. */
  lemma LeftBehind(local: u32, service: bv32, instance: bv32)
    requires service != 0
    ensures var a, b := Addr(local, 1), Addr(local, 257);
            var x, y := Server(service, instance, a), Server(service, instance, b);
            var ps := Packets(x, y, Packet(b, DelClient(local, 257)));
            At(After(StartReg(local), ps).nodes, b) == Some(y) && !CleanRun(StartReg(local), ps)
  {
    hide Handle, HashU32, Filed, Services, Gap, P.Put, P.Removed, P.Looked;
    var a, b := Addr(local, 1), Addr(local, 257);
    var x, y := Server(service, instance, a), Server(service, instance, b);
    OneHome();
    PacketsRun(local, x, y, Packet(b, DelClient(local, 257)));
    HandleAt(Prepared(StartReg(local), a, x, b, y), b, DelClient(local, 257), b);
    StillFound(HashU32(1), x, HashU32(257), y);
  }

  lemma OneHome()
    ensures HashU32(1) != HashU32(257) && HashU32(1) % 256 == HashU32(257) % 256
  {
  }

  /** Ports 175 and 431 have the last slot as home.  After the same packets the node
      says bye: the server on port 431 is still found. */
  lemma LeftByBye(local: u32, service: bv32, instance: bv32, from: Addr)
    requires service != 0 && from.node == local
    ensures var a, b := Addr(local, 175), Addr(local, 431);
            var x, y := Server(service, instance, a), Server(service, instance, b);
            var ps := Packets(x, y, Packet(from, Bye(local)));
            At(After(StartReg(local), ps).nodes, b) == Some(y)
  {
    hide Handle, HashU32, Filed, Services, Gap, P.Put, P.RemovedEach, P.Looked;
    var a, b := Addr(local, 175), Addr(local, 431);
    var x, y := Server(service, instance, a), Server(service, instance, b);
    LastHome();
    PacketsRun(local, x, y, Packet(from, Bye(local)));
    HandleAt(Prepared(StartReg(local), a, x, b, y), from, Bye(local), b);
    StillFoundAtFront(HashU32(175), x, HashU32(431), y);
  }

  lemma LastHome()
    ensures HashU32(175) != HashU32(431) && HashU32(175) % 256 == HashU32(431) % 256 == 255
  {
  }

  // ---------------------------------------------------------------------
  // A registration that hides a server

  lemma StillThere(nodes: Nodes, b: Addr)
    ensures At(nodes, b) == P.Looked(Services(nodes, b.node), HashU32(b.port))
  {
  }

  /** A local client registers: nothing but the local table changes. */
  lemma LocalNew(r: Reg, srv: Server)
    requires Filed(r) && srv.addr.node == r.local && srv.service != 0 && srv.addr.port != 0
    ensures var r1 := Handle(r, srv.addr, NewServer(srv)).0;
            && Filed(r1) && r1.local == r.local && r1.lookups == r.lookups && r1.nextId == r.nextId
            && Services(r1.nodes, r.local) == P.Put(Services(r.nodes, r.local), HashU32(srv.addr.port), srv)
  {
    hide Filed, Services, NodeGet, SetServices, P.Put, AddOut;
    OwnPacket(r, srv.addr, srv);
  }

  /** An observer of service 1 sees a server come; the same port then registers
      service 2.  Nothing is said to the observer, which still shows the server. */
  lemma HiddenFromObserver(local: u32, port: u32, observer: u32)
    requires port != 0
    ensures var a := Addr(local, port);
            var x, y := Server(1, 0, a), Server(2, 0, a);
            var l := Lookup(0, 1, 0, Addr(local, observer));
            var ps := [Packet(l.addr, NewLookup(1, 0)), Packet(a, NewServer(x)), Packet(a, NewServer(y))];
            var r := After(StartReg(local), ps);
            && l in r.lookups && CleanRun(StartReg(local), ps)
            && P.Get(Replay(map[], Sent(StartReg(local), ps), l.id), a) == Some(x) && Seen(r.nodes, l, a) == None
  {
    hide Handle, Services, HashU32, CleanPacket, Filed, P.Put, Replay, AddOut, Seen;
    var a := Addr(local, port);
    var x, y := Server(1, 0, a), Server(2, 0, a);
    var l := Lookup(0, 1, 0, Addr(local, observer));
    var p1, p2, p3 := Packet(l.addr, NewLookup(1, 0)), Packet(a, NewServer(x)), Packet(a, NewServer(y));
    var ps := [p1, p2, p3];
    var r0 := StartReg(local);
    StartFiled(local);
    NoServers(local, local);
    FirstLookup(local, l);
    var r1 := Handle(r0, l.addr, NewLookup(1, 0)).0;
    HandleFiled(r0, l.addr, NewLookup(1, 0));
    LocalNew(r1, x);
    var r2 := Handle(r1, a, NewServer(x)).0;
    LocalNew(r2, y);
    var r3 := Handle(r2, a, NewServer(y)).0;
    TwoPuts(HashU32(port), x, y);
    LocalClean(r1, x);
    LocalClean(r2, y);
    FirstClean(r0, l);
    RunStep(r0, ps, 0);
    RunStep(r1, ps, 1);
    RunStep(r2, ps, 2);
    assert ps[0..] == ps && ps[3..] == [];
    assert AddOut(Front(r2), y) + [] == AddOut(Front(r2), y);
    StillThere(r3.nodes, a);
    SeenOther(r3.nodes, l, a, y);
    ReplayThree(r1, l, x, y);
    assert Sent(r0, ps) == Handle(r0, p1.from, p1.msg).1 + (AddOut(Front(r1), x) + AddOut(Front(r2), y));
    assert Front(r1) == Front(r2);
  }

  lemma FirstLookup(local: u32, l: Lookup)
    requires l.id == 0 && l.addr.node == local
    ensures Handle(StartReg(local), l.addr, NewLookup(l.service, l.instance))
         == (StartReg(local).(lookups := [l], nextId := 1), [Notify(0, l.addr, true, None)])
  {
    var f := Filter(l.service, l.instance, 0);
    assert AllServers([]) == [] && Selected([], f) == [] && Answer([], 0, l.addr) == [];
    assert [] + [l] == [l];
    assert [] + [Notify(0, l.addr, true, None)] == [Notify(0, l.addr, true, None)];
  }

  lemma FirstClean(r: Reg, l: Lookup)
    ensures CleanPacket(r, l.addr, NewLookup(l.service, l.instance))
  {
  }

  lemma TwoPuts<V(!new)>(k: nat, v: V, w: V)
    ensures P.Clean<V>([], k) && P.Clean(P.Put([], k, v), k)
    ensures P.Looked(P.Put(P.Put([], k, v), k, w), k) == Some(w)
  {
    hide P.Linked, P.Unique, P.Contents, P.Clean, P.Put, P.Looked;
    var e: seq<P.Slot<V>> := [];
    NothingIn<V>();
    P.UntouchedIsClean(e, k);
    P.PutIs(e, k, v);
    var t := P.Put(e, k, v);
    P.UntouchedIsClean(t, k);
    P.PutIs(t, k, w);
    P.LookedIs(P.Put(t, k, w), k);
  }

  lemma NothingIn<V(!new)>()
    ensures P.Linked<V>([]) && P.Unique<V>([]) && P.Untouched<V>([])
  {
  }

  lemma LocalClean(r: Reg, srv: Server)
    requires srv.addr.node == r.local && P.Clean(Services(r.nodes, r.local), HashU32(srv.addr.port))
    ensures CleanPacket(r, srv.addr, NewServer(srv))
    ensures srv.service != 0 && srv.addr.port != 0 ==> Handle(r, srv.addr, NewServer(srv)).1 == AddOut(Front(r), srv)
  {
    hide Services, HashU32, P.Clean, P.Put, SetServices, NodeGet;
  }

  lemma SeenOther(nodes: Nodes, l: Lookup, a: Addr, y: Server)
    requires At(nodes, a) == Some(y) && !Matches(l, y)
    ensures Seen(nodes, l, a) == None
  {
  }

  lemma ReplayThree(r: Reg, l: Lookup, x: Server, y: Server)
    requires r.lookups == [l] && Matches(l, x) && !Matches(l, y)
    ensures var end: Out := Notify(l.id, l.addr, true, None);
            P.Get(Replay(map[], [end] + (AddOut(Front(r), x) + AddOut(Front(r), y)), l.id), x.addr) == Some(x)
  {
    hide Replay, AddOut, Matches;
    var end: Out := Notify(l.id, l.addr, true, None);
    ReplayConcat(map[], [end], AddOut(Front(r), x) + AddOut(Front(r), y), l.id);
    ReplayConcat(map[], AddOut(Front(r), x), AddOut(Front(r), y), l.id);
    EndUnseen(l);
    AddSeen(Front(r), x, l, map[]);
    AddSeen(Front(r), y, l, map[][x.addr := x]);
  }

  lemma EndUnseen(l: Lookup)
    ensures Replay(map[], [Notify(l.id, l.addr, true, None)], l.id) == map[]
  {
  }
}

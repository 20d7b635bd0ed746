/**
 Two registries that do not converge: a hello makes the peer put a port behind a
 tombstone, and its replica keeps the server when it goes.
 */
module RegistryDiverges {
  import opened Basics
  import opened Hash
  import opened NameService
  import opened NameServiceReplica
  import opened ProbeTableExact
  import opened Registry
  import opened RegistryEvery
  import opened RegistryExamples
  import opened RegistryRefines
  import opened RegistryReplica
  import opened RegistryRuns
  import P = ProbeTable

  lemma QuietNew(r: Reg, srv: Server, to: Addr)
    requires r.lookups == [] && srv.addr.node == r.local && srv.service != 0 && srv.addr.port != 0
    ensures var (r1, out) := Handle(r, srv.addr, NewServer(srv)); r1.lookups == [] && ForPeer(out, to) == [NewServer(srv)]
  {
    hide Services, NodeGet, SetServices, P.Put, HashU32;
    assert AddOut(Front(r), srv) == [Broadcast(NewServer(srv))];
  }

  lemma QuietDel(r: Reg, srv: Server, to: Addr)
    requires Sound(r.nodes) && r.lookups == [] && srv.addr.node == r.local && At(r.nodes, srv.addr) == Some(srv)
    ensures var (r1, out) := Handle(r, srv.addr, DelServer(srv)); r1.lookups == [] && ForPeer(out, to) == [DelServer(srv)]
  {
    hide Sound, Services, NodeGet, SetServices, P.Removed, P.Looked, HashU32;
    WithNodeOnly(r, r.local, r.local);
    assert DelOut(Front(r), srv) == [Broadcast(DelServer(srv))];
  }

  lemma QuietHello(r: Reg, y: Server, b: u32)
    requires Sound(r.nodes) && Listed(Services(r.nodes, r.local)) == [y]
    ensures var (r1, out) := Handle(r, Ctrl(b), Hello);
            r1.lookups == r.lookups && ForPeer(out, Ctrl(b)) == [Hello, NewServer(y)]
  {
    hide Sound, Services, NodeGet, Listed;
    WithNodeOnly(r, r.local, r.local);
    var out := Handle(r, Ctrl(b), Hello).1;
    assert Announce([y], Ctrl(b)) == [Send(Ctrl(b), NewServer(y))];
    assert out == [Send(Ctrl(b), Hello), Send(Ctrl(b), NewServer(y))];
    var rest := [Send(Ctrl(b), NewServer(y))];
    assert out[1..] == rest && rest[1..] == [];
    assert ForPeer(rest, Ctrl(b)) == [NewServer(y)] + ForPeer([], Ctrl(b)) == [NewServer(y)];
    assert [Hello] + [NewServer(y)] == [Hello, NewServer(y)];
  }

  lemma {:induction false} ListedOne(t: Tab, i: nat)
    requires i < |t| && t[i].Live? && forall j | 0 <= j < |t| && j != i :: !t[j].Live?
    ensures Listed(t) == [t[i].value]
    decreases |t|
  {
    if i < |t| - 1 {
      ListedOne(t[..|t| - 1], i);
    } else {
      ListedNone(t[..i]);
    }
  }

  lemma {:induction false} ListedNone(t: Tab)
    requires forall j | 0 <= j < |t| :: !t[j].Live?
    ensures Listed(t) == []
    decreases |t|
  {
    if |t| > 0 {
      ListedNone(t[..|t| - 1]);
    }
  }

  lemma ActStep(p: Pair, acts: seq<Action>, i: nat)
    requires i < |acts|
    ensures AfterActs(p, acts[i..]) == AfterActs(Act(p, acts[i]), acts[i + 1..])
  {
    hide Act;
    assert acts[i..][1..] == acts[i + 1..];
  }

  /** A handles a packet that brings B one message, and B handles it. */
  lemma Relayed(p: Pair, acts: seq<Action>, i: nat, from: Addr, msg: Msg)
    requires i + 1 < |acts| && acts[i] == AtA(from, msg) && acts[i + 1] == Deliver
    requires p.link == [] && ForPeer(Handle(p.a, from, msg).1, Ctrl(p.b.local)) == [msg] && msg != Hello
    ensures var q := Pair(Handle(p.a, from, msg).0, Handle(p.b, Ctrl(p.a.local), msg).0, [], p.greeted);
            AfterActs(p, acts[i..]) == AfterActs(q, acts[i + 2..])
  {
    hide Handle, ForPeer;
    var a1 := Handle(p.a, from, msg).0;
    ActStep(p, acts, i);
    assert Act(p, acts[i]) == Pair(a1, p.b, [msg], p.greeted) by { assert [] + [msg] == [msg]; }
    ActStep(Act(p, acts[i]), acts, i + 1);
    LocalKept(p.a, from, msg);
    assert [msg][1..] == [];
  }

  lemma LocalKept(r: Reg, from: Addr, msg: Msg)
    ensures Handle(r, from, msg).0.local == r.local
  {
    hide DelAt, DelEach, NodeGet, SetServices, Services, Listed, AllServers;
    match msg {
      case Bye(_) => DelEachLookups(WithNode(r, from.node), from.node, 0);
      case DelClient(n, p) =>
        DelAtLookups(WithNode(r.(lookups := KeepLookups(r.lookups, Addr(n, p))), n), n, p);
      case DelServer(srv) =>
        var a := SenderOf(r, from, srv).addr;
        DelAtLookups(WithNode(r, a.node), a.node, a.port);
      case _ =>
    }
  }

  /** A answers a hello with its one server, and B handles both messages. */
  lemma Answered(p: Pair, acts: seq<Action>, i: nat, y: Server)
    requires i + 2 < |acts| && acts[i] == AtA(Ctrl(p.b.local), Hello) && acts[i + 1] == acts[i + 2] == Deliver
    requires p.link == [] && ForPeer(Handle(p.a, Ctrl(p.b.local), Hello).1, Ctrl(p.b.local)) == [Hello, NewServer(y)]
    ensures var b1 := Handle(p.b, Ctrl(p.a.local), Hello).0;
            var q := Pair(Handle(p.a, Ctrl(p.b.local), Hello).0, Handle(b1, Ctrl(p.a.local), NewServer(y)).0, [], true);
            AfterActs(p, acts[i..]) == AfterActs(q, acts[i + 3..])
  {
    hide Handle, ForPeer;
    var l: seq<Msg> := [Hello, NewServer(y)];
    var a1 := Handle(p.a, Ctrl(p.b.local), Hello).0;
    ActStep(p, acts, i);
    assert Act(p, acts[i]) == Pair(a1, p.b, l, true) by { assert [] + l == l; }
    LocalKept(p.a, Ctrl(p.b.local), Hello);
    ActStep(Act(p, acts[i]), acts, i + 1);
    var p2 := Act(Act(p, acts[i]), acts[i + 1]);
    assert l[1..] == [NewServer(y)] && l[1..][1..] == [];
    ActStep(p2, acts, i + 2);
  }

  /** What A and B have done before the hello, and at the end. */
  function AllActs(x: Server, y: Server, b: u32): seq<Action> {
    [AtA(x.addr, NewServer(x)), Deliver, AtA(y.addr, NewServer(y)), Deliver, AtA(x.addr, DelServer(x)), Deliver,
     AtA(Ctrl(b), Hello), Deliver, Deliver, AtA(y.addr, DelServer(y)), Deliver]
  }

  /** Ports 1 and 257 of node A again.  A's own tables stay maps.  B says hello and is
      told again of the server on port 257, which it puts behind the tombstone of
      port 1.  When the server goes, A finds it no more and B does, for good. */
  lemma ReplicaKeeps(a: u32, b: u32, service: bv32, instance: bv32)
    requires a != b && service != 0
    ensures var x, y := Server(service, instance, Addr(a, 1)), Server(service, instance, Addr(a, 257));
            var p := AfterActs(Pair(StartReg(a), StartReg(b), [], false), AllActs(x, y, b));
            && p.link == [] && p.greeted && Good(p.a.nodes)
            && At(p.a.nodes, y.addr) == None && At(p.b.nodes, y.addr) == Some(y)
  {
    var x, y := Server(service, instance, Addr(a, 1)), Server(service, instance, Addr(a, 257));
    OneHome();
    ReplicaRun(a, b, x, y);
  }

  lemma ReplicaRun(a: u32, b: u32, x: Server, y: Server)
    requires a != b && SameHome(x, y, a)
    ensures var p := AfterActs(Pair(StartReg(a), StartReg(b), [], false), AllActs(x, y, b));
            && p.link == [] && p.greeted && Good(p.a.nodes)
            && At(p.a.nodes, y.addr) == None && At(p.b.nodes, y.addr) == Some(y)
  {
    hide Handle, HashU32, Filed, Services, Gap, ForPeer, Good, AllActs, P.Put, P.Removed, P.Looked;
    var kx, ky, c := HashU32(x.addr.port), HashU32(y.addr.port), Ctrl(a);
    var a0, b0 := StartReg(a), StartReg(b);
    var acts := AllActs(x, y, b);
    var p0 := Pair(a0, b0, [], false);
    var a1, b1 := Handle(a0, x.addr, NewServer(x)).0, Handle(b0, c, NewServer(x)).0;
    var a2, b2 := Handle(a1, y.addr, NewServer(y)).0, Handle(b1, c, NewServer(y)).0;
    var a3, b3 := Handle(a2, x.addr, DelServer(x)).0, Handle(b2, c, DelServer(x)).0;
    var a4, b4 := Handle(a3, Ctrl(b), Hello).0, Handle(b3, c, Hello).0;
    var b5 := Handle(b4, c, NewServer(y)).0;
    var a5, b6 := Handle(a4, y.addr, DelServer(y)).0, Handle(b5, c, DelServer(y)).0;
    AtHome(a, b, x, y);
    AtPeer(a, b, x, y);
    assert acts == AllActs(x, y, b);
    ActsAre(x, y, b);
    Relayed(p0, acts, 0, x.addr, NewServer(x));
    Relayed(Pair(a1, b1, [], false), acts, 2, y.addr, NewServer(y));
    Relayed(Pair(a2, b2, [], false), acts, 4, x.addr, DelServer(x));
    Answered(Pair(a3, b3, [], false), acts, 6, y);
    Relayed(Pair(a4, b5, [], true), acts, 9, y.addr, DelServer(y));
    assert acts[0..] == acts && acts[11..] == [];
  }

  lemma ActsAre(x: Server, y: Server, b: u32)
    ensures var acts := AllActs(x, y, b);
            && |acts| == 11 && acts[1] == acts[3] == acts[5] == acts[7] == acts[8] == acts[10] == Deliver
            && acts[0] == AtA(x.addr, NewServer(x)) && acts[2] == AtA(y.addr, NewServer(y))
            && acts[4] == AtA(x.addr, DelServer(x)) && acts[6] == AtA(Ctrl(b), Hello) && acts[9] == AtA(y.addr, DelServer(y))
  {
  }

  /** At B: the server that is left behind. */
  lemma AtPeer(a: u32, b: u32, x: Server, y: Server)
    requires a != b && SameHome(x, y, a)
    ensures var c, b0 := Ctrl(a), StartReg(b);
            var b1 := Handle(b0, c, NewServer(x)).0;
            var b2 := Handle(b1, c, NewServer(y)).0;
            var b3 := Handle(b2, c, DelServer(x)).0;
            var b4 := Handle(b3, c, Hello).0;
            var b5 := Handle(b4, c, NewServer(y)).0;
            var b6 := Handle(b5, c, DelServer(y)).0;
            && b1.local == b2.local == b3.local == b4.local == b5.local == b && At(b6.nodes, y.addr) == Some(y)
  {
    hide Handle, HashU32, Filed, Services, Gap, P.Put, P.Removed, P.Looked;
    var c, b0 := Ctrl(a), StartReg(b);
    StartFiled(b);
    NoServers(b, a);
    PreparedIs(b0, c, x, c, y, a);
    var b1 := Handle(b0, c, NewServer(x)).0;
    var b2 := Handle(b1, c, NewServer(y)).0;
    var b3 := Handle(b2, c, DelServer(x)).0;
    LocalKept(b0, c, NewServer(x));
    LocalKept(b1, c, NewServer(y));
    LocalKept(b2, c, DelServer(x));
    var b4 := Handle(b3, c, Hello).0;
    HandleFiled(b3, c, Hello);
    FiledTable(b3, a);
    HandleTable(b3, c, Hello);
    OwnPacket(b4, c, y);
    var b5 := Handle(b4, c, NewServer(y)).0;
    HandleAt(b5, c, DelServer(y), y.addr);
    StillFound(HashU32(x.addr.port), x, HashU32(y.addr.port), y);
  }

  /** At A: each packet brings B one message, the hello two, and the tables stay maps. */
  lemma AtHome(a: u32, b: u32, x: Server, y: Server)
    requires SameHome(x, y, a)
    ensures var a0, to := StartReg(a), Ctrl(b);
            var a1 := Handle(a0, x.addr, NewServer(x)).0;
            var a2 := Handle(a1, y.addr, NewServer(y)).0;
            var a3 := Handle(a2, x.addr, DelServer(x)).0;
            var a4 := Handle(a3, to, Hello).0;
            var a5 := Handle(a4, y.addr, DelServer(y)).0;
            && a1.local == a2.local == a3.local == a4.local == a
            && ForPeer(Handle(a0, x.addr, NewServer(x)).1, to) == [NewServer(x)]
            && ForPeer(Handle(a1, y.addr, NewServer(y)).1, to) == [NewServer(y)]
            && ForPeer(Handle(a2, x.addr, DelServer(x)).1, to) == [DelServer(x)]
            && ForPeer(Handle(a3, to, Hello).1, to) == [Hello, NewServer(y)]
            && ForPeer(Handle(a4, y.addr, DelServer(y)).1, to) == [DelServer(y)]
            && At(a5.nodes, y.addr) == None && Good(a5.nodes)
  {
    hide Handle, HashU32, Sound, TabFits, LookupsOk, Services, Good, ForPeer, P.Put, P.Removed, P.Looked, P.Clean;
    var kx, ky, to, a0 := HashU32(x.addr.port), HashU32(y.addr.port), Ctrl(b), StartReg(a);
    StartFiled(a);
    NoServers(a, a);
    PreparedIs(a0, x.addr, x, y.addr, y, a);
    GapIs(kx, x, ky, y);
    var a1 := Handle(a0, x.addr, NewServer(x)).0;
    OwnPacket(a0, x.addr, x);
    QuietNew(a0, x, to);
    var a2 := Handle(a1, y.addr, NewServer(y)).0;
    OwnPacket(a1, y.addr, y);
    QuietNew(a1, y, to);
    var a3 := Handle(a2, x.addr, DelServer(x)).0;
    StillThere(a2.nodes, x.addr);
    QuietDel(a2, x, to);
    var t, h := Services(a3.nodes, a), kx % 256;
    ListedOne(t, P.Step(h, 1, 256));
    QuietHello(a3, y, b);
    var a4 := Handle(a3, to, Hello).0;
    HelloKeeps(a3, to);
    StillThere(a3.nodes, y.addr);
    StillThere(a4.nodes, y.addr);
    QuietDel(a4, y, to);
    HomeClean(a, b, x, y);
    GoneAtHome(a4, y);
  }

  lemma HelloKeeps(r: Reg, from: Addr)
    requires Filed(r)
    ensures var r1 := Handle(r, from, Hello).0;
            Filed(r1) && r1.local == r.local && Services(r1.nodes, r.local) == Services(r.nodes, r.local)
  {
    hide Filed, Handle, Services;
    HandleFiled(r, from, Hello);
    FiledTable(r, from.node);
    HandleTable(r, from, Hello);
  }

  /** From tables that are maps, removing a server leaves none. */
  lemma GoneAtHome(r: Reg, y: Server)
    requires Filed(r) && Good(r.nodes) && y.addr.node == r.local
    ensures At(Handle(r, y.addr, DelServer(y)).0.nodes, y.addr) == None
  {
    hide Handle, HashU32, Services, Filed, P.Removed, P.Linked, P.Looked;
    HandleAt(r, y.addr, DelServer(y), y.addr);
    var t := Services(r.nodes, y.addr.node);
    RemovedExactly(t, HashU32(y.addr.port));
    UniqueOnce(t, HashU32(y.addr.port));
  }

  lemma HomeClean(a: u32, b: u32, x: Server, y: Server)
    requires SameHome(x, y, a)
    ensures var a1 := Handle(StartReg(a), x.addr, NewServer(x)).0;
            var a2 := Handle(a1, y.addr, NewServer(y)).0;
            var a3 := Handle(a2, x.addr, DelServer(x)).0;
            var a4 := Handle(a3, Ctrl(b), Hello).0;
            Good(a4.nodes) && Good(Handle(a4, y.addr, DelServer(y)).0.nodes)
  {
    hide Handle, HashU32, Services, Good, Filed, Shows, P.Put, P.Clean, Next;
    var a0, kx := StartReg(a), HashU32(x.addr.port);
    StartFiled(a);
    StartShows(a);
    NoServers(a, a);
    TwoPuts(kx, x, x);
    LocalClean(a0, x);
    var a1 := Handle(a0, x.addr, NewServer(x)).0;
    OwnPacket(a0, x.addr, x);
    var s1 := HandleRefines(a0, Start(a), x.addr, NewServer(x));
    OneIsClean(kx, x, HashU32(y.addr.port));
    LocalClean(a1, y);
    var a2 := Handle(a1, y.addr, NewServer(y)).0;
    var s2 := HandleRefines(a1, s1, y.addr, NewServer(y));
    var a3 := Handle(a2, x.addr, DelServer(x)).0;
    var s3 := HandleRefines(a2, s2, x.addr, DelServer(x));
    var a4 := Handle(a3, Ctrl(b), Hello).0;
    var s4 := HandleRefines(a3, s3, Ctrl(b), Hello);
    var s5 := HandleRefines(a4, s4, y.addr, DelServer(y));
  }

  lemma OneIsClean<V(!new)>(k: nat, v: V, other: nat)
    ensures P.Clean(P.Put([], k, v), other)
  {
    hide P.Linked, P.Unique, P.Contents, P.Clean, P.Put;
    NothingIn<V>();
    P.PutIs<V>([], k, v);
    P.UntouchedIsClean(P.Put([], k, v), other);
  }
}

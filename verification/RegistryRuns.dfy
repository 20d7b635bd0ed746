/**
 Runs of the registry: what holds in every run, and what holds in every run that
 puts no port behind a tombstone.
 */
module RegistryRuns {
  import opened Basics
  import opened Hash
  import opened NameService
  import opened NameServiceRuns
  import opened NameServiceObservers
  import opened Registry
  import opened RegistryRefines
  import P = ProbeTable

  datatype Packet = Packet(from: Addr, msg: Msg)

  function After(r: Reg, ps: seq<Packet>): Reg
    decreases |ps|
  {
    if ps == [] then r else After(Handle(r, ps[0].from, ps[0].msg).0, ps[1..])
  }

  function Sent(r: Reg, ps: seq<Packet>): seq<Out>
    decreases |ps|
  {
    if ps == [] then []
    else
      var (r1, out) := Handle(r, ps[0].from, ps[0].msg);
      out + Sent(r1, ps[1..])
  }

  // ---------------------------------------------------------------------
  // Every run

  /** The node table is a map and every server stays reachable. */
  ghost predicate Sound(nodes: Nodes) {
    NodesOk(nodes) && forall n: u32 :: P.Linked(Services(nodes, n))
  }

  /** What a step may do: only one node's table changes. */
  ghost predicate Only(nodes: Nodes, nodes1: Nodes, n: u32) {
    Sound(nodes1) && forall m: u32 | m != n :: Services(nodes1, m) == Services(nodes, m)
  }

  lemma WithNodeOnly(r: Reg, n: u32, any: u32)
    requires Sound(r.nodes)
    ensures Only(r.nodes, WithNode(r, n).nodes, any)
    ensures forall m: u32 :: Services(WithNode(r, n).nodes, m) == Services(r.nodes, m)
    ensures P.Looked(WithNode(r, n).nodes, HashU32(n)).Some?
  {
    hide NodesOk, P.Linked, Services, NodeGet;
    NodeGetOk(r.nodes, n);
  }

  lemma SetOnly(nodes: Nodes, n: u32, t: Tab)
    requires Sound(nodes) && P.Looked(nodes, HashU32(n)).Some? && P.Linked(t)
    ensures Only(nodes, SetServices(nodes, n, t), n)
  {
    hide NodesOk, P.Linked, Services, SetServices;
    SetServicesOk(nodes, n, t);
  }

  lemma DelAtOnly(r: Reg, n: u32, port: u32)
    requires Sound(r.nodes)
    ensures Only(r.nodes, DelAt(r, n, port).0.nodes, n) && DelAt(r, n, port).0.local == r.local
  {
    hide NodesOk, P.Linked, P.Removed, SetServices;
    if At(r.nodes, Addr(n, port)).Some? {
      P.RemovedIs(Services(r.nodes, n), HashU32(port));
      SetOnly(r.nodes, n, P.Removed(Services(r.nodes, n), HashU32(port)));
    }
  }

  lemma {:induction false} DelEachOnly(r: Reg, n: u32, j: nat)
    requires Sound(r.nodes)
    ensures Only(r.nodes, DelEach(r, n, j).0.nodes, n) && DelEach(r, n, j).0.local == r.local
    decreases |Services(r.nodes, n)| - j
  {
    hide NodesOk, P.Linked, DelAt, Services;
    var t := Services(r.nodes, n);
    if j < |t| {
      if t[j].Live? {
        DelAtOnly(r, n, t[j].value.addr.port);
        DelEachOnly(DelAt(r, n, t[j].value.addr.port).0, n, j + 1);
      } else {
        DelEachOnly(r, n, j + 1);
      }
    }
  }

  /** In any registry that a run can reach, a packet changes the table of the node
      it comes from and no other, and every server stays reachable. */
  lemma HandleOnly(r: Reg, from: Addr, msg: Msg)
    requires Sound(r.nodes)
    ensures Only(r.nodes, Handle(r, from, msg).0.nodes, from.node) && Handle(r, from, msg).0.local == r.local
  {
    hide NodesOk, P.Linked, DelAt, DelEach, Services, NodeGet, SetServices, P.Put, Listed, AllServers;
    var n := from.node;
    match msg {
      case Hello => WithNodeOnly(r, r.local, n);
      case Bye(_) =>
        WithNodeOnly(r, n, n);
        DelEachOnly(WithNode(r, n), n, 0);
        WithNodeOnly(DelEach(WithNode(r, n), n, 0).0, r.local, n);
      case DelClient(m, p) =>
        if !(n != m || (n == r.local && from.port != p)) {
          var r0 := r.(lookups := KeepLookups(r.lookups, Addr(m, p)));
          WithNodeOnly(r0, n, n);
          DelAtOnly(WithNode(r0, n), n, p);
          WithNodeOnly(DelAt(WithNode(r0, n), n, p).0, r.local, n);
        }
      case NewServer(srv0) =>
        if !Refused(r, from, srv0) {
          var srv := SenderOf(r, from, srv0);
          WithNodeOnly(r, n, n);
          var t := Services(WithNode(r, n).nodes, n);
          P.PutIs(t, HashU32(srv.addr.port), srv);
          SetOnly(WithNode(r, n).nodes, n, P.Put(t, HashU32(srv.addr.port), srv));
        }
      case DelServer(srv0) =>
        var a := SenderOf(r, from, srv0).addr;
        if n == a.node {
          WithNodeOnly(r, n, n);
          DelAtOnly(WithNode(r, n), n, a.port);
        }
      case _ =>
    }
  }

  lemma {:induction false} RunSound(r: Reg, ps: seq<Packet>, m: u32)
    requires Sound(r.nodes)
    ensures Sound(After(r, ps).nodes)
    ensures (forall p | p in ps :: p.from.node != m) ==> Services(After(r, ps).nodes, m) == Services(r.nodes, m)
    decreases |ps|
  {
    hide Sound, Handle, Services;
    if ps != [] {
      HandleOnly(r, ps[0].from, ps[0].msg);
      RunSound(Handle(r, ps[0].from, ps[0].msg).0, ps[1..], m);
      assert ps[0] in ps && forall p | p in ps[1..] :: p in ps;
    }
  }

  /** In every run from the start, clean or not, packets from other nodes leave a
      node's records alone, slot by slot. */
  lemma OthersKept(local: u32, before: seq<Packet>, ps: seq<Packet>, m: u32)
    requires forall p | p in ps :: p.from.node != m
    ensures var r := After(StartReg(local), before);
            Sound(r.nodes) && Services(After(r, ps).nodes, m) == Services(r.nodes, m)
  {
    hide Handle, Services;
    StartShows(local);
    assert Sound(StartReg(local).nodes);
    RunSound(StartReg(local), before, m);
    RunSound(After(StartReg(local), before), ps, m);
  }

  // ---------------------------------------------------------------------
  // Clean runs

  ghost predicate CleanRun(r: Reg, ps: seq<Packet>)
    decreases |ps|
  {
    ps != [] ==>
      CleanPacket(r, ps[0].from, ps[0].msg) && CleanRun(Handle(r, ps[0].from, ps[0].msg).0, ps[1..])
  }

  /** The steps of the protocol that a clean run makes. */
  lemma {:induction false} Simulates(r: Reg, s: State, ps: seq<Packet>) returns (steps: seq<Step>)
    requires Shows(r, s) && CleanRun(r, ps)
    ensures Run(s, steps) && AllOut(steps) == Sent(r, ps) && Shows(After(r, ps), Final(s, steps))
    ensures VisibleRun(r, ps) ==> AlwaysVisible(s, steps)
    decreases |ps|
  {
    hide Shows, Handle, Next, CleanPacket, Visible, VisiblePacket;
    steps := [];
    if ps != [] {
      var from, msg := ps[0].from, ps[0].msg;
      var (r1, out) := Handle(r, from, msg);
      var s1 := HandleRefines(r, s, from, msg);
      var rest := Simulates(r1, s1, ps[1..]);
      steps := [Step(from, msg, s1, out)] + rest;
      assert steps[1..] == rest;
      if VisiblePacket(r, from, msg) { SameVisible(r, s, from, msg); }
      assert Final(s, steps) == Final(s1, rest);
    }
  }

  /** Only clean packets keep the tables maps: a run is clean as long as they are. */
  lemma {:induction false} CleanExactly(r: Reg, s: State, ps: seq<Packet>)
    requires Shows(r, s)
    ensures CleanRun(r, ps) <==> forall k | 0 <= k <= |ps| :: Good(After(r, ps[..k]).nodes)
    decreases |ps|
  {
    hide Shows, Handle, CleanPacket, Good;
    GoodOf(r, s);
    assert ps[..0] == [];
    if ps != [] {
      var (r1, out) := Handle(r, ps[0].from, ps[0].msg);
      var s1 := HandleRefines(r, s, ps[0].from, ps[0].msg);
      forall k | 0 < k <= |ps| ensures After(r, ps[..k]) == After(r1, ps[1..][..k - 1]) {
        assert ps[..k][1..] == ps[1..][..k - 1];
      }
      if Good(r1.nodes) {
        CleanExactly(r1, s1, ps[1..]);
        if CleanRun(r1, ps[1..]) {
          forall k | 0 <= k <= |ps| ensures Good(After(r, ps[..k]).nodes) {
            if k > 0 { assert Good(After(r1, ps[1..][..k - 1]).nodes); }
          }
        } else {
          var k :| 0 <= k <= |ps| - 1 && !Good(After(r1, ps[1..][..k]).nodes);
          assert After(r, ps[..k + 1]) == After(r1, ps[1..][..k + 1 - 1]);
        }
      } else {
        assert ps[1..][..0] == [] && After(r, ps[..1]) == r1;
      }
    }
  }

  lemma GoodOf(r: Reg, s: State)
    requires Shows(r, s)
    ensures Good(r.nodes)
  {
  }

  /** An accepted registration does not replace a server that an observer matches by one that
      it does not. */
  ghost predicate VisiblePacket(r: Reg, from: Addr, msg: Msg) {
    msg.NewServer? && !Refused(r, from, msg.srv) ==>
      var srv := SenderOf(r, from, msg.srv);
      var was := At(r.nodes, srv.addr);
      was.Some? ==> forall l | l in r.lookups && Matches(l, was.value) :: Matches(l, srv)
  }

  ghost predicate VisibleRun(r: Reg, ps: seq<Packet>)
    decreases |ps|
  {
    ps != [] ==>
      VisiblePacket(r, ps[0].from, ps[0].msg) && VisibleRun(Handle(r, ps[0].from, ps[0].msg).0, ps[1..])
  }

  lemma SameVisible(r: Reg, s: State, from: Addr, msg: Msg)
    requires Shows(r, s) && VisiblePacket(r, from, msg)
    ensures Visible(s, from, msg)
  {
    hide Good, At, Matches;
    if msg.NewServer? {
      var srv := SenderOf(r, from, msg.srv);
      assert P.Get(s.servers, srv.addr) == At(r.nodes, srv.addr);
    }
  }

  /** What an observer should see at an address. */
  function Seen(nodes: Nodes, l: Lookup, a: Addr): Option<Server> {
    match At(nodes, a)
    case Some(srv) => if Matches(l, srv) then Some(srv) else None
    case None => None
  }

  /** Observer accuracy: in every clean run whose registrations hide no server, the
      notifications of an observer, replayed, are the servers that a search of the
      registry finds and that match. */
  lemma ObserversSee(local: u32, ps: seq<Packet>, l: Lookup, a: Addr)
    requires CleanRun(StartReg(local), ps) && VisibleRun(StartReg(local), ps)
    requires l in After(StartReg(local), ps).lookups
    ensures P.Get(Replay(map[], Sent(StartReg(local), ps), l.id), a) == Seen(After(StartReg(local), ps).nodes, l, a)
  {
    hide CleanRun, VisibleRun, After, Sent, Run, Replay, AlwaysVisible, Good, At, Matches;
    StartShows(local);
    var steps := Simulates(StartReg(local), Start(local), ps);
    var r, s := After(StartReg(local), ps), Final(Start(local), steps);
    ObserversSeeMatches(local, steps, l);
    assert P.Get(s.servers, a) == At(r.nodes, a);
  }

  /** Every accepted registration is for a port that has none. */
  ghost predicate FreshRun(r: Reg, ps: seq<Packet>)
    decreases |ps|
  {
    ps != [] ==>
      && (ps[0].msg.NewServer? && !Refused(r, ps[0].from, ps[0].msg.srv) ==>
            At(r.nodes, SenderOf(r, ps[0].from, ps[0].msg.srv).addr).None?)
      && FreshRun(Handle(r, ps[0].from, ps[0].msg).0, ps[1..])
  }

  lemma {:induction false} FreshIsClean(r: Reg, ps: seq<Packet>)
    requires Sound(r.nodes) && FreshRun(r, ps)
    ensures CleanRun(r, ps) && VisibleRun(r, ps)
    decreases |ps|
  {
    hide Handle, P.Linked, NodesOk, Services, HashU32;
    if ps != [] {
      var from, msg := ps[0].from, ps[0].msg;
      HandleOnly(r, from, msg);
      FreshIsClean(Handle(r, from, msg).0, ps[1..]);
      if msg.NewServer? && !Refused(r, from, msg.srv) {
        var a := SenderOf(r, from, msg.srv).addr;
        AbsentIsClean(Services(r.nodes, a.node), HashU32(a.port));
      }
    }
  }

  lemma AbsentIsClean(t: Tab, key: nat)
    requires P.Linked(t) && P.Looked(t, key).None?
    ensures P.Clean(t, key)
  {
    hide P.Linked, P.FindSlot;
    P.FindIs(t, key);
    forall j | 0 <= j < |t| ensures !(t[j].Live? && t[j].key == key) {
      assert !P.Holds(t, j, key);
    }
  }

  /** In every run in which no registered port registers again, observers are
      accurate. */
  lemma FreshObservers(local: u32, ps: seq<Packet>, l: Lookup, a: Addr)
    requires FreshRun(StartReg(local), ps) && l in After(StartReg(local), ps).lookups
    ensures P.Get(Replay(map[], Sent(StartReg(local), ps), l.id), a) == Seen(After(StartReg(local), ps).nodes, l, a)
  {
    hide After, Sent, Replay, FreshRun, CleanRun, VisibleRun;
    StartShows(local);
    assert Sound(StartReg(local).nodes);
    FreshIsClean(StartReg(local), ps);
    ObserversSee(local, ps, l, a);
  }
}

/**
 What holds in every run of the registry, also in those that put a port behind a
 tombstone: what every record is, and exactly what each packet does to the searches.
 */
module RegistryEvery {
  import opened Basics
  import opened Hash
  import opened NameService
  import opened NameServiceRuns
  import opened ProbeTableExact
  import opened Registry
  import opened RegistryRefines
  import opened RegistryRuns
  import P = ProbeTable

  // ---------------------------------------------------------------------
  // What a packet does to the table of its sender

  predicate ClientRefused(r: Reg, from: Addr, node: u32, port: u32) {
    from.node != node || (from.node == r.local && from.port != port)
  }

  function TableAfter(r: Reg, from: Addr, msg: Msg): Tab {
    var t := Services(r.nodes, from.node);
    match msg
    case Bye(_) => P.RemovedEach(t, 0)
    case DelClient(n, p) => if ClientRefused(r, from, n, p) then t else P.Removed(t, HashU32(p))
    case NewServer(srv) =>
      if Refused(r, from, srv) then t
      else P.Put(t, HashU32(SenderOf(r, from, srv).addr.port), SenderOf(r, from, srv))
    case DelServer(srv) =>
      var a := SenderOf(r, from, srv).addr;
      if from.node != a.node then t else P.Removed(t, HashU32(a.port))
    case _ => t
  }

  /** An entry is filed under the hash of its port, in the table of its node, and has
      a service and a port. */
  predicate RecordOk(x: P.Slot<Server>, n: u32) {
    x.Live? ==>
      x.key == HashU32(x.value.addr.port) && x.value.addr.node == n && x.value.service != 0 && x.value.addr.port != 0
  }

  predicate TabFits(t: Tab, n: u32) {
    forall j | 0 <= j < |t| :: RecordOk(t[j], n)
  }

  lemma DelAtTable(r: Reg, n: u32, port: u32)
    requires Sound(r.nodes)
    ensures Services(DelAt(r, n, port).0.nodes, n) == P.Removed(Services(r.nodes, n), HashU32(port))
  {
    hide Sound, SetServices, P.FindSlot, HashU32;
  }

  /** The visit of the servers is a visit of the slots that removes by key. */
  lemma {:induction false} DelEachTable(r: Reg, n: u32, j: nat)
    requires Sound(r.nodes) && TabFits(Services(r.nodes, n), n)
    ensures Services(DelEach(r, n, j).0.nodes, n) == P.RemovedEach(Services(r.nodes, n), j)
    decreases |Services(r.nodes, n)| - j
  {
    hide Sound, DelAt, Services, P.Removed, HashU32;
    var t := Services(r.nodes, n);
    if j < |t| {
      if t[j].Live? {
        assert RecordOk(t[j], n);
        var r1 := DelAt(r, n, t[j].value.addr.port).0;
        DelAtTable(r, n, t[j].value.addr.port);
        DelAtOnly(r, n, t[j].value.addr.port);
        OnlySound(r.nodes, r1.nodes, n);
        RemovedFits(t, t[j].key, n);
        DelEachTable(r1, n, j + 1);
      } else {
        DelEachTable(r, n, j + 1);
      }
    }
  }

  lemma OnlySound(nodes: Nodes, nodes1: Nodes, n: u32)
    requires Only(nodes, nodes1, n)
    ensures Sound(nodes1)
  {
  }

  /** A packet does to the table of its sender what its kind says, and to no other. */
  lemma HandleTable(r: Reg, from: Addr, msg: Msg)
    requires Sound(r.nodes) && TabFits(Services(r.nodes, from.node), from.node)
    ensures var r1 := Handle(r, from, msg).0;
            && Sound(r1.nodes) && r1.local == r.local && Services(r1.nodes, from.node) == TableAfter(r, from, msg)
            && forall m: u32 | m != from.node :: Services(r1.nodes, m) == Services(r.nodes, m)
  {
    hide Sound, DelAt, DelEach, Services, NodeGet, SetServices, TabFits, P.Put, P.Removed, P.RemovedEach, HashU32,
         Listed, AllServers;
    HandleOnly(r, from, msg);
    var n := from.node;
    OnlyParts(r.nodes, Handle(r, from, msg).0.nodes, n);
    match msg {
      case Hello => WithNodeOnly(r, r.local, n);
      case Bye(_) =>
        WithNodeOnly(r, n, n);
        var r0 := WithNode(r, n);
        OnlySound(r.nodes, r0.nodes, n);
        DelEachTable(r0, n, 0);
        DelEachOnly(r0, n, 0);
        OnlySound(r0.nodes, DelEach(r0, n, 0).0.nodes, n);
        WithNodeOnly(DelEach(r0, n, 0).0, r.local, n);
      case DelClient(m, p) =>
        if !ClientRefused(r, from, m, p) {
          var r0 := r.(lookups := KeepLookups(r.lookups, Addr(m, p)));
          WithNodeOnly(r0, n, n);
          DelOne(WithNode(r0, n), n, p) by { OnlySound(r.nodes, WithNode(r0, n).nodes, n); }
          WithNodeOnly(DelAt(WithNode(r0, n), n, p).0, r.local, n);
        }
      case NewServer(srv0) =>
        if !Refused(r, from, srv0) {
          WithNodeOnly(r, n, n);
        }
      case DelServer(srv0) =>
        if n == SenderOf(r, from, srv0).addr.node {
          WithNodeOnly(r, n, n);
          DelOne(WithNode(r, n), n, SenderOf(r, from, srv0).addr.port) by { OnlySound(r.nodes, WithNode(r, n).nodes, n); }
        }
      case _ =>
    }
  }

  lemma DelOne(r: Reg, n: u32, port: u32)
    requires Sound(r.nodes)
    ensures Services(DelAt(r, n, port).0.nodes, n) == P.Removed(Services(r.nodes, n), HashU32(port))
    ensures Sound(DelAt(r, n, port).0.nodes)
  {
    hide Sound;
    DelAtTable(r, n, port);
    DelAtOnly(r, n, port);
    OnlySound(r.nodes, DelAt(r, n, port).0.nodes, n);
  }

  lemma OnlyParts(nodes: Nodes, nodes1: Nodes, n: u32)
    requires Only(nodes, nodes1, n)
    ensures Sound(nodes1) && forall m: u32 | m != n :: Services(nodes1, m) == Services(nodes, m)
  {
  }

  // ---------------------------------------------------------------------
  // What every record is

  lemma FromFits(t: Tab, s: Tab, x: P.Slot<Server>, n: u32)
    requires From(t, s, x) && TabFits(s, n) && RecordOk(x, n)
    ensures TabFits(t, n)
  {
    forall j | 0 <= j < |t| ensures RecordOk(t[j], n) {
      if t[j].Live? && t[j] != x {
        var i :| 0 <= i < |s| && s[i] == t[j];
        assert RecordOk(s[i], n);
      }
    }
  }

  lemma RemovedFits(t: Tab, key: nat, n: u32)
    requires TabFits(t, n)
    ensures TabFits(P.Removed(t, key), n)
  {
    RemovedFrom(t, key);
    FromFits(P.Removed(t, key), t, P.Empty, n);
  }

  lemma {:induction false} RemovedEachFits(t: Tab, j: nat, n: u32)
    requires TabFits(t, n)
    ensures TabFits(P.RemovedEach(t, j), n)
    decreases |t| - j
  {
    hide P.Removed, TabFits;
    if j < |t| {
      if t[j].Live? {
        RemovedFits(t, t[j].key, n);
        RemovedEachFits(P.Removed(t, t[j].key), j + 1, n);
      } else {
        RemovedEachFits(t, j + 1, n);
      }
    }
  }

  lemma TableAfterFits(r: Reg, from: Addr, msg: Msg)
    requires TabFits(Services(r.nodes, from.node), from.node)
    ensures TabFits(TableAfter(r, from, msg), from.node)
  {
    hide TabFits, Services, P.Put, P.Removed, P.RemovedEach, HashU32;
    var t, n := Services(r.nodes, from.node), from.node;
    match msg {
      case Bye(_) => RemovedEachFits(t, 0, n);
      case DelClient(_, p) => RemovedFits(t, HashU32(p), n);
      case NewServer(srv0) =>
        var srv := SenderOf(r, from, srv0);
        if !Refused(r, from, srv0) {
          PutFrom(t, HashU32(srv.addr.port), srv);
          FromFits(P.Put(t, HashU32(srv.addr.port), srv), t, P.Live(HashU32(srv.addr.port), srv), n);
        }
      case DelServer(srv0) => RemovedFits(t, HashU32(SenderOf(r, from, srv0).addr.port), n);
      case _ =>
    }
  }

  predicate LookupsOk(r: Reg) {
    && (forall l | l in r.lookups :: l.addr.node == r.local && l.id < r.nextId)
    && DistinctIds(r.lookups)
  }

  /** Every entry is reachable and filed where it belongs, and every observer is local
      and has an id of its own. */
  ghost predicate Filed(r: Reg) {
    Sound(r.nodes) && (forall n: u32 :: TabFits(Services(r.nodes, n), n)) && LookupsOk(r)
  }

  lemma LookupsKept(r: Reg, from: Addr, msg: Msg)
    requires LookupsOk(r)
    ensures LookupsOk(Handle(r, from, msg).0)
  {
    hide DelAt, DelEach, NodeGet, SetServices, Services, AllServers, Thinned;
    match msg {
      case Bye(_) => DelEachLookups(WithNode(r, from.node), from.node, 0);
      case DelClient(n, p) =>
        KeepThins(r.lookups, Addr(n, p));
        ThinnedKeeps(KeepLookups(r.lookups, Addr(n, p)), r.lookups);
        DelAtLookups(WithNode(r.(lookups := KeepLookups(r.lookups, Addr(n, p))), n), n, p);
      case DelServer(srv) =>
        var a := SenderOf(r, from, srv).addr;
        DelAtLookups(WithNode(r, a.node), a.node, a.port);
      case DelLookup(x, i) =>
        DropThins(r.lookups, from, x, i);
        ThinnedKeeps(DropLookups(r.lookups, from, x, i), r.lookups);
      case _ =>
    }
  }

  lemma DelAtLookups(r: Reg, n: u32, port: u32)
    ensures DelAt(r, n, port).0 == r.(nodes := DelAt(r, n, port).0.nodes)
  {
  }

  lemma {:induction false} DelEachLookups(r: Reg, n: u32, j: nat)
    ensures DelEach(r, n, j).0 == r.(nodes := DelEach(r, n, j).0.nodes)
    decreases |Services(r.nodes, n)| - j
  {
    hide DelAt, Services;
    var t := Services(r.nodes, n);
    if j < |t| {
      if t[j].Live? {
        DelAtLookups(r, n, t[j].value.addr.port);
        DelEachLookups(DelAt(r, n, t[j].value.addr.port).0, n, j + 1);
      } else {
        DelEachLookups(r, n, j + 1);
      }
    }
  }

  lemma HandleFiled(r: Reg, from: Addr, msg: Msg)
    requires Filed(r)
    ensures Filed(Handle(r, from, msg).0) && Handle(r, from, msg).0.local == r.local
  {
    hide Sound, Handle, Services, TabFits, TableAfter, LookupsOk;
    HandleTable(r, from, msg);
    TableAfterFits(r, from, msg);
    LookupsKept(r, from, msg);
  }

  lemma {:induction false} RunFiled(r: Reg, ps: seq<Packet>)
    requires Filed(r)
    ensures Filed(After(r, ps)) && After(r, ps).local == r.local
    decreases |ps|
  {
    hide Filed, Handle;
    if ps != [] {
      HandleFiled(r, ps[0].from, ps[0].msg);
      RunFiled(Handle(r, ps[0].from, ps[0].msg).0, ps[1..]);
    }
  }

  lemma StartFiled(local: u32)
    ensures Filed(StartReg(local))
  {
    StartShows(local);
  }

  /** A search finds a record of the address, if it finds one. */
  lemma AtFiled(r: Reg, a: Addr)
    requires Filed(r) && At(r.nodes, a).Some?
    ensures var srv := At(r.nodes, a).value; srv.addr == a && srv.service != 0 && a.port != 0
  {
    hide Sound, Services, HashU32;
    var t := Services(r.nodes, a.node);
    var f := P.FindSlot(t, HashU32(a.port));
    assert RecordOk(t[f], a.node);
    HashInjective(t[f].value.addr.port, a.port);
  }

  /** The registry invariant, in every run: each slot of each table is filed under the
      hash of its port in the table of its node and has a service, so a search finds
      a record of its own address; every observer is local. */
  lemma EveryRecord(local: u32, ps: seq<Packet>, n: u32, j: nat, a: Addr)
    ensures var r := After(StartReg(local), ps);
            && (j < |Services(r.nodes, n)| ==> RecordOk(Services(r.nodes, n)[j], n))
            && (At(r.nodes, a).Some? ==>
                  At(r.nodes, a).value.addr == a && At(r.nodes, a).value.service != 0 && a.port != 0)
            && (forall l | l in r.lookups :: l.addr.node == local)
  {
    hide After, Sound, Services, At, RecordOk;
    StartFiled(local);
    RunFiled(StartReg(local), ps);
    var r := After(StartReg(local), ps);
    if At(r.nodes, a).Some? { AtFiled(r, a); }
    assert TabFits(Services(r.nodes, n), n);
  }

  // ---------------------------------------------------------------------
  // Exactly what each packet does to the searches

  lemma HandleAt(r: Reg, from: Addr, msg: Msg, b: Addr)
    requires Filed(r)
    ensures P.Linked(Services(r.nodes, b.node))
    ensures At(Handle(r, from, msg).0.nodes, b)
         == if b.node == from.node then P.Looked(TableAfter(r, from, msg), HashU32(b.port)) else At(r.nodes, b)
  {
    hide Handle, Services, TabFits, TableAfter, HashU32, P.Looked, P.Linked, NodesOk, LookupsOk;
    HandleTable(r, from, msg);
  }

  lemma RunReaches(local: u32, ps: seq<Packet>)
    ensures Filed(After(StartReg(local), ps)) && After(StartReg(local), ps).local == local
  {
    hide Filed, After;
    StartFiled(local);
    RunFiled(StartReg(local), ps);
  }

  /** An accepted registration, in every run: the record is found at its address, and
      every other address is found as before.  Only if the table is full, and so
      grows, an address that has several entries is found with the last of them. */
  lemma NewServerExactly(local: u32, ps: seq<Packet>, from: Addr, srv0: Server, b: Addr)
    requires !Refused(After(StartReg(local), ps), from, srv0)
    ensures var r := After(StartReg(local), ps);
            var srv, r1 := SenderOf(r, from, srv0), Handle(r, from, NewServer(srv0)).0;
            var t := Services(r.nodes, b.node);
            At(r1.nodes, b) == if b == srv.addr then Some(srv)
                               else if b.node == srv.addr.node && P.LiveCount(t) == |t| then Last(t, HashU32(b.port))
                               else At(r.nodes, b)
  {
    hide After, Handle, Filed, Services, HashU32, P.Put, P.Linked, P.LiveCount, Last, P.FindSlot;
    RunReaches(local, ps);
    var r := After(StartReg(local), ps);
    var srv := SenderOf(r, from, srv0);
    HandleAt(r, from, NewServer(srv0), b);
    var t := Services(r.nodes, b.node);
    if b.node == from.node {
      HashInjective(b.port, srv.addr.port);
      PutFound(t, HashU32(srv.addr.port), srv);
      if b.port != srv.addr.port {
        PutOthers(t, HashU32(srv.addr.port), srv, HashU32(b.port));
      }
    }
  }

  /** The packet is an accepted removal of the server at `a`. */
  predicate Removes(r: Reg, from: Addr, msg: Msg, a: Addr) {
    match msg
    case DelClient(n, p) => a == Addr(n, p) && !ClientRefused(r, from, n, p)
    case DelServer(srv) => a == SenderOf(r, from, srv).addr && from.node == a.node
    case _ => false
  }

  /** An accepted removal of a client or a server, local or remote, in every run: it
      leaves no server of the address exactly when the address had one entry at most.
      Every other address is found as before.  The observers of a removed client are
      gone, and no others. */
  lemma RemovalExactly(local: u32, ps: seq<Packet>, from: Addr, msg: Msg, a: Addr, b: Addr)
    requires Removes(After(StartReg(local), ps), from, msg, a)
    ensures var r := After(StartReg(local), ps);
            var r1 := Handle(r, from, msg).0;
            && (At(r1.nodes, a).None? <==> Once(Services(r.nodes, a.node), HashU32(a.port)))
            && (b != a ==> At(r1.nodes, b) == At(r.nodes, b))
            && (forall l :: l in r1.lookups <==> l in r.lookups && (msg.DelClient? ==> l.addr != a))
  {
    hide After, Handle, Filed, Services, HashU32, P.Removed, P.Linked, P.FindSlot, Once;
    RunReaches(local, ps);
    var r := After(StartReg(local), ps);
    var t := Services(r.nodes, a.node);
    HandleAt(r, from, msg, a);
    HandleAt(r, from, msg, b);
    RemovedExactly(t, HashU32(a.port));
    if b != a && b.node == a.node {
      HashInjective(b.port, a.port);
      RemovedOthers(t, HashU32(a.port), HashU32(b.port));
    }
    RemovalLookups(r, from, msg, a);
  }

  lemma RemovalLookups(r: Reg, from: Addr, msg: Msg, a: Addr)
    requires Removes(r, from, msg, a)
    ensures forall l :: l in Handle(r, from, msg).0.lookups <==> l in r.lookups && (msg.DelClient? ==> l.addr != a)
  {
    hide DelAt, NodeGet, SetServices, Services, Thinned;
    if msg.DelClient? {
      KeepThins(r.lookups, a);
      DelAtLookups(WithNode(r.(lookups := KeepLookups(r.lookups, a)), a.node), a.node, a.port);
    } else {
      DelAtLookups(WithNode(r, a.node), a.node, a.port);
    }
  }

  /** A bye, in every run: a server of the node is left exactly where the port has
      entries on both sides of its home, as many as on the side that has fewer.
      Servers of other nodes are found as before. */
  lemma ByeExactly(local: u32, ps: seq<Packet>, from: Addr, node: u32, b: Addr)
    ensures var r := After(StartReg(local), ps);
            var r1 := Handle(r, from, Bye(node)).0;
            var t, t1, k := Services(r.nodes, from.node), Services(r1.nodes, from.node), HashU32(b.port);
            var h := if |t| > 0 then P.Home(k, |t|) else 0;
            && (b.node == from.node ==> (At(r1.nodes, b).None? <==> !Wrapped(t, k)))
            && (b.node != from.node ==> At(r1.nodes, b) == At(r.nodes, b))
            && CountOf(t1, k, 0, |t1|) == Min(CountOf(t, k, 0, h), CountOf(t, k, h, |t|))
  {
    hide After, Handle, Filed, Services, HashU32, P.RemovedEach, P.Linked, P.FindSlot, Wrapped, CountOf;
    RunReaches(local, ps);
    var r := After(StartReg(local), ps);
    HandleAt(r, from, Bye(node), b);
    HandleAt(r, from, Bye(node), Addr(from.node, b.port));
    FiledTable(r, from.node);
    HandleTable(r, from, Bye(node));
    RemovedEachExactly(Services(r.nodes, from.node), HashU32(b.port));
  }

  lemma FiledTable(r: Reg, n: u32)
    requires Filed(r)
    ensures Sound(r.nodes) && TabFits(Services(r.nodes, n), n)
  {
  }
}

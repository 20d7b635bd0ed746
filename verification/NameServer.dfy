/**
 The name server as it runs: the tables of nodes and servers, the linked list of
 observers, and the packets sent.  Each handler is proved to do what the function
 of the registry does, for any contents of the tables.
 */
module NameServer {
  import opened Basics
  import opened Hash
  import opened LinkedList
  import opened NameService
  import opened ProbeTableExact
  import opened Registry
  import opened RegistryRuns
  import P = ProbeTable

  lemma NodeFound(nodes: Nodes, n: u32)
    ensures P.Looked(NodeGet(nodes, n), HashU32(n)).Some?
  {
    hide P.Put, P.Looked, HashU32;
    PutFound(nodes, HashU32(n), Node(n, []));
  }

  lemma AddOnly(nodes: Nodes, srv: Server)
    requires Sound(nodes)
    ensures var nodes0 := NodeGet(nodes, srv.addr.node);
            Only(nodes, SetServices(nodes0, srv.addr.node,
                                    P.Put(Services(nodes0, srv.addr.node), HashU32(srv.addr.port), srv)), srv.addr.node)
  {
    hide NodeGet, Services, SetServices, HashU32, P.Put, P.Linked;
    var n := srv.addr.node;
    var r := Reg(n, nodes, [], 0);
    WithNodeOnly(r, n, n);
    var t := Services(WithNode(r, n).nodes, n);
    P.PutIs(t, HashU32(srv.addr.port), srv);
    SetOnly(WithNode(r, n).nodes, n, P.Put(t, HashU32(srv.addr.port), srv));
  }

  class NameServer {
    const local: u32
    var nodes: Nodes
    const observers: List<Lookup>
    var nextId: nat
    var sent: seq<Out>

    ghost predicate Valid()
      reads this, observers, observers.repr
    {
      observers.Valid()
    }

    ghost function State(): Reg
      reads this, observers
    {
      Reg(local, nodes, Values(observers.nodes), nextId)
    }

    constructor (local: u32)
      ensures Valid() && State() == StartReg(local) && sent == [] && fresh(observers) && fresh(observers.repr)
    {
      this.local := local;
      nodes, nextId, sent := [], 0, [];
      observers := new List<Lookup>();
    }

    method NotifyObservers(srv: Server, isNew: bool)
      requires Valid()
      modifies this`sent
      ensures sent == old(sent) + Notifications(Values(observers.nodes), srv, isNew)
    {
      hide Matches;
      ghost var all := Values(observers.nodes);
      var iter := observers.head;
      ghost var i := 0;
      assert all[0..] == all;
      while iter != null
        invariant 0 <= i <= |observers.nodes| && iter == LinkedList.At(observers.nodes, i)
        invariant sent + Notifications(all[i..], srv, isNew) == old(sent) + Notifications(all, srv, isNew)
        decreases |observers.nodes| - i
      {
        assert LinkedAt(observers.nodes, i);
        assert all[i..][0] == iter.value && all[i..][1..] == all[i + 1..];
        if Matches(iter.value, srv) {
          sent := sent + [Notify(iter.value.id, iter.value.addr, isNew, Some(srv))];
        }
        iter := iter.next;
        i := i + 1;
      }
      assert all[i..] == [];
    }

    /** Registers a server; records without service or port are refused.  Whatever the
        tables hold, the record is then found at its address. */
    method ServerAdd(srv: Server) returns (ok: bool)
      modifies this`nodes
      ensures ok <==> srv.service != 0 && srv.addr.port != 0
      ensures ok ==> Registry.At(nodes, srv.addr) == Some(srv)
      ensures Sound(old(nodes)) ==> Only(old(nodes), nodes, srv.addr.node)
      ensures var nodes0 := NodeGet(old(nodes), srv.addr.node);
              nodes == if !ok then old(nodes)
                       else SetServices(nodes0, srv.addr.node,
                                        P.Put(Services(nodes0, srv.addr.node), HashU32(srv.addr.port), srv))
    {
      hide Sound, NodeGet, Services, SetServices, HashU32, P.Put, P.Linked;
      if srv.service == 0 || srv.addr.port == 0 { return false; }
      if Sound(nodes) { AddOnly(nodes, srv); }
      NodeFound(nodes, srv.addr.node);
      nodes := NodeGet(nodes, srv.addr.node);
      var t := Services(nodes, srv.addr.node);
      PutFound(t, HashU32(srv.addr.port), srv);
      nodes := SetServices(nodes, srv.addr.node, P.Put(t, HashU32(srv.addr.port), srv));
      ok := true;
    }

    /** The servers of a node in the order in which its table is visited. */
    method ServicesOf(n: u32) returns (l: seq<Server>)
      ensures l == Listed(Services(nodes, n))
    {
      l := [];
      var t := Services(nodes, n);
      for j := 0 to |t|
        invariant l == Listed(t[..j])
      {
        assert t[..j + 1][..j] == t[..j];
        if t[j].Live? { l := l + [t[j].value]; }
      }
      assert t[..|t|] == t;
    }

    /** Removes the server found at a port and tells the other nodes and the observers. */
    method DelServerAt(n: u32, port: u32)
      requires Valid()
      modifies this`nodes, this`sent
      ensures var (r, out) := DelAt(old(State()), n, port); State() == r && sent == old(sent) + out
    {
      hide Services, SetServices, P.Removed, P.Looked, Notifications, HashU32;
      var found := Registry.At(nodes, Addr(n, port));
      if found == None { return; }
      var srv := found.value;
      nodes := SetServices(nodes, n, P.Removed(Services(nodes, n), HashU32(port)));
      if srv.addr.node == local { sent := sent + [Broadcast(DelServer(srv))]; }
      NotifyObservers(srv, false);
    }

    /** Each server of a list to one address, as new. */
    method SendNews(l: seq<Server>, to: Addr)
      modifies this`sent
      ensures sent == old(sent) + Announce(l, to)
    {
      for i := 0 to |l|
        invariant sent + Announce(l[i..], to) == old(sent) + Announce(l, to)
      {
        assert l[i..][1..] == l[i + 1..];
        sent := sent + [Send(to, NewServer(l[i]))];
      }
      assert l[|l|..] == [];
    }

    /** One message to each server of a list. */
    method SendEach(l: seq<Server>, msg: Msg)
      modifies this`sent
      ensures sent == old(sent) + ToEach(l, msg)
    {
      for i := 0 to |l|
        invariant sent + ToEach(l[i..], msg) == old(sent) + ToEach(l, msg)
      {
        assert l[i..][1..] == l[i + 1..];
        sent := sent + [Send(l[i].addr, msg)];
      }
      assert l[|l|..] == [];
    }

    /** Each server of a list to a new observer. */
    method SendAnswer(l: seq<Server>, id: nat, to: Addr)
      modifies this`sent
      ensures sent == old(sent) + Answer(l, id, to)
    {
      for i := 0 to |l|
        invariant sent + Answer(l[i..], id, to) == old(sent) + Answer(l, id, to)
      {
        assert l[i..][1..] == l[i + 1..];
        sent := sent + [Notify(id, to, true, Some(l[i]))];
      }
      assert l[|l|..] == [];
    }

    method HandleHello(from: Addr)
      requires Valid()
      modifies this`nodes, this`sent
      ensures var (r, out) := HelloReg(old(State()), from); State() == r && sent == old(sent) + out
    {
      hide Announce, Listed, NodeGet, Services;
      sent := sent + [Send(from, Hello)];
      nodes := NodeGet(nodes, local);
      var l := ServicesOf(local);
      SendNews(l, from);
    }

    /** `msg` to every local server. */
    method SendLocal(msg: Msg)
      requires Valid()
      modifies this`nodes, this`sent
      ensures var (r, out) := TellLocal(old(State()), msg); State() == r && sent == old(sent) + out
    {
      hide ToEach, Listed, NodeGet, Services;
      nodes := NodeGet(nodes, local);
      var l := ServicesOf(local);
      SendEach(l, msg);
    }

    /** Removes the servers of a node while visiting its table. */
    method DelNode(n: u32)
      requires Valid()
      modifies this`nodes, this`sent
      ensures var (r, out) := DelEach(old(State()), n, 0); State() == r && sent == old(sent) + out
    {
      hide DelAt, Services;
      var j := 0;
      while j < |Services(nodes, n)|
        invariant 0 <= j
        invariant DelEach(State(), n, j).0 == DelEach(old(State()), n, 0).0
        invariant sent + DelEach(State(), n, j).1 == old(sent) + DelEach(old(State()), n, 0).1
        decreases |Services(nodes, n)| - j
      {
        var x := Services(nodes, n)[j];
        if x.Live? {
          DelServerAt(n, x.value.addr.port);
        }
        j := j + 1;
      }
    }

    method HandleBye(from: Addr)
      requires Valid()
      modifies this`nodes, this`sent
      ensures var (r, out) := ByeReg(old(State()), from); State() == r && sent == old(sent) + out
    {
      hide DelEach, TellLocal, NodeGet;
      nodes := NodeGet(nodes, from.node);
      DelNode(from.node);
      SendLocal(Bye(from.node));
    }

    method HandleDelClient(from: Addr, node: u32, port: u32)
      requires Valid()
      modifies this, observers, observers.repr
      ensures Valid() && observers.repr == old(observers.repr)
      ensures var (r, out) := DelClientReg(old(State()), from, node, port); State() == r && sent == old(sent) + out
    {
      hide DelAt, TellLocal, NodeGet, KeepLookups, Kept;
      if from.node != node { return; }
      if from.node == local && from.port != port { return; }
      RemoveClient(Addr(node, port));
      nodes := NodeGet(nodes, node);
      DelServerAt(node, port);
      SendLocal(DelClient(node, port));
    }

    method HandleNewServer(from: Addr, srv0: Server)
      requires Valid()
      modifies this`nodes, this`sent
      ensures var (r, out) := NewServerReg(old(State()), from, srv0); State() == r && sent == old(sent) + out
    {
      hide NodeGet, Services, SetServices, P.Put, Notifications;
      var srv := if from.node == local then srv0.(addr := from) else srv0;
      if from.node != srv.addr.node { return; }
      var ok := ServerAdd(srv);
      if !ok { return; }
      if srv.addr.node == local { sent := sent + [Broadcast(NewServer(srv))]; }
      NotifyObservers(srv, true);
    }

    method HandleDelServer(from: Addr, srv0: Server)
      requires Valid()
      modifies this`nodes, this`sent
      ensures var (r, out) := DelServerReg(old(State()), from, srv0); State() == r && sent == old(sent) + out
    {
      hide DelAt, NodeGet;
      var a := if from.node == local then from else srv0.addr;
      if from.node != a.node { return; }
      if from.node == local && from.port != a.port { return; }
      nodes := NodeGet(nodes, a.node);
      DelServerAt(a.node, a.port);
    }

    method HandleNewLookup(from: Addr, service: bv32, instance: bv32)
      requires Valid()
      modifies this, observers, observers.repr
      ensures Valid() && fresh(observers.repr - old(observers.repr))
      ensures var (r, out) := NewLookupReg(old(State()), from, service, instance); State() == r && sent == old(sent) + out
    {
      hide Answer, Selected, AllServers;
      if from.node != local { return; }
      var l := Lookup(nextId, service, instance, from);
      var node := new LinkedList.Node<Lookup>(l);
      observers.Append(node);
      nextId := nextId + 1;
      assert Values(observers.nodes) == old(Values(observers.nodes)) + [l];
      var found := Query(Filter(service, instance, 0));
      SendAnswer(found, l.id, from);
      sent := sent + [Notify(l.id, from, true, None)];
    }

    /** The servers of all nodes that pass a filter. */
    method Query(f: Filter) returns (found: seq<Server>)
      ensures found == Selected(AllServers(nodes), f)
    {
      hide ServerMatch, Selected, Listed;
      found := [];
      NoneSelected(f);
      for i := 0 to |nodes|
        invariant found == Selected(AllServers(nodes[..i]), f)
      {
        assert nodes[..i + 1][..i] == nodes[..i];
        ghost var before := AllServers(nodes[..i]);
        if nodes[i].Live? {
          found := Select(found, nodes[i].value.services, f, before);
        } else {
          assert before + [] == before;
        }
      }
      assert nodes[..|nodes|] == nodes;
    }

    /** Adds the servers of one table that pass a filter. */
    method Select(l: seq<Server>, t: Tab, f: Filter, ghost before: seq<Server>) returns (found: seq<Server>)
      requires l == Selected(before, f)
      ensures found == Selected(before + Listed(t), f)
    {
      hide ServerMatch;
      found := l;
      assert before + Listed(t[..0]) == before;
      for j := 0 to |t|
        invariant found == Selected(before + Listed(t[..j]), f)
      {
        ghost var l := before + Listed(t[..j]);
        assert t[..j + 1][..j] == t[..j];
        if t[j].Live? {
          assert before + Listed(t[..j + 1]) == l + [t[j].value] && (l + [t[j].value])[..|l|] == l;
          assert Selected(l, f) + [] == Selected(l, f);
          if ServerMatch(t[j].value, f) { found := found + [t[j].value]; }
        } else {
          assert Listed(t[..j + 1]) == Listed(t[..j]);
        }
      }
      assert t[..|t|] == t;
    }

    /** Drops the observers of a closed client. */
    method RemoveClient(a: Addr)
      requires Valid()
      modifies observers, observers.repr
      ensures Valid() && observers.repr == old(observers.repr)
      ensures Values(observers.nodes) == KeepLookups(old(Values(observers.nodes)), a)
    {
      hide Kept;
      var drop := (l: Lookup) => l.addr == a;
      KeptKeeps(observers.nodes, drop, a);
      observers.RemoveWhere(drop);
    }

    method HandleDelLookup(from: Addr, service: bv32, instance: bv32)
      requires Valid()
      modifies observers, observers.repr
      ensures Valid() && observers.repr == old(observers.repr)
      ensures Values(observers.nodes) == DropLookups(old(Values(observers.nodes)), from, service, instance)
    {
      hide Kept;
      var drop := (l: Lookup) => Cancelled(l, from, service, instance);
      KeptDrops(observers.nodes, drop, from, service, instance);
      observers.RemoveWhere(drop);
    }

    /** One received packet. */
    method Receive(from: Addr, msg: Msg)
      requires Valid()
      modifies this, observers, observers.repr
      ensures Valid() && fresh(observers.repr - old(observers.repr))
      ensures var (r, out) := Handle(old(State()), from, msg); State() == r && sent == old(sent) + out
    {
      hide HelloReg, ByeReg, DelClientReg, NewServerReg, DelServerReg, NewLookupReg, DropLookups;
      match msg {
        case Hello => HandleHello(from);
        case Bye(_) => HandleBye(from);
        case DelClient(n, p) => HandleDelClient(from, n, p);
        case NewServer(srv) => HandleNewServer(from, srv);
        case DelServer(srv) => HandleDelServer(from, srv);
        case NewLookup(x, i) => HandleNewLookup(from, x, i);
        case DelLookup(x, i) => HandleDelLookup(from, x, i);
        case Other =>
      }
    }
  }

  // ---------------------------------------------------------------------
  // The list of observers

  lemma {:induction false} KeptKeeps(s: seq<LinkedList.Node<Lookup>>, drop: Lookup -> bool, a: Addr)
    requires forall l :: drop(l) <==> l.addr == a
    ensures Values(Kept(s, drop)) == KeepLookups(Values(s), a)
    decreases |s|
  {
    if s != [] {
      assert Values(s)[1..] == Values(s[1..]);
      KeptKeeps(s[1..], drop, a);
    }
  }

  lemma {:induction false} KeptDrops(s: seq<LinkedList.Node<Lookup>>, drop: Lookup -> bool, from: Addr, service: bv32, instance: bv32)
    requires forall l :: drop(l) <==> Cancelled(l, from, service, instance)
    ensures Values(Kept(s, drop)) == DropLookups(Values(s), from, service, instance)
    decreases |s|
  {
    if s != [] {
      assert Values(s)[1..] == Values(s[1..]);
      KeptDrops(s[1..], drop, from, service, instance);
    }
  }

  lemma NoneSelected(f: Filter)
    ensures Selected([], f) == []
  {
  }
}

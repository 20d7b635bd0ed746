/**
 When the tables of the registry are maps, each handler is a step of the protocol.
 */
module RegistryRefines {
  import opened Basics
  import opened Hash
  import opened NameService
  import opened Registry
  import P = ProbeTable

  /** The table of nodes is a map from hashes to nodes, without tombstones. */
  ghost predicate NodesOk(nodes: Nodes) {
    && P.Linked(nodes) && P.Unique(nodes) && P.Untouched(nodes)
    && forall k | k in P.Contents(nodes) :: k == HashU32(P.Contents(nodes)[k].id)
  }

  /** A table of servers is a map from hashes of ports to servers on these ports. */
  ghost predicate TabOk(t: Tab, n: u32) {
    P.Linked(t) && P.Unique(t) && Keyed(P.Contents(t), n)
  }

  predicate Keyed(m: map<nat, Server>, n: u32) {
    forall k | k in m :: k == HashU32(m[k].addr.port) && m[k].addr.node == n
  }

  ghost predicate Good(nodes: Nodes) {
    NodesOk(nodes) && forall n: u32 :: TabOk(Services(nodes, n), n)
  }

  /** The registry shows the protocol state: a search for any address finds what
      the state has there. */
  ghost predicate Shows(r: Reg, s: State) {
    && r.local == s.local && r.lookups == s.lookups && r.nextId == s.nextId
    && Good(r.nodes) && forall a: Addr :: P.Get(s.servers, a) == At(r.nodes, a)
  }

  // ---------------------------------------------------------------------
  // The table of nodes

  /** Getting a node changes no table of servers. */
  lemma NodeGetOk(nodes: Nodes, n: u32)
    requires NodesOk(nodes)
    ensures NodesOk(NodeGet(nodes, n)) && P.Looked(NodeGet(nodes, n), HashU32(n)).Some?
    ensures forall m: u32 :: Services(NodeGet(nodes, n), m) == Services(nodes, m)
  {
    hide P.Linked, P.Unique, P.Contents, P.Clean, P.Put, P.Looked, HashU32;
    var k, v := HashU32(n), Node(n, []);
    P.LookedIs(nodes, k);
    if P.Looked(nodes, k).None? {
      P.UntouchedIsClean(nodes, k);
      P.PutIs(nodes, k, v);
      var nodes1 := P.Put(nodes, k, v);
      P.LookedIs(nodes1, k);
      forall m: u32 ensures Services(nodes1, m) == Services(nodes, m) {
        P.LookedIs(nodes, HashU32(m));
        P.LookedIs(nodes1, HashU32(m));
        HashInjective(m, n);
      }
    }
  }

  /** Setting a node's table changes that table only. */
  lemma SetServicesOk(nodes: Nodes, n: u32, t: Tab)
    requires NodesOk(nodes) && P.Looked(nodes, HashU32(n)).Some?
    ensures NodesOk(SetServices(nodes, n, t)) && P.Looked(SetServices(nodes, n, t), HashU32(n)).Some?
    ensures forall m: u32 :: Services(SetServices(nodes, n, t), m) == if m == n then t else Services(nodes, m)
  {
    hide P.Linked, P.Unique, P.Contents, P.FindSlot, HashU32;
    var j := P.FindSlot(nodes, HashU32(n));
    P.ReplacedValue(nodes, j, Node(n, t));
    var nodes1 := SetServices(nodes, n, t);
    forall m: u32 ensures Services(nodes1, m) == if m == n then t else Services(nodes, m) {
      P.LookedIs(nodes, HashU32(m));
      P.LookedIs(nodes1, HashU32(m));
      HashInjective(m, n);
    }
  }

  // ---------------------------------------------------------------------
  // The tables of servers

  lemma AtIs(nodes: Nodes, a: Addr)
    requires Good(nodes)
    ensures TabOk(Services(nodes, a.node), a.node)
    ensures At(nodes, a) == P.Get(P.Contents(Services(nodes, a.node)), HashU32(a.port))
  {
    hide P.Linked, P.Unique, P.Contents, NodesOk, HashU32;
    P.LookedIs(Services(nodes, a.node), HashU32(a.port));
  }

  lemma WithNodeShows(r: Reg, s: State, n: u32)
    requires Shows(r, s)
    ensures Shows(WithNode(r, n), s) && P.Looked(WithNode(r, n).nodes, HashU32(n)).Some?
    ensures forall m: u32 :: Services(WithNode(r, n).nodes, m) == Services(r.nodes, m)
  {
    hide NodesOk, TabOk, HashU32, Services, NodeGet;
    NodeGetOk(r.nodes, n);
  }

  lemma SetGood(nodes: Nodes, n: u32, t: Tab)
    requires Good(nodes) && P.Looked(nodes, HashU32(n)).Some?
    ensures Good(SetServices(nodes, n, t)) <==> TabOk(t, n)
    ensures P.Looked(SetServices(nodes, n, t), HashU32(n)).Some?
    ensures forall a: Addr :: At(SetServices(nodes, n, t), a) ==
              if a.node == n then P.Looked(t, HashU32(a.port)) else At(nodes, a)
  {
    hide NodesOk, TabOk, HashU32, Services, SetServices;
    SetServicesOk(nodes, n, t);
    assert Services(SetServices(nodes, n, t), n) == t;
  }

  /** Removing the server at a port. */
  lemma DelAtShows(r: Reg, s: State, n: u32, port: u32)
    requires Shows(r, s) && P.Looked(r.nodes, HashU32(n)).Some?
    ensures var (r1, out) := DelAt(r, n, port);
            var s1 := s.(servers := s.servers - {Addr(n, port)});
            Shows(r1, s1) && ServerDel(s, Addr(n, port), s1, out) && P.Looked(r1.nodes, HashU32(n)).Some?
            && r1 == r.(nodes := r1.nodes)
  {
    hide P.Linked, P.Unique, P.Contents, P.Removed, NodesOk, HashU32, Services, SetServices;
    var a := Addr(n, port);
    AtIs(r.nodes, a);
    assert P.Get(s.servers, a) == At(r.nodes, a);
    if a in s.servers {
      var t := Services(r.nodes, n);
      var t1 := P.Removed(t, HashU32(port));
      P.RemovedIs(t, HashU32(port));
      assert Keyed(P.Contents(t1), n);
      SetGood(r.nodes, n, t1);
      forall b: Addr ensures P.Get(s.servers - {a}, b) == At(SetServices(r.nodes, n, t1), b) {
        assert P.Get(s.servers, b) == At(r.nodes, b);
        if b.node == n {
          AtIs(r.nodes, b);
          P.LookedIs(t1, HashU32(b.port));
          HashInjective(b.port, port);
        }
      }
      assert DelOut(Front(r), s.servers[a]) == DelOut(s, s.servers[a]);
    } else {
      assert s.servers - {a} == s.servers;
    }
  }

  /** A registration leaves tables that are maps exactly when no tombstone comes
      before the port's old record, and then the state with the new record. */
  lemma PutShows(r: Reg, s: State, srv: Server)
    requires Shows(r, s) && P.Looked(r.nodes, HashU32(srv.addr.node)).Some?
    ensures var t := Services(r.nodes, srv.addr.node);
            var nodes1 := SetServices(r.nodes, srv.addr.node, P.Put(t, HashU32(srv.addr.port), srv));
            && (Good(nodes1) <==> P.Clean(t, HashU32(srv.addr.port)))
            && (Good(nodes1) ==> Shows(r.(nodes := nodes1), s.(servers := s.servers[srv.addr := srv])))
  {
    hide P.Linked, P.Unique, P.Contents, P.Clean, P.Put, NodesOk, HashU32, Services, SetServices;
    var n, k := srv.addr.node, HashU32(srv.addr.port);
    AtIs(r.nodes, srv.addr);
    var t := Services(r.nodes, n);
    P.PutIs(t, k, srv);
    var t1 := P.Put(t, k, srv);
    assert P.Unique(t1) ==> Keyed(P.Contents(t1), n);
    SetGood(r.nodes, n, t1);
    if P.Unique(t1) {
      forall b: Addr ensures P.Get(s.servers[srv.addr := srv], b) == At(SetServices(r.nodes, n, t1), b) {
        assert P.Get(s.servers, b) == At(r.nodes, b);
        if b.node == n {
          AtIs(r.nodes, b);
          P.LookedIs(t1, HashU32(b.port));
          HashInjective(b.port, srv.addr.port);
        }
      }
    }
  }

  // ---------------------------------------------------------------------
  // Visiting the servers of a node

  lemma {:induction false} ListedIsListing(t: Tab)
    ensures |Listed(t)| == |P.Listing(t)|
    ensures forall i | 0 <= i < |Listed(t)| :: Listed(t)[i] == P.Listing(t)[i].1
    decreases |t|
  {
    if |t| > 0 {
      ListedIsListing(t[..|t| - 1]);
    }
  }

  /** The slots list each server of the table once. */
  lemma ListedIs(t: Tab, n: u32)
    requires TabOk(t, n)
    ensures forall x | x in Listed(t) ::
              x.addr.node == n && P.Get(P.Contents(t), HashU32(x.addr.port)) == Some(x)
    ensures forall k | k in P.Contents(t) :: P.Contents(t)[k] in Listed(t)
    ensures forall i, j | 0 <= i < j < |Listed(t)| :: Listed(t)[i].addr != Listed(t)[j].addr
  {
    hide P.Contents, P.Listing, Listed, HashU32;
    var m, l := P.Contents(t), P.Listing(t);
    P.ListingIsContents(t);
    ListedIsListing(t);
    forall i | 0 <= i < |l| ensures l[i].0 in m && m[l[i].0] == Listed(t)[i] && l[i].0 == HashU32(Listed(t)[i].addr.port) {
      assert l[i] in l;
    }
    forall k | k in m ensures m[k] in Listed(t) {
      var i :| 0 <= i < |l| && l[i] == (k, m[k]);
      assert Listed(t)[i] == m[k];
    }
  }

  lemma ServicesList(r: Reg, s: State, n: u32)
    requires Shows(r, s)
    ensures Lists(Listed(Services(r.nodes, n)), OfNode(s.servers, n))
  {
    hide P.Contents, P.Linked, P.Unique, NodesOk, HashU32, Services, Listed;
    var t := Services(r.nodes, n);
    ListedIs(t, n);
    forall x | x in Listed(t) ensures P.Get(s.servers, x.addr) == Some(x) {
      AtIs(r.nodes, x.addr);
    }
    forall a | a in s.servers && a.node == n ensures s.servers[a] in Listed(t) {
      AtIs(r.nodes, a);
      assert P.Get(s.servers, a) == At(r.nodes, a);
    }
  }

  // ---------------------------------------------------------------------
  // Removing the servers of a node while visiting them

  lemma {:induction false} ListedConcat(t: Tab, u: Tab)
    ensures Listed(t + u) == Listed(t) + Listed(u)
    decreases |u|
  {
    if u == [] {
      assert t + u == t;
    } else {
      var k := |u| - 1;
      assert (t + u)[..|t + u| - 1] == t + u[..k];
      ListedConcat(t, u[..k]);
    }
  }

  lemma ListedCons(t: Tab, j: nat)
    requires j < |t|
    ensures Listed(t[j..]) == (if t[j].Live? then [t[j].value] else []) + Listed(t[j + 1..])
  {
    assert t[j..] == [t[j]] + t[j + 1..];
    ListedConcat([t[j]], t[j + 1..]);
    assert [t[j]][..0] == [];
  }

  lemma {:induction false} SameDelOuts(s: State, t: State, l: seq<Server>)
    requires s.local == t.local && s.lookups == t.lookups
    ensures DelOuts(s, l) == DelOuts(t, l)
    decreases |l|
  {
    if l != [] {
      SameDelOuts(s, t, l[1..]);
    }
  }

  /** The visited server is the one that the search for its port finds. */
  lemma VisitedFound(r: Reg, s: State, n: u32, j: nat)
    requires Shows(r, s) && j < |Services(r.nodes, n)| && Services(r.nodes, n)[j].Live?
    ensures var t := Services(r.nodes, n);
            var srv := t[j].value;
            && srv.addr.node == n && P.Get(s.servers, srv.addr) == Some(srv)
            && P.Removed(t, HashU32(srv.addr.port)) == t[j := P.Deleted]
  {
    hide P.Linked, P.Contents, P.FindSlot, NodesOk, HashU32, Services;
    var t := Services(r.nodes, n);
    var srv := t[j].value;
    P.EntryIn(t, j);
    AtIs(r.nodes, srv.addr);
    P.FindIs(t, t[j].key);
    assert P.Holds(t, j, t[j].key);
  }

  lemma {:induction false} DelEachShows(r: Reg, s: State, n: u32, j: nat)
    requires Shows(r, s) && P.Looked(r.nodes, HashU32(n)).Some? && j <= |Services(r.nodes, n)|
    requires forall k | 0 <= k < j :: !Services(r.nodes, n)[k].Live?
    ensures var (r1, out) := DelEach(r, n, j);
            Shows(r1, s.(servers := Without(s.servers, n))) && out == DelOuts(s, Listed(Services(r.nodes, n)[j..]))
    decreases |Services(r.nodes, n)| - j
  {
    hide Shows, HashU32, Services, DelAt, DelOut, Listed;
    var t := Services(r.nodes, n);
    if j == |t| {
      assert t[j..] == [];
      NoServices(r, s, n);
    } else {
      ListedCons(t, j);
      if t[j].Live? {
        var srv := t[j].value;
        var a := srv.addr;
        VisitedFound(r, s, n, j);
        DelAtShows(r, s, n, a.port);
        var (r1, out1) := DelAt(r, n, a.port);
        var s1 := s.(servers := s.servers - {a});
        var t1 := Services(r1.nodes, n);
        AfterDelAt(r, s, n, j);
        DelEachShows(r1, s1, n, j + 1);
        assert t1[j + 1..] == t[j + 1..];
        SameDelOuts(s1, s, Listed(t[j + 1..]));
        assert Without(s1.servers, n) == Without(s.servers, n);
        var rest := Listed(t[j + 1..]);
        assert ([srv] + rest)[1..] == rest;
      } else {
        DelEachShows(r, s, n, j + 1);
        assert [] + Listed(t[j + 1..]) == Listed(t[j + 1..]);
      }
    }
  }

  lemma AfterDelAt(r: Reg, s: State, n: u32, j: nat)
    requires Shows(r, s) && P.Looked(r.nodes, HashU32(n)).Some?
    requires j < |Services(r.nodes, n)| && Services(r.nodes, n)[j].Live?
    ensures var t := Services(r.nodes, n);
            Services(DelAt(r, n, t[j].value.addr.port).0.nodes, n) == t[j := P.Deleted]
  {
    hide HashU32, Services, SetServices, Good, P.Removed;
    VisitedFound(r, s, n, j);
    var a := Services(r.nodes, n)[j].value.addr;
    assert P.Get(s.servers, a) == At(r.nodes, a);
  }

  lemma NoServices(r: Reg, s: State, n: u32)
    requires Shows(r, s) && forall k | 0 <= k < |Services(r.nodes, n)| :: !Services(r.nodes, n)[k].Live?
    ensures s.(servers := Without(s.servers, n)) == s && Listed([]) == [] && Shows(r, s)
  {
    hide P.Linked, NodesOk, HashU32, Services, P.Contents;
    forall a | a in s.servers ensures a.node != n {
      assert P.Get(s.servers, a) == At(r.nodes, a);
      AtIs(r.nodes, a);
      if a.node == n {
        P.DeadIsEmpty(Services(r.nodes, n));
      }
    }
    assert Without(s.servers, n) == s.servers;
  }

  // ---------------------------------------------------------------------
  // Visiting all servers

  /** A live slot of the node table is found by its node's id, and no other is. */
  lemma NodeSlot(nodes: Nodes, j: nat)
    requires Good(nodes) && j < |nodes| && nodes[j].Live?
    ensures var n := nodes[j].value.id;
            P.FindSlot(nodes, HashU32(n)) == j && Services(nodes, n) == nodes[j].value.services
  {
    hide P.Linked, P.Contents, TabOk, HashU32, P.FindSlot;
    P.EntryIn(nodes, j);
    P.FindIs(nodes, nodes[j].key);
    assert P.Holds(nodes, j, nodes[j].key);
  }

  /** The slot of an address's node. */
  function SlotOf(nodes: Nodes, a: Addr): nat {
    P.FindSlot(nodes, HashU32(a.node))
  }

  /** The servers of the first `j` node slots. */
  ghost predicate CoversTo(nodes: Nodes, l: seq<Server>, j: nat) {
    && (forall x | x in l :: At(nodes, x.addr) == Some(x) && SlotOf(nodes, x.addr) < j)
    && (forall a: Addr | At(nodes, a).Some? && SlotOf(nodes, a) < j :: At(nodes, a).value in l)
    && Apart(l)
  }

  predicate Apart(l: seq<Server>) {
    forall i, j | 0 <= i < j < |l| :: l[i].addr != l[j].addr
  }

  lemma ApartConcat(l: seq<Server>, k: seq<Server>)
    requires Apart(l) && Apart(k) && forall x, y | x in l && y in k :: x.addr != y.addr
    ensures Apart(l + k)
  {
    assert forall i | 0 <= i < |l| :: l[i] in l;
    assert forall i | 0 <= i < |k| :: k[i] in k;
  }

  lemma CoversNode(nodes: Nodes, l: seq<Server>, j: nat)
    requires Good(nodes) && j < |nodes| && CoversTo(nodes, l, j)
    ensures CoversTo(nodes, l + (if nodes[j].Live? then Listed(nodes[j].value.services) else []), j + 1)
  {
    hide P.Linked, P.Unique, P.Contents, NodesOk, HashU32, Listed, P.FindSlot, Services, At;
    if nodes[j].Live? {
      var n, t := nodes[j].value.id, nodes[j].value.services;
      NodeSlot(nodes, j);
      ListedIs(t, n);
      forall x | x in Listed(t) ensures At(nodes, x.addr) == Some(x) && SlotOf(nodes, x.addr) == j {
        AtIs(nodes, x.addr);
      }
      forall a: Addr | At(nodes, a).Some? && SlotOf(nodes, a) == j ensures At(nodes, a).value in Listed(t) {
        AtIs(nodes, a);
        SameNode(nodes, a, j);
      }
      ApartConcat(l, Listed(t));
    } else {
      assert l + [] == l;
    }
  }

  lemma SameNode(nodes: Nodes, a: Addr, j: nat)
    requires Good(nodes) && j < |nodes| && SlotOf(nodes, a) == j
    ensures nodes[j].Live? && nodes[j].value.id == a.node
  {
    hide P.Linked, P.Contents, TabOk, HashU32, P.FindSlot;
    P.EntryIn(nodes, j);
    HashInjective(nodes[j].value.id, a.node);
  }

  lemma {:induction false} AllServersCover(nodes: Nodes, j: nat)
    requires Good(nodes) && j <= |nodes|
    ensures CoversTo(nodes, AllServers(nodes[..j]), j)
    decreases j
  {
    hide Good, CoversTo;
    if j > 0 {
      AllServersCover(nodes, j - 1);
      assert nodes[..j][..j - 1] == nodes[..j - 1];
      CoversNode(nodes, AllServers(nodes[..j - 1]), j - 1);
    } else {
      NothingCovered(nodes);
    }
  }

  lemma NothingCovered(nodes: Nodes)
    ensures CoversTo(nodes, AllServers(nodes[..0]), 0)
  {
  }

  lemma {:induction false} SelectedIs(l: seq<Server>, f: Filter)
    requires Apart(l)
    ensures forall x :: x in Selected(l, f) <==> x in l && ServerMatch(x, f)
    ensures Apart(Selected(l, f))
    decreases |l|
  {
    hide ServerMatch;
    if l != [] {
      var k := |l| - 1;
      assert l == l[..k] + [l[k]];
      assert forall x | x in l[..k] :: x.addr != l[k].addr;
      SelectedIs(l[..k], f);
      if ServerMatch(l[k], f) {
        ApartConcat(Selected(l[..k], f), [l[k]]);
      } else {
        assert Selected(l[..k], f) + [] == Selected(l[..k], f);
      }
    }
  }

  /** The answer to a lookup is the matching servers, each once. */
  lemma QueryLists(r: Reg, s: State, l: Lookup)
    requires Shows(r, s)
    ensures Lists(Selected(AllServers(r.nodes), Filter(l.service, l.instance, 0)), Matching(s.servers, l))
  {
    hide Good, At, HashU32, P.FindSlot, AllServers, Selected, ServerMatch, Matches;
    var all, f := AllServers(r.nodes), Filter(l.service, l.instance, 0);
    AllServersCover(r.nodes, |r.nodes|) by { assert Good(r.nodes); }
    assert r.nodes[..|r.nodes|] == r.nodes;
    SelectedIs(all, f);
    var found := Selected(all, f);
    forall x | x in found ensures P.Get(s.servers, x.addr) == Some(x) && Matches(l, x) {
      MatchAgrees(l, x);
      assert P.Get(s.servers, x.addr) == At(r.nodes, x.addr);
    }
    forall a | a in s.servers && Matches(l, s.servers[a]) ensures s.servers[a] in found {
      assert P.Get(s.servers, a) == At(r.nodes, a);
      SlotInside(r.nodes, a);
      MatchAgrees(l, s.servers[a]);
    }
  }

  lemma SlotInside(nodes: Nodes, a: Addr)
    requires At(nodes, a).Some?
    ensures SlotOf(nodes, a) < |nodes|
  {
  }

  // ---------------------------------------------------------------------
  // Handlers

  /** The packet does not put a port behind a tombstone. */
  ghost predicate CleanPacket(r: Reg, from: Addr, msg: Msg) {
    msg.NewServer? && !Refused(r, from, msg.srv) ==>
      var a := SenderOf(r, from, msg.srv).addr;
      P.Clean(Services(r.nodes, a.node), HashU32(a.port))
  }

  lemma HelloShows(r: Reg, s: State, from: Addr)
    requires Shows(r, s)
    ensures var (r1, out) := HelloReg(r, from); Shows(r1, s) && OnHello(s, from, s, out)
  {
    hide Shows, Services, NodeGet, Listed, Lists, OfNode, Announce;
    WithNodeShows(r, s, r.local);
    assert r.local == s.local by { Fronts(r, s); }
    ServicesList(WithNode(r, r.local), s, r.local);
  }

  lemma Fronts(r: Reg, s: State)
    requires Shows(r, s)
    ensures r.local == s.local && r.lookups == s.lookups && r.nextId == s.nextId
  {
  }

  lemma TellLocalShows(r: Reg, s: State, msg: Msg)
    requires Shows(r, s)
    ensures var (r1, out) := TellLocal(r, msg);
            Shows(r1, s) && out == ToEach(Listed(Services(r1.nodes, r.local)), msg)
            && Lists(Listed(Services(r1.nodes, r.local)), OfNode(s.servers, s.local))
  {
    hide Shows, Services, NodeGet, Listed, Lists, OfNode, ToEach;
    WithNodeShows(r, s, r.local);
    Fronts(r, s);
    ServicesList(WithNode(r, r.local), s, r.local);
  }

  lemma ByeShows(r: Reg, s: State, from: Addr)
    requires Shows(r, s)
    ensures var (r1, out) := ByeReg(r, from);
            var s1 := s.(servers := Without(s.servers, from.node));
            Shows(r1, s1) && OnBye(s, from, s1, out)
  {
    hide Shows, Services, NodeGet, Listed, Lists, OfNode, ToEach, DelOuts, DelEach, TellLocal, Without;
    var n := from.node;
    var r0 := WithNode(r, n);
    WithNodeShows(r, s, n);
    DelEachShows(r0, s, n, 0);
    var gone := Listed(Services(r0.nodes, n));
    assert Services(r0.nodes, n)[0..] == Services(r0.nodes, n);
    ServicesList(r0, s, n);
    var (r1, out1) := DelEach(r0, n, 0);
    var s1 := s.(servers := Without(s.servers, n));
    TellLocalShows(r1, s1, Bye(n));
    var (r2, out2) := TellLocal(r1, Bye(n));
    Fronts(r, s);
    assert out1 == DelOuts(s, gone);
  }

  lemma DelClientShows(r: Reg, s: State, from: Addr, node: u32, port: u32) returns (s1: State)
    requires Shows(r, s)
    ensures var (r1, out) := DelClientReg(r, from, node, port);
            Shows(r1, s1) && OnDelClient(s, from, node, port, s1, out)
  {
    hide Services, NodeGet, Listed, Lists, OfNode, ToEach, DelAt, TellLocal, KeepLookups, ServerDel, Good, At;
    s1 := s;
    if !(from.node != node || (from.node == r.local && from.port != port)) {
      var a := Addr(node, port);
      var r0 := r.(lookups := KeepLookups(r.lookups, a));
      var s0 := s.(lookups := KeepLookups(s.lookups, a));
      assert Shows(r0, s0);
      WithNodeShows(r0, s0, node);
      DelAtShows(WithNode(r0, node), s0, node, port);
      var (r1, out1) := DelAt(WithNode(r0, node), node, port);
      s1 := s0.(servers := s0.servers - {a});
      TellLocalShows(r1, s1, DelClient(node, port));
      var (r2, out2) := TellLocal(r1, DelClient(node, port));
      assert ServerDel(s0, a, s1, out1);
    }
  }

  lemma NewServerShows(r: Reg, s: State, from: Addr, srv0: Server) returns (s1: State)
    requires Shows(r, s)
    ensures var (r1, out) := NewServerReg(r, from, srv0);
            && (Good(r1.nodes) <==> CleanPacket(r, from, NewServer(srv0)))
            && (Good(r1.nodes) ==> Shows(r1, s1) && OnNewServer(s, from, srv0, s1, out))
  {
    hide Services, NodeGet, SetServices, P.Put, P.Clean, HashU32, AddOut, NodesOk, TabOk, At;
    s1 := s;
    var srv := SenderOf(r, from, srv0);
    if !Refused(r, from, srv0) {
      WithNodeShows(r, s, srv.addr.node);
      PutShows(WithNode(r, srv.addr.node), s, srv);
      s1 := s.(servers := s.servers[srv.addr := srv]);
      SameAddOut(Front(r), s, srv);
    }
  }

  lemma SameAddOut(s: State, t: State, srv: Server)
    requires s.local == t.local && s.lookups == t.lookups
    ensures AddOut(s, srv) == AddOut(t, srv)
  {
  }

  lemma DelServerShows(r: Reg, s: State, from: Addr, srv0: Server) returns (s1: State)
    requires Shows(r, s)
    ensures var (r1, out) := DelServerReg(r, from, srv0);
            Shows(r1, s1) && OnDelServer(s, from, srv0, s1, out)
  {
    hide Shows, Services, NodeGet, DelAt, ServerDel;
    Fronts(r, s);
    s1 := s;
    var a := SenderOf(r, from, srv0).addr;
    if from.node == a.node {
      WithNodeShows(r, s, a.node);
      DelAtShows(WithNode(r, a.node), s, a.node, a.port);
      s1 := s.(servers := s.servers - {a});
      assert Addr(a.node, a.port) == a;
    }
  }

  lemma NewLookupShows(r: Reg, s: State, from: Addr, x: bv32, i: bv32) returns (s1: State)
    requires Shows(r, s)
    ensures var (r1, out) := NewLookupReg(r, from, x, i);
            Shows(r1, s1) && OnNewLookup(s, from, x, i, s1, out)
  {
    hide Good, At, Selected, AllServers, Lists, Matching, Answer;
    s1 := s;
    if from.node == r.local {
      var l := Lookup(r.nextId, x, i, from);
      s1 := s.(lookups := s.lookups + [l], nextId := s.nextId + 1);
      QueryLists(r, s, l);
      var found := Selected(AllServers(r.nodes), Filter(x, i, 0));
      assert Lists(found, Matching(s.servers, l));
    }
  }

  /** A packet leaves tables that are maps exactly when it is clean, and then the
      handler is a step of the protocol. */
  lemma HandleRefines(r: Reg, s: State, from: Addr, msg: Msg) returns (s1: State)
    requires Shows(r, s)
    ensures var (r1, out) := Handle(r, from, msg);
            && (Good(r1.nodes) <==> CleanPacket(r, from, msg))
            && (Good(r1.nodes) ==> Shows(r1, s1) && Next(s, from, msg, s1, out))
  {
    hide HelloReg, ByeReg, DelClientReg, NewServerReg, DelServerReg, NewLookupReg, At, NodesOk, TabOk,
         OnHello, OnBye, OnDelClient, OnNewServer, OnDelServer, OnNewLookup, DropLookups;
    s1 := s;
    match msg {
      case Hello => HelloShows(r, s, from);
      case Bye(_) =>
        ByeShows(r, s, from);
        s1 := s.(servers := Without(s.servers, from.node));
      case DelClient(n, p) => s1 := DelClientShows(r, s, from, n, p);
      case NewServer(srv) => s1 := NewServerShows(r, s, from, srv);
      case DelServer(srv) => s1 := DelServerShows(r, s, from, srv);
      case NewLookup(x, i) => s1 := NewLookupShows(r, s, from, x, i);
      case DelLookup(x, i) => s1 := s.(lookups := DropLookups(s.lookups, from, x, i));
      case Other =>
    }
  }

  lemma StartShows(local: u32)
    ensures Shows(StartReg(local), Start(local))
  {
  }
}

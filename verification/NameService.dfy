/**
 The name service protocol: what each control packet does to the registry of
 servers, to the list of observers and to the packets sent.

 Tables are visited in an order that depends on their slots, so a step is a
 relation: it allows every order.
 */
module NameService {
  import opened Basics
  import opened Hash

  datatype Addr = Addr(node: u32, port: u32)

  datatype Server = Server(service: bv32, instance: bv32, addr: Addr)

  /** `id` tells apart observers that register from the same address. */
  datatype Lookup = Lookup(id: nat, service: bv32, instance: bv32, addr: Addr)

  /** Servers by address. */
  type View = map<Addr, Server>

  datatype State = State(
    local: u32,
    servers: View,
    lookups: seq<Lookup>,
    nextId: nat
  )

  datatype Msg =
    | Hello
    | Bye(node: u32)
    | DelClient(node: u32, port: u32)
    | NewServer(srv: Server)
    | DelServer(srv: Server)
    | NewLookup(service: bv32, instance: bv32)
    | DelLookup(service: bv32, instance: bv32)
    | Other

  /** A packet sent: to every node, to one address, or to an observer.  The
      notification without a server ends the answer to a new lookup. */
  datatype Out =
    | Broadcast(msg: Msg)
    | Send(to: Addr, msg: Msg)
    | Notify(id: nat, to: Addr, isNew: bool, srv: Option<Server>)

  // ---------------------------------------------------------------------
  // Matching

  datatype Filter = Filter(service: bv32, instance: bv32, ifilter: bv32)

  function Mask(x: bv32, m: bv32): bv32 {
    x & m
  }

  predicate ServerMatch(srv: Server, f: Filter) {
    if f.service != 0 && srv.service != f.service then false
    else
      var ifilter := if f.ifilter == 0 && f.instance != 0 then 0xffff_ffff else f.ifilter;
      Mask(srv.instance, ifilter) == f.instance
  }

  /** The test that is applied when a server comes or goes. */
  predicate Matches(l: Lookup, srv: Server) {
    && (l.service == 0 || l.service == srv.service)
    && (l.instance == 0 || l.instance == srv.instance)
  }

  /** A new lookup is answered by the same test that later notifies it. */
  lemma MatchAgrees(l: Lookup, srv: Server)
    ensures ServerMatch(srv, Filter(l.service, l.instance, 0)) <==> Matches(l, srv)
  {
    hide Mask;
    MaskNone(srv.instance);
    MaskAll(srv.instance);
  }

  lemma MaskNone(x: bv32)
    ensures Mask(x, 0) == 0
  {
  }

  lemma MaskAll(x: bv32)
    ensures Mask(x, 0xffff_ffff) == x
  {
  }

  // ---------------------------------------------------------------------
  // What is sent

  function Notifications(ls: seq<Lookup>, srv: Server, isNew: bool): seq<Out> {
    if ls == [] then []
    else
      (if Matches(ls[0], srv) then [Notify(ls[0].id, ls[0].addr, isNew, Some(srv))] else [])
      + Notifications(ls[1..], srv, isNew)
  }

  function AddOut(s: State, srv: Server): seq<Out> {
    (if srv.addr.node == s.local then [Broadcast(NewServer(srv))] else []) + Notifications(s.lookups, srv, true)
  }

  function DelOut(s: State, srv: Server): seq<Out> {
    (if srv.addr.node == s.local then [Broadcast(DelServer(srv))] else []) + Notifications(s.lookups, srv, false)
  }

  function DelOuts(s: State, l: seq<Server>): seq<Out> {
    if l == [] then [] else DelOut(s, l[0]) + DelOuts(s, l[1..])
  }

  /** `msg` sent to each server of `l`. */
  function ToEach(l: seq<Server>, msg: Msg): seq<Out> {
    if l == [] then [] else [Send(l[0].addr, msg)] + ToEach(l[1..], msg)
  }

  /** Each server of `l` sent to `to` as new. */
  function Announce(l: seq<Server>, to: Addr): seq<Out> {
    if l == [] then [] else [Send(to, NewServer(l[0]))] + Announce(l[1..], to)
  }

  function Answer(l: seq<Server>, id: nat, to: Addr): seq<Out> {
    if l == [] then [] else [Notify(id, to, true, Some(l[0]))] + Answer(l[1..], id, to)
  }

  // ---------------------------------------------------------------------
  // Registry

  function OfNode(m: View, node: u32): View {
    map a | a in m && a.node == node :: m[a]
  }

  function Matching(m: View, l: Lookup): View {
    map a | a in m && Matches(l, m[a]) :: m[a]
  }

  function Without(m: View, node: u32): View {
    map a | a in m && a.node != node :: m[a]
  }

  /** `l` lists the servers of `m`, each once. */
  ghost predicate Lists(l: seq<Server>, m: View) {
    && (forall x | x in l :: x.addr in m && m[x.addr] == x)
    && (forall a | a in m :: m[a] in l)
    && (forall i, j | 0 <= i < j < |l| :: l[i].addr != l[j].addr)
  }

  // ---------------------------------------------------------------------
  // Handlers

  /** Removes the server at `a`, if there is one. */
  ghost predicate ServerDel(s: State, a: Addr, s': State, out: seq<Out>) {
    if a in s.servers then s' == s.(servers := s.servers - {a}) && out == DelOut(s, s.servers[a])
    else s' == s && out == []
  }

  ghost predicate OnHello(s: State, from: Addr, s': State, out: seq<Out>) {
    s' == s && exists l :: Lists(l, OfNode(s.servers, s.local)) && out == [Send(from, Hello)] + Announce(l, from)
  }

  ghost predicate OnBye(s: State, from: Addr, s': State, out: seq<Out>) {
    && s' == s.(servers := Without(s.servers, from.node))
    && exists gone, rest ::
         && Lists(gone, OfNode(s.servers, from.node)) && Lists(rest, OfNode(s'.servers, s.local))
         && out == DelOuts(s, gone) + ToEach(rest, Bye(from.node))
  }

  function KeepLookups(ls: seq<Lookup>, a: Addr): seq<Lookup> {
    if ls == [] then [] else (if ls[0].addr == a then [] else [ls[0]]) + KeepLookups(ls[1..], a)
  }

  ghost predicate OnDelClient(s: State, from: Addr, node: u32, port: u32, s': State, out: seq<Out>) {
    if from.node != node || (from.node == s.local && from.port != port) then s' == s && out == []
    else
      var a := Addr(node, port);
      var s1 := s.(lookups := KeepLookups(s.lookups, a));
      exists out1, rest ::
        && ServerDel(s1, a, s', out1) && Lists(rest, OfNode(s'.servers, s.local))
        && out == out1 + ToEach(rest, DelClient(node, port))
  }

  /** Packets of local clients register the port they come from. */
  function Registered(s: State, from: Addr, srv: Server): Server {
    if from.node == s.local then srv.(addr := from) else srv
  }

  ghost predicate OnNewServer(s: State, from: Addr, srv0: Server, s': State, out: seq<Out>) {
    var srv := Registered(s, from, srv0);
    if from.node != srv.addr.node || srv.service == 0 || srv.addr.port == 0 then s' == s && out == []
    else s' == s.(servers := s.servers[srv.addr := srv]) && out == AddOut(s, srv)
  }

  ghost predicate OnDelServer(s: State, from: Addr, srv0: Server, s': State, out: seq<Out>) {
    var a := Registered(s, from, srv0).addr;
    if from.node != a.node then s' == s && out == []
    else ServerDel(s, a, s', out)
  }

  ghost predicate OnNewLookup(s: State, from: Addr, service: bv32, instance: bv32, s': State, out: seq<Out>) {
    if from.node != s.local then s' == s && out == []
    else
      var l := Lookup(s.nextId, service, instance, from);
      && s' == s.(lookups := s.lookups + [l], nextId := s.nextId + 1)
      && exists found :: Lists(found, Matching(s.servers, l)) &&
                         out == Answer(found, l.id, from) + [Notify(l.id, from, true, None)]
  }

  predicate Cancelled(l: Lookup, from: Addr, service: bv32, instance: bv32) {
    l.addr == from && l.service == service && (l.instance == 0 || l.instance == instance)
  }

  function DropLookups(ls: seq<Lookup>, from: Addr, service: bv32, instance: bv32): seq<Lookup> {
    if ls == [] then []
    else (if Cancelled(ls[0], from, service, instance) then [] else [ls[0]]) + DropLookups(ls[1..], from, service, instance)
  }

  ghost predicate OnDelLookup(s: State, from: Addr, service: bv32, instance: bv32, s': State, out: seq<Out>) {
    s' == s.(lookups := DropLookups(s.lookups, from, service, instance)) && out == []
  }

  /** One received packet. */
  ghost predicate Next(s: State, from: Addr, msg: Msg, s': State, out: seq<Out>) {
    match msg
    case Hello => OnHello(s, from, s', out)
    case Bye(_) => OnBye(s, from, s', out)
    case DelClient(n, p) => OnDelClient(s, from, n, p, s', out)
    case NewServer(srv) => OnNewServer(s, from, srv, s', out)
    case DelServer(srv) => OnDelServer(s, from, srv, s', out)
    case NewLookup(x, i) => OnNewLookup(s, from, x, i, s', out)
    case DelLookup(x, i) => OnDelLookup(s, from, x, i, s', out)
    case Other => s' == s && out == []
  }

  function Start(local: u32): State {
    State(local, map[], [], 0)
  }
}

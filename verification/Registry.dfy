/**
 The registry as the name service keeps it: a probe table of nodes, each with a
 probe table of the servers on its ports.  The handlers are given as functions of
 the registry, for any contents of the tables.
 */
module Registry {
  import opened Basics
  import opened Hash
  import opened NameService
  import P = ProbeTable

  type Tab = seq<P.Slot<Server>>

  datatype Node = Node(id: u32, services: Tab)

  type Nodes = seq<P.Slot<Node>>

  datatype Reg = Reg(local: u32, nodes: Nodes, lookups: seq<Lookup>, nextId: nat)

  function StartReg(local: u32): Reg {
    Reg(local, [], [], 0)
  }

  // ---------------------------------------------------------------------
  // The tables

  function Services(nodes: Nodes, n: u32): Tab {
    match P.Looked(nodes, HashU32(n))
    case Some(node) => node.services
    case None => []
  }

  /** Makes sure that there is a node. */
  function NodeGet(nodes: Nodes, n: u32): Nodes {
    if P.Looked(nodes, HashU32(n)).Some? then nodes else P.Put(nodes, HashU32(n), Node(n, []))
  }

  function SetServices(nodes: Nodes, n: u32, t: Tab): (r: Nodes)
    ensures P.Looked(nodes, HashU32(n)).Some? ==> Services(r, n) == t
  {
    var j := P.FindSlot(nodes, HashU32(n));
    if j < |nodes| then
      P.ReplacedValue(nodes, j, Node(n, t));
      nodes[j := P.Live(HashU32(n), Node(n, t))]
    else nodes
  }

  /** The server that a search for an address finds. */
  function At(nodes: Nodes, a: Addr): Option<Server> {
    P.Looked(Services(nodes, a.node), HashU32(a.port))
  }

  /** The servers of a table in slot order. */
  function Listed(t: Tab): seq<Server> {
    if |t| == 0 then []
    else
      var x := t[|t| - 1];
      Listed(t[..|t| - 1]) + if x.Live? then [x.value] else []
  }

  /** All servers, node by node. */
  function AllServers(nodes: Nodes): seq<Server> {
    if |nodes| == 0 then []
    else
      var x := nodes[|nodes| - 1];
      AllServers(nodes[..|nodes| - 1]) + if x.Live? then Listed(x.value.services) else []
  }

  function Selected(l: seq<Server>, f: Filter): seq<Server> {
    if l == [] then []
    else Selected(l[..|l| - 1], f) + if ServerMatch(l[|l| - 1], f) then [l[|l| - 1]] else []
  }

  // ---------------------------------------------------------------------
  // Handlers

  /** What notifications depend on: the local node and the observers. */
  function Front(r: Reg): State {
    State(r.local, map[], r.lookups, r.nextId)
  }

  /** Removes the server that is found at a port. */
  function DelAt(r: Reg, n: u32, port: u32): (d: (Reg, seq<Out>))
    ensures |Services(d.0.nodes, n)| == |Services(r.nodes, n)|
  {
    match At(r.nodes, Addr(n, port))
    case None => (r, [])
    case Some(srv) =>
      (r.(nodes := SetServices(r.nodes, n, P.Removed(Services(r.nodes, n), HashU32(port)))), DelOut(Front(r), srv))
  }

  /** Visits the slots of a node's table from `j` on and removes the server at each
      visited server's port. */
  function DelEach(r: Reg, n: u32, j: nat): (Reg, seq<Out>)
    decreases |Services(r.nodes, n)| - j
  {
    var t := Services(r.nodes, n);
    if j >= |t| then (r, [])
    else if t[j].Live? then
      var (r1, out1) := DelAt(r, n, t[j].value.addr.port);
      var (r2, out2) := DelEach(r1, n, j + 1);
      (r2, out1 + out2)
    else DelEach(r, n, j + 1)
  }

  function WithNode(r: Reg, n: u32): Reg {
    r.(nodes := NodeGet(r.nodes, n))
  }

  /** A message to every local server. */
  function TellLocal(r: Reg, msg: Msg): (Reg, seq<Out>) {
    var r1 := WithNode(r, r.local);
    (r1, ToEach(Listed(Services(r1.nodes, r.local)), msg))
  }

  function HelloReg(r: Reg, from: Addr): (Reg, seq<Out>) {
    var r1 := WithNode(r, r.local);
    (r1, [Send(from, Hello)] + Announce(Listed(Services(r1.nodes, r.local)), from))
  }

  function ByeReg(r: Reg, from: Addr): (Reg, seq<Out>) {
    var (r1, out1) := DelEach(WithNode(r, from.node), from.node, 0);
    var (r2, out2) := TellLocal(r1, Bye(from.node));
    (r2, out1 + out2)
  }

  function DelClientReg(r: Reg, from: Addr, node: u32, port: u32): (Reg, seq<Out>) {
    if from.node != node || (from.node == r.local && from.port != port) then (r, [])
    else
      var r0 := r.(lookups := KeepLookups(r.lookups, Addr(node, port)));
      var (r1, out1) := DelAt(WithNode(r0, node), node, port);
      var (r2, out2) := TellLocal(r1, DelClient(node, port));
      (r2, out1 + out2)
  }

  function SenderOf(r: Reg, from: Addr, srv: Server): Server {
    if from.node == r.local then srv.(addr := from) else srv
  }

  predicate Refused(r: Reg, from: Addr, srv0: Server) {
    var srv := SenderOf(r, from, srv0);
    from.node != srv.addr.node || srv.service == 0 || srv.addr.port == 0
  }

  function NewServerReg(r: Reg, from: Addr, srv0: Server): (Reg, seq<Out>) {
    if Refused(r, from, srv0) then (r, [])
    else
      var srv := SenderOf(r, from, srv0);
      var r1 := WithNode(r, srv.addr.node);
      var t := Services(r1.nodes, srv.addr.node);
      (r1.(nodes := SetServices(r1.nodes, srv.addr.node, P.Put(t, HashU32(srv.addr.port), srv))), AddOut(Front(r), srv))
  }

  function DelServerReg(r: Reg, from: Addr, srv0: Server): (Reg, seq<Out>) {
    var a := SenderOf(r, from, srv0).addr;
    if from.node != a.node then (r, []) else DelAt(WithNode(r, a.node), a.node, a.port)
  }

  function NewLookupReg(r: Reg, from: Addr, service: bv32, instance: bv32): (Reg, seq<Out>) {
    if from.node != r.local then (r, [])
    else
      var l := Lookup(r.nextId, service, instance, from);
      (r.(lookups := r.lookups + [l], nextId := r.nextId + 1),
       Answer(Selected(AllServers(r.nodes), Filter(service, instance, 0)), l.id, from) + [Notify(l.id, from, true, None)])
  }

  /** One received packet. */
  function Handle(r: Reg, from: Addr, msg: Msg): (Reg, seq<Out>) {
    match msg
    case Hello => HelloReg(r, from)
    case Bye(_) => ByeReg(r, from)
    case DelClient(n, p) => DelClientReg(r, from, n, p)
    case NewServer(srv) => NewServerReg(r, from, srv)
    case DelServer(srv) => DelServerReg(r, from, srv)
    case NewLookup(x, i) => NewLookupReg(r, from, x, i)
    case DelLookup(x, i) => (r.(lookups := DropLookups(r.lookups, from, x, i)), [])
    case Other => (r, [])
  }
}

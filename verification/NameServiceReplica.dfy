/**
 Two name servers on a FIFO link: the replica that B keeps of A's servers.
 */
module NameServiceReplica {
  import opened Basics
  import opened Hash
  import opened NameService
  import opened NameServiceRuns

  const CTRL_PORT: u32 := 0xffff_fffe

  function Ctrl(node: u32): Addr {
    Addr(node, CTRL_PORT)
  }

  /** The messages among `out` that reach the name server at `b`. */
  function ForPeer(out: seq<Out>, b: Addr): seq<Msg> {
    if out == [] then []
    else
      (match out[0]
       case Broadcast(msg) => [msg]
       case Send(to, msg) => if to == b then [msg] else []
       case Notify(_, _, _, _) => [])
      + ForPeer(out[1..], b)
  }

  /** What a message of A does to B's replica. */
  function Apply(m: View, msg: Msg): View {
    match msg
    case NewServer(srv) => m[srv.addr := srv]
    case DelServer(srv) => m - {srv.addr}
    case _ => m
  }

  function ApplyAll(m: View, q: seq<Msg>): View
    decreases |q|
  {
    if q == [] then m else ApplyAll(Apply(m, q[0]), q[1..])
  }

  lemma {:induction false} ApplyConcat(m: View, p: seq<Msg>, q: seq<Msg>)
    ensures ApplyAll(m, p + q) == ApplyAll(ApplyAll(m, p), q)
    decreases |p|
  {
    if p == [] {
      assert p + q == q;
    } else {
      assert (p + q)[1..] == p[1..] + q;
      ApplyConcat(Apply(m, p[0]), p[1..], q);
    }
  }

  lemma {:induction false} ForPeerConcat(x: seq<Out>, y: seq<Out>, b: Addr)
    ensures ForPeer(x + y, b) == ForPeer(x, b) + ForPeer(y, b)
    decreases |x|
  {
    if x == [] {
      assert x + y == y;
    } else {
      assert (x + y)[1..] == x[1..] + y;
      ForPeerConcat(x[1..], y, b);
    }
  }

  predicate Submap(m: View, n: View) {
    forall a | a in m :: a in n && m[a] == n[a]
  }

  // ---------------------------------------------------------------------
  // What each handler of A puts on the link

  lemma {:induction false} NotificationsUnsent(ls: seq<Lookup>, srv: Server, isNew: bool, b: Addr)
    ensures ForPeer(Notifications(ls, srv, isNew), b) == []
    decreases |ls|
  {
    if ls != [] {
      var h := if Matches(ls[0], srv) then [Notify(ls[0].id, ls[0].addr, isNew, Some(srv))] else [];
      ForPeerConcat(h, Notifications(ls[1..], srv, isNew), b);
      NotificationsUnsent(ls[1..], srv, isNew, b);
    }
  }

  lemma AddSent(a: State, srv: Server, b: Addr)
    ensures ForPeer(AddOut(a, srv), b) == if srv.addr.node == a.local then [NewServer(srv)] else []
  {
    var h: seq<Out> := if srv.addr.node == a.local then [Broadcast(NewServer(srv))] else [];
    ForPeerConcat(h, Notifications(a.lookups, srv, true), b);
    NotificationsUnsent(a.lookups, srv, true, b);
  }

  lemma DelSent(a: State, srv: Server, b: Addr)
    ensures ForPeer(DelOut(a, srv), b) == if srv.addr.node == a.local then [DelServer(srv)] else []
  {
    var h: seq<Out> := if srv.addr.node == a.local then [Broadcast(DelServer(srv))] else [];
    ForPeerConcat(h, Notifications(a.lookups, srv, false), b);
    NotificationsUnsent(a.lookups, srv, false, b);
  }

  lemma {:induction false} LocalUnsent(l: seq<Server>, msg: Msg, b: Addr)
    requires forall x | x in l :: x.addr.node != b.node
    ensures ForPeer(ToEach(l, msg), b) == []
    decreases |l|
  {
    if l != [] {
      assert l[0] in l && ToEach(l, msg)[1..] == ToEach(l[1..], msg);
      LocalUnsent(l[1..], msg, b);
    }
  }

  function News(l: seq<Server>): seq<Msg> {
    if l == [] then [] else [NewServer(l[0])] + News(l[1..])
  }

  lemma {:induction false} AnnounceSent(l: seq<Server>, to: Addr, b: Addr)
    ensures ForPeer(Announce(l, to), b) == if to == b then News(l) else []
    decreases |l|
  {
    if l != [] {
      assert Announce(l, to)[1..] == Announce(l[1..], to);
      AnnounceSent(l[1..], to, b);
    }
  }

  /** Messages that the name server at node `a` may put on the link. */
  predicate FromA(q: seq<Msg>, a: u32) {
    forall m | m in q ::
      match m
      case Hello => true
      case NewServer(srv) => srv.addr.node == a && srv.service != 0 && srv.addr.port != 0
      case DelServer(srv) => srv.addr.node == a
      case _ => false
  }

  lemma {:induction false} NewsApplied(m: View, l: seq<Server>, n: View)
    requires (forall x | x in l :: x.addr in n && n[x.addr] == x) && Submap(m, n)
    requires (forall a | a in n :: a in m || n[a] in l) && (forall a | a in n :: n[a].addr == a)
    ensures ApplyAll(m, News(l)) == n
    decreases |l|
  {
    if l == [] {
      assert m == n;
    } else {
      assert News(l)[1..] == News(l[1..]) && l == [l[0]] + l[1..];
      NewsApplied(m[l[0].addr := l[0]], l[1..], n);
    }
  }

  lemma {:induction false} NewsFromA(l: seq<Server>, a: u32)
    requires forall x | x in l :: x.addr.node == a && x.service != 0 && x.addr.port != 0
    ensures FromA(News(l), a)
    decreases |l|
  {
    if l != [] {
      assert l[0] in l;
      NewsFromA(l[1..], a);
    }
  }

  /** Link contents and their effect: `m` is what B will know before, and `m'`
      after A's step. */
  ghost predicate Follows(a: State, a': State, sent: seq<Msg>) {
    && FromA(sent, a.local)
    && forall m: View | Submap(m, OfNode(a.servers, a.local)) ::
         && Submap(ApplyAll(m, sent), OfNode(a'.servers, a.local))
         && (m == OfNode(a.servers, a.local) ==> ApplyAll(m, sent) == OfNode(a'.servers, a.local))
  }

  lemma Unchanged(a: State, a': State)
    requires OfNode(a.servers, a.local) == OfNode(a'.servers, a.local)
    ensures Follows(a, a', [])
  {
  }

  lemma HelloFollows(a: State, from: Addr, a': State, out: seq<Out>, b: Addr)
    requires Inv(a) && OnHello(a, from, a', out)
    ensures Follows(a, a', ForPeer(out, b))
    ensures from == b ==> forall m: View | Submap(m, OfNode(a.servers, a.local)) ::
              ApplyAll(m, ForPeer(out, b)) == OfNode(a'.servers, a.local)
  {
    var n := OfNode(a.servers, a.local);
    var l :| Lists(l, n) && out == [Send(from, Hello)] + Announce(l, from);
    AnnounceSent(l, from, b);
    assert out[1..] == Announce(l, from);
    var sent := ForPeer(out, b);
    if from == b {
      assert sent == [Hello] + News(l);
      NewsFromA(l, a.local);
      forall m: View | Submap(m, n) ensures ApplyAll(m, sent) == n {
        assert sent[1..] == News(l);
        NewsApplied(m, l, n);
      }
    } else {
      assert sent == [];
    }
  }

  lemma NewServerFollows(a: State, from: Addr, srv0: Server, a': State, out: seq<Out>, b: Addr)
    requires Inv(a) && OnNewServer(a, from, srv0, a', out)
    ensures Follows(a, a', ForPeer(out, b))
  {
    var srv := Registered(a, from, srv0);
    AddSent(a, srv, b);
    var sent := ForPeer(out, b);
    if sent != [] {
      assert sent == [NewServer(srv)] && sent[1..] == [];
      assert OfNode(a'.servers, a.local) == OfNode(a.servers, a.local)[srv.addr := srv];
    } else {
      assert OfNode(a'.servers, a.local) == OfNode(a.servers, a.local);
    }
  }

  lemma ServerDelFollows(a: State, at: Addr, a': State, out: seq<Out>, b: Addr)
    requires Inv(a) && ServerDel(a, at, a', out)
    ensures Follows(a, a', ForPeer(out, b))
  {
    var sent := ForPeer(out, b);
    if at in a.servers {
      DelSent(a, a.servers[at], b);
    }
    if sent != [] {
      assert sent == [DelServer(a.servers[at])] && sent[1..] == [];
      assert OfNode(a'.servers, a.local) == OfNode(a.servers, a.local) - {at};
    } else {
      assert OfNode(a'.servers, a.local) == OfNode(a.servers, a.local);
    }
  }

  function Dels(l: seq<Server>): seq<Msg> {
    if l == [] then [] else [DelServer(l[0])] + Dels(l[1..])
  }

  lemma {:induction false} DelsSent(a: State, l: seq<Server>, b: Addr, node: u32)
    requires forall x | x in l :: x.addr.node == node
    ensures ForPeer(DelOuts(a, l), b) == if node == a.local then Dels(l) else []
    decreases |l|
  {
    if l != [] {
      assert l[0] in l;
      ForPeerConcat(DelOut(a, l[0]), DelOuts(a, l[1..]), b);
      DelSent(a, l[0], b);
      DelsSent(a, l[1..], b, node);
    }
  }

  lemma {:induction false} DelsApplied(m: View, l: seq<Server>)
    requires forall a | a in m :: m[a] in l && m[a].addr == a
    ensures ApplyAll(m, Dels(l)) == map[]
    decreases |l|
  {
    if l == [] {
      assert m == map[];
    } else {
      assert Dels(l)[1..] == Dels(l[1..]) && l == [l[0]] + l[1..];
      DelsApplied(m - {l[0].addr}, l[1..]);
    }
  }

  lemma {:induction false} DelsFromA(l: seq<Server>, a: u32)
    requires forall x | x in l :: x.addr.node == a
    ensures FromA(Dels(l), a)
    decreases |l|
  {
    if l != [] {
      assert l[0] in l;
      DelsFromA(l[1..], a);
    }
  }

  lemma OwnByeFollows(a: State, a': State, gone: seq<Server>)
    requires Inv(a) && Lists(gone, OfNode(a.servers, a.local)) && OfNode(a'.servers, a.local) == map[]
    ensures Follows(a, a', Dels(gone))
  {
    var n := OfNode(a.servers, a.local);
    DelsFromA(gone, a.local);
    forall m: View | Submap(m, n) ensures ApplyAll(m, Dels(gone)) == map[] {
      forall x | x in m ensures m[x] in gone && m[x].addr == x {
        assert x in n && n[x] in gone;
      }
      DelsApplied(m, gone);
    }
  }

  lemma ByeSent(a: State, node: u32, gone: seq<Server>, rest: seq<Server>, b: Addr)
    requires (forall x | x in gone :: x.addr.node == node) && (forall x | x in rest :: x.addr.node != b.node)
    ensures ForPeer(DelOuts(a, gone) + ToEach(rest, Bye(node)), b) == if node == a.local then Dels(gone) else []
  {
    hide ForPeer, DelOuts, ToEach, Dels;
    ForPeerConcat(DelOuts(a, gone), ToEach(rest, Bye(node)), b);
    LocalUnsent(rest, Bye(node), b);
    DelsSent(a, gone, b, node);
  }

  lemma ByeFollows(a: State, from: Addr, a': State, out: seq<Out>, b: Addr)
    requires Inv(a) && OnBye(a, from, a', out) && b.node != a.local
    ensures Follows(a, a', ForPeer(out, b))
  {
    hide Follows, ForPeer, DelOuts, ToEach, Dels, Inv;
    var gone, rest :| Lists(gone, OfNode(a.servers, from.node)) && Lists(rest, OfNode(a'.servers, a.local))
                      && out == DelOuts(a, gone) + ToEach(rest, Bye(from.node));
    ByeSent(a, from.node, gone, rest, b);
    if from.node == a.local {
      assert OfNode(a'.servers, a.local) == map[];
      OwnByeFollows(a, a', gone);
    } else {
      assert OfNode(a'.servers, a.local) == OfNode(a.servers, a.local);
      Unchanged(a, a');
    }
  }

  lemma DelClientFollows(a: State, from: Addr, n: u32, p: u32, a': State, out: seq<Out>, b: Addr)
    requires Inv(a) && OnDelClient(a, from, n, p, a', out) && b.node != a.local
    ensures Follows(a, a', ForPeer(out, b))
  {
    if from.node != n || (from.node == a.local && from.port != p) {
      Unchanged(a, a');
    } else {
      var at := Addr(n, p);
      KeepThins(a.lookups, at);
      ThinnedKeeps(KeepLookups(a.lookups, at), a.lookups);
      var a1 := a.(lookups := KeepLookups(a.lookups, at));
      var out1, rest :| ServerDel(a1, at, a', out1) && Lists(rest, OfNode(a'.servers, a.local))
                        && out == out1 + ToEach(rest, DelClient(n, p));
      ForPeerConcat(out1, ToEach(rest, DelClient(n, p)), b);
      LocalUnsent(rest, DelClient(n, p), b);
      ServerDelFollows(a1, at, a', out1, b);
      assert ForPeer(out, b) == ForPeer(out1, b);
    }
  }

  lemma {:induction false} AnswerUnsent(l: seq<Server>, id: nat, to: Addr, b: Addr)
    ensures ForPeer(Answer(l, id, to), b) == []
    decreases |l|
  {
    if l != [] {
      assert Answer(l, id, to)[1..] == Answer(l[1..], id, to);
      AnswerUnsent(l[1..], id, to, b);
    }
  }

  /** What A sends for any packet keeps the link in step with A's servers. */
  lemma StepFollows(a: State, from: Addr, msg: Msg, a': State, out: seq<Out>, b: Addr)
    requires Inv(a) && Next(a, from, msg, a', out) && b.node != a.local
    ensures Follows(a, a', ForPeer(out, b))
  {
    match msg {
      case Hello => HelloFollows(a, from, a', out, b);
      case Bye(_) => ByeFollows(a, from, a', out, b);
      case DelClient(n, p) => DelClientFollows(a, from, n, p, a', out, b);
      case NewServer(srv) => NewServerFollows(a, from, srv, a', out, b);
      case DelServer(srv) =>
        if from.node != Registered(a, from, srv).addr.node { Unchanged(a, a'); }
        else { ServerDelFollows(a, Registered(a, from, srv).addr, a', out, b); }
      case NewLookup(x, i) =>
        if from.node == a.local {
          var l := Lookup(a.nextId, x, i, from);
          var found :| Lists(found, Matching(a.servers, l)) && out == Answer(found, l.id, from) + [Notify(l.id, from, true, None)];
          ForPeerConcat(Answer(found, l.id, from), [Notify(l.id, from, true, None)], b);
          AnswerUnsent(found, l.id, from, b);
          assert ForPeer(out, b) == [];
        }
        Unchanged(a, a');
      case DelLookup(_, _) => Unchanged(a, a');
      case Other => Unchanged(a, a');
    }
  }

  // ---------------------------------------------------------------------
  // The system

  datatype Sys = Sys(a: State, b: State, link: seq<Msg>, greeted: bool)

  datatype Action =
    | AtA(from: Addr, msg: Msg)
    | Deliver
    | AtB(from: Addr, msg: Msg)

  /** A handles a packet and its messages to B join the link; B handles the
      oldest message of the link, or a packet that does not come from A. */
  ghost predicate SysNext(s: Sys, act: Action, s': Sys) {
    match act
    case AtA(from, msg) =>
      exists out ::
        && Next(s.a, from, msg, s'.a, out) && s'.b == s.b
        && s'.link == s.link + ForPeer(out, Ctrl(s.b.local))
        && s'.greeted == (s.greeted || (msg == Hello && from == Ctrl(s.b.local)))
    case Deliver =>
      s.link != [] && exists out ::
        && Next(s.b, Ctrl(s.a.local), s.link[0], s'.b, out)
        && s'.a == s.a && s'.link == s.link[1..] && s'.greeted == s.greeted
    case AtB(from, msg) =>
      from.node != s.a.local && exists out ::
        && Next(s.b, from, msg, s'.b, out) && s'.a == s.a && s'.link == s.link && s'.greeted == s.greeted
  }

  ghost predicate SysInv(s: Sys) {
    && Inv(s.a) && Inv(s.b) && s.a.local != s.b.local && FromA(s.link, s.a.local)
    && Submap(ApplyAll(OfNode(s.b.servers, s.a.local), s.link), OfNode(s.a.servers, s.a.local))
    && (s.greeted ==> ApplyAll(OfNode(s.b.servers, s.a.local), s.link) == OfNode(s.a.servers, s.a.local))
  }

  lemma AtAStep(s: Sys, from: Addr, msg: Msg, s': Sys)
    requires SysInv(s) && SysNext(s, AtA(from, msg), s')
    ensures SysInv(s')
  {
    hide ForPeer, ApplyAll, OfNode;
    var b := Ctrl(s.b.local);
    var out :| Next(s.a, from, msg, s'.a, out) && s'.b == s.b && s'.link == s.link + ForPeer(out, b)
               && s'.greeted == (s.greeted || (msg == Hello && from == b));
    InvStep(s.a, from, msg, s'.a, out);
    StepFollows(s.a, from, msg, s'.a, out, b);
    ApplyConcat(OfNode(s.b.servers, s.a.local), s.link, ForPeer(out, b));
    if msg == Hello && from == b { HelloFollows(s.a, from, s'.a, out, b); }
  }

  /** B's replica changes as the message says. */
  lemma ReplicaApplies(b: State, a: u32, msg: Msg, b': State, out: seq<Out>)
    requires Inv(b) && Next(b, Ctrl(a), msg, b', out) && a != b.local && FromA([msg], a)
    ensures OfNode(b'.servers, a) == Apply(OfNode(b.servers, a), msg)
  {
    assert msg in [msg];
  }

  lemma DeliverStep(s: Sys, s': Sys)
    requires SysInv(s) && SysNext(s, Deliver, s')
    ensures SysInv(s')
  {
    var out :| Next(s.b, Ctrl(s.a.local), s.link[0], s'.b, out)
               && s'.a == s.a && s'.link == s.link[1..] && s'.greeted == s.greeted;
    assert s.link[0] in s.link;
    assert FromA([s.link[0]], s.a.local);
    assert forall m | m in s.link[1..] :: m in s.link;
    assert FromA(s.link[1..], s.a.local);
    ReplicaApplies(s.b, s.a.local, s.link[0], s'.b, out);
    InvStep(s.b, Ctrl(s.a.local), s.link[0], s'.b, out);
  }

  lemma AtBStep(s: Sys, from: Addr, msg: Msg, s': Sys)
    requires SysInv(s) && SysNext(s, AtB(from, msg), s')
    ensures SysInv(s')
  {
    var out :| Next(s.b, from, msg, s'.b, out) && s'.a == s.a && s'.link == s.link && s'.greeted == s.greeted;
    OthersUntouched(s.b, from, msg, s'.b, out, s.a.local);
    InvStep(s.b, from, msg, s'.b, out);
  }

  datatype SysStep = SysStep(act: Action, post: Sys)

  ghost predicate SysRun(s: Sys, steps: seq<SysStep>)
    decreases |steps|
  {
    steps == [] || (SysNext(s, steps[0].act, steps[0].post) && SysRun(steps[0].post, steps[1..]))
  }

  function SysFinal(s: Sys, steps: seq<SysStep>): Sys {
    if steps == [] then s else steps[|steps| - 1].post
  }

  lemma {:induction false} SysInvariant(s: Sys, steps: seq<SysStep>)
    requires SysInv(s) && SysRun(s, steps)
    ensures SysInv(SysFinal(s, steps))
    decreases |steps|
  {
    hide SysInv, SysNext;
    if steps != [] {
      var x := steps[0];
      match x.act {
        case AtA(from, msg) => AtAStep(s, from, msg, x.post);
        case Deliver => DeliverStep(s, x.post);
        case AtB(from, msg) => AtBStep(s, from, msg, x.post);
      }
      SysInvariant(x.post, steps[1..]);
    }
  }

  /** Replica convergence: B's replica with the messages in flight applied is part
      of A's local servers in every run, and all of them once A has answered a
      hello of B; with an empty link the replica itself is. */
  lemma ReplicaConverges(a: u32, b: u32, steps: seq<SysStep>)
    requires a != b && SysRun(Sys(Start(a), Start(b), [], false), steps)
    ensures var s := SysFinal(Sys(Start(a), Start(b), [], false), steps);
            && Submap(ApplyAll(OfNode(s.b.servers, s.a.local), s.link), OfNode(s.a.servers, s.a.local))
            && (s.greeted ==> ApplyAll(OfNode(s.b.servers, s.a.local), s.link) == OfNode(s.a.servers, s.a.local))
            && (s.greeted && s.link == [] ==> OfNode(s.b.servers, s.a.local) == OfNode(s.a.servers, s.a.local))
  {
    SysInvariant(Sys(Start(a), Start(b), [], false), steps);
  }
}

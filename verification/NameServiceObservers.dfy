/**
 Observers: replaying the notifications that were sent for a lookup gives the
 servers that match it.
 */
module NameServiceObservers {
  import opened Basics
  import opened Hash
  import opened NameService
  import opened NameServiceRuns

  /** An observer's view after one more packet. */
  function Observe(m: View, o: Out, id: nat): View {
    if o.Notify? && o.id == id && o.srv.Some? then
      if o.isNew then m[o.srv.value.addr := o.srv.value] else m - {o.srv.value.addr}
    else m
  }

  function Replay(m: View, out: seq<Out>, id: nat): View
    decreases |out|
  {
    if out == [] then m else Replay(Observe(m, out[0], id), out[1..], id)
  }

  lemma {:induction false} ReplayConcat(m: View, a: seq<Out>, b: seq<Out>, id: nat)
    ensures Replay(m, a + b, id) == Replay(Replay(m, a, id), b, id)
    decreases |a|
  {
    if a == [] {
      assert a + b == b;
    } else {
      assert (a + b)[1..] == a[1..] + b;
      ReplayConcat(Observe(m, a[0], id), a[1..], b, id);
    }
  }

  /** Packets that tell an observer nothing. */
  predicate Silent(out: seq<Out>) {
    forall o | o in out :: !o.Notify?
  }

  lemma {:induction false} ReplaySilent(m: View, out: seq<Out>, id: nat)
    requires Silent(out)
    ensures Replay(m, out, id) == m
    decreases |out|
  {
    if out != [] {
      assert out[0] in out;
      ReplaySilent(m, out[1..], id);
    }
  }

  lemma {:induction false} ToEachSilent(l: seq<Server>, msg: Msg)
    ensures Silent(ToEach(l, msg))
  {
    if l != [] { ToEachSilent(l[1..], msg); }
  }

  lemma {:induction false} AnnounceSilent(l: seq<Server>, to: Addr)
    ensures Silent(Announce(l, to))
  {
    if l != [] { AnnounceSilent(l[1..], to); }
  }

  // ---------------------------------------------------------------------
  // One server coming or going

  lemma {:induction false} OthersUnnotified(m: View, ls: seq<Lookup>, srv: Server, isNew: bool, id: nat)
    requires forall l | l in ls :: l.id != id
    ensures Replay(m, Notifications(ls, srv, isNew), id) == m
    decreases |ls|
  {
    if ls != [] {
      assert ls[0] in ls;
      var a := if Matches(ls[0], srv) then [Notify(ls[0].id, ls[0].addr, isNew, Some(srv))] else [];
      ReplayConcat(m, a, Notifications(ls[1..], srv, isNew), id);
      assert Replay(m, a, id) == m;
      OthersUnnotified(m, ls[1..], srv, isNew, id);
    }
  }

  lemma {:induction false} NotifiedOnce(m: View, ls: seq<Lookup>, srv: Server, isNew: bool, l: Lookup)
    requires l in ls && DistinctIds(ls)
    ensures Replay(m, Notifications(ls, srv, isNew), l.id)
         == if Matches(l, srv) then Observe(m, Notify(l.id, l.addr, isNew, Some(srv)), l.id) else m
    decreases |ls|
  {
    var rest := ls[1..];
    var a := if Matches(ls[0], srv) then [Notify(ls[0].id, ls[0].addr, isNew, Some(srv))] else [];
    ReplayConcat(m, a, Notifications(rest, srv, isNew), l.id);
    assert forall i, j | 0 <= i < j < |rest| :: rest[i] == ls[i + 1] && rest[j] == ls[j + 1];
    if ls[0] == l {
      assert forall x | x in rest :: x.id != l.id;
      OthersUnnotified(Replay(m, a, l.id), rest, srv, isNew, l.id);
    } else {
      assert ls == [ls[0]] + rest;
      assert l in rest && ls[0].id != l.id;
      assert Replay(m, a, l.id) == m;
      NotifiedOnce(m, rest, srv, isNew, l);
    }
  }

  lemma SkipBroadcast(m: View, head: seq<Out>, tail: seq<Out>, id: nat)
    requires Silent(head)
    ensures Replay(m, head + tail, id) == Replay(m, tail, id)
  {
    ReplayConcat(m, head, tail, id);
    ReplaySilent(m, head, id);
  }

  lemma DelSeen(s: State, srv: Server, l: Lookup, m: View)
    requires l in s.lookups && DistinctIds(s.lookups)
    ensures Replay(m, DelOut(s, srv), l.id) == if Matches(l, srv) then m - {srv.addr} else m
  {
    var head: seq<Out> := if srv.addr.node == s.local then [Broadcast(DelServer(srv))] else [];
    SkipBroadcast(m, head, Notifications(s.lookups, srv, false), l.id);
    NotifiedOnce(m, s.lookups, srv, false, l);
  }

  lemma AddSeen(s: State, srv: Server, l: Lookup, m: View)
    requires l in s.lookups && DistinctIds(s.lookups)
    ensures Replay(m, AddOut(s, srv), l.id) == if Matches(l, srv) then m[srv.addr := srv] else m
  {
    var head: seq<Out> := if srv.addr.node == s.local then [Broadcast(NewServer(srv))] else [];
    SkipBroadcast(m, head, Notifications(s.lookups, srv, true), l.id);
    NotifiedOnce(m, s.lookups, srv, true, l);
  }

  // ---------------------------------------------------------------------
  // Accuracy, handler by handler

  /** The log of packets sent so far shows each observer what matches. */
  ghost predicate Accurate(s: State, log: seq<Out>, l: Lookup) {
    Replay(map[], log, l.id) == Matching(s.servers, l)
  }

  ghost predicate AllAccurate(s: State, log: seq<Out>) {
    && (forall l | l in s.lookups :: Accurate(s, log, l))
    && (forall id: nat | id >= s.nextId :: Replay(map[], log, id) == map[])
  }

  predicate Rejected(s: State, from: Addr, srv0: Server) {
    var srv := Registered(s, from, srv0);
    from.node != srv.addr.node || srv.service == 0 || srv.addr.port == 0
  }

  /** An accepted registration does not hide a server from an observer that knows
      it: an address that registers again keeps matching. */
  ghost predicate Visible(s: State, from: Addr, msg: Msg) {
    msg.NewServer? && !Rejected(s, from, msg.srv) ==>
      var srv := Registered(s, from, msg.srv);
      srv.addr in s.servers ==> forall l | l in s.lookups && Matches(l, s.servers[srv.addr]) :: Matches(l, srv)
  }

  lemma MatchingPut(m: View, srv: Server, l: Lookup)
    ensures Matches(l, srv) ==> Matching(m[srv.addr := srv], l) == Matching(m, l)[srv.addr := srv]
    ensures !Matches(l, srv) ==> Matching(m[srv.addr := srv], l) == Matching(m, l) - {srv.addr}
  {
  }

  lemma MatchingRemove(m: View, a: Addr, l: Lookup)
    ensures Matching(m - {a}, l) == Matching(m, l) - {a}
    ensures a in m && !Matches(l, m[a]) ==> Matching(m - {a}, l) == Matching(m, l)
  {
  }

  /** An accepted registration keeps an observer's view accurate exactly when the
      address was not known to it as a server that no longer matches. */
  lemma NewServerAccurate(s: State, from: Addr, srv0: Server, s': State, out: seq<Out>, log: seq<Out>, l: Lookup)
    requires Inv(s) && OnNewServer(s, from, srv0, s', out) && !Rejected(s, from, srv0)
    requires l in s.lookups && Accurate(s, log, l)
    ensures var srv := Registered(s, from, srv0);
            Accurate(s', log + out, l) <==>
            (srv.addr in s.servers && Matches(l, s.servers[srv.addr]) ==> Matches(l, srv))
  {
    var srv := Registered(s, from, srv0);
    ReplayConcat(map[], log, out, l.id);
    AddSeen(s, srv, l, Matching(s.servers, l));
    MatchingPut(s.servers, srv, l);
    if !Matches(l, srv) && srv.addr in s.servers && Matches(l, s.servers[srv.addr]) {
      assert srv.addr in Matching(s.servers, l) && srv.addr !in Matching(s'.servers, l);
    }
  }

  lemma ServerDelAccurate(s: State, a: Addr, s': State, out: seq<Out>, l: Lookup)
    requires Inv(s) && ServerDel(s, a, s', out) && l in s.lookups
    ensures Replay(Matching(s.servers, l), out, l.id) == Matching(s'.servers, l)
  {
    if a in s.servers {
      DelSeen(s, s.servers[a], l, Matching(s.servers, l));
      MatchingRemove(s.servers, a, l);
    }
  }

  function Addrs(l: seq<Server>): set<Addr> {
    set x | x in l :: x.addr
  }

  lemma {:induction false} DelsSeen(s: State, gone: seq<Server>, l: Lookup, m: View)
    requires l in s.lookups && DistinctIds(s.lookups)
    requires forall x | x in gone :: Matches(l, x) || x.addr !in m
    ensures Replay(m, DelOuts(s, gone), l.id) == m - Addrs(gone)
    decreases |gone|
  {
    if gone == [] {
      assert m - Addrs(gone) == m;
    } else {
      var x, rest := gone[0], gone[1..];
      assert x in gone && gone == [x] + rest;
      ReplayConcat(m, DelOut(s, x), DelOuts(s, rest), l.id);
      DelSeen(s, x, l, m);
      var m1 := if Matches(l, x) then m - {x.addr} else m;
      assert m1 == m - {x.addr};
      DelsSeen(s, rest, l, m1);
      assert Addrs(gone) == {x.addr} + Addrs(rest);
    }
  }

  lemma ByeAccurate(s: State, from: Addr, s': State, out: seq<Out>, l: Lookup)
    requires Inv(s) && OnBye(s, from, s', out) && l in s.lookups
    ensures Replay(Matching(s.servers, l), out, l.id) == Matching(s'.servers, l)
  {
    var gone, rest :| Lists(gone, OfNode(s.servers, from.node)) && Lists(rest, OfNode(s'.servers, s.local))
                      && out == DelOuts(s, gone) + ToEach(rest, Bye(from.node));
    var m := Matching(s.servers, l);
    ReplayConcat(m, DelOuts(s, gone), ToEach(rest, Bye(from.node)), l.id);
    ToEachSilent(rest, Bye(from.node));
    ReplaySilent(Replay(m, DelOuts(s, gone), l.id), ToEach(rest, Bye(from.node)), l.id);
    DelsSeen(s, gone, l, m);
    ByeRemoves(s, from.node, gone, l);
  }

  lemma ByeRemoves(s: State, node: u32, gone: seq<Server>, l: Lookup)
    requires Inv(s) && Lists(gone, OfNode(s.servers, node))
    ensures Matching(s.servers, l) - Addrs(gone) == Matching(Without(s.servers, node), l)
  {
    var n := OfNode(s.servers, node);
    forall a | a in s.servers && a.node == node ensures a in Addrs(gone) {
      assert a in n && n[a] in gone && n[a].addr == a;
    }
    assert forall a :: a in Addrs(gone) <==> a in s.servers && a.node == node;
  }

  /** `m` with the servers of `l` entered one after the other. */
  function PutAll(m: View, l: seq<Server>): View
    decreases |l|
  {
    if l == [] then m else PutAll(m[l[0].addr := l[0]], l[1..])
  }

  lemma {:induction false} AnswerSeen(m: View, l: seq<Server>, id: nat, to: Addr, id': nat)
    ensures Replay(m, Answer(l, id, to), id') == if id' == id then PutAll(m, l) else m
    decreases |l|
  {
    if l != [] {
      assert Answer(l, id, to)[1..] == Answer(l[1..], id, to);
      AnswerSeen(Observe(m, Notify(id, to, true, Some(l[0])), id'), l[1..], id, to, id');
    }
  }

  /** Entering a complete listing of `n` into a part of `n` gives `n`. */
  lemma {:induction false} PutAllLists(m: View, l: seq<Server>, n: View)
    requires (forall x | x in l :: x.addr in n && n[x.addr] == x)
    requires (forall a | a in m :: a in n && n[a] == m[a])
    requires (forall a | a in n :: a in m || n[a] in l) && (forall a | a in n :: n[a].addr == a)
    ensures PutAll(m, l) == n
    decreases |l|
  {
    if l == [] {
      assert m == n;
    } else {
      assert l == [l[0]] + l[1..];
      PutAllLists(m[l[0].addr := l[0]], l[1..], n);
    }
  }

  lemma NewLookupAccurate(s: State, from: Addr, service: bv32, instance: bv32, s': State, out: seq<Out>, l: Lookup)
    requires Inv(s) && OnNewLookup(s, from, service, instance, s', out) && from.node == s.local
    requires l == Lookup(s.nextId, service, instance, from)
    ensures Replay(map[], out, l.id) == Matching(s.servers, l)
    ensures forall m: View, id | id != l.id :: Replay(m, out, id) == m
  {
    var found :| Lists(found, Matching(s.servers, l)) && out == Answer(found, l.id, from) + [Notify(l.id, from, true, None)];
    var end: seq<Out> := [Notify(l.id, from, true, None)];
    forall m: View, id ensures Replay(m, out, id) == Replay(m, Answer(found, l.id, from), id) {
      ReplayConcat(m, Answer(found, l.id, from), end, id);
      assert end[1..] == [];
    }
    forall m: View, id | id != l.id ensures Replay(m, out, id) == m {
      AnswerSeen(m, found, l.id, from, id);
    }
    AnswerSeen(map[], found, l.id, from, l.id);
    PutAllLists(map[], found, Matching(s.servers, l));
  }

  // ---------------------------------------------------------------------
  // Accuracy in every run

  lemma {:induction false} DelsUnseen(s: State, gone: seq<Server>, id: nat, m: View)
    requires forall l | l in s.lookups :: l.id != id
    ensures Replay(m, DelOuts(s, gone), id) == m
    decreases |gone|
  {
    if gone != [] {
      DelUnseen(s, gone[0], id, m);
      ReplayConcat(m, DelOut(s, gone[0]), DelOuts(s, gone[1..]), id);
      DelsUnseen(s, gone[1..], id, m);
    }
  }

  lemma DelUnseen(s: State, srv: Server, id: nat, m: View)
    requires forall l | l in s.lookups :: l.id != id
    ensures Replay(m, DelOut(s, srv), id) == m
  {
    var head: seq<Out> := if srv.addr.node == s.local then [Broadcast(DelServer(srv))] else [];
    SkipBroadcast(m, head, Notifications(s.lookups, srv, false), id);
    OthersUnnotified(m, s.lookups, srv, false, id);
  }

  /** Nothing is sent for a lookup that is not registered yet. */
  lemma FutureUntouched(s: State, from: Addr, msg: Msg, s': State, out: seq<Out>, id: nat, m: View)
    requires Inv(s) && Next(s, from, msg, s', out) && id >= s'.nextId
    ensures Replay(m, out, id) == m
  {
    match msg {
      case Hello =>
        var l :| Lists(l, OfNode(s.servers, s.local)) && out == [Send(from, Hello)] + Announce(l, from);
        AnnounceSilent(l, from);
        ReplaySilent(m, out, id);
      case Bye(_) =>
        var gone, rest :| Lists(gone, OfNode(s.servers, from.node)) && Lists(rest, OfNode(s'.servers, s.local))
                          && out == DelOuts(s, gone) + ToEach(rest, Bye(from.node));
        DelsUnseen(s, gone, id, m);
        ToEachSilent(rest, Bye(from.node));
        ReplaySilent(m, ToEach(rest, Bye(from.node)), id);
        ReplayConcat(m, DelOuts(s, gone), ToEach(rest, Bye(from.node)), id);
      case DelClient(n, p) =>
        if out != [] {
          var a := Addr(n, p);
          KeepThins(s.lookups, a);
          var s1 := s.(lookups := KeepLookups(s.lookups, a));
          var out1, rest :| ServerDel(s1, a, s', out1) && Lists(rest, OfNode(s'.servers, s.local))
                            && out == out1 + ToEach(rest, DelClient(n, p));
          if a in s.servers { DelUnseen(s1, s.servers[a], id, m); }
          ToEachSilent(rest, DelClient(n, p));
          ReplaySilent(m, ToEach(rest, DelClient(n, p)), id);
          ReplayConcat(m, out1, ToEach(rest, DelClient(n, p)), id);
        }
      case NewServer(srv0) =>
        var srv := Registered(s, from, srv0);
        var head: seq<Out> := if srv.addr.node == s.local then [Broadcast(NewServer(srv))] else [];
        SkipBroadcast(m, head, Notifications(s.lookups, srv, true), id);
        OthersUnnotified(m, s.lookups, srv, true, id);
      case DelServer(srv0) =>
        var a := Registered(s, from, srv0).addr;
        if a in s.servers { DelUnseen(s, s.servers[a], id, m); }
      case NewLookup(x, i) =>
        if from.node == s.local { NewLookupAccurate(s, from, x, i, s', out, Lookup(s.nextId, x, i, from)); }
      case _ =>
    }
  }

  lemma DelClientAccurate(s: State, from: Addr, n: u32, p: u32, s': State, out: seq<Out>, l: Lookup)
    requires Inv(s) && OnDelClient(s, from, n, p, s', out) && l in s'.lookups
    ensures l in s.lookups && Replay(Matching(s.servers, l), out, l.id) == Matching(s'.servers, l)
  {
    var a := Addr(n, p);
    KeepThins(s.lookups, a);
    ThinnedKeeps(KeepLookups(s.lookups, a), s.lookups);
    if !(from.node != n || (from.node == s.local && from.port != p)) {
      var s1 := s.(lookups := KeepLookups(s.lookups, a));
      var out1, rest :| ServerDel(s1, a, s', out1) && Lists(rest, OfNode(s'.servers, s.local))
                        && out == out1 + ToEach(rest, DelClient(n, p));
      var m := Matching(s.servers, l);
      ServerDelAccurate(s1, a, s', out1, l);
      ToEachSilent(rest, DelClient(n, p));
      ReplaySilent(Replay(m, out1, l.id), ToEach(rest, DelClient(n, p)), l.id);
      ReplayConcat(m, out1, ToEach(rest, DelClient(n, p)), l.id);
    }
  }

  /** One packet keeps the views of all observers accurate. */
  lemma AccurateStep(s: State, from: Addr, msg: Msg, s': State, out: seq<Out>, log: seq<Out>)
    requires Inv(s) && Next(s, from, msg, s', out) && AllAccurate(s, log) && Visible(s, from, msg)
    ensures AllAccurate(s', log + out)
  {
    InvStep(s, from, msg, s', out);
    forall id: nat | id >= s'.nextId ensures Replay(map[], log + out, id) == map[] {
      ReplayConcat(map[], log, out, id);
      FutureUntouched(s, from, msg, s', out, id, map[]);
    }
    forall l | l in s'.lookups ensures Accurate(s', log + out, l) {
      ReplayConcat(map[], log, out, l.id);
      LookupAccurate(s, from, msg, s', out, log, l);
    }
  }

  lemma LookupAccurate(s: State, from: Addr, msg: Msg, s': State, out: seq<Out>, log: seq<Out>, l: Lookup)
    requires Inv(s) && Next(s, from, msg, s', out) && AllAccurate(s, log) && Visible(s, from, msg) && l in s'.lookups
    ensures Accurate(s', log + out, l)
  {
    hide Replay, Matching, Lists;
    ReplayConcat(map[], log, out, l.id);
    match msg {
      case Hello =>
        var k :| Lists(k, OfNode(s.servers, s.local)) && out == [Send(from, Hello)] + Announce(k, from);
        AnnounceSilent(k, from);
        ReplaySilent(Matching(s.servers, l), out, l.id);
      case Bye(_) => ByeAccurate(s, from, s', out, l);
      case DelClient(n, p) => DelClientAccurate(s, from, n, p, s', out, l);
      case NewServer(srv0) =>
        if Rejected(s, from, srv0) { assert log + out == log; }
        else { NewServerAccurate(s, from, srv0, s', out, log, l); }
      case DelServer(srv0) =>
        if out == [] && s' == s { assert log + out == log; }
        else { ServerDelAccurate(s, Registered(s, from, srv0).addr, s', out, l); }
      case NewLookup(x, i) =>
        if from.node != s.local { assert log + out == log; }
        else {
          var fresh' := Lookup(s.nextId, x, i, from);
          NewLookupAccurate(s, from, x, i, s', out, fresh');
          assert l == fresh' || (l in s.lookups && l.id < s.nextId);
        }
      case DelLookup(x, i) =>
        DropThins(s.lookups, from, x, i);
        ThinnedKeeps(s'.lookups, s.lookups);
        assert log + out == log;
      case Other => assert log + out == log;
    }
  }

  ghost predicate AlwaysVisible(s: State, steps: seq<Step>)
    decreases |steps|
  {
    steps != [] ==> Visible(s, steps[0].from, steps[0].msg) && AlwaysVisible(steps[0].post, steps[1..])
  }

  function AllOut(steps: seq<Step>): seq<Out>
    decreases |steps|
  {
    if steps == [] then [] else steps[0].out + AllOut(steps[1..])
  }

  /** Observer accuracy: in every run in which no address registers again in a
      way that hides it, each observer's notifications add up to the servers
      that match it. */
  lemma {:induction false} ObserverAccuracy(s: State, steps: seq<Step>, log: seq<Out>)
    requires Inv(s) && Run(s, steps) && AlwaysVisible(s, steps) && AllAccurate(s, log)
    ensures AllAccurate(Final(s, steps), log + AllOut(steps))
    decreases |steps|
  {
    hide AllAccurate, Inv, Next, Visible;
    if steps == [] {
      assert log + [] == log;
    } else {
      var x := steps[0];
      AccurateStep(s, x.from, x.msg, x.post, x.out, log);
      InvStep(s, x.from, x.msg, x.post, x.out);
      ObserverAccuracy(x.post, steps[1..], log + x.out);
      assert log + (x.out + AllOut(steps[1..])) == (log + x.out) + AllOut(steps[1..]);
    }
  }

  /** From the start of the service: every observer's notifications, replayed, are
      exactly the live servers that match it. */
  lemma ObserversSeeMatches(local: u32, steps: seq<Step>, l: Lookup)
    requires Run(Start(local), steps) && AlwaysVisible(Start(local), steps) && l in Final(Start(local), steps).lookups
    ensures Replay(map[], AllOut(steps), l.id) == Matching(Final(Start(local), steps).servers, l)
  {
    ObserverAccuracy(Start(local), steps, []);
    assert [] + AllOut(steps) == AllOut(steps);
  }
}

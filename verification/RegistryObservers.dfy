/**
 When the observers of a registry are accurate: exactly as long as no accepted
 registration hides a server from one of them.
 */
module RegistryObservers {
  import opened Hash
  import opened NameService
  import opened NameServiceRuns
  import opened NameServiceObservers
  import opened Registry
  import opened RegistryRefines
  import opened RegistryRuns
  import P = ProbeTable

  /** The packets sent so far show an observer what a search of the registry finds
      and what matches. */
  ghost predicate Sees(nodes: Nodes, log: seq<Out>, l: Lookup) {
    forall a: Addr :: P.Get(Replay(map[], log, l.id), a) == Seen(nodes, l, a)
  }

  ghost predicate AllSee(local: u32, ps: seq<Packet>) {
    var r := After(StartReg(local), ps);
    forall l | l in r.lookups :: Sees(r.nodes, Sent(StartReg(local), ps), l)
  }

  lemma SeesIsAccurate(r: Reg, s: State, log: seq<Out>, l: Lookup)
    requires Shows(r, s)
    ensures Sees(r.nodes, log, l) <==> Accurate(s, log, l)
  {
    hide Good, At, Matches, Replay;
    var m := Replay(map[], log, l.id);
    forall a: Addr ensures P.Get(Matching(s.servers, l), a) == Seen(r.nodes, l, a) {
      assert P.Get(s.servers, a) == At(r.nodes, a);
    }
    if Sees(r.nodes, log, l) {
      SameMap(m, Matching(s.servers, l));
    }
  }

  lemma SameMap(m: View, n: View)
    requires forall a: Addr :: P.Get(m, a) == P.Get(n, a)
    ensures m == n
  {
    forall a: Addr ensures (a in m <==> a in n) && (a in m ==> m[a] == n[a]) {
      assert P.Get(m, a) == P.Get(n, a);
    }
  }

  /** An accepted and clean registration keeps an observer accurate exactly when it
      does not replace a server that matched by one that does not. */
  lemma NewServerSeen(r: Reg, s: State, from: Addr, srv0: Server, log: seq<Out>, l: Lookup)
    requires Shows(r, s) && Inv(s) && CleanPacket(r, from, NewServer(srv0)) && !Refused(r, from, srv0)
    requires l in r.lookups && Sees(r.nodes, log, l)
    ensures var (r1, out) := Handle(r, from, NewServer(srv0));
            var srv := SenderOf(r, from, srv0);
            var was := At(r.nodes, srv.addr);
            && r1.lookups == r.lookups
            && (Sees(r1.nodes, log + out, l) <==> (was.Some? && Matches(l, was.value) ==> Matches(l, srv)))
  {
    hide Good, At, Matches, Sees, Inv, Accurate, CleanPacket;
    var r1, out := Handle(r, from, NewServer(srv0)).0, Handle(r, from, NewServer(srv0)).1;
    var s1 := HandleRefines(r, s, from, NewServer(srv0));
    SeesIsAccurate(r, s, log, l);
    SeesIsAccurate(r1, s1, log + out, l);
    NewServerAccurate(s, from, srv0, s1, out, log, l);
    assert P.Get(s.servers, SenderOf(r, from, srv0).addr) == At(r.nodes, SenderOf(r, from, srv0).addr);
  }

  /** One packet more at the end of a run. */
  lemma {:induction false} OneMore(r: Reg, ps: seq<Packet>, p: Packet)
    ensures var r0 := After(r, ps);
            && After(r, ps + [p]) == Handle(r0, p.from, p.msg).0
            && Sent(r, ps + [p]) == Sent(r, ps) + Handle(r0, p.from, p.msg).1
            && (CleanRun(r, ps + [p]) <==> CleanRun(r, ps) && CleanPacket(r0, p.from, p.msg))
            && (VisibleRun(r, ps + [p]) <==> VisibleRun(r, ps) && VisiblePacket(r0, p.from, p.msg))
    decreases |ps|
  {
    hide Handle, CleanPacket, VisiblePacket;
    if ps == [] {
      assert [p][1..] == [] && [] + [p] == [p];
    } else {
      var (r1, out) := Handle(r, ps[0].from, ps[0].msg);
      OneMore(r1, ps[1..], p);
      assert (ps + [p])[1..] == ps[1..] + [p];
    }
  }

  /** In every clean run: no observer was ever wrong exactly when every accepted
      registration was visible. */
  lemma {:induction false} ObserversExactly(local: u32, ps: seq<Packet>)
    requires CleanRun(StartReg(local), ps)
    ensures VisibleRun(StartReg(local), ps) <==> forall k | 0 <= k <= |ps| :: AllSee(local, ps[..k])
    decreases |ps|
  {
    hide CleanRun, VisibleRun, VisiblePacket, CleanPacket, After, Sent, AllSee, Handle;
    if ps == [] {
      Nothing(local);
      assert ps[..0] == [];
    } else {
      var qs, p := ps[..|ps| - 1], ps[|ps| - 1];
      var r0 := StartReg(local);
      assert ps == qs + [p] && ps[..|ps|] == ps;
      OneMore(r0, qs, p);
      ObserversExactly(local, qs);
      forall k | 0 <= k <= |qs| ensures ps[..k] == qs[..k] {
      }
      assert (forall k | 0 <= k <= |ps| :: AllSee(local, ps[..k]))
        <==> (forall k | 0 <= k <= |qs| :: AllSee(local, qs[..k])) && AllSee(local, ps);
      assert qs[..|qs|] == qs;
      if VisibleRun(r0, ps) {
        VisibleSee(local, ps);
      } else if VisibleRun(r0, qs) && AllSee(local, ps) {
        LastVisible(local, qs, p);
      }
    }
  }

  lemma Nothing(local: u32)
    ensures VisibleRun(StartReg(local), []) && AllSee(local, [])
  {
  }

  lemma VisibleSee(local: u32, ps: seq<Packet>)
    requires CleanRun(StartReg(local), ps) && VisibleRun(StartReg(local), ps)
    ensures AllSee(local, ps)
  {
    hide CleanRun, VisibleRun, After, Sent, Seen, Replay;
    var r := After(StartReg(local), ps);
    forall l, a: Addr | l in r.lookups
      ensures P.Get(Replay(map[], Sent(StartReg(local), ps), l.id), a) == Seen(r.nodes, l, a)
    {
      ObserversSee(local, ps, l, a);
    }
  }

  lemma LastVisible(local: u32, qs: seq<Packet>, p: Packet)
    requires CleanRun(StartReg(local), qs + [p]) && AllSee(local, qs) && AllSee(local, qs + [p])
    ensures VisiblePacket(After(StartReg(local), qs), p.from, p.msg)
  {
    hide CleanRun, VisibleRun, CleanPacket, After, Sent, Run, Sees, Inv, Handle, Shows, At, Matches;
    var r0 := StartReg(local);
    OneMore(r0, qs, p);
    StartShows(local);
    var steps := Simulates(r0, Start(local), qs);
    RegistryInvariant(Start(local), steps);
    var r, s := After(r0, qs), Final(Start(local), steps);
    if p.msg.NewServer? && !Refused(r, p.from, p.msg.srv) {
      forall l | l in r.lookups
        ensures var srv := SenderOf(r, p.from, p.msg.srv);
                var was := At(r.nodes, srv.addr);
                was.Some? && Matches(l, was.value) ==> Matches(l, srv)
      {
        NewServerSeen(r, s, p.from, p.msg.srv, Sent(r0, qs), l);
      }
    }
  }
}

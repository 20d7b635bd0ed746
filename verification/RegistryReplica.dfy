/**
 Two registries on a FIFO link: the replica that B's tables hold of A's servers.
 */
module RegistryReplica {
  import opened Basics
  import opened Hash
  import opened NameService
  import opened NameServiceReplica
  import opened Registry
  import opened RegistryRefines
  import P = ProbeTable

  datatype Pair = Pair(a: Reg, b: Reg, link: seq<Msg>, greeted: bool)

  /** A handles a packet and its messages to B join the link; B handles the oldest
      message of the link, or a packet that does not come from A. */
  function Act(p: Pair, act: Action): Pair {
    match act
    case AtA(from, msg) =>
      var (a1, out) := Handle(p.a, from, msg);
      Pair(a1, p.b, p.link + ForPeer(out, Ctrl(p.b.local)),
           p.greeted || (msg == Hello && from == Ctrl(p.b.local)))
    case Deliver => if p.link == [] then p else Pair(p.a, Handle(p.b, Ctrl(p.a.local), p.link[0]).0, p.link[1..], p.greeted)
    case AtB(from, msg) => p.(b := Handle(p.b, from, msg).0)
  }

  /** The action can happen and puts no port behind a tombstone. */
  ghost predicate CleanAct(p: Pair, act: Action) {
    match act
    case AtA(from, msg) => CleanPacket(p.a, from, msg)
    case Deliver => p.link != [] && CleanPacket(p.b, Ctrl(p.a.local), p.link[0])
    case AtB(from, msg) => from.node != p.a.local && CleanPacket(p.b, from, msg)
  }

  ghost predicate CleanActs(p: Pair, acts: seq<Action>)
    decreases |acts|
  {
    acts != [] ==> CleanAct(p, acts[0]) && CleanActs(Act(p, acts[0]), acts[1..])
  }

  function AfterActs(p: Pair, acts: seq<Action>): Pair
    decreases |acts|
  {
    if acts == [] then p else AfterActs(Act(p, acts[0]), acts[1..])
  }

  ghost predicate ShowsBoth(p: Pair, s: Sys) {
    Shows(p.a, s.a) && Shows(p.b, s.b) && p.link == s.link && p.greeted == s.greeted
  }

  lemma ActRefines(p: Pair, s: Sys, act: Action) returns (s1: Sys)
    requires ShowsBoth(p, s) && CleanAct(p, act)
    ensures ShowsBoth(Act(p, act), s1) && SysNext(s, act, s1)
  {
    hide Shows, Handle, Next, CleanPacket, ForPeer;
    Fronts(p.a, s.a);
    Fronts(p.b, s.b);
    match act {
      case AtA(from, msg) =>
        var a1 := HandleRefines(p.a, s.a, from, msg);
        s1 := Sys(a1, s.b, Act(p, act).link, Act(p, act).greeted);
        assert Next(s.a, from, msg, s1.a, Handle(p.a, from, msg).1);
      case Deliver =>
        var b1 := HandleRefines(p.b, s.b, Ctrl(p.a.local), p.link[0]);
        s1 := Sys(s.a, b1, p.link[1..], p.greeted);
        assert Next(s.b, Ctrl(s.a.local), s.link[0], s1.b, Handle(p.b, Ctrl(p.a.local), p.link[0]).1);
      case AtB(from, msg) =>
        var b1 := HandleRefines(p.b, s.b, from, msg);
        s1 := s.(b := b1);
        assert Next(s.b, from, msg, s1.b, Handle(p.b, from, msg).1);
    }
  }

  lemma {:induction false} ActsRefine(p: Pair, s: Sys, acts: seq<Action>) returns (steps: seq<SysStep>)
    requires ShowsBoth(p, s) && CleanActs(p, acts)
    ensures SysRun(s, steps) && ShowsBoth(AfterActs(p, acts), SysFinal(s, steps))
    decreases |acts|
  {
    hide ShowsBoth, Act, CleanAct, SysNext;
    steps := [];
    if acts != [] {
      var s1 := ActRefines(p, s, acts[0]);
      var rest := ActsRefine(Act(p, acts[0]), s1, acts[1..]);
      steps := [SysStep(acts[0], s1)] + rest;
      assert steps[1..] == rest;
    }
  }

  /** `m` is what searches of the tables find for the addresses of node `n`. */
  ghost predicate Finds(nodes: Nodes, n: u32, m: View) {
    forall a: Addr :: P.Get(m, a) == if a.node == n then At(nodes, a) else None
  }

  /** Replica convergence: in every clean run, B's tables for node A with the messages
      in flight applied are part of A's local services, and all of them once A has
      answered a hello of B. */
  lemma ReplicasConverge(a: u32, b: u32, acts: seq<Action>) returns (mine: View, replica: View)
    requires a != b && CleanActs(Pair(StartReg(a), StartReg(b), [], false), acts)
    ensures var p := AfterActs(Pair(StartReg(a), StartReg(b), [], false), acts);
            && Finds(p.a.nodes, a, mine) && Finds(p.b.nodes, a, replica)
            && Submap(ApplyAll(replica, p.link), mine)
            && (p.greeted ==> ApplyAll(replica, p.link) == mine)
            && (p.greeted && p.link == [] ==> replica == mine)
  {
    hide AfterActs, SysRun, CleanActs, ApplyAll, Good, At, Handle, SysFinal;
    var p0, s0 := Pair(StartReg(a), StartReg(b), [], false), Sys(Start(a), Start(b), [], false);
    StartShows(a);
    StartShows(b);
    var steps := ActsRefine(p0, s0, acts);
    ReplicaConverges(a, b, steps);
    var p, s := AfterActs(p0, acts), SysFinal(s0, steps);
    SysLocal(s0, steps);
    mine, replica := OfNode(s.a.servers, a), OfNode(s.b.servers, a);
    FindsOf(p.a, s.a, a);
    FindsOf(p.b, s.b, a);
  }

  lemma FindsOf(r: Reg, s: State, n: u32)
    requires Shows(r, s)
    ensures Finds(r.nodes, n, OfNode(s.servers, n))
  {
    hide Good, At;
    forall a: Addr ensures P.Get(OfNode(s.servers, n), a) == if a.node == n then At(r.nodes, a) else None {
      assert P.Get(s.servers, a) == At(r.nodes, a);
    }
  }

  lemma NextLocal(s: State, from: Addr, msg: Msg, s1: State, out: seq<Out>)
    requires Next(s, from, msg, s1, out)
    ensures s1.local == s.local
  {
    hide Lists, OfNode, ToEach, DelOuts, Announce, Answer;
  }

  lemma {:induction false} SysLocal(s: Sys, steps: seq<SysStep>)
    requires SysRun(s, steps)
    ensures SysFinal(s, steps).a.local == s.a.local
    decreases |steps|
  {
    hide Next, ForPeer;
    if steps != [] {
      var x := steps[0];
      if x.act.AtA? {
        var out :| Next(s.a, x.act.from, x.act.msg, x.post.a, out);
        NextLocal(s.a, x.act.from, x.act.msg, x.post.a, out);
      }
      SysLocal(x.post, steps[1..]);
    }
  }
}

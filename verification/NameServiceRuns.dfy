/**
 What holds in every run of the name service.
 */
module NameServiceRuns {
  import opened Hash
  import opened NameService

  /** One packet received, the state after it and the packets sent. */
  datatype Step = Step(from: Addr, msg: Msg, post: State, out: seq<Out>)

  ghost predicate Run(s: State, steps: seq<Step>)
    decreases |steps|
  {
    steps == [] ||
    (Next(s, steps[0].from, steps[0].msg, steps[0].post, steps[0].out) && Run(steps[0].post, steps[1..]))
  }

  function Final(s: State, steps: seq<Step>): State {
    if steps == [] then s else steps[|steps| - 1].post
  }

  // ---------------------------------------------------------------------
  // The registry

  ghost predicate Inv(s: State) {
    && (forall a | a in s.servers :: s.servers[a].addr == a && s.servers[a].service != 0 && a.port != 0)
    && (forall l | l in s.lookups :: l.addr.node == s.local && l.id < s.nextId)
    && DistinctIds(s.lookups)
  }

  predicate DistinctIds(ls: seq<Lookup>) {
    forall i, j | 0 <= i < j < |ls| :: ls[i].id != ls[j].id
  }

  /** `a` is `b` with some elements left out. */
  ghost predicate Thinned(a: seq<Lookup>, b: seq<Lookup>)
    decreases |b|
  {
    if b == [] then a == []
    else Thinned(a, b[1..]) || (a != [] && a[0] == b[0] && Thinned(a[1..], b[1..]))
  }

  lemma {:induction false} ThinnedKeeps(a: seq<Lookup>, b: seq<Lookup>)
    requires Thinned(a, b) && DistinctIds(b)
    ensures DistinctIds(a) && forall l | l in a :: l in b
    decreases |b|
  {
    if b != [] {
      var b1 := b[1..];
      assert forall i, j | 0 <= i < j < |b1| :: b1[i] == b[i + 1] && b1[j] == b[j + 1];
      if Thinned(a, b1) {
        ThinnedKeeps(a, b1);
      } else {
        ThinnedKeeps(a[1..], b1);
        assert a == [b[0]] + a[1..];
        assert forall l | l in b1 :: l.id != b[0].id;
      }
    }
  }

  lemma {:induction false} KeepThins(ls: seq<Lookup>, a: Addr)
    ensures Thinned(KeepLookups(ls, a), ls)
    ensures forall l :: l in KeepLookups(ls, a) <==> l in ls && l.addr != a
  {
    if ls != [] {
      KeepThins(ls[1..], a);
      var k := KeepLookups(ls[1..], a);
      if ls[0].addr == a { assert [] + k == k; } else { assert ([ls[0]] + k)[1..] == k; }
    }
  }

  lemma {:induction false} DropThins(ls: seq<Lookup>, from: Addr, service: bv32, instance: bv32)
    ensures Thinned(DropLookups(ls, from, service, instance), ls)
  {
    if ls != [] {
      DropThins(ls[1..], from, service, instance);
      var k := DropLookups(ls[1..], from, service, instance);
      if Cancelled(ls[0], from, service, instance) { assert [] + k == k; } else { assert ([ls[0]] + k)[1..] == k; }
    }
  }

  lemma InvStep(s: State, from: Addr, msg: Msg, s': State, out: seq<Out>)
    requires Inv(s) && Next(s, from, msg, s', out)
    ensures Inv(s') && s'.local == s.local
  {
    match msg {
      case DelClient(n, p) =>
        KeepThins(s.lookups, Addr(n, p));
        ThinnedKeeps(KeepLookups(s.lookups, Addr(n, p)), s.lookups);
      case DelLookup(x, i) =>
        DropThins(s.lookups, from, x, i);
        ThinnedKeeps(s'.lookups, s.lookups);
      case _ =>
    }
  }

  /** Every record sits under its own node and port, has a service, and every
      observer is local, in every reachable state. */
  lemma {:induction false} RegistryInvariant(s: State, steps: seq<Step>)
    requires Inv(s) && Run(s, steps)
    ensures Inv(Final(s, steps)) && Final(s, steps).local == s.local
    decreases |steps|
  {
    if steps != [] {
      InvStep(s, steps[0].from, steps[0].msg, steps[0].post, steps[0].out);
      RegistryInvariant(steps[0].post, steps[1..]);
    }
  }

  /** A packet changes records of the node it comes from only. */
  lemma OthersUntouched(s: State, from: Addr, msg: Msg, s': State, out: seq<Out>, node: u32)
    requires Next(s, from, msg, s', out) && node != from.node
    ensures OfNode(s'.servers, node) == OfNode(s.servers, node)
  {
  }
}

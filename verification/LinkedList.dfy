/**
 The doubly linked list that holds the observers of the name service.  Its nodes,
 in order, are a sequence; appending, removing, and removing while walking are the
 operations on that sequence.
 */
module LinkedList {
  class Node<T> {
    var next: Node?<T>
    var prev: Node?<T>
    const value: T

    constructor (v: T)
      ensures value == v && next == null && prev == null
    {
      value := v;
      next := null;
      prev := null;
    }
  }

  /** Node `i` of a sequence, or null outside it. */
  ghost function At<T>(s: seq<Node<T>>, i: int): Node?<T> {
    if 0 <= i < |s| then s[i] else null
  }

  /** Node `i` points to its neighbours. */
  ghost predicate LinkedAt<T>(s: seq<Node<T>>, i: nat)
    requires i < |s|
    reads s[i]
  {
    s[i].next == At(s, i + 1) && s[i].prev == At(s, i - 1)
  }

  ghost predicate Distinct<T>(s: seq<Node<T>>) {
    forall i, j | 0 <= i < j < |s| :: s[i] != s[j]
  }

  ghost function Without<T>(s: seq<Node<T>>, k: nat): seq<Node<T>>
    requires k < |s|
  {
    s[..k] + s[k + 1..]
  }

  /** The values of the nodes, in order. */
  ghost function Values<T>(s: seq<Node<T>>): (v: seq<T>) {
    seq(|s|, i requires 0 <= i < |s| => s[i].value)
  }

  /** The nodes that stay when those whose value is to be dropped are removed. */
  ghost function Kept<T>(s: seq<Node<T>>, drop: T -> bool): seq<Node<T>> {
    if s == [] then [] else (if drop(s[0].value) then [] else [s[0]]) + Kept(s[1..], drop)
  }

  lemma Apart<T>(s: seq<Node<T>>, k: nat)
    requires k < |s| && Distinct(s)
    ensures forall j | 0 <= j < |s| && j != k :: s[j] != s[k]
  {
  }

  lemma WithoutAt<T>(s: seq<Node<T>>, k: nat)
    requires k < |s| && Distinct(s)
    ensures var t := Without(s, k);
            |t| == |s| - 1 && Distinct(t) && s[k] !in t
            && forall i | 0 <= i < |t| :: t[i] == if i < k then s[i] else s[i + 1]
  {
  }

  lemma AtWithout<T>(s: seq<Node<T>>, k: nat, j: int)
    requires k < |s| && Distinct(s)
    ensures At(Without(s, k), j) == At(s, if j < k then j else j + 1)
  {
  }

  /** One step of the walk. */
  lemma KeptStep<T>(s: seq<Node<T>>, k: nat, drop: T -> bool)
    requires k < |s|
    ensures s[..k] + Kept(s[k..], drop)
         == if drop(s[k].value) then Without(s, k)[..k] + Kept(Without(s, k)[k..], drop)
            else s[..k + 1] + Kept(s[k + 1..], drop)
  {
    assert s[k..][1..] == s[k + 1..];
    var t := Without(s, k);
    assert t[..k] == s[..k] && t[k..] == s[k + 1..];
    assert s[..k] + ([s[k]] + Kept(s[k + 1..], drop)) == s[..k + 1] + Kept(s[k + 1..], drop);
  }

  lemma NoneLeft<T>(s: seq<Node<T>>, k: nat, drop: T -> bool)
    requires k == |s|
    ensures s[..k] + Kept(s[k..], drop) == s
  {
  }

  class List<T> {
    var head: Node?<T>
    var tail: Node?<T>
    ghost var nodes: seq<Node<T>>
    ghost var repr: set<Node<T>>

    ghost predicate Valid()
      reads this, repr
    {
      && Distinct(nodes) && (forall i | 0 <= i < |nodes| :: nodes[i] in repr)
      && head == At(nodes, 0) && tail == At(nodes, |nodes| - 1)
      && forall i | 0 <= i < |nodes| :: LinkedAt(nodes, i)
    }

    constructor ()
      ensures Valid() && nodes == [] && repr == {}
    {
      head := null;
      tail := null;
      nodes, repr := [], {};
    }

    method Append(item: Node<T>)
      requires Valid() && item !in repr
      modifies this, item, repr
      ensures Valid() && nodes == old(nodes) + [item] && repr == old(repr) + {item}
    {
      item.next := null;
      item.prev := tail;
      if tail != null {
        tail.next := item;
      } else {
        head := item;
      }
      tail := item;
      ghost var s := nodes;
      nodes, repr := nodes + [item], repr + {item};
      forall i | 0 <= i < |nodes| ensures LinkedAt(nodes, i) {
        if i < |s| { assert old(LinkedAt(s, i)); }
      }
    }

    /** Takes a node out from between its neighbours. */
    method Unlink(item: Node<T>)
      requires item.next != item && item.prev != item && (item.next != null ==> item.next != item.prev)
      requires head == item <==> item.prev == null
      modifies this`head, this`tail, item, item.next, item.prev
      ensures item.next == null && item.prev == null
      ensures old(item.next) != null ==> old(item.next).prev == old(item.prev) && old(item.next).next == old(item.next.next)
      ensures old(item.prev) != null ==> old(item.prev).next == old(item.next) && old(item.prev).prev == old(item.prev.prev)
      ensures head == if old(item.prev) == null then old(item.next) else old(head)
      ensures tail == if old(item.prev) == null && old(item.next) == null then null
                      else if old(item.prev) != null && old(tail) == item then old(item.prev) else old(tail)
    {
      if item.next != null {
        item.next.prev := item.prev;
      }
      if head == item {
        head := item.next;
        if head == null {
          tail := null;
        }
      } else {
        item.prev.next := item.next;
        if tail == item {
          tail := item.prev;
        }
      }
      item.prev := null;
      item.next := null;
    }

    method Remove(item: Node<T>, ghost k: nat)
      requires Valid() && k < |nodes| && nodes[k] == item
      modifies this, repr
      ensures Valid() && nodes == Without(old(nodes), k) && repr == old(repr)
      ensures item.next == null && item.prev == null
    {
      hide Distinct, Without;
      ghost var s, t := nodes, Without(nodes, k);
      WithoutAt(s, k);
      Apart(s, k);
      if k > 0 { Apart(s, k - 1); }
      if k + 1 < |s| { Apart(s, k + 1); }
      assert LinkedAt(s, k);
      Unlink(item);
      nodes := t;
      forall i | 0 <= i < |t| ensures LinkedAt(t, i) {
        assert old(LinkedAt(s, if i < k then i else i + 1));
        AtWithout(s, k, i + 1);
        AtWithout(s, k, i - 1);
      }
      AtWithout(s, k, 0);
      AtWithout(s, k, |t| - 1);
      forall i | 0 <= i < |t| ensures t[i] in repr {
        AtWithout(s, k, i);
        assert s[if i < k then i else i + 1] in repr;
      }
    }

    /** Walks the list, remembering the next node before the current one may go. */
    method RemoveWhere(drop: T -> bool)
      requires Valid()
      modifies this, repr
      ensures Valid() && nodes == Kept(old(nodes), drop) && repr == old(repr)
    {
      hide Kept, Distinct, Without;
      var iter := head;
      ghost var k := 0;
      assert nodes[..0] + Kept(nodes[0..], drop) == Kept(nodes, drop) by { assert nodes[0..] == nodes; }
      while iter != null
        invariant Valid() && 0 <= k <= |nodes| && iter == At(nodes, k)
        invariant nodes[..k] + Kept(nodes[k..], drop) == Kept(old(nodes), drop)
        invariant repr == old(repr)
        decreases |nodes| - k
      {
        assert LinkedAt(nodes, k);
        var next := iter.next;
        KeptStep(nodes, k, drop);
        if drop(iter.value) {
          WithoutAt(nodes, k);
          Remove(iter, k);
        } else {
          k := k + 1;
        }
        iter := next;
      }
      NoneLeft(nodes, k, drop);
    }
  }
}

/**
 The growing string table of the protection-domain mapper: linear probing with
 any hash, growth by a quarter above 80 percent use, no removal.
 */
module Assoc {
  import opened Basics
  import opened ProbeTable

  datatype Cell<+V> = Free | Used(key: string, value: V)

  type Hash = string -> nat

  function Start(hash: Hash, key: string, n: nat): (h: nat)
    requires n > 0
    ensures h < n
  {
    hash(key) % n
  }

  /** The slot `i` places along the probe path of `key`. */
  function Probe(hash: Hash, key: string, i: nat, n: nat): (j: nat)
    requires i < n
    ensures j < n
  {
    Step(Start(hash, key, n), i, n)
  }

  /** How far along the probe path of `key` slot `j` is. */
  function Far(hash: Hash, key: string, j: nat, n: nat): (i: nat)
    requires j < n
    ensures i < n && Probe(hash, key, i, n) == j
  {
    Dist(Start(hash, key, n), j, n)
  }

  // ---------------------------------------------------------------------
  // Tables as sequences of cells, with an index of where each key is

  ghost predicate Indexed<V(!new)>(s: seq<Cell<V>>, slot: map<string, nat>) {
    && (forall k | k in slot :: slot[k] < |s| && s[slot[k]].Used? && s[slot[k]].key == k)
    && (forall j | 0 <= j < |s| && s[j].Used? :: s[j].key in slot && slot[s[j].key] == j)
  }

  /** Every slot before a key's own on its probe path is used. */
  ghost predicate Reached<V(!new)>(hash: Hash, s: seq<Cell<V>>, slot: map<string, nat>)
    requires Indexed(s, slot)
  {
    forall k, i | k in slot && 0 <= i < Far(hash, k, slot[k], |s|) :: s[Probe(hash, k, i, |s|)].Used?
  }

  ghost predicate Good<V(!new)>(hash: Hash, s: seq<Cell<V>>, slot: map<string, nat>) {
    Indexed(s, slot) && Reached(hash, s, slot)
  }

  /** The finite map the table stands for. */
  ghost function Stored<V(!new)>(s: seq<Cell<V>>, slot: map<string, nat>): map<string, V>
    requires Indexed(s, slot)
  {
    map k | k in slot :: s[slot[k]].value
  }

  /** A probe for `key` ends `i` places along its path: at the key or at a free slot. */
  ghost predicate Ends<V(!new)>(hash: Hash, s: seq<Cell<V>>, key: string, i: nat) {
    && i < |s|
    && (forall k | 0 <= k < i :: var x := s[Probe(hash, key, k, |s|)]; x.Used? && x.key != key)
    && var x := s[Probe(hash, key, i, |s|)]; x.Used? ==> x.key == key
  }

  /** Where a probe ends tells whether the key is there. */
  lemma ProbeFinds<V(!new)>(hash: Hash, s: seq<Cell<V>>, slot: map<string, nat>, key: string, i: nat)
    requires Good(hash, s, slot) && Ends(hash, s, key, i)
    ensures var j := Probe(hash, key, i, |s|);
            (key in slot <==> s[j].Used?) && (key in slot ==> slot[key] == j)
  {
    if key in slot {
      var d := Far(hash, key, slot[key], |s|);
      assert s[Probe(hash, key, d, |s|)].key == key;
      if i < d {
        assert s[Probe(hash, key, i, |s|)].Used?;
      }
    }
  }

  lemma PutGood<V(!new)>(hash: Hash, s: seq<Cell<V>>, slot: map<string, nat>, key: string, value: V, i: nat)
    requires Good(hash, s, slot) && Ends(hash, s, key, i)
    ensures var j := Probe(hash, key, i, |s|);
            var t, at := s[j := Used(key, value)], slot[key := j];
            Good(hash, t, at) && Stored(t, at) == Stored(s, slot)[key := value]
  {
    hide Probe, Far;
    ProbeFinds(hash, s, slot, key, i);
    var j := Probe(hash, key, i, |s|);
    var t, at := s[j := Used(key, value)], slot[key := j];
    assert Indexed(t, at);
    forall k, d | k in at && 0 <= d < Far(hash, k, at[k], |t|) ensures t[Probe(hash, k, d, |t|)].Used? {
      if k == key { SameWay(hash, key, i, j, |s|); }
    }
  }

  lemma SameWay(hash: Hash, key: string, i: nat, j: nat, n: nat)
    requires i < n && j == Probe(hash, key, i, n)
    ensures Far(hash, key, j, n) == i
  {
  }

  // ---------------------------------------------------------------------
  // Counting

  function Keys<V>(s: seq<Cell<V>>): set<string> {
    if |s| == 0 then {}
    else
      var x := s[|s| - 1];
      Keys(s[..|s| - 1]) + if x.Used? then {x.key} else {}
  }

  lemma {:induction false} KeyIn<V>(s: seq<Cell<V>>, k: string)
    ensures k in Keys(s) <==> exists j | 0 <= j < |s| :: s[j].Used? && s[j].key == k
    decreases |s|
  {
    if |s| > 0 {
      var p := s[..|s| - 1];
      KeyIn(p, k);
      if k in Keys(p) {
        var j :| 0 <= j < |p| && p[j].Used? && p[j].key == k;
        assert s[j] == p[j];
      }
      if j :| 0 <= j < |s| && s[j].Used? && s[j].key == k {
        if j < |p| { assert p[j] == s[j]; }
      }
    }
  }

  /** A prefix without a free cell holds as many keys as cells. */
  lemma {:induction false} KeysCount<V(!new)>(s: seq<Cell<V>>, slot: map<string, nat>, n: nat)
    requires Indexed(s, slot) && n <= |s| && (forall j | 0 <= j < n :: s[j].Used?)
    ensures Keys(s[..n]) <= slot.Keys && |Keys(s[..n])| == n
    decreases n
  {
    if n > 0 {
      assert s[..n][..n - 1] == s[..n - 1];
      KeysCount(s, slot, n - 1);
      KeyIn(s[..n - 1], s[n - 1].key);
    }
  }

  lemma Card(a: set<string>, b: set<string>)
    requires a <= b
    ensures |a| <= |b|
    ensures a != b ==> |a| < |b|
  {
    assert b == a + (b - a);
  }

  /** Fewer keys than cells leave a free cell. */
  lemma FreeCell<V(!new)>(s: seq<Cell<V>>, slot: map<string, nat>) returns (j: nat)
    requires Indexed(s, slot) && |slot| < |s|
    ensures j < |s| && s[j].Free?
  {
    assert |slot.Keys| == |slot|;
    if forall j | 0 <= j < |s| :: s[j].Used? {
      KeysCount(s, slot, |s|);
      Card(Keys(s[..|s|]), slot.Keys);
      assert false;
    } else {
      j :| 0 <= j < |s| && !s[j].Used?;
    }
  }

  // ---------------------------------------------------------------------
  // Growth

  function NewSize(fill: nat, size: nat): nat {
    if 5 * fill > 4 * size then size * 5 / 4 else size
  }

  /** At most one key above 80 percent. */
  predicate Roomy(fill: nat, size: nat) {
    size >= 6 && 5 * fill <= 4 * size + 5
  }

  /** Keys and cells after setting `n` different keys in a new table. */
  function Sizes(size: nat, n: nat): (nat, nat) {
    if n == 0 then (0, size)
    else
      var (fill, cells) := Sizes(size, n - 1);
      (fill + 1, NewSize(fill, cells))
  }

  lemma {:induction false} StaysRoomy(size: nat, n: nat)
    requires size >= 6
    ensures var (fill, cells) := Sizes(size, n); Roomy(fill, cells) && fill < cells
  {
    if n > 0 {
      StaysRoomy(size, n - 1);
    }
  }

  /** A free cell is left after every number of keys exactly when the table starts
      with at least six cells; a smaller one fills up with as many keys as cells. */
  lemma SixCells(size: nat)
    ensures (forall n: nat :: Sizes(size, n).0 < Sizes(size, n).1) <==> size >= 6
  {
    if size >= 6 {
      forall n: nat ensures Sizes(size, n).0 < Sizes(size, n).1 {
        StaysRoomy(size, n);
      }
    } else {
      FillsUp(size, size);
    }
  }

  lemma {:induction false} FillsUp(size: nat, n: nat)
    requires n <= size < 6
    ensures Sizes(size, n) == (n, size)
  {
    if n > 0 {
      FillsUp(size, n - 1);
    }
  }

  /** The entries of the first `i` cells. */
  ghost function Moved<V(!new)>(s: seq<Cell<V>>, slot: map<string, nat>, i: nat): map<string, V>
    requires Indexed(s, slot)
  {
    map k | k in slot && slot[k] < i :: s[slot[k]].value
  }

  lemma StoredKeys<V(!new)>(s: seq<Cell<V>>, slot: map<string, nat>)
    requires Indexed(s, slot)
    ensures Stored(s, slot).Keys == slot.Keys && |Stored(s, slot)| == |slot|
  {
    var m := Stored(s, slot);
    assert m.Keys == slot.Keys;
    assert |m| == |m.Keys| && |slot| == |slot.Keys|;
  }

  lemma AllMoved<V(!new)>(s: seq<Cell<V>>, slot: map<string, nat>)
    requires Indexed(s, slot)
    ensures Moved(s, slot, 0) == map[] && Moved(s, slot, |s|) == Stored(s, slot)
  {
  }

  lemma OneMoved<V(!new)>(s: seq<Cell<V>>, slot: map<string, nat>, i: nat)
    requires Indexed(s, slot) && i < |s|
    ensures Moved(s, slot, i + 1) ==
            if s[i].Used? then Moved(s, slot, i)[s[i].key := s[i].value] else Moved(s, slot, i)
    ensures s[i].Used? ==> |Moved(s, slot, i)| < |slot|
  {
    if s[i].Used? {
      var m := Moved(s, slot, i);
      assert m.Keys <= slot.Keys && s[i].key in slot.Keys && s[i].key !in m.Keys;
      Card(m.Keys, slot.Keys);
      assert |m| == |m.Keys| && |slot| == |slot.Keys|;
    }
  }

  // ---------------------------------------------------------------------
  // The table in place

  class Table<V(!new)> {
    const hash: Hash
    var cells: array<Cell<V>>
    var fill: nat
    ghost var slot: map<string, nat>

    ghost predicate Valid()
      reads this, cells
    {
      Good(hash, cells[..], slot) && fill == |slot| && Roomy(fill, cells.Length)
    }

    ghost function Contents(): map<string, V>
      requires Valid()
      reads this, cells
    {
      Stored(cells[..], slot)
    }

    constructor (h: Hash, size: nat)
      requires size >= 6
      ensures Valid() && fresh(cells) && Contents() == map[] && cells.Length == size && hash == h
    {
      hash := h;
      cells := new Cell<V>[size](_ => Free);
      fill := 0;
      slot := map[];
    }

    /** Follows the probe path of `key` to its cell or to a free one.  There is
        always a free cell, so the path ends. */
    method Search(key: string) returns (j: nat, ghost i: nat)
      requires Good(hash, cells[..], slot) && |slot| < cells.Length
      ensures Ends(hash, cells[..], key, i) && j == Probe(hash, key, i, cells.Length)
      ensures if key in slot then j == slot[key] else cells[j].Free?
    {
      ghost var free := FreeCell(cells[..], slot);
      ghost var far := Far(hash, key, free, cells.Length);
      i := 0;
      j := hash(key) % cells.Length;
      while cells[j].Used?
        invariant i <= far && j == Probe(hash, key, i, cells.Length)
        invariant forall k | 0 <= k < i :: var x := cells[Probe(hash, key, k, cells.Length)]; x.Used? && x.key != key
        decreases far - i
      {
        if cells[j].key == key {
          break;
        }
        NextStep(Start(hash, key, cells.Length), i, cells.Length);
        i := i + 1;
        j := (j + 1) % cells.Length;
      }
      ProbeFinds(hash, cells[..], slot, key, i);
    }

    method Get(key: string) returns (r: Option<V>)
      requires Valid()
      ensures r == if key in Contents() then Some(Contents()[key]) else None
    {
      var j, i := Search(key);
      ProbeFinds(hash, cells[..], slot, key, i);
      r := if cells[j].Used? then Some(cells[j].value) else None;
    }

    /** Stores a value where the probe for its key ends. */
    method Put(key: string, value: V)
      requires Valid() && 5 * fill <= 4 * cells.Length
      modifies this`fill, this`slot, cells
      ensures Valid() && Contents() == old(Contents())[key := value]
      ensures fill == old(fill) + if key in old(Contents()) then 0 else 1
    {
      hide Indexed, Reached, Stored, Ends, Probe;
      var j, i := Search(key);
      ghost var s, at := cells[..], slot;
      ProbeFinds(hash, s, at, key, i);
      PutGood(hash, s, at, key, value, i);
      StoredKeys(s, at);
      if !cells[j].Used? {
        fill := fill + 1;
      }
      cells[j] := Used(key, value);
      slot := slot[key := j];
      assert cells[..] == s[j := Used(key, value)];
    }

    /** Stores a value, growing first when more than 80 percent of the cells are used. */
    method Set(key: string, value: V)
      requires Valid()
      modifies this, cells
      ensures Valid() && Contents() == old(Contents())[key := value]
      ensures if 5 * old(fill) > 4 * old(cells.Length) then fresh(cells) else cells == old(cells)
      ensures cells.Length == NewSize(old(fill), old(cells.Length))
      ensures fill == old(fill) + if key in old(Contents()) then 0 else 1
      decreases 5 * fill > 4 * cells.Length, 1
    {
      hide Good, Stored;
      if 5 * fill > 4 * cells.Length {
        Grow();
      }
      Put(key, value);
    }

    /** Sets every entry of a smaller table in this one, which is new and does not
        grow while it is filled. */
    method Fill(from: array<Cell<V>>, ghost at: map<string, nat>)
      requires Valid() && Contents() == map[] && cells != from
      requires Indexed(from[..], at) && 5 * |at| <= 4 * cells.Length
      modifies this, cells
      ensures Valid() && cells == old(cells) && Contents() == Stored(from[..], at) && fill == |at|
      decreases false, 2
    {
      hide Indexed, Reached, Stored, Moved;
      ghost var s := from[..];
      AllMoved(s, at);
      for i := 0 to from.Length
        invariant Valid() && cells == old(cells) && from[..] == s
        invariant Contents() == Moved(s, at, i)
      {
        OneMoved(s, at, i);
        StoredKeys(cells[..], slot);
        if from[i].Used? {
          Set(from[i].key, from[i].value);
        }
      }
      StoredKeys(s, at);
      StoredKeys(cells[..], slot);
    }

    /** Moves every entry to a table a quarter larger. */
    method Grow()
      requires Valid() && 5 * fill > 4 * cells.Length
      modifies this
      ensures Valid() && fresh(cells) && cells.Length == NewSize(old(fill), old(cells.Length))
      ensures Contents() == old(Contents()) && fill == old(fill) && 5 * fill <= 4 * cells.Length
      decreases true, 0
    {
      hide Indexed, Reached, Stored;
      var larger := new Table<V>(hash, cells.Length * 5 / 4);
      larger.Fill(cells, slot);
      cells := larger.cells;
      fill := larger.fill;
      slot := larger.slot;
    }

    /** The first used cell from `iter` on, if there is one. */
    method Next(iter: nat) returns (r: Option<(string, V)>, next: nat)
      requires iter <= cells.Length
      ensures iter <= next <= cells.Length
      ensures r.None? ==> next == iter && forall j | iter <= j < cells.Length :: cells[j].Free?
      ensures r.Some? ==> iter < next && cells[next - 1] == Used(r.value.0, r.value.1)
      ensures r.Some? ==> forall j | iter <= j < next - 1 :: cells[j].Free?
    {
      var it := iter;
      while it < cells.Length && !cells[it].Used?
        invariant iter <= it <= cells.Length && forall j | iter <= j < it :: cells[j].Free?
      {
        it := it + 1;
      }
      if it == cells.Length {
        return None, iter;
      }
      return Some((cells[it].key, cells[it].value)), it + 1;
    }

    /** Visits the entries: each key comes up once, with its value. */
    method ForEach() returns (visited: seq<(string, V)>)
      requires Valid()
      ensures forall p | p in visited :: p.0 in Contents() && Contents()[p.0] == p.1
      ensures forall k | k in Contents() :: (k, Contents()[k]) in visited
      ensures forall a, b | 0 <= a < b < |visited| :: visited[a].0 != visited[b].0
    {
      hide Reached, Passed;
      visited := [];
      var r, it := Next(0);
      ghost var done := if r.Some? then it - 1 else cells.Length;
      PassedNone(done);
      while r.Some?
        invariant 0 <= it <= cells.Length && 0 <= done <= cells.Length && Passed(visited, done)
        invariant if r.Some? then done == it - 1 && cells[done] == Used(r.value.0, r.value.1)
                  else done == cells.Length
        decreases cells.Length - it, r.Some?
      {
        ghost var was, x := done, r.value;
        visited := visited + [r.value];
        r, it := Next(it);
        done := if r.Some? then it - 1 else cells.Length;
        PassedOne(visited[..|visited| - 1], was, x, done);
        assert visited[..|visited| - 1] + [x] == visited;
      }
      PassedAll(visited);
    }

    /** The pair is an entry in a cell before `j`. */
    ghost predicate Seen(p: (string, V), j: nat)
      reads this, cells
    {
      p.0 in slot && slot[p.0] < j && slot[p.0] < cells.Length && cells[slot[p.0]] == Used(p.0, p.1)
    }

    /** The entries before cell `n`, each once. */
    ghost predicate Passed(visited: seq<(string, V)>, n: nat)
      requires n <= cells.Length
      reads this, cells
    {
      && (forall a | 0 <= a < |visited| :: Seen(visited[a], n))
      && (forall j | 0 <= j < n && cells[j].Used? :: (cells[j].key, cells[j].value) in visited)
      && (forall a, b | 0 <= a < b < |visited| :: visited[a].0 != visited[b].0)
    }

    lemma PassedNone(n: nat)
      requires n <= cells.Length && forall j | 0 <= j < n :: cells[j].Free?
      ensures Passed([], n)
    {
    }

    lemma PassedOne(visited: seq<(string, V)>, n: nat, x: (string, V), m: nat)
      requires Valid() && n < m <= cells.Length && Passed(visited, n)
      requires cells[n] == Used(x.0, x.1) && forall j | n < j < m :: cells[j].Free?
      ensures Passed(visited + [x], m)
    {
      hide Reached;
      var all := visited + [x];
      assert all[|visited|] == x && forall p | p in visited :: p in all;
      assert Seen(x, m);
      forall a | 0 <= a < |visited| ensures Seen(all[a], m) && all[a].0 != x.0 {
        assert Seen(visited[a], n);
      }
    }

    lemma PassedAll(visited: seq<(string, V)>)
      requires Valid() && Passed(visited, cells.Length)
      ensures forall p | p in visited :: p.0 in Contents() && Contents()[p.0] == p.1
      ensures forall k | k in Contents() :: (k, Contents()[k]) in visited
      ensures forall a, b | 0 <= a < b < |visited| :: visited[a].0 != visited[b].0
    {
      hide Reached;
    }
  }
}

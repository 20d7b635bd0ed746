/**
 The open-addressing table of the name service: linear probing, tombstones for
 removed entries, growth by 256 slots when every slot is live.
 */
module ProbeTable {
  import opened Basics

  datatype Slot<+V> = Empty | Deleted | Live(key: nat, value: V)

  // ---------------------------------------------------------------------
  // Positions

  function Home(key: nat, n: nat): (h: nat)
    requires n > 0
    ensures h < n
  {
    key % n
  }

  /** The slot `i` places after `h`, wrapping around. */
  function Step(h: nat, i: nat, n: nat): (j: nat)
    requires h < n && i < n
    ensures j < n
  {
    if h + i < n then h + i else h + i - n
  }

  /** How many places slot `j` is after `h`. */
  function Dist(h: nat, j: nat, n: nat): (i: nat)
    requires h < n && j < n
    ensures i < n && Step(h, i, n) == j
  {
    if h <= j then j - h else j - h + n
  }

  lemma NextStep(h: nat, i: nat, n: nat)
    requires h < n && i + 1 < n
    ensures Step(h, i + 1, n) == (Step(h, i, n) + 1) % n
  {
  }

  // ---------------------------------------------------------------------
  // Tables as sequences of slots

  /** No empty slot lies between an entry's home and the entry. */
  ghost predicate Linked<V(!new)>(s: seq<Slot<V>>) {
    forall j | 0 <= j < |s| && s[j].Live? :: Reachable(s, j)
  }

  ghost predicate Reachable<V(!new)>(s: seq<Slot<V>>, j: nat)
    requires j < |s| && s[j].Live?
  {
    var h := Home(s[j].key, |s|);
    forall i | 0 <= i < Dist(h, j, |s|) :: !s[Step(h, i, |s|)].Empty?
  }

  ghost predicate Unique<V(!new)>(s: seq<Slot<V>>) {
    forall i, j | 0 <= i < |s| && 0 <= j < |s| && s[i].Live? && s[j].Live? && s[i].key == s[j].key :: i == j
  }

  /** The finite map that a table stands for. */
  ghost function Contents<V(!new)>(s: seq<Slot<V>>): map<nat, V>
    requires Unique(s)
  {
    map j | 0 <= j < |s| && s[j].Live? :: s[j].key := s[j].value
  }

  function LiveCount<V>(s: seq<Slot<V>>): (c: nat)
    ensures c <= |s|
  {
    if |s| == 0 then 0
    else (if s[|s| - 1].Live? then 1 else 0) + LiveCount(s[..|s| - 1])
  }

  lemma {:induction false} LiveCountUpdate<V>(s: seq<Slot<V>>, j: nat, x: Slot<V>)
    requires j < |s|
    ensures LiveCount(s[j := x]) == LiveCount(s) - (if s[j].Live? then 1 else 0) + (if x.Live? then 1 else 0)
  {
    var t, k := s[j := x], |s| - 1;
    if j == k {
      assert t[..k] == s[..k];
    } else {
      assert t[..k] == s[..k][j := x];
      LiveCountUpdate(s[..k], j, x);
    }
  }

  /** A table with fewer entries than slots has a free slot. */
  lemma {:induction false} FreeSlot<V>(s: seq<Slot<V>>) returns (j: nat)
    requires LiveCount(s) < |s|
    ensures j < |s| && !s[j].Live?
  {
    var k := |s| - 1;
    if s[k].Live? {
      j := FreeSlot(s[..k]);
    } else {
      j := k;
    }
  }

  lemma {:induction false} AllLive<V>(s: seq<Slot<V>>)
    requires LiveCount(s) == |s|
    ensures forall j | 0 <= j < |s| :: s[j].Live?
  {
    if |s| > 0 {
      AllLive(s[..|s| - 1]);
      forall j | 0 <= j < |s| ensures s[j].Live? {
        if j < |s| - 1 { assert s[j] == s[..|s| - 1][j]; }
      }
    }
  }

  lemma {:induction false} NoneLive<V>(s: seq<Slot<V>>)
    requires forall j | 0 <= j < |s| :: !s[j].Live?
    ensures LiveCount(s) == 0
  {
    if |s| > 0 {
      NoneLive(s[..|s| - 1]);
    }
  }

  // ---------------------------------------------------------------------
  // Where a put goes

  /** A put of `key` stops `i` places after the key's home: at the first slot
      that is free, tombstone or not, or that holds the key. */
  ghost predicate PutStops<V(!new)>(s: seq<Slot<V>>, key: nat, i: nat) {
    && i < |s|
    && (forall k | 0 <= k < i :: var x := s[Step(Home(key, |s|), k, |s|)]; x.Live? && x.key != key)
    && var x := s[Step(Home(key, |s|), i, |s|)]; x.Live? ==> x.key == key
  }

  /** No tombstone lies before the entry of `key`, if there is one. */
  ghost predicate Clean<V(!new)>(s: seq<Slot<V>>, key: nat) {
    forall j | 0 <= j < |s| && s[j].Live? && s[j].key == key ::
      var h := Home(key, |s|);
      forall i | 0 <= i < Dist(h, j, |s|) :: !s[Step(h, i, |s|)].Deleted?
  }

  ghost predicate Holds<V(!new)>(s: seq<Slot<V>>, j: nat, key: nat) {
    j < |s| && s[j].Live? && s[j].key == key
  }

  /** In a clean table a put stops at the key's own entry, if there is one. */
  lemma CleanStop<V(!new)>(s: seq<Slot<V>>, key: nat, i: nat, j: nat)
    requires Linked(s) && Unique(s) && PutStops(s, key, i) && Holds(s, j, key) && Clean(s, key)
    ensures j == Step(Home(key, |s|), i, |s|)
  {
    var h := Home(key, |s|);
    var d := Dist(h, j, |s|);
    assert Reachable(s, j);
    if d < i {
      assert false;
    } else if i < d {
      assert !s[Step(h, i, |s|)].Empty? && !s[Step(h, i, |s|)].Deleted?;
    }
  }

  lemma PutLinked<V(!new)>(s: seq<Slot<V>>, key: nat, i: nat, value: V)
    requires Linked(s) && PutStops(s, key, i)
    ensures Linked(s[Step(Home(key, |s|), i, |s|) := Live(key, value)])
  {
    var idx := Step(Home(key, |s|), i, |s|);
    var t := s[idx := Live(key, value)];
    forall j | 0 <= j < |t| && t[j].Live? ensures Reachable(t, j) {
      if j != idx { assert Reachable(s, j); }
    }
  }

  /** A put leaves every key with one entry exactly when no tombstone comes
      before the key's entry; then the table stands for the updated map. */
  lemma PutUpdates<V(!new)>(s: seq<Slot<V>>, key: nat, i: nat, value: V)
    requires Linked(s) && Unique(s) && PutStops(s, key, i)
    ensures var t := s[Step(Home(key, |s|), i, |s|) := Live(key, value)];
            && (Unique(t) <==> Clean(s, key))
            && (Unique(t) ==> Contents(t) == Contents(s)[key := value])
  {
    var h := Home(key, |s|);
    var idx := Step(h, i, |s|);
    var t := s[idx := Live(key, value)];
    if Clean(s, key) {
      forall j | Holds(s, j, key) ensures j == idx {
        CleanStop(s, key, i, j);
      }
      assert forall j | 0 <= j < |t| && t[j].Live? && t[j].key == key :: Holds(s, j, key) || j == idx;
      PutContents(s, t, idx, key, value);
    } else {
      var j :| 0 <= j < |s| && s[j].Live? && s[j].key == key &&
               !(forall k | 0 <= k < Dist(h, j, |s|) :: !s[Step(h, k, |s|)].Deleted?);
      var k :| 0 <= k < Dist(h, j, |s|) && s[Step(h, k, |s|)].Deleted?;
      assert i <= k;
      assert t[j] == s[j] && t[idx].key == t[j].key && j != idx;
    }
  }

  lemma PutContents<V(!new)>(s: seq<Slot<V>>, t: seq<Slot<V>>, idx: nat, key: nat, value: V)
    requires Unique(s) && idx < |s| && t == s[idx := Live(key, value)] && (s[idx].Live? ==> s[idx].key == key)
    requires forall j | Holds(s, j, key) :: j == idx
    ensures Unique(t) && Contents(t) == Contents(s)[key := value]
  {
    assert forall j | 0 <= j < |s| && j != idx && s[j].Live? :: !Holds(s, j, key) && s[j].key != key;
    var m, m' := Contents(s)[key := value], Contents(t);
    forall k ensures k in m <==> k in m' {
      if k in m && k != key {
        var j :| 0 <= j < |s| && s[j].Live? && s[j].key == k;
        assert t[j] == s[j];
      }
      assert t[idx].key == key;
    }
    forall k | k in m ensures m[k] == m'[k] {
      var j :| 0 <= j < |t| && t[j].Live? && t[j].key == k && m'[k] == t[j].value;
    }
  }

  // ---------------------------------------------------------------------
  // Removing

  lemma RemoveUpdates<V(!new)>(s: seq<Slot<V>>, j: nat)
    requires Linked(s) && Unique(s) && j < |s| && s[j].Live?
    ensures var t := s[j := Deleted];
            Linked(t) && Unique(t) && Contents(t) == Contents(s) - {s[j].key}
  {
    hide Linked;
    RemoveLinked(s, j);
    var t := s[j := Deleted];
    var m, m' := Contents(s) - {s[j].key}, Contents(t);
    forall k ensures k in m <==> k in m' {
      if k in m {
        var i :| 0 <= i < |s| && s[i].Live? && s[i].key == k;
        assert t[i] == s[i];
      }
    }
    forall k | k in m' ensures m[k] == m'[k] {
      var i :| 0 <= i < |t| && t[i].Live? && t[i].key == k;
    }
  }

  lemma RemoveLinked<V(!new)>(s: seq<Slot<V>>, j: nat)
    requires Linked(s) && j < |s|
    ensures Linked(s[j := Deleted])
  {
    var t := s[j := Deleted];
    forall i | 0 <= i < |t| && t[i].Live? ensures Reachable(t, i) {
      assert Reachable(s, i);
    }
  }

  // ---------------------------------------------------------------------
  // The operations on sequences of slots

  /** The slot of `key`, searched from `i` places after its home on; the size of
      the table if there is none.  Tombstones are passed over, an empty slot ends
      the search. */
  function FindFrom<V>(s: seq<Slot<V>>, key: nat, i: nat): (j: nat)
    requires |s| > 0 && i <= |s|
    ensures j <= |s| && (j < |s| ==> s[j].Live? && s[j].key == key)
    decreases |s| - i
  {
    if i == |s| then |s|
    else
      var j := Step(Home(key, |s|), i, |s|);
      if s[j].Empty? then |s|
      else if s[j].Live? && s[j].key == key then j
      else FindFrom(s, key, i + 1)
  }

  function FindSlot<V>(s: seq<Slot<V>>, key: nat): (j: nat)
    ensures j <= |s| && (j < |s| ==> s[j].Live? && s[j].key == key)
  {
    if |s| == 0 then 0 else FindFrom(s, key, 0)
  }

  /** How far from its home `key` is put: up to a slot that is free or its own. */
  function StopFrom<V>(s: seq<Slot<V>>, key: nat, i: nat): (r: nat)
    requires i < |s|
    ensures i <= r < |s|
    decreases |s| - i
  {
    var x := s[Step(Home(key, |s|), i, |s|)];
    if i + 1 == |s| || !x.Live? || x.key == key then i else StopFrom(s, key, i + 1)
  }

  /** A put into a table with a free slot. */
  function Inserted<V>(s: seq<Slot<V>>, key: nat, value: V): (t: seq<Slot<V>>)
    requires |s| > 0
    ensures |t| == |s|
  {
    s[Step(Home(key, |s|), StopFrom(s, key, 0), |s|) := Live(key, value)]
  }

  /** The live entries among the first `n` slots of `s`, put into `t` one by one. */
  function Refilled<V>(t: seq<Slot<V>>, s: seq<Slot<V>>, n: nat): (r: seq<Slot<V>>)
    requires |t| > 0 && n <= |s|
    ensures |r| == |t|
  {
    if n == 0 then t
    else
      var u := Refilled(t, s, n - 1);
      if s[n - 1].Live? then Inserted(u, s[n - 1].key, s[n - 1].value) else u
  }

  function Grown<V>(s: seq<Slot<V>>): (t: seq<Slot<V>>)
    ensures |t| == |s| + 256
  {
    Refilled(seq(|s| + 256, _ => Empty), s, |s|)
  }

  /** A put, which grows a table whose slots are all live. */
  function Put<V>(s: seq<Slot<V>>, key: nat, value: V): (t: seq<Slot<V>>)
    ensures |t| == if LiveCount(s) == |s| then |s| + 256 else |s|
  {
    Inserted(if LiveCount(s) == |s| then Grown(s) else s, key, value)
  }

  function Removed<V>(s: seq<Slot<V>>, key: nat): (t: seq<Slot<V>>)
    ensures |t| == |s|
  {
    var j := FindSlot(s, key);
    if j < |s| then s[j := Deleted] else s
  }

  function Looked<V>(s: seq<Slot<V>>, key: nat): Option<V> {
    var j := FindSlot(s, key);
    if j < |s| then Some(s[j].value) else None
  }

  /** A visit from slot `j` on that removes each visited entry by its key. */
  function RemovedEach<V>(s: seq<Slot<V>>, j: nat): (t: seq<Slot<V>>)
    ensures |t| == |s|
    decreases |s| - j
  {
    if j >= |s| then s else RemovedEach(if s[j].Live? then Removed(s, s[j].key) else s, j + 1)
  }

  /** In a table that is a map, a visit removes the entries it passes, and no other. */
  lemma {:induction false} RemovedEachIs<V(!new)>(s: seq<Slot<V>>, j: nat)
    requires Linked(s) && Unique(s) && j <= |s| && forall k | 0 <= k < j :: !s[k].Live?
    ensures var t := RemovedEach(s, j);
            Linked(t) && Unique(t) && Contents(t) == map[] && LiveCount(t) == 0
    decreases |s| - j
  {
    hide Linked, Contents, LiveCount;
    if j == |s| {
      NoneLive(s);
      DeadIsEmpty(s);
    } else if s[j].Live? {
      FindIs(s, s[j].key);
      assert Holds(s, j, s[j].key);
      RemovedIs(s, s[j].key);
      RemovedEachIs(Removed(s, s[j].key), j + 1);
    } else {
      RemovedEachIs(s, j + 1);
    }
  }

  lemma DeadIsEmpty<V(!new)>(s: seq<Slot<V>>)
    requires Unique(s) && forall k | 0 <= k < |s| :: !s[k].Live?
    ensures Contents(s) == map[]
  {
  }

  lemma {:induction false} FindFromAll<V(!new)>(s: seq<Slot<V>>, key: nat, i: nat)
    requires Linked(s) && |s| > 0 && i <= |s| && FindFrom(s, key, i) == |s|
    requires forall k | 0 <= k < i :: !Holds(s, Step(Home(key, |s|), k, |s|), key)
    ensures forall j :: !Holds(s, j, key)
    decreases |s| - i
  {
    var h := Home(key, |s|);
    if i < |s| && !s[Step(h, i, |s|)].Empty? {
      FindFromAll(s, key, i + 1);
    } else {
      forall j: nat | j < |s| ensures !Holds(s, j, key) {
        var d := Dist(h, j, |s|);
        assert Step(h, d, |s|) == j;
        assert s[j].Live? ==> Reachable(s, j);
      }
    }
  }

  /** The search finds an entry of the key if there is one, and in a map the entry. */
  lemma FindIs<V(!new)>(s: seq<Slot<V>>, key: nat)
    requires Linked(s)
    ensures FindSlot(s, key) == |s| ==> forall j :: !Holds(s, j, key)
    ensures Unique(s) ==> (FindSlot(s, key) < |s| <==> key in Contents(s))
    ensures Unique(s) && key in Contents(s) ==> s[FindSlot(s, key)].value == Contents(s)[key]
  {
    hide Linked, FindFrom, Contents;
    if |s| > 0 && FindSlot(s, key) == |s| {
      FindFromAll(s, key, 0);
    }
    if Unique(s) {
      if FindSlot(s, key) < |s| {
        EntryIn(s, FindSlot(s, key));
      }
      if key in Contents(s) {
        var j := EntryOf(s, key);
      }
    }
  }

  lemma LookedIs<V(!new)>(s: seq<Slot<V>>, key: nat)
    requires Linked(s) && Unique(s)
    ensures Looked(s, key) == Get(Contents(s), key)
  {
    hide Linked, Unique, Contents, FindSlot;
    FindIs(s, key);
  }

  lemma EntryOf<V(!new)>(s: seq<Slot<V>>, key: nat) returns (j: nat)
    requires Unique(s) && key in Contents(s)
    ensures Holds(s, j, key) && Contents(s)[key] == s[j].value
  {
    j :| 0 <= j < |s| && s[j].Live? && s[j].key == key;
  }

  lemma {:induction false} StopFromIs<V(!new)>(s: seq<Slot<V>>, key: nat, i: nat, free: nat)
    requires i <= free < |s| && !s[Step(Home(key, |s|), free, |s|)].Live?
    requires forall k | 0 <= k < i :: var x := s[Step(Home(key, |s|), k, |s|)]; x.Live? && x.key != key
    ensures PutStops(s, key, StopFrom(s, key, i))
    decreases |s| - i
  {
    var x := s[Step(Home(key, |s|), i, |s|)];
    if i < free && x.Live? && x.key != key {
      StopFromIs(s, key, i + 1, free);
    }
  }

  lemma StopIs<V(!new)>(s: seq<Slot<V>>, key: nat)
    requires LiveCount(s) < |s|
    ensures PutStops(s, key, StopFrom(s, key, 0))
  {
    var free := FreeSlot(s);
    StopFromIs(s, key, 0, Dist(Home(key, |s|), free, |s|));
  }

  lemma StopOnce<V(!new)>(s: seq<Slot<V>>, key: nat, i: nat)
    requires PutStops(s, key, i)
    ensures StopFrom(s, key, 0) == i
  {
    StopUpTo(s, key, 0, i);
  }

  lemma {:induction false} StopUpTo<V(!new)>(s: seq<Slot<V>>, key: nat, k: nat, i: nat)
    requires PutStops(s, key, i) && k <= i
    ensures StopFrom(s, key, k) == i
    decreases i - k
  {
    if k < i {
      StopUpTo(s, key, k + 1, i);
    }
  }

  /** What a put does to a table with a free slot. */
  lemma InsertedIs<V(!new)>(s: seq<Slot<V>>, key: nat, value: V)
    requires Linked(s) && LiveCount(s) < |s|
    ensures var t := Inserted(s, key, value);
            && Linked(t) && LiveCount(t) <= LiveCount(s) + 1 && (Untouched(s) ==> Untouched(t))
            && (Unique(s) ==> (Unique(t) <==> Clean(s, key)))
            && (Unique(s) && Unique(t) ==> Contents(t) == Contents(s)[key := value])
            && (Unique(s) && key !in Contents(s) ==> LiveCount(t) == LiveCount(s) + 1)
  {
    hide Linked, Unique, Contents, Clean, LiveCount;
    StopIs(s, key);
    var i := StopFrom(s, key, 0);
    var j := Step(Home(key, |s|), i, |s|);
    if Unique(s) && s[j].Live? {
      EntryIn(s, j);
    }
    PutLinked(s, key, i, value);
    LiveCountUpdate(s, Step(Home(key, |s|), i, |s|), Live(key, value));
    if Unique(s) {
      PutUpdates(s, key, i, value);
    }
  }

  /** A table refilled from another is untouched and a map, and it has an entry for
      each entry of the other. */
  lemma {:induction false} RefilledIs<V(!new)>(size: nat, s: seq<Slot<V>>, n: nat)
    requires |s| < size && n <= |s|
    ensures var u := Refilled(seq(size, _ => Empty), s, n);
            && Linked(u) && Unique(u) && Untouched(u) && LiveCount(u) <= n
            && (Unique(s) ==> Unique(s[..n]) && Contents(u) == Contents(s[..n]) && LiveCount(u) == LiveCount(s[..n]))
    decreases n
  {
    hide Linked, Unique, Contents, LiveCount, Inserted;
    var e: seq<Slot<V>> := seq(size, _ => Empty);
    if n == 0 {
      BlankTable(e);
      PrefixNone(s);
    } else {
      RefilledIs(size, s, n - 1);
      var u := Refilled(e, s, n - 1);
      if Unique(s) { PrefixOne(s, n - 1); }
      if s[n - 1].Live? {
        UntouchedIsClean(u, s[n - 1].key);
        InsertedIs(u, s[n - 1].key, s[n - 1].value);
      }
    }
  }

  lemma GrownIs<V(!new)>(s: seq<Slot<V>>)
    ensures var t := Grown(s);
            && Linked(t) && Unique(t) && Untouched(t) && LiveCount(t) <= |s|
            && (Unique(s) ==> Contents(t) == Contents(s) && LiveCount(t) == LiveCount(s))
  {
    RefilledIs(|s| + 256, s, |s|);
    assert s[..|s|] == s;
  }

  /** A put keeps every entry reachable.  In a table that is a map it leaves a map
      exactly when no tombstone comes before the key's entry, and then the updated
      one; a table that never had a tombstone has none after it. */
  lemma PutIs<V(!new)>(s: seq<Slot<V>>, key: nat, value: V)
    requires Linked(s)
    ensures var t := Put(s, key, value);
            && Linked(t) && (Untouched(s) ==> Untouched(t))
            && (Unique(s) ==> (Unique(t) <==> Clean(s, key)))
            && (Unique(s) && Unique(t) ==> Contents(t) == Contents(s)[key := value])
  {
    hide Linked, Unique, Contents, Clean, LiveCount, Inserted, Grown;
    if LiveCount(s) == |s| {
      GrownIs(s);
      FullIsClean(s, key);
      UntouchedIsClean(Grown(s), key);
      InsertedIs(Grown(s), key, value);
    } else {
      InsertedIs(s, key, value);
    }
  }

  /** A removal takes out the entry that the search finds. */
  lemma RemovedIs<V(!new)>(s: seq<Slot<V>>, key: nat)
    requires Linked(s)
    ensures Linked(Removed(s, key))
    ensures Unique(s) ==> Unique(Removed(s, key)) && Contents(Removed(s, key)) == Contents(s) - {key}
  {
    hide Linked, Unique, Contents, FindSlot;
    FindIs(s, key);
    var j := FindSlot(s, key);
    if j < |s| {
      RemoveLinked(s, j);
      if Unique(s) {
        RemoveUpdates(s, j);
      }
    } else if Unique(s) {
      assert Contents(s) - {key} == Contents(s);
    }
  }

  // ---------------------------------------------------------------------
  // Changing values in place

  /** The same slots are empty, deleted, or live with the same key. */
  predicate SameKeys<V>(s: seq<Slot<V>>, t: seq<Slot<V>>) {
    |s| == |t| && forall j | 0 <= j < |s| :: SameKey(s[j], t[j])
  }

  predicate SameKey<V>(x: Slot<V>, y: Slot<V>) {
    x.Empty? == y.Empty? && x.Live? == y.Live? && (x.Live? ==> x.key == y.key)
  }

  lemma {:induction false} SameKeysFind<V>(s: seq<Slot<V>>, t: seq<Slot<V>>, key: nat, i: nat)
    requires SameKeys(s, t) && |s| > 0 && i <= |s|
    ensures FindFrom(s, key, i) == FindFrom(t, key, i)
    decreases |s| - i
  {
    if i < |s| {
      assert SameKey(s[Step(Home(key, |s|), i, |s|)], t[Step(Home(key, |s|), i, |s|)]);
      SameKeysFind(s, t, key, i + 1);
    }
  }

  lemma ReplacedContents<V(!new)>(s: seq<Slot<V>>, j: nat, value: V)
    requires j < |s| && s[j].Live? && Unique(s)
    ensures var t := s[j := Live(s[j].key, value)];
            Unique(t) && Contents(t) == Contents(s)[s[j].key := value]
  {
    PutContents(s, s[j := Live(s[j].key, value)], j, s[j].key, value);
  }

  /** Replacing the value in a live slot changes no search and no property of the keys. */
  lemma ReplacedValue<V(!new)>(s: seq<Slot<V>>, j: nat, value: V)
    requires j < |s| && s[j].Live?
    ensures var t := s[j := Live(s[j].key, value)];
            && (forall key: nat :: FindSlot(t, key) == FindSlot(s, key))
            && (Linked(s) ==> Linked(t)) && (Unique(s) ==> Unique(t)) && (Untouched(s) ==> Untouched(t))
            && (Unique(s) ==> Contents(t) == Contents(s)[s[j].key := value])
  {
    if Unique(s) { ReplacedContents(s, j, value); }
    var t := s[j := Live(s[j].key, value)];
    assert SameKeys(s, t);
    forall key: nat ensures FindSlot(t, key) == FindSlot(s, key) {
      SameKeysFind(s, t, key, 0);
    }
    if Linked(s) {
      forall k | 0 <= k < |t| && t[k].Live? ensures Reachable(t, k) {
        assert Reachable(s, k);
      }
    }
  }

  // ---------------------------------------------------------------------
  // The table in place

  class Table<V(!new)> {
    var data: array<Slot<V>>
    var count: nat

    /** Entries can be reached and `count` is the number of live slots. */
    ghost predicate Sane()
      reads this, data
    {
      Linked(data[..]) && count == LiveCount(data[..])
    }

    ghost predicate Valid()
      reads this, data
    {
      Sane() && Unique(data[..])
    }

    constructor ()
      ensures Valid() && fresh(data) && data.Length == 0 && Contents(data[..]) == map[]
    {
      data := new Slot<V>[0];
      count := 0;
    }

    /** Where an entry with `key` goes, or -1 if the table is full.  Counts the
        entry when the slot was free.  The probe never runs out of slots. */
    method HashSlot(key: nat) returns (rc: int, ghost i: nat)
      requires Sane()
      modifies this`count
      ensures old(count) == data.Length ==> rc == -1 && count == old(count)
      ensures old(count) < data.Length ==>
                && PutStops(data[..], key, i) && rc == Step(Home(key, data.Length), i, data.Length)
                && count == old(count) + (if data[rc].Live? then 0 else 1)
    {
      i := 0;
      if count == data.Length { return -1, i; }
      ghost var free := FreeSlot(data[..]);
      ghost var h := Home(key, data.Length);
      ghost var far := Dist(h, free, data.Length);
      var idx := key % data.Length;
      for k := 0 to data.Length
        invariant k <= far && idx == Step(h, k, data.Length) && count == old(count)
        invariant forall j | 0 <= j < k :: var x := data[Step(h, j, data.Length)]; x.Live? && x.key != key
      {
        i := k;
        if !data[idx].Live? {
          count := count + 1;
          return idx, i;
        }
        if data[idx].key == key { return idx, i; }
        NextStep(h, k, data.Length);
        idx := (idx + 1) % data.Length;
      }
      assert false;
    }

    /** Finds the slot for `key`, growing a full table first.  One growth is
        always enough. */
    method Locate(key: nat) returns (rc: nat, ghost i: nat)
      requires Sane()
      modifies this
      ensures Linked(data[..]) && PutStops(data[..], key, i) && rc == Step(Home(key, data.Length), i, data.Length)
      ensures count == LiveCount(data[..]) + (if data[rc].Live? then 0 else 1)
      ensures if old(count) == old(data.Length) then fresh(data) && data[..] == Grown(old(data[..]))
              else data == old(data) && data[..] == old(data[..])
      decreases if count == data.Length then 2 else 0, 0
    {
      hide Linked, LiveCount, Grown;
      ghost var full := count == data.Length;
      var r;
      r, i := HashSlot(key);
      while r < 0
        invariant r < 0 ==> full && Sane() && data == old(data) && data[..] == old(data[..]) && count == old(count)
        invariant r >= 0 ==>
          && Linked(data[..]) && PutStops(data[..], key, i) && r == Step(Home(key, data.Length), i, data.Length)
          && count == LiveCount(data[..]) + (if data[r].Live? then 0 else 1)
          && (if full then fresh(data) && data[..] == Grown(old(data[..]))
              else data == old(data) && data[..] == old(data[..]))
        decreases r < 0
      {
        Rehash();
        r, i := HashSlot(key);
      }
      rc := r;
    }

    /** Puts an entry and returns what its slot held.  In a table that is a map,
        keys stay unique exactly when no tombstone comes before the entry that the
        key already has. */
    method Reput(key: nat, value: V) returns (replaced: Option<V>)
      requires Sane()
      modifies this, data
      ensures Sane() && data[..] == Put(old(data[..]), key, value)
      ensures if old(count) == old(data.Length) then fresh(data) else data == old(data)
      ensures old(Unique(data[..])) ==> (Unique(data[..]) <==> old(Clean(data[..], key)))
      ensures old(Unique(data[..])) && Unique(data[..]) ==>
                && Contents(data[..]) == old(Contents(data[..]))[key := value]
                && replaced == Get(old(Contents(data[..])), key)
                && count == old(count) + (if replaced.Some? then 0 else 1)
      decreases if count == data.Length then 2 else 0, 1
    {
      hide Linked, Unique, Contents, Clean, PutStops, LiveCount, Grown;
      ghost var s0 := data[..];
      PutIs(s0, key, value);
      if count == data.Length { FullIsClean(s0, key); GrownIs(s0); }
      var rc, i := Locate(key);
      ghost var s := data[..];
      StopOnce(s, key, i);
      PutLinked(s, key, i, value);
      LiveCountUpdate(s, rc, Live(key, value));
      if Unique(s0) { Replaces(s0, s, key, i, fresh(data)); }
      replaced := if data[rc].Live? then Some(data[rc].value) else None;
      data[rc] := Live(key, value);
      assert data[..] == s[rc := Live(key, value)];
    }

    /** Moves every entry to a table with 256 more slots. */
    method Rehash()
      requires Sane() && count == data.Length
      modifies this
      ensures Sane() && fresh(data) && data[..] == Grown(old(data[..])) && count < data.Length
      decreases 1
    {
      hide Linked, LiveCount, Inserted, Unique, Contents;
      var oldt, size := data, data.Length;
      data := new Slot<V>[size + 256](_ => Empty);
      count := 0;
      ghost var blank: seq<Slot<V>> := seq(size + 256, _ => Empty);
      assert data[..] == blank;
      BlankTable(blank);
      for i := 0 to size
        invariant Sane() && fresh(data) && oldt[..] == old(data[..])
        invariant data[..] == Refilled(blank, oldt[..], i) && count <= i
      {
        RefilledIs(size + 256, oldt[..], i);
        RefilledIs(size + 256, oldt[..], i + 1);
        if oldt[i].Live? {
          var _ := Reput(oldt[i].key, oldt[i].value);
        }
      }
    }

    /** The slot of `key`, or -1. */
    method Find(key: nat) returns (rc: int)
      requires Sane()
      ensures rc == if FindSlot(data[..], key) < data.Length then FindSlot(data[..], key) else -1
      ensures Unique(data[..]) ==> (rc >= 0 <==> key in Contents(data[..]))
      ensures Unique(data[..]) && rc >= 0 ==> Contents(data[..])[key] == data[rc].value
    {
      hide Linked, Unique, Contents;
      FindIs(data[..], key);
      if data.Length == 0 {
        return -1;
      }
      ghost var h := Home(key, data.Length);
      var idx := key % data.Length;
      for i := 0 to data.Length
        invariant i < data.Length ==> idx == Step(h, i, data.Length)
        invariant FindFrom(data[..], key, i) == FindSlot(data[..], key)
      {
        var e := idx;
        if i + 1 < data.Length { NextStep(h, i, data.Length); }
        idx := (idx + 1) % data.Length;
        if data[e].Empty? { return -1; }
        if data[e].Deleted? { continue; }
        if data[e].key == key { return e; }
      }
      rc := -1;
    }

    method GetItem(key: nat) returns (r: Option<V>)
      requires Sane()
      ensures r == Looked(data[..], key)
      ensures Unique(data[..]) ==> r == Get(Contents(data[..]), key)
    {
      var e := Find(key);
      r := if e < 0 then None else Some(data[e].value);
    }

    method Remove(key: nat) returns (missing: bool)
      requires Sane()
      modifies this`count, data
      ensures Sane() && data == old(data) && data[..] == Removed(old(data[..]), key)
      ensures missing <==> old(Looked(data[..], key)) == None
      ensures count == old(count) - (if missing then 0 else 1)
    {
      hide Linked, LiveCount, FindSlot;
      var e := Find(key);
      missing := e < 0;
      if e >= 0 {
        RemoveLinked(data[..], e);
        LiveCountUpdate(data[..], e, Deleted);
        ghost var s := data[..];
        data[e] := Deleted;
        assert data[..] == s[e := Deleted];
        count := count - 1;
      }
    }

    /** Empties the table; every entry is released once, in slot order. */
    method Clear() returns (released: seq<(nat, V)>)
      requires Sane()
      modifies this`count, data
      ensures Valid() && Contents(data[..]) == map[] && count == 0 && data.Length == old(data.Length)
      ensures released == Listing(old(data[..]))
    {
      released := [];
      for i := 0 to data.Length
        invariant forall j | 0 <= j < data.Length :: data[j] == if j < i then Empty else old(data[j])
        invariant released == Listing(old(data[..i]))
      {
        assert old(data[..i + 1])[..i] == old(data[..i]);
        if data[i].Live? { released := released + [(data[i].key, data[i].value)]; }
        data[i] := Empty;
      }
      count := 0;
      BlankTable(data[..]);
      assert old(data[..data.Length]) == old(data[..]);
    }

    /** The first live slot at or after `start`, or the size of the table. */
    method IterFrom(start: nat) returns (i: nat)
      requires start <= data.Length
      ensures start <= i <= data.Length && (i < data.Length ==> data[i].Live?)
      ensures forall j | start <= j < i :: !data[j].Live?
    {
      i := start;
      while i < data.Length && !data[i].Live?
        invariant start <= i <= data.Length && forall j | start <= j < i :: !data[j].Live?
      {
        i := i + 1;
      }
    }

    /** Visits the entries in slot order. */
    method Visit() returns (visited: seq<(nat, V)>)
      requires Valid()
      ensures visited == Listing(data[..])
    {
      visited := [];
      var i := IterFrom(0);
      SkipListing(data[..], 0, i);
      while i < data.Length
        invariant 0 <= i <= data.Length && (i < data.Length ==> data[i].Live?)
        invariant visited == Listing(data[..i])
      {
        visited := visited + [(data[i].key, data[i].value)];
        assert data[..i + 1][..i] == data[..i];
        var next := IterFrom(i + 1);
        SkipListing(data[..], i + 1, next);
        i := next;
      }
      assert data[..data.Length] == data[..];
    }

    /** Removes each visited entry by its key. */
    method RemoveEach()
      requires Sane()
      modifies this`count, data
      ensures Sane() && data == old(data) && data[..] == RemovedEach(old(data[..]), 0)
      ensures old(Unique(data[..])) ==> Unique(data[..]) && Contents(data[..]) == map[] && count == 0
    {
      hide Linked, Unique, LiveCount, Contents, Removed;
      if Unique(data[..]) { RemovedEachIs(data[..], 0); }
      var i := IterFrom(0);
      SkipDead(data[..], 0, i);
      while i < data.Length
        invariant Sane() && data == old(data)
        invariant 0 <= i <= data.Length && (i < data.Length ==> data[i].Live?)
        invariant RemovedEach(data[..], i) == RemovedEach(old(data[..]), 0)
      {
        var key := data[i].key;
        var _ := Remove(key);
        var next := IterFrom(i + 1);
        SkipDead(data[..], i + 1, next);
        i := next;
      }
    }
  }

  lemma {:induction false} SkipDead<V>(s: seq<Slot<V>>, i: nat, k: nat)
    requires i <= k <= |s| && forall j | i <= j < k :: !s[j].Live?
    ensures RemovedEach(s, i) == RemovedEach(s, k)
    decreases k - i
  {
    if i < k {
      SkipDead(s, i + 1, k);
    }
  }

  /** What stands in the slot of a put, in a table that is a map or after growing one. */
  lemma Replaces<V(!new)>(s0: seq<Slot<V>>, s: seq<Slot<V>>, key: nat, i: nat, grown: bool)
    requires Linked(s) && Unique(s0) && PutStops(s, key, i) && s == if grown then Grown(s0) else s0
    ensures var x := s[Step(Home(key, |s|), i, |s|)];
            Clean(s0, key) ==> Get(Contents(s0), key) == if x.Live? then Some(x.value) else None
  {
    hide Linked, Unique, Contents, Clean, PutStops, Grown;
    if grown {
      GrownIs(s0);
      UntouchedIsClean(s, key);
    }
    ReplacedEntry(s, key, i);
  }

  /** The entries of a table in slot order. */
  function Listing<V>(s: seq<Slot<V>>): seq<(nat, V)> {
    if |s| == 0 then []
    else
      var x := s[|s| - 1];
      Listing(s[..|s| - 1]) + if x.Live? then [(x.key, x.value)] else []
  }

  lemma {:induction false} SkipListing<V>(s: seq<Slot<V>>, i: nat, k: nat)
    requires i <= k <= |s| && forall j | i <= j < k :: !s[j].Live?
    ensures Listing(s[..k]) == Listing(s[..i])
    decreases k
  {
    if i < k {
      assert s[..k][..k - 1] == s[..k - 1];
      SkipListing(s, i, k - 1);
    }
  }

  lemma EmptyTable<V(!new)>(s: seq<Slot<V>>)
    requires |s| == 0
    ensures Unique(s) && Contents(s) == map[]
  {
  }

  lemma EntryIn<V(!new)>(s: seq<Slot<V>>, j: nat)
    requires Unique(s) && j < |s| && s[j].Live?
    ensures s[j].key in Contents(s) && Contents(s)[s[j].key] == s[j].value
  {
  }

  /** `l` lists each entry of `m` exactly once, and nothing else. */
  ghost predicate Lists<V(!new)>(l: seq<(nat, V)>, m: map<nat, V>) {
    && (forall p | p in l :: p.0 in m && m[p.0] == p.1)
    && (forall k | k in m :: (k, m[k]) in l)
    && (forall a, b | 0 <= a < b < |l| :: l[a].0 != l[b].0)
  }

  lemma {:induction false} ListingIsContents<V(!new)>(s: seq<Slot<V>>)
    requires Unique(s)
    ensures Lists(Listing(s), Contents(s))
    ensures |Listing(s)| == LiveCount(s) == |Contents(s)|
    decreases |s|
  {
    hide Contents, Unique, Lists;
    if |s| > 0 {
      var n := |s| - 1;
      PrefixOne(s, n);
      assert s[..n + 1] == s;
      ListingIsContents(s[..n]);
      if s[n].Live? {
        OneMore(Listing(s[..n]), Contents(s[..n]), s[n].key, s[n].value);
      } else {
        assert Listing(s) == Listing(s[..n]);
      }
    } else {
      EmptyTable(s);
      NothingListed<V>();
    }
  }

  lemma NothingListed<V(!new)>()
    ensures Lists<V>([], map[])
  {
  }

  lemma OneMore<V(!new)>(l: seq<(nat, V)>, m: map<nat, V>, key: nat, value: V)
    requires Lists(l, m) && key !in m
    ensures Lists(l + [(key, value)], m[key := value]) && |m[key := value]| == |m| + 1
  {
    var l', m' := l + [(key, value)], m[key := value];
    assert forall a | 0 <= a < |l| :: l[a] in l && l[a].0 != key;
    assert l'[|l|] == (key, value);
    forall k | k in m' ensures (k, m'[k]) in l' {
      if k != key { assert (k, m[k]) in l; }
    }
  }

  /** Putting a key again behind a tombstone leaves its old entry in place: a
      later removal of the key would expose it. */
  lemma PutBehindTombstone<V(!new)>(n: nat, old': V, new': V)
    requires n > 1
    ensures var s := seq(n, i => if i == 0 then Deleted else if i == 1 then Live(n, old') else Empty);
            var t := s[0 := Live(n, new')];
            && Linked(s) && Unique(s) && PutStops(s, n, 0) && !Clean(s, n)
            && Holds(t, 0, n) && Holds(t, 1, n) && !Unique(t) && Holds(t[0 := Deleted], 1, n)
  {
    var s := seq(n, i => if i == 0 then Deleted else if i == 1 then Live(n, old') else Empty);
    assert Home(n, n) == 0;
    assert Dist(0, 1, n) == 1 && Step(0, 0, n) == 0 && s[Step(Home(n, n), 0, n)].Deleted?;
    var t := s[0 := Live(n, new')];
    assert t[0].key == t[1].key;
  }

  function Get<K, V>(m: map<K, V>, k: K): Option<V> {
    if k in m then Some(m[k]) else None
  }

  /** No entry was ever removed from the table. */
  predicate Untouched<V>(s: seq<Slot<V>>) {
    forall j | 0 <= j < |s| :: !s[j].Deleted?
  }

  lemma UntouchedIsClean<V(!new)>(s: seq<Slot<V>>, key: nat)
    requires Untouched(s)
    ensures Clean(s, key)
  {
  }

  lemma BlankTable<V(!new)>(s: seq<Slot<V>>)
    requires forall j | 0 <= j < |s| :: s[j].Empty?
    ensures Linked(s) && Unique(s) && Contents(s) == map[] && LiveCount(s) == 0
  {
    NoneLive(s);
  }

  lemma PrefixNone<V(!new)>(s: seq<Slot<V>>)
    ensures LiveCount(s[..0]) == 0 && Unique(s[..0]) && Contents(s[..0]) == map[]
  {
  }

  /** The entries of one more slot. */
  lemma PrefixOne<V(!new)>(s: seq<Slot<V>>, i: nat)
    requires Unique(s) && i < |s|
    ensures Unique(s[..i]) && Unique(s[..i + 1])
    ensures LiveCount(s[..i + 1]) == LiveCount(s[..i]) + (if s[i].Live? then 1 else 0) && LiveCount(s[..i]) <= i
    ensures Contents(s[..i + 1]) == if s[i].Live? then Contents(s[..i])[s[i].key := s[i].value] else Contents(s[..i])
    ensures s[i].Live? ==> s[i].key !in Contents(s[..i])
  {
    assert s[..i + 1][..i] == s[..i];
    SnocContents(s[..i], s[..i + 1]);
  }

  lemma SnocContents<V(!new)>(a: seq<Slot<V>>, b: seq<Slot<V>>)
    requires Unique(b) && |b| > 0 && a == b[..|b| - 1]
    ensures var x := b[|b| - 1];
            && Unique(a)
            && Contents(b) == (if x.Live? then Contents(a)[x.key := x.value] else Contents(a))
            && (x.Live? ==> x.key !in Contents(a))
  {
    var x, m' := b[|b| - 1], Contents(b);
    assert forall j | 0 <= j < |a| :: a[j] == b[j];
    var m := if x.Live? then Contents(a)[x.key := x.value] else Contents(a);
    forall k | k in m ensures k in m' && m[k] == m'[k] {
      if x.Live? && k == x.key {
        EntryIn(b, |b| - 1);
      } else {
        var j :| 0 <= j < |a| && a[j].Live? && a[j].key == k;
        EntryIn(a, j);
        EntryIn(b, j);
      }
    }
    forall k | k in m' ensures k in m {
      var j :| 0 <= j < |b| && b[j].Live? && b[j].key == k;
      if j < |a| { EntryIn(a, j); }
    }
  }

  /** What stands in the slot of a put, for a clean table. */
  lemma ReplacedEntry<V(!new)>(s: seq<Slot<V>>, key: nat, i: nat)
    requires Linked(s) && Unique(s) && PutStops(s, key, i)
    ensures var x := s[Step(Home(key, |s|), i, |s|)];
            Clean(s, key) ==> Get(Contents(s), key) == if x.Live? then Some(x.value) else None
  {
    var idx := Step(Home(key, |s|), i, |s|);
    if Clean(s, key) && key in Contents(s) {
      var j :| 0 <= j < |s| && s[j].Live? && s[j].key == key;
      assert Holds(s, j, key);
      CleanStop(s, key, i, j);
    }
  }

  lemma FullIsClean<V(!new)>(s: seq<Slot<V>>, key: nat)
    requires LiveCount(s) == |s|
    ensures Clean(s, key)
  {
    AllLive(s);
  }
}

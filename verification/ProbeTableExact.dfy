/**
 What puts and removals do to any table whose entries are reachable, also to one
 that holds a key twice.
 */
module ProbeTableExact {
  import opened Basics
  import opened ProbeTable

  // ---------------------------------------------------------------------
  // The entry that a search finds

  lemma {:induction false} FindFromFirst<V(!new)>(s: seq<Slot<V>>, key: nat, i: nat)
    requires |s| > 0 && i <= |s| && FindFrom(s, key, i) < |s|
    ensures var h := Home(key, |s|);
            var d := Dist(h, FindFrom(s, key, i), |s|);
            i <= d && forall k | i <= k < d :: !Holds(s, Step(h, k, |s|), key)
    decreases |s| - i
  {
    var h := Home(key, |s|);
    var j := Step(h, i, |s|);
    if s[j].Live? && s[j].key == key {
      assert Dist(h, j, |s|) == i;
    } else {
      FindFromFirst(s, key, i + 1);
    }
  }

  /** The search finds the entry of the key that is nearest to its home. */
  lemma FoundFirst<V(!new)>(s: seq<Slot<V>>, key: nat, j: nat)
    requires Linked(s) && Holds(s, j, key)
    ensures var f, h := FindSlot(s, key), Home(key, |s|);
            Holds(s, f, key) && Dist(h, f, |s|) <= Dist(h, j, |s|)
  {
    hide Linked, FindFrom;
    FindIs(s, key);
    FindFromFirst(s, key, 0);
    var h := Home(key, |s|);
    assert Holds(s, Step(h, Dist(h, j, |s|), |s|), key);
  }

  lemma {:induction false} FindUpTo<V(!new)>(s: seq<Slot<V>>, key: nat, i: nat, k: nat)
    requires k <= i < |s| && Holds(s, Step(Home(key, |s|), i, |s|), key)
    requires forall m | 0 <= m < i :: var x := s[Step(Home(key, |s|), m, |s|)]; x.Live? && x.key != key
    ensures FindFrom(s, key, k) == Step(Home(key, |s|), i, |s|)
    decreases i - k
  {
    if k < i {
      FindUpTo(s, key, i, k + 1);
    }
  }

  lemma {:induction false} StopPasses<V(!new)>(s: seq<Slot<V>>, key: nat, i: nat)
    requires i < |s|
    ensures forall k | i <= k < StopFrom(s, key, i) :: var x := s[Step(Home(key, |s|), k, |s|)]; x.Live? && x.key != key
    decreases |s| - i
  {
    if StopFrom(s, key, i) > i {
      StopPasses(s, key, i + 1);
    }
  }

  lemma StepsApart(h: nat, i: nat, k: nat, n: nat)
    requires h < n && i < n && k < n && i != k
    ensures Step(h, i, n) != Step(h, k, n)
  {
  }

  lemma InsertedFound<V(!new)>(s: seq<Slot<V>>, key: nat, value: V)
    requires |s| > 0
    ensures Looked(Inserted(s, key, value), key) == Some(value)
  {
    hide FindFrom, Step;
    var h, i := Home(key, |s|), StopFrom(s, key, 0);
    var t := Inserted(s, key, value);
    StopPasses(s, key, 0);
    forall m | 0 <= m < i ensures var x := t[Step(h, m, |s|)]; x.Live? && x.key != key {
      StepsApart(h, i, m, |s|);
    }
    FindUpTo(t, key, i, 0);
  }

  /** In any table whatever, what was put is found. */
  lemma PutFound<V(!new)>(s: seq<Slot<V>>, key: nat, value: V)
    ensures Looked(Put(s, key, value), key) == Some(value)
  {
    hide Inserted, Looked, Grown, LiveCount;
    InsertedFound(if LiveCount(s) == |s| then Grown(s) else s, key, value);
  }

  /** A put into a table with a free slot leaves every other key where it was found. */
  lemma InsertedOthers<V(!new)>(s: seq<Slot<V>>, key: nat, value: V, other: nat)
    requires Linked(s) && LiveCount(s) < |s| && other != key
    ensures Looked(Inserted(s, key, value), other) == Looked(s, other)
  {
    hide Linked, LiveCount, FindSlot, StopFrom;
    var t, h := Inserted(s, key, value), Home(other, |s|);
    StopIs(s, key);
    InsertedIs(s, key, value);
    forall j: nat ensures Holds(t, j, other) <==> Holds(s, j, other) {
    }
    FindIs(s, other);
    FindIs(t, other);
    var f, g := FindSlot(s, other), FindSlot(t, other);
    assert (f < |s| ==> Holds(s, f, other)) && (g < |s| ==> Holds(t, g, other));
    if f < |s| {
      FoundFirst(t, other, f);
      FoundFirst(s, other, g);
      assert f == Step(h, Dist(h, f, |s|), |s|) && g == Step(h, Dist(h, g, |s|), |s|);
    }
  }

  /** The value in the last slot that holds a key. */
  function Last<V>(s: seq<Slot<V>>, key: nat): Option<V> {
    if |s| == 0 then None
    else
      var x := s[|s| - 1];
      if x.Live? && x.key == key then Some(x.value) else Last(s[..|s| - 1], key)
  }

  lemma {:induction false} RefilledFinds<V(!new)>(size: nat, s: seq<Slot<V>>, n: nat, key: nat)
    requires |s| < size && n <= |s|
    ensures Looked(Refilled(seq(size, _ => Empty), s, n), key) == Last(s[..n], key)
    decreases n
  {
    hide Linked, Unique, LiveCount, Inserted, Looked, Contents;
    var e: seq<Slot<V>> := seq(size, _ => Empty);
    if n == 0 {
      BlankTable(e);
      LookedIs(e, key);
    } else {
      RefilledFinds(size, s, n - 1, key);
      RefilledIs(size, s, n - 1);
      assert s[..n][..n - 1] == s[..n - 1];
      if s[n - 1].Live? {
        var u := Refilled(e, s, n - 1);
        InsertedFound(u, s[n - 1].key, s[n - 1].value);
        if s[n - 1].key != key {
          InsertedOthers(u, s[n - 1].key, s[n - 1].value, key);
        }
      }
    }
  }

  /** A put leaves every other key with the value it had.  Only in a full table, which
      grows, a key that has several entries is found with the last of them. */
  lemma PutOthers<V(!new)>(s: seq<Slot<V>>, key: nat, value: V, other: nat)
    requires Linked(s) && other != key
    ensures Looked(Put(s, key, value), other) == if LiveCount(s) == |s| then Last(s, other) else Looked(s, other)
  {
    hide Linked, LiveCount, Inserted, Looked, Refilled, Unique, Contents;
    if LiveCount(s) == |s| {
      RefilledFinds(|s| + 256, s, |s|, other);
      assert s[..|s|] == s;
      GrownIs(s);
      InsertedOthers(Grown(s), key, value, other);
    } else {
      InsertedOthers(s, key, value, other);
    }
  }

  // ---------------------------------------------------------------------
  // Where entries come from

  /** Every entry of `t` is `x` or an entry of `s`. */
  predicate From<V(==)>(t: seq<Slot<V>>, s: seq<Slot<V>>, x: Slot<V>) {
    forall j | 0 <= j < |t| && t[j].Live? :: t[j] == x || t[j] in s
  }

  lemma {:induction false} RefilledFrom<V(!new)>(size: nat, s: seq<Slot<V>>, n: nat)
    requires size > 0 && n <= |s|
    ensures From(Refilled(seq(size, _ => Empty), s, n), s, Empty)
  {
    hide StopFrom;
    if n > 0 {
      RefilledFrom(size, s, n - 1);
      assert s[n - 1] in s;
    }
  }

  /** A put brings in its own entry and no other, also when the table grows. */
  lemma PutFrom<V(!new)>(s: seq<Slot<V>>, key: nat, value: V)
    ensures From(Put(s, key, value), s, Live(key, value))
  {
    hide Refilled, LiveCount, StopFrom;
    RefilledFrom(|s| + 256, s, |s|);
  }

  lemma RemovedFrom<V(!new)>(s: seq<Slot<V>>, key: nat)
    ensures From(Removed(s, key), s, Empty)
  {
    hide FindSlot;
  }

  // ---------------------------------------------------------------------
  // One removal

  ghost predicate Once<V(!new)>(s: seq<Slot<V>>, key: nat) {
    forall i: nat, j: nat | Holds(s, i, key) && Holds(s, j, key) :: i == j
  }

  /** After a removal the key is not found exactly when it had one entry at most. */
  lemma RemovedExactly<V(!new)>(s: seq<Slot<V>>, key: nat)
    requires Linked(s)
    ensures Looked(Removed(s, key), key).None? <==> Once(s, key)
  {
    hide Linked, FindSlot;
    var f, t := FindSlot(s, key), Removed(s, key);
    RemovedIs(s, key);
    FindIs(s, key);
    FindIs(t, key);
    if f < |s| {
      assert Holds(s, f, key) && t == s[f := Deleted];
      forall j: nat ensures Holds(t, j, key) <==> j != f && Holds(s, j, key) {
      }
      var g := FindSlot(t, key);
      assert g < |t| ==> Holds(t, g, key);
    }
  }

  lemma {:induction false} FindOther<V(!new)>(s: seq<Slot<V>>, f: nat, key: nat, i: nat)
    requires f < |s| && s[f].Live? && s[f].key != key && i <= |s|
    ensures FindFrom(s[f := Deleted], key, i) == FindFrom(s, key, i)
    decreases |s| - i
  {
    if i < |s| {
      FindOther(s, f, key, i + 1);
    }
  }

  /** Every other key is found as before. */
  lemma RemovedOthers<V(!new)>(s: seq<Slot<V>>, key: nat, other: nat)
    requires other != key
    ensures Looked(Removed(s, key), other) == Looked(s, other)
  {
    hide FindFrom;
    var f := FindSlot(s, key);
    if f < |s| {
      FindOther(s, f, other, 0);
    }
  }

  // ---------------------------------------------------------------------
  // Counting the entries of a key

  function CountOf<V>(s: seq<Slot<V>>, key: nat, lo: nat, hi: nat): (c: nat)
    requires lo <= hi <= |s|
    decreases hi
  {
    if lo == hi then 0
    else CountOf(s, key, lo, hi - 1) + if s[hi - 1].Live? && s[hi - 1].key == key then 1 else 0
  }

  lemma {:induction false} CountNone<V(!new)>(s: seq<Slot<V>>, key: nat, lo: nat, hi: nat)
    requires lo <= hi <= |s|
    ensures CountOf(s, key, lo, hi) == 0 <==> forall j | lo <= j < hi :: !Holds(s, j, key)
    decreases hi
  {
    if lo < hi {
      CountNone(s, key, lo, hi - 1);
      assert CountOf(s, key, lo, hi) > 0 && CountOf(s, key, lo, hi - 1) == 0 ==> Holds(s, hi - 1, key);
    }
  }

  lemma {:induction false} CountSplit<V>(s: seq<Slot<V>>, key: nat, lo: nat, mid: nat, hi: nat)
    requires lo <= mid <= hi <= |s|
    ensures CountOf(s, key, lo, hi) == CountOf(s, key, lo, mid) + CountOf(s, key, mid, hi)
    decreases hi
  {
    if mid < hi {
      CountSplit(s, key, lo, mid, hi - 1);
    }
  }

  /** Removing an entry takes one off the count of its key where it is. */
  lemma {:induction false} CountDead<V>(s: seq<Slot<V>>, f: nat, key: nat, lo: nat, hi: nat)
    requires lo <= hi <= |s| && f < |s| && s[f].Live?
    ensures CountOf(s[f := Deleted], key, lo, hi)
         == CountOf(s, key, lo, hi) - if s[f].key == key && lo <= f < hi then 1 else 0
    decreases hi
  {
    if lo < hi {
      CountDead(s, f, key, lo, hi - 1);
    }
  }

  // ---------------------------------------------------------------------
  // A visit that removes

  /** What is left of a key when a visit goes on at slot `j`: before the key's home
      every visit takes an entry from behind the home as long as there is one, and
      the visited entry stays; from the home on every visit takes the visited entry. */
  function Left<V>(s: seq<Slot<V>>, key: nat, j: nat): nat
    requires j <= |s| && |s| > 0
  {
    var h := Home(key, |s|);
    if j <= h then CountOf(s, key, 0, j) + Min(CountOf(s, key, j, h), CountOf(s, key, h, |s|))
    else CountOf(s, key, 0, h)
  }

  function Min(a: nat, b: nat): nat {
    if a < b then a else b
  }

  /** From the home on, no entry that was passed is left. */
  predicate Swept<V>(s: seq<Slot<V>>, key: nat, j: nat)
    requires j <= |s| && |s| > 0
  {
    var h := Home(key, |s|);
    h < j ==> CountOf(s, key, h, j) == 0
  }

  function Visited<V>(s: seq<Slot<V>>, j: nat): (t: seq<Slot<V>>)
    requires j < |s|
    ensures |t| == |s|
  {
    if s[j].Live? then Removed(s, s[j].key) else s
  }

  lemma SplitAt<V>(s: seq<Slot<V>>, key: nat, j: nat, hi: nat)
    requires j < hi <= |s|
    ensures CountOf(s, key, j, hi)
         == (if s[j].Live? && s[j].key == key then 1 else 0) + CountOf(s, key, j + 1, hi)
  {
    CountSplit(s, key, j, j + 1, hi);
    assert CountOf(s, key, j, j) == 0;
  }

  /** Visiting an entry of another key changes nothing for the key. */
  lemma VisitOther<V(!new)>(s: seq<Slot<V>>, key: nat, j: nat)
    requires |s| > 0 && j < |s| && !Holds(s, j, key) && Swept(s, key, j)
    ensures Left(Visited(s, j), key, j + 1) == Left(s, key, j) && Swept(Visited(s, j), key, j + 1)
  {
    hide FindSlot, CountOf, Home;
    var h, n := Home(key, |s|), |s|;
    if s[j].Live? && FindSlot(s, s[j].key) < n {
      var f := FindSlot(s, s[j].key);
      CountDead(s, f, key, 0, j + 1);
      if j < h { CountDead(s, f, key, j + 1, h); }
      CountDead(s, f, key, h, n);
      CountDead(s, f, key, 0, h);
      if h <= j { CountDead(s, f, key, h, j + 1); }
    }
    CountSplit(s, key, 0, j, j + 1);
    SplitAt(s, key, j, j + 1);
    Blank(s, key, j + 1);
    Blank(s, key, h);
    if j < h { SplitAt(s, key, j, h); } else { CountSplit(s, key, h, j, j + 1); Blank(s, key, j); }
  }

  lemma Blank<V>(s: seq<Slot<V>>, key: nat, j: nat)
    requires j <= |s|
    ensures CountOf(s, key, j, j) == 0
  {
  }

  /** Visiting an entry of the key takes the entry nearest to its home. */
  lemma VisitOwn<V(!new)>(s: seq<Slot<V>>, key: nat, j: nat)
    requires Linked(s) && Holds(s, j, key) && Swept(s, key, j)
    ensures Left(Visited(s, j), key, j + 1) == Left(s, key, j) && Swept(Visited(s, j), key, j + 1)
  {
    hide FindSlot, CountOf, Linked, Home;
    var h, n, f := Home(key, |s|), |s|, FindSlot(s, key);
    FoundFirst(s, key, j);
    Nearest(s, key, j);
    CountSplit(s, key, 0, j, j + 1);
    SplitAt(s, key, j, j + 1);
    Blank(s, key, j + 1);
    Blank(s, key, h);
    CountDead(s, f, key, 0, h);
    if j < h {
      SplitAt(s, key, j, h);
      CountDead(s, f, key, 0, j + 1);
      CountDead(s, f, key, j + 1, h);
      CountDead(s, f, key, h, n);
    } else {
      CountSplit(s, key, h, j, j + 1);
      CountDead(s, f, key, h, j + 1);
    }
  }

  /** Before the home of the key: behind the home if there is an entry, otherwise not
      after the visited one.  From the home on: the visited one. */
  lemma Nearest<V(!new)>(s: seq<Slot<V>>, key: nat, j: nat)
    requires Linked(s) && Holds(s, j, key) && Swept(s, key, j)
    ensures var h, f := Home(key, |s|), FindSlot(s, key);
            if h <= j then f == j
            else if CountOf(s, key, h, |s|) > 0 then h <= f
            else f <= j
  {
    hide FindSlot, CountOf, Linked, Home;
    var h, f := Home(key, |s|), FindSlot(s, key);
    FoundFirst(s, key, j);
    CountNone(s, key, h, |s|);
    if h <= j {
      CountNone(s, key, h, j);
    } else if CountOf(s, key, h, |s|) > 0 {
      var i :| h <= i < |s| && Holds(s, i, key);
      FoundFirst(s, key, i);
    }
  }

  lemma {:induction false} VisitLeaves<V(!new)>(s: seq<Slot<V>>, key: nat, j: nat)
    requires Linked(s) && |s| > 0 && j <= |s| && Swept(s, key, j)
    ensures Linked(RemovedEach(s, j)) && CountOf(RemovedEach(s, j), key, 0, |s|) == Left(s, key, j)
    decreases |s| - j
  {
    hide Linked, CountOf, Removed, Left, Swept;
    if j == |s| {
      AllSwept(s, key);
    } else {
      if s[j].Live? { RemovedIs(s, s[j].key); }
      if Holds(s, j, key) {
        VisitOwn(s, key, j);
      } else {
        VisitOther(s, key, j);
      }
      VisitLeaves(Visited(s, j), key, j + 1);
    }
  }

  lemma AllSwept<V>(s: seq<Slot<V>>, key: nat)
    requires |s| > 0 && Swept(s, key, |s|)
    ensures CountOf(s, key, 0, |s|) == Left(s, key, |s|)
  {
    CountSplit(s, key, 0, Home(key, |s|), |s|);
  }

  /** The key has an entry from its home on and one before it, where a probe that
      went on at the front of the table put it. */
  ghost predicate Wrapped<V(!new)>(s: seq<Slot<V>>, key: nat) {
    exists i: nat, j: nat :: Holds(s, i, key) && Holds(s, j, key) && i < Home(key, |s|) <= j
  }

  lemma WrappedCounts<V(!new)>(s: seq<Slot<V>>, key: nat)
    requires |s| > 0
    ensures var h := Home(key, |s|);
            Wrapped(s, key) <==> CountOf(s, key, 0, h) > 0 && CountOf(s, key, h, |s|) > 0
  {
    hide CountOf, Home;
    var h := Home(key, |s|);
    CountNone(s, key, 0, h);
    CountNone(s, key, h, |s|);
    if CountOf(s, key, 0, h) > 0 && CountOf(s, key, h, |s|) > 0 {
      var i :| 0 <= i < h && Holds(s, i, key);
      var j :| h <= j < |s| && Holds(s, j, key);
      assert i < Home(key, |s|) <= j;
    }
  }

  /** A visit that removes each visited entry by its key leaves, for every key, as many
      entries as it has on the side of its home that has fewer.  So the key is gone
      exactly when all its entries are on one side. */
  lemma RemovedEachExactly<V(!new)>(s: seq<Slot<V>>, key: nat)
    requires Linked(s)
    ensures var t, h := RemovedEach(s, 0), if |s| > 0 then Home(key, |s|) else 0;
            && Linked(t)
            && CountOf(t, key, 0, |t|) == Min(CountOf(s, key, 0, h), CountOf(s, key, h, |s|))
            && (Looked(t, key).None? <==> !Wrapped(s, key))
  {
    hide Linked, CountOf, FindSlot, Wrapped, RemovedEach;
    var t := RemovedEach(s, 0);
    if |s| > 0 {
      Blank(s, key, 0);
      VisitLeaves(s, key, 0);
      WrappedCounts(s, key);
      FindIs(t, key);
      CountNone(t, key, 0, |t|);
      assert FindSlot(t, key) < |t| ==> Holds(t, FindSlot(t, key), key);
    } else {
      NothingVisited(s, key);
    }
  }

  lemma NothingVisited<V(!new)>(s: seq<Slot<V>>, key: nat)
    requires |s| == 0
    ensures RemovedEach(s, 0) == s && CountOf(s, key, 0, 0) == 0 && Looked(s, key).None? && !Wrapped(s, key)
  {
  }

  /** In a map no key has two entries. */
  lemma UniqueOnce<V(!new)>(s: seq<Slot<V>>, key: nat)
    requires Unique(s)
    ensures Once(s, key) && !Wrapped(s, key)
  {
  }
}

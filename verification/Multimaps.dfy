/** The std::multimap<Timestamp, T> indexes of src/history/MemoryHistory.hpp: entries in key order,
    equal keys in insertion order; and the reference they are measured against, stable sorting. */
module Multimaps {
  datatype Pair<T> = Pair(key: real, value: T)

  ghost predicate Sorted<T>(m: seq<Pair<T>>) {
    forall i, j :: 0 <= i < j < |m| ==> m[i].key <= m[j].key
  }

  /** std::multimap::insert: behind every entry whose key is not greater. */
  function Insert<T>(m: seq<Pair<T>>, p: Pair<T>): seq<Pair<T>> {
    if m == [] || m[|m| - 1].key <= p.key then m + [p]
    else Insert(m[..|m| - 1], p) + [m[|m| - 1]]
  }

  /** The index built by inserting a list of entries one after the other. */
  function Index<T>(es: seq<Pair<T>>): seq<Pair<T>> {
    if es == [] then [] else Insert(Index(es[..|es| - 1]), es[|es| - 1])
  }

  /** The number of entries with a key below the given one: where lower_bound points. */
  function LowerBound<T>(m: seq<Pair<T>>, key: real): (i: nat)
    ensures i <= |m|
    ensures forall j :: 0 <= j < i ==> m[j].key < key
    ensures i < |m| ==> m[i].key >= key
  {
    if m == [] || m[0].key >= key then 0 else 1 + LowerBound(m[1..], key)
  }

  /** Where upper_bound points. */
  function UpperBound<T>(m: seq<Pair<T>>, key: real): (i: nat)
    ensures i <= |m|
    ensures forall j :: 0 <= j < i ==> m[j].key <= key
    ensures i < |m| ==> m[i].key > key
  {
    if m == [] || m[0].key > key then 0 else 1 + UpperBound(m[1..], key)
  }

  // ----- stable sorting -----

  function WithKey<T>(es: seq<Pair<T>>, key: real): seq<Pair<T>> {
    if es == [] then []
    else
      var front := WithKey(es[..|es| - 1], key);
      if es[|es| - 1].key == key then front + [es[|es| - 1]] else front
  }

  /** In key order, and among the entries of each key the same ones in the same order. */
  ghost predicate IsStableSort<T>(r: seq<Pair<T>>, es: seq<Pair<T>>) {
    Sorted(r) && forall key: real :: WithKey(r, key) == WithKey(es, key)
  }

  lemma WithKeyLast<T>(es: seq<Pair<T>>, p: Pair<T>, key: real)
    ensures WithKey(es + [p], key) == WithKey(es, key) + if p.key == key then [p] else []
  {
    assert (es + [p])[..|es|] == es;
  }

  lemma {:induction false} KeysOfInsert<T>(m: seq<Pair<T>>, p: Pair<T>, bound: real)
    requires (forall i :: 0 <= i < |m| ==> m[i].key <= bound) && p.key <= bound
    ensures forall i :: 0 <= i < |Insert(m, p)| ==> Insert(m, p)[i].key <= bound
  {
    if m != [] && m[|m| - 1].key > p.key {
      KeysOfInsert(m[..|m| - 1], p, bound);
    }
  }

  lemma {:induction false} InsertSorted<T>(m: seq<Pair<T>>, p: Pair<T>)
    requires Sorted(m)
    ensures Sorted(Insert(m, p))
  {
    if m != [] && m[|m| - 1].key > p.key {
      var front, last := m[..|m| - 1], m[|m| - 1];
      InsertSorted(front, p);
      KeysOfInsert(front, p, last.key);
    }
  }

  lemma {:induction false} InsertStable<T>(m: seq<Pair<T>>, p: Pair<T>, key: real)
    requires Sorted(m)
    ensures WithKey(Insert(m, p), key) == WithKey(m + [p], key)
  {
    if m != [] && m[|m| - 1].key > p.key {
      var front, last := m[..|m| - 1], m[|m| - 1];
      InsertStable(front, p, key);
      WithKeyLast(Insert(front, p), last, key);
      WithKeyLast(front, p, key);
      WithKeyLast(front, last, key);
      WithKeyLast(m, p, key);
      assert m == front + [last];
      if last.key == key {
        assert p.key != key;
      }
    }
  }

  lemma {:induction false} IndexIsStableSort<T>(es: seq<Pair<T>>)
    ensures IsStableSort(Index(es), es)
  {
    if es != [] {
      var front, last := es[..|es| - 1], es[|es| - 1];
      IndexIsStableSort(front);
      InsertSorted(Index(front), last);
      forall key: real ensures WithKey(Index(es), key) == WithKey(es, key) {
        InsertStable(Index(front), last, key);
        WithKeyLast(Index(front), last, key);
      }
    }
  }

  lemma {:induction false} KeyPresent<T>(es: seq<Pair<T>>, i: nat)
    requires i < |es|
    ensures WithKey(es, es[i].key) != []
  {
    if i < |es| - 1 {
      KeyPresent(es[..|es| - 1], i);
    }
  }

  lemma {:induction false} KeyFound<T>(es: seq<Pair<T>>, key: real)
    requires WithKey(es, key) != []
    ensures exists i :: 0 <= i < |es| && es[i].key == key
  {
    if es[|es| - 1].key != key {
      KeyFound(es[..|es| - 1], key);
      var i :| 0 <= i < |es| - 1 && es[..|es| - 1][i].key == key;
      assert es[i].key == key;
    }
  }

  lemma LastKeyAtLeast<T>(r: seq<Pair<T>>, s: seq<Pair<T>>)
    requires Sorted(s) && r != []
    requires forall key: real :: WithKey(r, key) == WithKey(s, key)
    ensures s != [] && s[|s| - 1].key >= r[|r| - 1].key
  {
    KeyPresent(r, |r| - 1);
    KeyFound(s, r[|r| - 1].key);
  }

  /** Stable sorting has one result only. */
  lemma {:induction false} StableSortUnique<T>(r: seq<Pair<T>>, s: seq<Pair<T>>)
    requires Sorted(r) && Sorted(s)
    requires forall key: real :: WithKey(r, key) == WithKey(s, key)
    ensures r == s
    decreases |r|
  {
    if r != [] {
      LastKeyAtLeast(r, s);
      LastKeyAtLeast(s, r);
      var rf, rl, sf, sl := r[..|r| - 1], r[|r| - 1], s[..|s| - 1], s[|s| - 1];
      assert r == rf + [rl] && s == sf + [sl];
      var k := rl.key;
      assert k == sl.key;
      WithKeyLast(rf, rl, k);
      WithKeyLast(sf, sl, k);
      assert WithKey(r, k) == WithKey(s, k);
      SameLast(WithKey(rf, k), rl, WithKey(sf, k), sl);
      forall key: real ensures WithKey(rf, key) == WithKey(sf, key) {
        if key != k {
          assert WithKey(rf, key) == WithKey(r, key) == WithKey(s, key) == WithKey(sf, key);
        }
      }
      StableSortUnique(rf, sf);
    } else if s != [] {
      LastKeyAtLeast(s, r);
    }
  }

  lemma SameLast<T>(a: seq<T>, x: T, b: seq<T>, y: T)
    requires a + [x] == b + [y]
    ensures a == b && x == y
  {
    assert (a + [x])[|a|] == x && (b + [y])[|b|] == y;
    assert (a + [x])[..|a|] == a && (b + [y])[..|b|] == b;
  }

  // ----- ranges -----

  function Between<T>(es: seq<Pair<T>>, begin: real, end: real): seq<Pair<T>> {
    if es == [] then []
    else
      var front, p := Between(es[..|es| - 1], begin, end), es[|es| - 1];
      if begin < p.key <= end then front + [p] else front
  }

  lemma {:induction false} BetweenWithKey<T>(es: seq<Pair<T>>, begin: real, end: real, key: real)
    ensures WithKey(Between(es, begin, end), key) == if begin < key <= end then WithKey(es, key) else []
  {
    if es != [] {
      var front, p := es[..|es| - 1], es[|es| - 1];
      BetweenWithKey(front, begin, end, key);
      WithKeyLast(Between(front, begin, end), p, key);
    }
  }

  lemma {:induction false} BetweenSorted<T>(es: seq<Pair<T>>, begin: real, end: real)
    requires Sorted(es)
    ensures Sorted(Between(es, begin, end))
    ensures forall i :: 0 <= i < |Between(es, begin, end)| ==>
              es != [] && Between(es, begin, end)[i].key <= es[|es| - 1].key
  {
    if es != [] {
      var front := es[..|es| - 1];
      BetweenSorted(front, begin, end);
      assert front != [] ==> front[|front| - 1].key <= es[|es| - 1].key;
    }
  }

  /** The part of the index over a half-open time range is the stable sort of the part of the log
      over that range, and nothing else is. */
  lemma IndexRange<T>(es: seq<Pair<T>>, begin: real, end: real, r: seq<Pair<T>>)
    ensures r == Between(Index(es), begin, end) <==> IsStableSort(r, Between(es, begin, end))
  {
    var indexed, scanned := Between(Index(es), begin, end), Between(es, begin, end);
    IndexIsStableSort(es);
    BetweenSorted(Index(es), begin, end);
    forall key: real ensures WithKey(indexed, key) == WithKey(scanned, key) {
      BetweenWithKey(Index(es), begin, end, key);
      BetweenWithKey(es, begin, end, key);
    }
    if IsStableSort(r, scanned) {
      StableSortUnique(r, indexed);
    }
  }
}

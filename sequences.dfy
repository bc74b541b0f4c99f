/** Ordering and uniqueness facts about sequences of satellite ids, shared by the
    link managers. The sorts here stand for Rust's `sort_unstable_by_key` and
    `sort_unstable_by`: an insertion sort that keeps equal keys in input order is
    one of the orders an unstable sort may produce. */
module Sequences {

  /** `xs` is in ascending order of `key`. */
  predicate SortedBy(xs: seq<int>, key: int -> real)
  {
    forall i, j :: 0 <= i < j < |xs| ==> key(xs[i]) <= key(xs[j])
  }

  /** No id occurs twice in `xs`. */
  predicate Distinct(xs: seq<int>)
  {
    forall i, j :: 0 <= i < j < |xs| ==> xs[i] != xs[j]
  }

  /** The ids occurring in `xs`. */
  function Members(xs: seq<int>): set<int>
  {
    set x | x in xs
  }

  /** Inserts `x` in front of the first element of `xs` whose key is not
      smaller. */
  function Insert(x: int, xs: seq<int>, key: int -> real): seq<int>
  {
    if xs == [] || key(x) <= key(xs[0]) then [x] + xs
    else [xs[0]] + Insert(x, xs[1..], key)
  }

  /** Inserting adds `x` and nothing else. */
  lemma {:induction false} InsertPermutes(x: int, xs: seq<int>, key: int -> real)
    ensures multiset(Insert(x, xs, key)) == multiset(xs) + multiset{x}
  {
    if xs != [] && key(x) > key(xs[0]) {
      InsertPermutes(x, xs[1..], key);
      assert xs == [xs[0]] + xs[1..];
    }
  }

  /** A lower bound on the keys of `x` and of `xs` bounds the keys of the
      result. */
  lemma {:induction false} InsertLowerBound(x: int, xs: seq<int>, key: int -> real, lo: real)
    requires lo <= key(x)
    requires forall i :: 0 <= i < |xs| ==> lo <= key(xs[i])
    ensures forall i :: 0 <= i < |Insert(x, xs, key)| ==> lo <= key(Insert(x, xs, key)[i])
  {
    if xs != [] && key(x) > key(xs[0]) {
      InsertLowerBound(x, xs[1..], key, lo);
    }
  }

  /** Inserting into a sorted sequence keeps it sorted. */
  lemma {:induction false} InsertSorted(x: int, xs: seq<int>, key: int -> real)
    requires SortedBy(xs, key)
    ensures SortedBy(Insert(x, xs, key), key)
  {
    if xs != [] && key(x) > key(xs[0]) {
      var tail := xs[1..];
      InsertSorted(x, tail, key);
      InsertLowerBound(x, tail, key, key(xs[0]));
      var rest := Insert(x, tail, key);
      var r := [xs[0]] + rest;
      forall i, j | 0 <= i < j < |r|
        ensures key(r[i]) <= key(r[j])
      {
        if i > 0 {
          assert r[i] == rest[i - 1] && r[j] == rest[j - 1];
        } else {
          assert r[j] == rest[j - 1];
        }
      }
    }
  }

  /** Sorts `xs` by ascending `key`; equal keys keep their order in `xs`. */
  function SortBy(xs: seq<int>, key: int -> real): (r: seq<int>)
    ensures multiset(r) == multiset(xs)
    ensures |r| == |xs|
    ensures SortedBy(r, key)
  {
    if xs == [] then []
    else
      var rest := SortBy(xs[1..], key);
      InsertPermutes(xs[0], rest, key);
      InsertSorted(xs[0], rest, key);
      assert xs == [xs[0]] + xs[1..];
      assert |multiset(Insert(xs[0], rest, key))| == |multiset(xs)|;
      Insert(xs[0], rest, key)
  }

  /** A sequence that is already sorted comes back unchanged, so every order of
      equal keys that an unstable sort may produce is reachable by choosing the
      input order. */
  lemma {:induction false} SortBySortedIsIdentity(xs: seq<int>, key: int -> real)
    requires SortedBy(xs, key)
    ensures SortBy(xs, key) == xs
  {
    if xs != [] {
      assert SortedBy(xs[1..], key);
      SortBySortedIsIdentity(xs[1..], key);
      assert xs == [xs[0]] + xs[1..];
    }
  }

  /** In a distinct sequence every id is counted at most once. */
  lemma {:induction false} DistinctCountsOnce(xs: seq<int>, x: int)
    requires Distinct(xs)
    ensures multiset(xs)[x] <= 1
  {
    if xs != [] {
      assert xs == [xs[0]] + xs[1..];
      assert Distinct(xs[1..]);
      DistinctCountsOnce(xs[1..], x);
      if x == xs[0] {
        assert x !in xs[1..];
      }
    }
  }

  /** A sequence whose multiset fits inside that of a distinct sequence is
      distinct (this covers permutations, prefixes and filters). */
  lemma DistinctSub(xs: seq<int>, ys: seq<int>)
    requires multiset(xs) <= multiset(ys)
    requires Distinct(ys)
    ensures Distinct(xs)
  {
    forall i, j | 0 <= i < j < |xs|
      ensures xs[i] != xs[j]
    {
      if xs[i] == xs[j] {
        assert xs == xs[..i] + [xs[i]] + xs[i + 1..j] + [xs[j]] + xs[j + 1..];
        assert multiset(xs)[xs[i]] >= 2;
        DistinctCountsOnce(ys, xs[i]);
        assert false;
      }
    }
  }

  /** A strictly increasing sequence is distinct. */
  lemma IncreasingIsDistinct(xs: seq<int>)
    requires forall i, j :: 0 <= i < j < |xs| ==> xs[i] < xs[j]
    ensures Distinct(xs)
  {
  }

  /** A prefix's multiset lies inside the whole sequence's. */
  lemma PrefixMultiset(xs: seq<int>, k: nat)
    requires k <= |xs|
    ensures multiset(xs[..k]) <= multiset(xs)
  {
    assert xs == xs[..k] + xs[k..];
  }

  /** In a sorted sequence, an element of the first `k` has a key no larger than
      any element outside them. */
  lemma SortedPrefixFirst(s: seq<int>, key: int -> real, k: nat, x: int, y: int)
    requires SortedBy(s, key) && k <= |s|
    requires x in s[..k] && y in s && y !in s[..k]
    ensures key(x) <= key(y)
  {
    var i :| 0 <= i < k && s[i] == x;
    var j :| 0 <= j < |s| && s[j] == y;
  }

  /** Sequences with equal multisets have the same members. */
  lemma SameMembers(xs: seq<int>, ys: seq<int>, x: int)
    requires multiset(xs) == multiset(ys)
    ensures x in xs <==> x in ys
  {
    assert x in xs <==> x in multiset(xs);
    assert x in ys <==> x in multiset(ys);
  }

  /** Members of a sub-multiset are members. */
  lemma SubMember(xs: seq<int>, ys: seq<int>, x: int)
    requires multiset(xs) <= multiset(ys)
    requires x in xs
    ensures x in ys
  {
    assert x in multiset(xs);
  }

  /** `n / d` never exceeds `n` for a divisor of at least one. */
  lemma DivAtMost(n: nat, d: nat)
    requires d >= 1
    ensures n / d <= n
  {
  }
}

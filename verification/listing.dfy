/** Filter, order and limit over sequences: the three steps of every list query
    the repository sends to the document store. */
module Listing {

  /** The direction of an `orderBy` clause. */
  datatype Direction = Ascending | Descending

  /** `a` may come before `b` under direction `d`. */
  predicate InOrder(a: int, b: int, d: Direction) {
    if d == Ascending then a <= b else a >= b
  }

  /** Every earlier element is in order with every later one. */
  ghost predicate Sorted<T>(xs: seq<T>, key: T -> int, d: Direction) {
    forall i, j :: 0 <= i < j < |xs| ==> InOrder(key(xs[i]), key(xs[j]), d)
  }

  /** The elements of `xs` that satisfy `p`, in their original order. */
  function Filter<T(!new)>(xs: seq<T>, p: T -> bool): (r: seq<T>)
    ensures forall x :: x in r <==> x in xs && p(x)
    ensures multiset(r) <= multiset(xs)
    ensures |r| <= |xs|
  {
    if |xs| == 0 then []
    else
      assert xs == [xs[0]] + xs[1..];
      (if p(xs[0]) then [xs[0]] else []) + Filter(xs[1..], p)
  }

  /** Kotlin's `take(n)` / a query's `limit(n)`: the first `n` elements, or all of them. */
  function Take<T>(xs: seq<T>, n: nat): (r: seq<T>)
    ensures |r| == if n < |xs| then n else |xs|
    ensures r == xs[..|r|]
  {
    if n < |xs| then xs[..n] else xs
  }

  /** Inserts `x` in front of the first element it may precede, so that an element
      inserted earlier stays ahead of later ones with an equal key. */
  function Insert<T(!new)>(x: T, xs: seq<T>, key: T -> int, d: Direction): (r: seq<T>)
    requires Sorted(xs, key, d)
    ensures Sorted(r, key, d)
    ensures multiset(r) == multiset(xs) + multiset{x}
  {
    if |xs| == 0 then [x]
    else if InOrder(key(x), key(xs[0]), d) then
      assert forall j :: 0 <= j < |xs| ==> InOrder(key(x), key(xs[j]), d);
      [x] + xs
    else
      var rest := Insert(x, xs[1..], key, d);
      HeadPrecedes(x, xs, rest, key, d);
      assert xs == [xs[0]] + xs[1..];
      [xs[0]] + rest
  }

  /** The step of `Insert` that keeps the head of `xs` first. */
  lemma HeadPrecedes<T(!new)>(x: T, xs: seq<T>, rest: seq<T>, key: T -> int, d: Direction)
    requires |xs| > 0 && Sorted(xs, key, d) && Sorted(rest, key, d)
    requires !InOrder(key(x), key(xs[0]), d)
    requires multiset(rest) == multiset(xs[1..]) + multiset{x}
    ensures Sorted([xs[0]] + rest, key, d)
  {
    forall j | 0 <= j < |rest| ensures InOrder(key(xs[0]), key(rest[j]), d) {
      assert rest[j] in multiset(rest);
      if rest[j] != x {
        assert rest[j] in multiset(xs[1..]);
        var k :| 0 <= k < |xs[1..]| && xs[1..][k] == rest[j];
        assert xs[k + 1] == rest[j];
      }
    }
    var s := [xs[0]] + rest;
    forall i, j | 0 <= i < j < |s| ensures InOrder(key(s[i]), key(s[j]), d) {
      if i == 0 { assert s[j] == rest[j - 1]; }
      else { assert s[i] == rest[i - 1] && s[j] == rest[j - 1]; }
    }
  }

  /** A stable insertion sort on `key` in direction `d`. */
  function SortBy<T(!new)>(xs: seq<T>, key: T -> int, d: Direction): (r: seq<T>)
    ensures Sorted(r, key, d)
    ensures multiset(r) == multiset(xs)
  {
    if |xs| == 0 then []
    else
      assert xs == [xs[0]] + xs[1..];
      Insert(xs[0], SortBy(xs[1..], key, d), key, d)
  }

  /** filter, then orderBy, then limit: the shape of every query of the repository. */
  function Query<T(!new)>(xs: seq<T>, p: T -> bool, key: T -> int, d: Direction, limit: nat): (r: seq<T>)
    ensures forall x :: x in r ==> x in xs && p(x)
    ensures multiset(r) <= multiset(Filter(xs, p))
    ensures Sorted(r, key, d)
    ensures |r| <= limit && |r| <= |xs|
  {
    var filtered := Filter(xs, p);
    var sorted := SortBy(filtered, key, d);
    var r := Take(sorted, limit);
    PrefixSubMultiset(sorted, |r|);
    assert |sorted| == |multiset(sorted)| == |multiset(filtered)| == |filtered|;
    assert forall x :: x in r ==> x in multiset(sorted);
    r
  }

  /** A prefix holds no element more often than the whole sequence. */
  lemma PrefixSubMultiset<T>(xs: seq<T>, n: nat)
    requires n <= |xs|
    ensures multiset(xs[..n]) <= multiset(xs)
  {
    assert xs == xs[..n] + xs[n..];
  }

  /** The query returns the best `limit` matches: a match it leaves out comes no
      earlier than its last element, and when fewer than `limit` come back, every
      match is among them. */
  lemma {:induction false} QueryKeepsBest<T(!new)>(xs: seq<T>, p: T -> bool, key: T -> int, d: Direction, limit: nat, x: T)
    requires x in xs && p(x)
    ensures var r := Query(xs, p, key, d, limit);
      x !in r ==> |r| == limit && (limit > 0 ==> InOrder(key(r[limit - 1]), key(x), d))
    ensures |Query(xs, p, key, d, limit)| < limit ==> x in Query(xs, p, key, d, limit)
  {
    var sorted := SortBy(Filter(xs, p), key, d);
    var r := Query(xs, p, key, d, limit);
    assert r == Take(sorted, limit);
    assert x in multiset(sorted);
    var j :| 0 <= j < |sorted| && sorted[j] == x;
    if x !in r {
      assert j >= |r|;
      if |r| > 0 { assert sorted[|r| - 1] == r[|r| - 1]; }
    }
  }
}

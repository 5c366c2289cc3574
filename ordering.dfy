/**
 * The store's `.sort({ field: -1 })`: newest first by a timestamp key. Ties
 * keep insertion order (the store itself promises no order among ties).
 */
module Ordering {

  predicate SortedDesc<T>(xs: seq<T>, key: T -> int) {
    forall i, j | 0 <= i < j < |xs| :: key(xs[i]) >= key(xs[j])
  }

  /** Places x after every element whose key is at least x's. */
  function Insert<T>(x: T, xs: seq<T>, key: T -> int): (r: seq<T>)
    requires SortedDesc(xs, key)
    ensures SortedDesc(r, key)
    ensures multiset(r) == multiset(xs) + multiset{x}
    ensures |r| == |xs| + 1
    ensures r[0] == x || (xs != [] && r[0] == xs[0])
  {
    if xs == [] then [x]
    else if key(xs[0]) >= key(x) then
      SortedTail(xs, key);
      var tail := Insert(x, xs[1..], key);
      PrependSorted(xs[0], tail, key);
      assert xs == [xs[0]] + xs[1..];
      [xs[0]] + tail
    else
      PrependSorted(x, xs, key);
      [x] + xs
  }

  lemma SortedTail<T>(xs: seq<T>, key: T -> int)
    requires SortedDesc(xs, key) && xs != []
    ensures SortedDesc(xs[1..], key)
    ensures xs[1..] != [] ==> key(xs[0]) >= key(xs[1..][0])
  {
    var t := xs[1..];
    forall i, j | 0 <= i < j < |t| ensures key(t[i]) >= key(t[j]) {
      assert t[i] == xs[i + 1] && t[j] == xs[j + 1];
    }
    if t != [] { assert t[0] == xs[1]; }
  }

  /** An element whose key dominates the head of a sorted sequence may go in front of it. */
  lemma PrependSorted<T>(h: T, xs: seq<T>, key: T -> int)
    requires SortedDesc(xs, key)
    requires xs != [] ==> key(h) >= key(xs[0])
    ensures SortedDesc([h] + xs, key)
  {
    var r := [h] + xs;
    forall i, j | 0 <= i < j < |r| ensures key(r[i]) >= key(r[j]) {
      assert r[j] == xs[j - 1];
      if i > 0 { assert r[i] == xs[i - 1]; }
      else if j > 1 { assert key(xs[0]) >= key(xs[j - 1]); }
    }
  }

  /** Newest-first order of xs: sorted by key descending and a permutation of xs. */
  function SortDesc<T>(xs: seq<T>, key: T -> int): (r: seq<T>)
    ensures SortedDesc(r, key)
    ensures multiset(r) == multiset(xs)
    ensures |r| == |xs|
  {
    if xs == [] then []
    else
      var init := xs[..|xs| - 1];
      assert xs == init + [xs[|xs| - 1]];
      Insert(xs[|xs| - 1], SortDesc(init, key), key)
  }
}

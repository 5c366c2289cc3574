/**
 * The listing handler's query arithmetic: `parseInt(q) || default`, the
 * skip/limit window the store returns, and the pagination block
 * `{ current, pages, total, hasNext, hasPrev }`.
 */
module Pagination {
  import opened Wrappers

  const DefaultPage: int := 1
  const DefaultLimit: int := 12

  /**
   * `parseInt(q) || d`: None stands for a missing or unparsable parameter
   * (parseInt gives NaN); NaN and 0 are falsy, so both fall back to d.
   */
  function ParamOr(q: Option<int>, d: int): (v: int)
    ensures q.Some? && q.value != 0 ==> v == q.value
    ensures q.None? || q.value == 0 ==> v == d
  {
    match q
    case Some(n) => if n != 0 then n else d
    case None => d
  }

  /**
   * Math.ceil(total / limit) for a non-zero integer limit: the least integer
   * c with total / limit <= c, stated without division for each sign of limit.
   */
  function CeilDiv(total: nat, limit: int): (c: int)
    requires limit != 0
    ensures limit > 0 ==> (c - 1) * limit < total <= c * limit
    ensures limit < 0 ==> c * limit <= total < (c - 1) * limit
    ensures limit > 0 ==> c >= 0 && (c == 0 <==> total == 0)
  {
    if limit > 0 then
      var q := (total + limit - 1) / limit;
      assert total + limit - 1 == q * limit + (total + limit - 1) % limit;
      assert (q - 1) * limit == q * limit - limit;
      assert q >= 0;
      q
    else
      var q := total / -limit;
      assert total == q * -limit + total % -limit;
      assert (-q - 1) * limit == q * -limit - limit;
      -q
  }

  /** Multiplying by a non-negative factor keeps an ordering. */
  lemma MulMonotone(a: int, b: int, k: int)
    requires a <= b && k >= 0
    ensures a * k <= b * k
  {
    assert b * k - a * k == (b - a) * k;
  }

  datatype Meta = Meta(current: int, pages: int, total: nat, hasNext: bool, hasPrev: bool)

  /**
   * The pagination block of the listing response: the requested page, the
   * page count Math.ceil(total / limit), the total, and whether a later or
   * an earlier page exists.
   */
  function Metadata(page: int, limit: int, total: nat): (m: Meta)
    requires limit != 0
    ensures m.current == page && m.total == total
    ensures m.hasNext <==> page < m.pages
    ensures m.hasPrev <==> page > 1
    ensures limit > 0 ==> m.pages >= 0 && (m.pages == 0 <==> total == 0)
    ensures limit > 0 ==> (m.pages - 1) * limit < total <= m.pages * limit
  {
    var pages := CeilDiv(total, limit);
    Meta(page, pages, total, page < pages, page > 1)
  }

  function Min(a: int, b: int): int {
    if a <= b then a else b
  }

  function Abs(n: int): nat {
    if n < 0 then -n else n
  }

  /** `.skip(skip).limit(count)` over the already sorted collection. */
  function Window<T>(xs: seq<T>, skip: nat, count: nat): (w: seq<T>)
    ensures |w| == if skip >= |xs| then 0 else Min(count, |xs| - skip)
    ensures forall i | 0 <= i < |w| :: w[i] == xs[skip + i]
  {
    if skip >= |xs| then [] else xs[skip..skip + Min(count, |xs| - skip)]
  }

  datatype Listing<T> = Listing(items: seq<T>, meta: Meta)

  /**
   * The listing for the parsed `page` and `limit` parameters over the sorted
   * collection. None: the skip `(page - 1) * limit` is negative, which the
   * store rejects. A negative limit is taken by the store as its absolute
   * value (a single batch).
   */
  function List<T>(sorted: seq<T>, pageQ: Option<int>, limitQ: Option<int>): (r: Option<Listing<T>>)
    ensures var page, limit := ParamOr(pageQ, DefaultPage), ParamOr(limitQ, DefaultLimit);
            && limit != 0
            && (r.None? <==> (page - 1) * limit < 0)
            && (r.Some? ==>
                  var skip, n := (page - 1) * limit, |r.value.items|;
                  && n == (if skip >= |sorted| then 0 else Min(Abs(limit), |sorted| - skip))
                  && (n > 0 ==> r.value.items == sorted[skip..skip + n]))
            && (r.Some? ==> r.value.meta == Metadata(page, limit, |sorted|))
  {
    var page, limit := ParamOr(pageQ, DefaultPage), ParamOr(limitQ, DefaultLimit);
    var skip := (page - 1) * limit;
    if skip < 0 then None
    else Some(Listing(Window(sorted, skip, Abs(limit)), Metadata(page, limit, |sorted|)))
  }

  /** Two adjacent windows make up the window of their combined size. */
  lemma WindowSplit<T>(xs: seq<T>, skip: nat, a: nat, b: nat)
    ensures Window(xs, skip, a + b) == Window(xs, skip, a) + Window(xs, skip + a, b)
  {
    var w, u, v := Window(xs, skip, a + b), Window(xs, skip, a), Window(xs, skip + a, b);
    assert |w| == |u| + |v|;
    forall i | 0 <= i < |w| ensures w[i] == (u + v)[i] {
      if i >= |u| { assert |u| == a; }
    }
  }

  /** Pages 1 and 2 of size n, in order, are page 1 of size 2n. */
  lemma ConsecutivePages<T>(sorted: seq<T>, n: int)
    requires n >= 1
    ensures var one, two, both := List(sorted, Some(1), Some(n)), List(sorted, Some(2), Some(n)),
                                   List(sorted, Some(1), Some(2 * n));
            one.Some? && two.Some? && both.Some?
            && both.value.items == one.value.items + two.value.items
  {
    assert (1 - 1) * n == 0 && (2 - 1) * n == n && (1 - 1) * (2 * n) == 0;
    WindowSplit(sorted, 0, n, n);
  }

  /** Item i of the sorted collection is item i % limit of page i / limit + 1. */
  lemma ItemOnItsPage<T>(sorted: seq<T>, i: nat, limit: int)
    requires i < |sorted| && limit >= 1
    ensures var r := List(sorted, Some(i / limit + 1), Some(limit));
            r.Some? && i % limit < |r.value.items| && r.value.items[i % limit] == sorted[i]
  {
    var p := i / limit;
    assert i == p * limit + i % limit;
    assert (p + 1 - 1) * limit == p * limit;
  }

  /** For page, limit >= 1: a next page exists exactly when items remain past this page. */
  lemma HasNextIff(page: int, limit: int, total: nat)
    requires page >= 1 && limit >= 1
    ensures Metadata(page, limit, total).hasNext <==> page * limit < total
    ensures Metadata(page, limit, total).hasPrev <==> page > 1
  {
    var c := CeilDiv(total, limit);
    if page < c {
      MulMonotone(page, c - 1, limit);
    } else {
      MulMonotone(c, page, limit);
    }
  }

  /** A page past the last one is empty and is not an error. */
  lemma BeyondLastPage<T>(sorted: seq<T>, page: int, limit: int)
    requires limit >= 1 && page > CeilDiv(|sorted|, limit)
    ensures page >= 1
    ensures var r := List(sorted, Some(page), Some(limit));
            r.Some? && r.value.items == [] && !r.value.meta.hasNext
  {
    var c := CeilDiv(|sorted|, limit);
    MulMonotone(c, page - 1, limit);
  }
}

/**
 * The home page's list logic: the liked-id list and its toggle, the liked
 * videos, and the case-insensitive title search. All three are
 * Array.prototype.filter, so the results keep the order of their input.
 */
module Home {
  import opened Text
  import opened Schema

  /** Array.prototype.filter: never longer than its input, and every element kept passes the test. */
  function Filter<T>(xs: seq<T>, keep: T -> bool): (r: seq<T>)
    ensures |r| <= |xs|
    ensures forall i | 0 <= i < |r| :: keep(r[i])
  {
    if xs == [] then [] else (if keep(xs[0]) then [xs[0]] else []) + Filter(xs[1..], keep)
  }

  /** filter keeps exactly the elements that pass the test: each one kept passes it, and none that passes is lost. */
  lemma {:induction false} FilterMembers<T>(xs: seq<T>, keep: T -> bool)
    ensures forall i | 0 <= i < |Filter(xs, keep)| :: Filter(xs, keep)[i] in xs && keep(Filter(xs, keep)[i])
    ensures forall i | 0 <= i < |xs| && keep(xs[i]) :: xs[i] in Filter(xs, keep)
  {
    if xs != [] {
      var head := if keep(xs[0]) then [xs[0]] else [];
      var rest := Filter(xs[1..], keep);
      var r := Filter(xs, keep);
      assert r == head + rest;
      FilterMembers(xs[1..], keep);
      forall i | 0 <= i < |r| ensures r[i] in xs && keep(r[i]) {
        if i >= |head| {
          assert r[i] == rest[i - |head|];
          assert rest[i - |head|] in xs[1..];
        }
      }
      forall i | 0 <= i < |xs| && keep(xs[i]) ensures xs[i] in r {
        if i > 0 {
          assert xs[i] == xs[1..][i - 1];
          assert xs[i] in rest;
        }
      }
    }
  }

  /** Filtering a concatenation filters each part and keeps them in order. */
  lemma {:induction false} FilterAppend<T>(xs: seq<T>, ys: seq<T>, keep: T -> bool)
    ensures Filter(xs + ys, keep) == Filter(xs, keep) + Filter(ys, keep)
  {
    if xs != [] {
      assert (xs + ys)[0] == xs[0] && (xs + ys)[1..] == xs[1..] + ys;
      FilterAppend(xs[1..], ys, keep);
      var head := if keep(xs[0]) then [xs[0]] else [];
      assert Filter(xs + ys, keep) == head + Filter(xs[1..] + ys, keep);
    } else {
      assert xs + ys == ys;
    }
  }

  /** Nothing is dropped when every element is kept. */
  lemma {:induction false} FilterKeepsAll<T>(xs: seq<T>, keep: T -> bool)
    requires forall i | 0 <= i < |xs| :: keep(xs[i])
    ensures Filter(xs, keep) == xs
  {
    if xs != [] {
      FilterKeepsAll(xs[1..], keep);
    }
  }

  /** Two tests that agree on every element filter alike. */
  lemma {:induction false} FilterSameTest<T>(xs: seq<T>, keep: T -> bool, keep': T -> bool)
    requires forall i | 0 <= i < |xs| :: keep(xs[i]) == keep'(xs[i])
    ensures Filter(xs, keep) == Filter(xs, keep')
  {
    if xs != [] {
      FilterSameTest(xs[1..], keep, keep');
    }
  }

  predicate NoDuplicates<T(==)>(xs: seq<T>) {
    forall i, j | 0 <= i < j < |xs| :: xs[i] != xs[j]
  }

  lemma {:induction false} FilterNoDuplicates<T>(xs: seq<T>, keep: T -> bool)
    requires NoDuplicates(xs)
    ensures NoDuplicates(Filter(xs, keep))
  {
    if xs != [] {
      FilterNoDuplicates(xs[1..], keep);
      assert xs[0] !in xs[1..] by {
        forall j | 0 <= j < |xs| - 1 ensures xs[1..][j] != xs[0] { assert xs[1..][j] == xs[j + 1]; }
      }
      FilterMembers(xs[1..], keep);
      assert xs[0] !in Filter(xs[1..], keep);
    }
  }

  /** isVideoLiked: `includes`, true exactly when some position of the list holds the id. */
  predicate IsVideoLiked(liked: seq<nat>, id: nat): (r: bool)
    ensures r <==> exists i | 0 <= i < |liked| :: liked[i] == id
  {
    id in liked
  }

  /**
   * handleLike: drop every occurrence of a liked id, or append an unliked
   * one. The toggle flips whether id is liked and leaves every other id as
   * it was.
   */
  function ToggleLike(liked: seq<nat>, id: nat): (r: seq<nat>)
    ensures IsVideoLiked(r, id) <==> !IsVideoLiked(liked, id)
    ensures forall other | other != id :: IsVideoLiked(r, other) <==> IsVideoLiked(liked, other)
    ensures !IsVideoLiked(liked, id) ==> r == liked + [id]
  {
    FilterMembers(liked, (x: nat) => x != id);
    if id in liked then Filter(liked, (x: nat) => x != id) else liked + [id]
  }

  /** Liking an id that is not liked and then unliking it gives back the very same list. */
  lemma ToggleTwiceRestores(liked: seq<nat>, id: nat)
    requires id !in liked
    ensures ToggleLike(liked, id) == liked + [id]
    ensures ToggleLike(ToggleLike(liked, id), id) == liked
  {
    var keep := (x: nat) => x != id;
    FilterAppend(liked, [id], keep);
    FilterKeepsAll(liked, keep);
  }

  /** A list without repeats stays without repeats. */
  lemma ToggleKeepsNoDuplicates(liked: seq<nat>, id: nat)
    requires NoDuplicates(liked)
    ensures NoDuplicates(ToggleLike(liked, id))
  {
    if id in liked {
      FilterNoDuplicates(liked, (x: nat) => x != id);
    }
  }

  /** likedVideoList: the videos whose id is liked, in the order of the catalog. */
  function LikedVideoList(videos: seq<Video>, liked: seq<nat>): (r: seq<Video>)
    ensures forall v :: v in r <==> v in videos && IsVideoLiked(liked, v.id)
  {
    FilterMembers(videos, (v: Video) => v.id in liked);
    Filter(videos, (v: Video) => v.id in liked)
  }

  /**
   * The search effect's test: the lower-cased title includes the lower-cased
   * query. An empty query matches every title, and so does any exact
   * substring of the title.
   */
  predicate MatchesQuery(v: Video, query: string): (r: bool)
    ensures query == "" ==> r
    ensures Contains(v.title, query) ==> r
  {
    ContainsLower(v.title, query);
    Contains(Lower(v.title), Lower(query))
  }

  /** The search effect: the videos matching the query, in the order of the catalog. */
  function SearchResults(videos: seq<Video>, query: string): (r: seq<Video>)
    ensures forall v :: v in r <==> v in videos && MatchesQuery(v, query)
  {
    FilterMembers(videos, (v: Video) => MatchesQuery(v, query));
    Filter(videos, (v: Video) => MatchesQuery(v, query))
  }

  /** An empty query shows every video. */
  lemma EmptyQueryShowsAll(videos: seq<Video>)
    ensures SearchResults(videos, "") == videos
  {
    FilterKeepsAll(videos, (v: Video) => MatchesQuery(v, ""));
  }

  /** Typing more narrows the search: every result for q + more is a result for q. */
  lemma LongerQueryNarrows(videos: seq<Video>, q: string, more: string)
    ensures forall v | v in SearchResults(videos, q + more) :: v in SearchResults(videos, q)
  {
    LowerAppend(q, more);
    assert OccursAt(Lower(q + more), Lower(q), 0);
    forall v | v in SearchResults(videos, q + more) ensures MatchesQuery(v, q) {
      ContainsTransitive(Lower(v.title), Lower(q + more), Lower(q));
    }
  }

  /** Search does not depend on the case of the query's ASCII letters. */
  lemma SearchIgnoresQueryCase(videos: seq<Video>, query: string)
    ensures SearchResults(videos, Lower(query)) == SearchResults(videos, query)
  {
    LowerIdempotent(query);
    FilterSameTest(videos, (v: Video) => MatchesQuery(v, Lower(query)), (v: Video) => MatchesQuery(v, query));
  }
}

/** The page arithmetic both listing endpoints share: query defaults, the
    skip/limit window over a sorted query result, the page count and the
    "more pages" flag. */
module Pagination {
  import opened Wrappers

  function Abs(x: int): nat {
    if x < 0 then -x else x
  }

  function Min(a: int, b: int): int {
    if a <= b then a else b
  }

  /** `parseInt(q) || d`: an absent or unparsable value (NaN) and zero both
      take the default. */
  function OrDefault(q: Option<int>, d: int): (r: int)
    ensures q.None? || q.value == 0 ==> r == d
    ensures q.Some? && q.value != 0 ==> r == q.value
    ensures d != 0 ==> r != 0
  {
    if q.None? || q.value == 0 then d else q.value
  }

  /** `(page - 1) * limit`. */
  function Skip(page: int, limit: int): int {
    (page - 1) * limit
  }

  /** `.skip(skip).limit(limit)` over a query result: the documents from
      position `skip` on, at most `|limit|` of them (the store reads a
      negative limit as a single batch of `|limit|`). */
  function Window<T>(xs: seq<T>, skip: nat, limit: int): (r: seq<T>)
    ensures |r| == Min(|xs| - Min(skip, |xs|), Abs(limit))
    ensures forall i :: 0 <= i < |r| ==> skip + i < |xs| && r[i] == xs[skip + i]
  {
    var lo := Min(skip, |xs|);
    var hi := Min(lo + Abs(limit), |xs|);
    xs[lo..hi]
  }

  /** `Math.ceil(total / limit)` for a non-zero limit. */
  function TotalPages(total: nat, limit: int): (r: int)
    requires limit != 0
    ensures limit > 0 ==> r >= 0 && total <= r * limit && (r == 0 || (r - 1) * limit < total)
    ensures limit < 0 ==> r <= 0 && r * limit <= total < r * limit - limit
  {
    if limit > 0 then (total + limit - 1) / limit
    else -(total / -limit)
  }

  /** `skip + returned < total`. */
  predicate HasMore(skip: int, returned: nat, total: nat) {
    skip + returned < total
  }

  /** Pages 1 to n of a listing, one after the other. */
  function Pages<T>(xs: seq<T>, limit: int, n: nat): seq<T>
    requires limit > 0
  {
    if n == 0 then [] else Pages(xs, limit, n - 1) + Window(xs, (n - 1) * limit, limit)
  }

  lemma {:induction false} PagesArePrefix<T>(xs: seq<T>, limit: int, n: nat)
    requires limit > 0
    ensures Pages(xs, limit, n) == xs[..Min(n * limit, |xs|)]
  {
    if n > 0 {
      PagesArePrefix(xs, limit, n - 1);
      var lo := Min((n - 1) * limit, |xs|);
      var hi := Min(n * limit, |xs|);
      assert Window(xs, (n - 1) * limit, limit) == xs[lo..hi];
      assert xs[..lo] + xs[lo..hi] == xs[..hi];
    }
  }

  /** With a positive limit, the pages up to the page count list every
      document once, in order. */
  lemma PagesCoverListing<T>(xs: seq<T>, limit: int)
    requires limit > 0
    ensures Pages(xs, limit, TotalPages(|xs|, limit)) == xs
  {
    PagesArePrefix(xs, limit, TotalPages(|xs|, limit));
  }

  /** With a positive limit, a page from 1 on reports more pages exactly
      when it is not the last one. */
  lemma HasMoreIffBeforeLastPage<T>(xs: seq<T>, page: int, limit: int)
    requires page >= 1 && limit > 0
    ensures HasMore(Skip(page, limit), |Window(xs, Skip(page, limit), limit)|, |xs|)
            <==> page < TotalPages(|xs|, limit)
  {
    var n := TotalPages(|xs|, limit);
    var skip := Skip(page, limit);
    assert skip == page * limit - limit;
    if page < n {
      assert page * limit <= (n - 1) * limit by { MulMonotone(page, n - 1, limit); }
    } else {
      assert n * limit <= page * limit by { MulMonotone(n, page, limit); }
    }
  }

  lemma MulMonotone(a: int, b: int, c: int)
    requires a <= b && c >= 0
    ensures a * c <= b * c
  {
  }
}

/**
 * What the boundary finder computes, stated on the ascending IDs above the current
 * window start: the ID that closes the window, or `None` when nothing is left.
 */
module Window {
  import opened Wrappers
  import opened Ids

  /**
   * `hits` are the IDs above the window start, ascending; `limit` is the page size and
   * `maxPages` the page index probed first.
   *  - page `maxPages` full: the window ends with that page, after `(maxPages+1)*limit` posts;
   *  - otherwise the window ends after `min(|hits|, maxPages*limit)` posts;
   *  - no hits: there is no window.
   */
  function WindowEnd(hits: seq<int>, limit: nat, maxPages: nat): (r: Option<int>)
    requires limit >= 1 && maxPages >= 1
    ensures r.None? <==> hits == []
    ensures r.Some? ==> r.value in hits
    ensures Ascending(hits) && 0 < |hits| <= Offset(maxPages, limit) ==> r == Some(hits[|hits| - 1])
  {
    if |hits| >= Offset(maxPages + 1, limit) then Some(hits[Offset(maxPages + 1, limit) - 1])
    else if hits == [] then None
    else Some(hits[Min(|hits|, Offset(maxPages, limit)) - 1])
  }

  /** A full page `maxPages` closes the window with its last post. */
  lemma FullLastPageEnds(hits: seq<int>, limit: nat, maxPages: nat, posts: seq<int>)
    requires limit >= 1 && maxPages >= 1
    requires posts == Page(hits, limit, maxPages) && |posts| == limit
    ensures WindowEnd(hits, limit, maxPages) == Some(posts[|posts| - 1])
  {
  }

  /** Otherwise a partial first page holds every hit, and its last post closes the window. */
  lemma PartialFirstPageEnds(hits: seq<int>, limit: nat, maxPages: nat, posts: seq<int>)
    requires limit >= 1 && maxPages >= 1
    requires posts == Page(hits, limit, 0) && 0 < |posts| < limit
    ensures WindowEnd(hits, limit, maxPages) == Some(posts[|posts| - 1])
  {
    OffsetMonotone(1, maxPages + 1, limit);
  }

  /** An empty first page: nothing lies above the window start. */
  lemma EmptyFirstPageEnds(hits: seq<int>, limit: nat, maxPages: nat, posts: seq<int>)
    requires limit >= 1 && maxPages >= 1
    requires posts == Page(hits, limit, 0) && posts == []
    ensures WindowEnd(hits, limit, maxPages) == None
  {
  }

  /**
   * A full first page and a page `maxPages` that is not full leave the binary search,
   * whose answer is the last of the first `min(|hits|, maxPages*limit)` hits.
   */
  lemma BinaryCase(hits: seq<int>, limit: nat, maxPages: nat, lastPage: seq<int>, firstPage: seq<int>)
    requires limit >= 1 && maxPages >= 1
    requires lastPage == Page(hits, limit, maxPages) && |lastPage| < limit
    requires firstPage == Page(hits, limit, 0) && |firstPage| == limit
    ensures limit <= |hits| < Offset(maxPages + 1, limit)
    ensures 1 <= Min(|hits|, Offset(maxPages, limit))
    ensures WindowEnd(hits, limit, maxPages) == Some(hits[Min(|hits|, Offset(maxPages, limit)) - 1])
  {
    OffsetMonotone(1, maxPages, limit);
  }

  /**
   * The number of posts a window holds (the hits up to and including its end) is at
   * most `(maxPages+1)*limit`, and at least `min(|hits|, maxPages*limit)`.
   */
  lemma WindowEndCount(hits: seq<int>, limit: nat, maxPages: nat)
    requires limit >= 1 && maxPages >= 1 && Ascending(hits) && hits != []
    ensures |hits| - |Above(hits, WindowEnd(hits, limit, maxPages).value)| <= (maxPages + 1) * limit
    ensures |hits| - |Above(hits, WindowEnd(hits, limit, maxPages).value)| >= Min(|hits|, maxPages * limit)
  {
    OffsetIsProduct(maxPages, limit);
    OffsetIsProduct(maxPages + 1, limit);
    var k := if |hits| >= Offset(maxPages + 1, limit) then Offset(maxPages + 1, limit)
             else Min(|hits|, Offset(maxPages, limit));
    assert WindowEnd(hits, limit, maxPages).value == hits[k - 1];
    CountUpTo(hits, k);
  }

  /** The number of binary digits of `n`: how often `n` can be halved before it reaches 0. */
  function Bits(n: nat): nat {
    if n == 0 then 0 else 1 + Bits(n / 2)
  }

  /** The most requests one run of the boundary finder makes when `maxPages` is the page
      index it probes first: two probes, the binary search, and one final probe. */
  function FinderProbes(maxPages: int): nat
    requires maxPages >= 1
  {
    3 + Bits(maxPages - 1)
  }

  /** `count` searches of at most `probes` requests each: `count * probes` requests. */
  function Budget(count: nat, probes: nat): nat {
    if count == 0 then 0 else Budget(count - 1, probes) + probes
  }

  lemma {:induction false} BudgetIsProduct(count: nat, probes: nat)
    ensures Budget(count, probes) == count * probes
  {
    if count > 0 {
      BudgetIsProduct(count - 1, probes);
    }
  }

  /** 2 to the power `k`. */
  function Pow2(k: nat): nat {
    if k == 0 then 1 else 2 * Pow2(k - 1)
  }

  /** `Bits(n)` halvings suffice for `n`: it lies below `2^Bits(n)`. */
  lemma {:induction false} BelowPow2Bits(n: nat)
    ensures n < Pow2(Bits(n))
  {
    if n > 0 {
      BelowPow2Bits(n / 2);
    }
  }

  /**
   * What the binary search knows between its probes, with `n` hits above the window
   * start: page `left-1`, kept in `lastFullPage`, is full; page `right+1` is not full,
   * and is empty unless it is page `maxPages`; and the `right-left+1` pages still to
   * search number fewer than `2^budget`, so at most `budget` more probes remain.
   */
  ghost predicate BinaryInvariant(n: int, limit: nat, maxPages: int, left: int, right: int, lastFullPage: int, budget: int) {
    && 1 <= left <= right + 1 <= maxPages
    && lastFullPage == left - 1
    && Offset(left, limit) <= n
    && n < Offset(right + 2, limit)
    && (right < maxPages - 1 ==> n <= Offset(right + 1, limit))
    && 0 <= budget
    && right - left + 1 < Pow2(budget)
  }

  /** Pages `1 .. maxPages-1` are left to search once page 0 is full and page `maxPages` is not. */
  lemma BinaryStart(n: int, limit: nat, maxPages: nat, rounds: nat)
    requires limit >= 1 && maxPages >= 1 && limit <= n < Offset(maxPages + 1, limit)
    requires maxPages - 1 < Pow2(rounds)
    ensures BinaryInvariant(n, limit, maxPages, 1, maxPages - 1, 0, rounds)
  {
  }

  /** A partial page at `mid` holds the last hit of the window; the probe was affordable. */
  lemma BinaryPartial(hits: seq<int>, limit: nat, maxPages: nat, left: int, right: int, lastFullPage: int,
                      budget: int, mid: int, posts: seq<int>)
    requires limit >= 1 && BinaryInvariant(|hits|, limit, maxPages, left, right, lastFullPage, budget)
    requires left <= right && mid == (left + right) / 2
    requires posts == Page(hits, limit, mid) && 0 < |posts| < limit
    ensures budget >= 1
    ensures 1 <= Min(|hits|, Offset(maxPages, limit)) <= |hits|
    ensures posts[|posts| - 1] == hits[Min(|hits|, Offset(maxPages, limit)) - 1]
  {
    OffsetMonotone(mid + 1, maxPages, limit);
  }

  /** A full page at `mid` moves the search right of it, spending one unit of budget. */
  lemma BinaryFull(hits: seq<int>, limit: nat, maxPages: nat, left: int, right: int, lastFullPage: int,
                   budget: int, mid: int, posts: seq<int>, left': int, lastFullPage': int, budget': int)
    requires limit >= 1 && BinaryInvariant(|hits|, limit, maxPages, left, right, lastFullPage, budget)
    requires left <= right && mid == (left + right) / 2
    requires posts == Page(hits, limit, mid) && |posts| == limit
    requires left' == mid + 1 && lastFullPage' == mid && budget' == budget - 1
    ensures BinaryInvariant(|hits|, limit, maxPages, left', right, lastFullPage', budget')
  {
  }

  /** An empty page at `mid` moves the search left of it, spending one unit of budget. */
  lemma BinaryEmpty(hits: seq<int>, limit: nat, maxPages: nat, left: int, right: int, lastFullPage: int,
                    budget: int, mid: int, posts: seq<int>, right': int, budget': int)
    requires limit >= 1 && BinaryInvariant(|hits|, limit, maxPages, left, right, lastFullPage, budget)
    requires left <= right && mid == (left + right) / 2
    requires posts == Page(hits, limit, mid) && posts == []
    requires right' == mid - 1 && budget' == budget - 1
    ensures BinaryInvariant(|hits|, limit, maxPages, left, right', lastFullPage, budget')
  {
  }

  /** When the range is exhausted, page `left-1` is full and its last hit closes the window. */
  lemma LastFullPageEnds(hits: seq<int>, limit: nat, maxPages: nat, left: int, right: int, lastFullPage: int,
                         budget: int, posts: seq<int>)
    requires limit >= 1 && BinaryInvariant(|hits|, limit, maxPages, left, right, lastFullPage, budget)
    requires left > right && posts == Page(hits, limit, lastFullPage)
    ensures posts != []
    ensures 1 <= Min(|hits|, Offset(maxPages, limit)) <= |hits|
    ensures posts[|posts| - 1] == hits[Min(|hits|, Offset(maxPages, limit)) - 1]
  {
    OffsetMonotone(left, maxPages, limit);
  }
}

/** Ascending sequences of post IDs, the `id:>` filter on them, and pagination. */
module Ids {

  predicate Ascending(s: seq<int>) {
    forall i, j :: 0 <= i < j < |s| ==> s[i] < s[j]
  }

  function Min(a: int, b: int): int {
    if a <= b then a else b
  }

  /** The IDs of `s` strictly greater than `m`, in their original order. */
  function Above(s: seq<int>, m: int): (r: seq<int>)
    ensures |r| <= |s|
  {
    if s == [] then []
    else if s[0] > m then [s[0]] + Above(s[1..], m)
    else Above(s[1..], m)
  }

  /** The filter keeps exactly the IDs above `m`. */
  lemma {:induction false} AboveMembers(s: seq<int>, m: int)
    ensures forall x :: x in Above(s, m) <==> x in s && x > m
  {
    if s != [] {
      AboveMembers(s[1..], m);
      assert s == [s[0]] + s[1..];
    }
  }

  /** Filtering keeps an ascending sequence ascending. */
  lemma {:induction false} AboveAscending(s: seq<int>, m: int)
    requires Ascending(s)
    ensures Ascending(Above(s, m))
  {
    if s != [] {
      var rest := Above(s[1..], m);
      AboveAscending(s[1..], m);
      AboveMembers(s[1..], m);
      forall j | 0 <= j < |rest| ensures s[0] < rest[j] {
        assert rest[j] in rest;
        assert rest[j] in s[1..];
        var k :| 0 <= k < |s[1..]| && s[1..][k] == rest[j];
        assert s[k + 1] == rest[j];
      }
    }
  }

  /** In an ascending sequence, the IDs above its `k`-th element are exactly those after it. */
  lemma {:induction false} AboveAt(s: seq<int>, k: nat)
    requires Ascending(s) && k < |s|
    ensures Above(s, s[k]) == s[k + 1..]
  {
    if k == 0 {
      AboveAll(s[1..], s[0]);
    } else {
      AboveAt(s[1..], k - 1);
    }
  }

  /** Filtering below every element keeps everything. */
  lemma {:induction false} AboveAll(s: seq<int>, m: int)
    requires forall i :: 0 <= i < |s| ==> s[i] > m
    ensures Above(s, m) == s
  {
    if s != [] {
      AboveAll(s[1..], m);
    }
  }

  /** Filtering twice with growing bounds is filtering once with the larger bound. */
  lemma {:induction false} AboveAbove(s: seq<int>, m: int, e: int)
    requires m <= e
    ensures Above(Above(s, m), e) == Above(s, e)
  {
    if s != [] {
      AboveAbove(s[1..], m, e);
    }
  }

  /**
   * Moving the lower bound up to an ID that is present shrinks the filtered set:
   * the measure that makes the partition loop terminate.
   */
  lemma AboveShrinks(s: seq<int>, m: int, e: int)
    requires Ascending(s) && e in Above(s, m)
    ensures |Above(s, e)| < |Above(s, m)|
  {
    var a := Above(s, m);
    var k :| 0 <= k < |a| && a[k] == e;
    AboveMembers(s, m);
    AboveAscending(s, m);
    AboveAt(a, k);
    AboveAbove(s, m, e);
  }

  /** In ascending `a`, the first `k` elements are exactly those not above `a[k-1]`. */
  lemma CountUpTo(a: seq<int>, k: nat)
    requires Ascending(a) && 1 <= k <= |a|
    ensures |a| - |Above(a, a[k - 1])| == k
  {
    AboveAt(a, k - 1);
  }

  /**
   * The position of the first item of page `page` when items come `limit` to a page,
   * counted page by page; `OffsetIsProduct` shows it is `page * limit`.
   */
  function Offset(page: nat, limit: nat): nat {
    if page == 0 then 0 else Offset(page - 1, limit) + limit
  }

  lemma {:induction false} OffsetIsProduct(page: nat, limit: nat)
    ensures Offset(page, limit) == page * limit
  {
    if page > 0 {
      OffsetIsProduct(page - 1, limit);
    }
  }

  /** Later pages start no earlier. */
  lemma {:induction false} OffsetMonotone(a: nat, b: nat, limit: nat)
    requires a <= b
    ensures Offset(a, limit) <= Offset(b, limit)
  {
    if a < b {
      OffsetMonotone(a, b - 1, limit);
    }
  }

  /** The page of index `page` when `s` is split into pages of `limit` items. */
  function Page(s: seq<int>, limit: nat, page: nat): (r: seq<int>)
    requires limit >= 1
    ensures |r| <= limit
    ensures r == [] <==> |s| <= Offset(page, limit)
    ensures |r| == limit <==> Offset(page + 1, limit) <= |s|
    ensures r != [] ==> r[|r| - 1] == s[Min(Offset(page + 1, limit), |s|) - 1]
  {
    if Offset(page, limit) >= |s| then [] else s[Offset(page, limit)..Min(Offset(page + 1, limit), |s|)]
  }

  /** The sequence in reverse order: the search API's default, newest-first sort. */
  function Reverse(s: seq<int>): (r: seq<int>)
    ensures |r| == |s|
    ensures forall i :: 0 <= i < |s| ==> r[i] == s[|s| - 1 - i]
  {
    seq(|s|, i requires 0 <= i < |s| => s[|s| - 1 - i])
  }

  /** Reversing twice gives the IDs back. */
  lemma ReverseReverse(s: seq<int>)
    ensures Reverse(Reverse(s)) == s
  {
  }

  /** Reversed ascending IDs are strictly descending, the highest ID first. */
  lemma ReverseDescending(s: seq<int>)
    requires Ascending(s)
    ensures forall i, j :: 0 <= i < j < |s| ==> Reverse(s)[i] > Reverse(s)[j]
    ensures s != [] ==> Reverse(s)[0] == s[|s| - 1]
  {
  }
}

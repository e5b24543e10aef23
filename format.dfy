/**
 * `format_steps_to_searches`: each window of the plan becomes the user's tags followed by
 * two ID range tags, and the range tags, read back as the site reads them, select
 * exactly the IDs the window stands for.
 */
module Format {
  import opened Wrappers
  import opened Decimal
  import opened Ids
  import opened Partition

  /** The ID filter of one range tag. */
  datatype Bound = AtLeast(n: int) | GreaterThan(n: int) | AtMost(n: int)

  function BoundTag(b: Bound): string {
    match b
    case AtLeast(n) => "id:>=" + IntToString(n)
    case GreaterThan(n) => "id:>" + IntToString(n)
    case AtMost(n) => "id:<=" + IntToString(n)
  }

  /** The filter a range tag applies, or `None` when the tag is not a range tag. */
  function ParseBound(tag: string): Option<Bound> {
    if |tag| >= 5 && tag[..5] == "id:>=" then
      match ParseInt(tag[5..]) case Some(n) => Some(AtLeast(n)) case None => None
    else if |tag| >= 5 && tag[..5] == "id:<=" then
      match ParseInt(tag[5..]) case Some(n) => Some(AtMost(n)) case None => None
    else if |tag| >= 4 && tag[..4] == "id:>" then
      match ParseInt(tag[4..]) case Some(n) => Some(GreaterThan(n)) case None => None
    else None
  }

  predicate Admits(b: Bound, x: int) {
    match b
    case AtLeast(n) => x >= n
    case GreaterThan(n) => x > n
    case AtMost(n) => x <= n
  }

  /** A rendered range tag reads back as the filter it was rendered from. */
  lemma ParseBoundTag(b: Bound)
    ensures ParseBound(BoundTag(b)) == Some(b)
  {
    var t := BoundTag(b);
    var digits := IntToString(b.n);
    ParseIntToString(b.n);
    match b
    case AtLeast(n) =>
      assert t[..5] == "id:>=" && t[5..] == digits;
    case AtMost(n) =>
      assert t[..5] == "id:<=" && t[5..] == digits;
    case GreaterThan(n) =>
      assert t[..4] == "id:>" && t[4..] == digits;
      assert t[4] == digits[0];
      assert digits[0] == '-' || IsDigit(digits[0]);
  }

  /**
   * `format_steps_to_searches`: one search per window, in the order of the windows; each is
   * the tags followed by `id:>=start` for the first window or `id:>start` for a later one,
   * then `id:<=end`.
   */
  function FormatStepsToSearches(tags: seq<string>, steps: seq<Step>): (searches: seq<seq<string>>)
    ensures |searches| == |steps|
    ensures forall i :: 0 <= i < |steps| ==> |searches[i]| == |tags| + 2 && searches[i][..|tags|] == tags
  {
    seq(|steps|, i requires 0 <= i < |steps| =>
      var lower := if i == 0 then AtLeast(steps[i].start) else GreaterThan(steps[i].start);
      tags + [BoundTag(lower), BoundTag(AtMost(steps[i].end))])
  }

  /** True when both trailing range tags of `search` read back and admit `x`. */
  predicate SearchAdmits(search: seq<string>, x: int) {
    var n := |search|;
    && n >= 2
    && ParseBound(search[n - 2]).Some? && Admits(ParseBound(search[n - 2]).value, x)
    && ParseBound(search[n - 1]).Some? && Admits(ParseBound(search[n - 1]).value, x)
  }

  /** The two range tags of search `i` read back as the bounds of window `i`: inclusive
      below for the first window, exclusive below for the others, inclusive above. */
  lemma RenderedBounds(tags: seq<string>, steps: seq<Step>, i: int)
    requires 0 <= i < |steps|
    ensures var search := FormatStepsToSearches(tags, steps)[i];
      && ParseBound(search[|tags|]) == Some(if i == 0 then AtLeast(steps[i].start) else GreaterThan(steps[i].start))
      && ParseBound(search[|tags| + 1]) == Some(AtMost(steps[i].end))
  {
    ParseBoundTag(if i == 0 then AtLeast(steps[i].start) else GreaterThan(steps[i].start));
    ParseBoundTag(AtMost(steps[i].end));
  }

  /** Search `i` admits exactly the IDs window `i` selects. */
  lemma RenderedSelects(tags: seq<string>, steps: seq<Step>, i: int, x: int)
    requires 0 <= i < |steps|
    ensures SearchAdmits(FormatStepsToSearches(tags, steps)[i], x) <==> Selects(steps, i, x)
  {
    RenderedBounds(tags, steps, i);
  }

  /**
   * End to end: for a search matching posts, none with ID 0, the searches of the
   * covering plan together admit every matching ID, and no ID is admitted by two of them.
   */
  lemma SearchesCoverOnce(tags: seq<string>, ids: seq<int>, limit: int, maxPages: int, x: int)
    requires limit >= 1 && maxPages >= 1 && Ascending(ids) && NoZero(ids) && ids != []
    ensures CoveringPlan(ids, limit, maxPages).Success?
    ensures var steps := CoveringPlan(ids, limit, maxPages).value;
      && (x in ids ==> exists i :: 0 <= i < |steps| && SearchAdmits(FormatStepsToSearches(tags, steps)[i], x))
      && forall i, j :: 0 <= i < j < |steps| && SearchAdmits(FormatStepsToSearches(tags, steps)[i], x)
           ==> !SearchAdmits(FormatStepsToSearches(tags, steps)[j], x)
  {
    CoveringPlanCovers(ids, limit, maxPages);
    var steps := CoveringPlan(ids, limit, maxPages).value;
    var first, last := ids[0], ids[|ids| - 1];
    ChainedCoversOnce(steps, first, last, x);
    if x in ids {
      AscendingBounds(ids);
      var k :| 0 <= k < |ids| && ids[k] == x;
      assert first <= x <= last;
      var i :| 0 <= i < |steps| && Selects(steps, i, x);
      RenderedSelects(tags, steps, i, x);
    }
    forall i, j | 0 <= i < j < |steps| && SearchAdmits(FormatStepsToSearches(tags, steps)[i], x)
      ensures !SearchAdmits(FormatStepsToSearches(tags, steps)[j], x)
    {
      RenderedSelects(tags, steps, i, x);
      RenderedSelects(tags, steps, j, x);
    }
  }
}

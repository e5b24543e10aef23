/**
 * The chain of windows the deep search builds, as a function of the matching IDs,
 * and what it guarantees: contiguous windows from the first to the last ID, each
 * selecting a bounded number of posts.
 */
module Partition {
  import opened Wrappers
  import opened Ids
  import opened Window

  /** One window: `start` (exclusive except in the first window) to `end` (inclusive). */
  datatype Step = Step(start: int, end: int)

  datatype SearchError = ForbiddenTags | EmptySearch

  /** True when every ID is at most `last`. */
  predicate AllAtMost(ids: seq<int>, last: int) {
    forall i :: 0 <= i < |ids| ==> ids[i] <= last
  }

  /** True when no ID is 0, which the loop would take for "no ID". */
  predicate NoZero(ids: seq<int>) {
    forall i :: 0 <= i < |ids| ==> ids[i] != 0
  }

  /**
   * The loop `while step_start < last_id` from `start`: ask the boundary finder for
   * the end of the window above `start`; a missing (or zero) end closes the chain with
   * a window up to `last`, any other end becomes the next start.
   */
  function Chain(ids: seq<int>, limit: int, maxPages: int, start: int, last: int): (steps: seq<Step>)
    requires limit >= 1 && maxPages >= 1 && Ascending(ids)
    ensures steps == [] <==> start >= last
    ensures steps != [] ==> steps[0].start == start
    decreases |Above(ids, start)|
  {
    if start >= last then []
    else match WindowEnd(Above(ids, start), limit, maxPages)
      case None => [Step(start, last)]
      case Some(e) =>
        if e == 0 then [Step(start, last)]
        else
          AboveShrinks(ids, start, e);
          [Step(start, e)] + Chain(ids, limit, maxPages, e, last)
  }

  /** One turn of the loop: a window ending on a non-zero ID, then the chain from there. */
  lemma ChainUnfold(ids: seq<int>, limit: int, maxPages: int, start: int, last: int, steps: seq<Step>)
    requires limit >= 1 && maxPages >= 1 && Ascending(ids) && start < last
    requires WindowEnd(Above(ids, start), limit, maxPages).Some?
    requires WindowEnd(Above(ids, start), limit, maxPages).value != 0
    ensures var e := WindowEnd(Above(ids, start), limit, maxPages).value;
      |Above(ids, e)| < |Above(ids, start)| &&
      steps + Chain(ids, limit, maxPages, start, last) == (steps + [Step(start, e)]) + Chain(ids, limit, maxPages, e, last)
  {
    var e := WindowEnd(Above(ids, start), limit, maxPages).value;
    AboveShrinks(ids, start, e);
    assert Chain(ids, limit, maxPages, start, last) == [Step(start, e)] + Chain(ids, limit, maxPages, e, last);
  }

  /** The last turn of the loop: no end, or a zero end, closes the chain at `last`. */
  lemma ChainClose(ids: seq<int>, limit: int, maxPages: int, start: int, last: int)
    requires limit >= 1 && maxPages >= 1 && Ascending(ids) && start < last
    requires var e := WindowEnd(Above(ids, start), limit, maxPages); e.None? || e.value == 0
    ensures Chain(ids, limit, maxPages, start, last) == [Step(start, last)]
  {
  }

  /** Windows that start at `first`, end at `last` and each begin where the previous one ended. */
  predicate Chained(steps: seq<Step>, first: int, last: int) {
    && |steps| > 0
    && steps[0].start == first
    && steps[|steps| - 1].end == last
    && (forall i :: 0 <= i < |steps| ==> steps[i].start <= steps[i].end)
    && (forall i :: 0 <= i < |steps| - 1 ==> steps[i].end == steps[i + 1].start)
  }

  /** The chain is empty exactly when there is nothing between `start` and `last`; otherwise
      its windows are non-empty ranges, contiguous from `start` to `last`, each ending on
      a matching ID or on `last`. */
  lemma {:induction false} ChainShape(ids: seq<int>, limit: int, maxPages: int, start: int, last: int)
    requires limit >= 1 && maxPages >= 1 && Ascending(ids) && AllAtMost(ids, last)
    ensures var steps := Chain(ids, limit, maxPages, start, last);
      && (steps == [] <==> start >= last)
      && (start < last ==> Chained(steps, start, last))
      && (forall i :: 0 <= i < |steps| ==> steps[i].start < steps[i].end)
      && (forall i :: 0 <= i < |steps| ==> steps[i].end in ids || steps[i].end == last)
    decreases |Above(ids, start)|
  {
    if start < last {
      match WindowEnd(Above(ids, start), limit, maxPages)
      case None =>
      case Some(e) =>
        if e != 0 {
          AboveMembers(ids, start);
          AboveShrinks(ids, start, e);
          ChainShape(ids, limit, maxPages, e, last);
        }
    }
  }

  /** The number of matching IDs in the half-open range `(lo, hi]`. */
  function CountBetween(ids: seq<int>, lo: int, hi: int): int {
    |Above(ids, lo)| - |Above(ids, hi)|
  }

  /** The first window above `start`: it ends on a matching ID, holds at most
      `(maxPages+1)*limit` IDs, and at least `maxPages*limit` unless it reaches `last`. */
  lemma FirstWindowFits(ids: seq<int>, limit: int, maxPages: int, start: int, last: int)
    requires limit >= 1 && maxPages >= 1 && Ascending(ids) && AllAtMost(ids, last)
    requires last in ids && NoZero(ids) && start < last
    ensures var e := WindowEnd(Above(ids, start), limit, maxPages);
      && e.Some? && e.value != 0 && start < e.value <= last && e.value in ids
      && CountBetween(ids, start, e.value) <= (maxPages + 1) * limit
      && (e.value < last ==> CountBetween(ids, start, e.value) >= maxPages * limit)
  {
    var hits := Above(ids, start);
    AboveMembers(ids, start);
    assert last in hits;
    var e := WindowEnd(hits, limit, maxPages).value;
    assert e in ids && e > start;
    assert e != 0 by {
      var k :| 0 <= k < |ids| && ids[k] == e;
    }
    AboveAscending(ids, start);
    WindowEndCount(hits, limit, maxPages);
    AboveAbove(ids, start, e);
    OffsetIsProduct(maxPages, limit);
    if |hits| <= maxPages * limit {
      var j :| 0 <= j < |hits| && hits[j] == last;
      assert hits[j] <= hits[|hits| - 1];
      assert hits[|hits| - 1] in ids;
    }
  }

  /**
   * When `last` is the highest ID and no ID is 0, every window holds at most
   * `(maxPages+1)*limit` IDs above its start, and every window but the final one at
   * least `maxPages*limit`: the chain never closes a window early.
   */
  lemma {:induction false} ChainWindowsFit(ids: seq<int>, limit: int, maxPages: int, start: int, last: int)
    requires limit >= 1 && maxPages >= 1 && Ascending(ids) && AllAtMost(ids, last)
    requires last in ids && NoZero(ids)
    ensures var steps := Chain(ids, limit, maxPages, start, last);
      && (forall i :: 0 <= i < |steps| ==>
            CountBetween(ids, steps[i].start, steps[i].end) <= (maxPages + 1) * limit)
      && (forall i :: 0 <= i < |steps| - 1 ==>
            CountBetween(ids, steps[i].start, steps[i].end) >= maxPages * limit)
    decreases |Above(ids, start)|
  {
    if start < last {
      FirstWindowFits(ids, limit, maxPages, start, last);
      var e := WindowEnd(Above(ids, start), limit, maxPages).value;
      AboveShrinks(ids, start, e);
      var rest := Chain(ids, limit, maxPages, e, last);
      var steps := Chain(ids, limit, maxPages, start, last);
      assert steps == [Step(start, e)] + rest;
      ChainWindowsFit(ids, limit, maxPages, e, last);
      ChainShape(ids, limit, maxPages, e, last);
      forall i | 0 <= i < |steps|
        ensures CountBetween(ids, steps[i].start, steps[i].end) <= (maxPages + 1) * limit
        ensures i < |steps| - 1 ==> CountBetween(ids, steps[i].start, steps[i].end) >= maxPages * limit
      {
        if i > 0 {
          assert steps[i] == rest[i - 1];
        }
      }
    }
  }

  /** Whether window `i` selects ID `x`: `id:>=start` for the first window, `id:>start`
      for the others, and `id:<=end` for all. */
  predicate Selects(steps: seq<Step>, i: int, x: int)
    requires 0 <= i < |steps|
  {
    (if i == 0 then steps[i].start <= x else steps[i].start < x) && x <= steps[i].end
  }

  lemma {:induction false} ChainedOrder(steps: seq<Step>, first: int, last: int, i: int, j: int)
    requires Chained(steps, first, last) && 0 <= i < j < |steps|
    ensures steps[i].end <= steps[j].start
    decreases j - i
  {
    if j > i + 1 {
      ChainedOrder(steps, first, last, i, j - 1);
    }
  }

  lemma ChainedBounds(steps: seq<Step>, first: int, last: int, i: int)
    requires Chained(steps, first, last) && 0 <= i < |steps|
    ensures first <= steps[i].start && steps[i].end <= last
  {
    if i > 0 {
      ChainedOrder(steps, first, last, 0, i);
    }
    if i < |steps| - 1 {
      ChainedOrder(steps, first, last, i, |steps| - 1);
    }
  }

  /** Chained windows select exactly the IDs from `first` to `last`, each one exactly once. */
  lemma ChainedCoversOnce(steps: seq<Step>, first: int, last: int, x: int)
    requires Chained(steps, first, last)
    ensures first <= x <= last ==> exists i :: 0 <= i < |steps| && Selects(steps, i, x)
    ensures forall i :: 0 <= i < |steps| && Selects(steps, i, x) ==> first <= x <= last
    ensures forall i, j :: 0 <= i < j < |steps| && Selects(steps, i, x) ==> !Selects(steps, j, x)
  {
    forall i | 0 <= i < |steps| && Selects(steps, i, x) ensures first <= x <= last {
      ChainedBounds(steps, first, last, i);
    }
    forall i, j | 0 <= i < j < |steps| && Selects(steps, i, x) ensures !Selects(steps, j, x) {
      ChainedOrder(steps, first, last, i, j);
    }
    if first <= x <= last {
      var i := 0;
      while steps[i].end < x
        invariant 0 <= i < |steps|
        invariant i > 0 ==> steps[i].start < x
        decreases |steps| - i
      {
        i := i + 1;
      }
      assert Selects(steps, i, x);
    }
  }

  /** The lowest matching ID, as the ascending `limit=1` probe reports it. */
  function FirstId(ids: seq<int>): Option<int> {
    if ids == [] then None else Some(ids[0])
  }

  /** The highest matching ID, as the default-sorted `limit=1` probe reports it. */
  function LastId(ids: seq<int>): Option<int> {
    if ids == [] then None else Some(ids[|ids| - 1])
  }

  /** The steps of a deep search whose tags passed the reserved-tag check; a missing or
      zero first or last ID is an empty search. */
  function Plan(ids: seq<int>, limit: int, maxPages: int): (r: Result<seq<Step>, SearchError>)
    requires limit >= 1 && maxPages >= 1 && Ascending(ids)
    ensures r.Failure? <==> ids == [] || ids[0] == 0 || ids[|ids| - 1] == 0
    ensures r.Failure? ==> r.error == EmptySearch
  {
    var first, last := FirstId(ids), LastId(ids);
    if first.None? || first.value == 0 || last.None? || last.value == 0 then Failure(EmptySearch)
    else Success(Chain(ids, limit, maxPages, first.value, last.value))
  }

  lemma AscendingBounds(ids: seq<int>)
    requires Ascending(ids) && ids != []
    ensures AllAtMost(ids, ids[|ids| - 1]) && ids[|ids| - 1] in ids
    ensures forall i :: 0 <= i < |ids| ==> ids[0] <= ids[i]
  {
  }

  /**
   * A search matching at least two posts, none with ID 0, is planned as windows that
   * run contiguously from the lowest to the highest matching ID, each holding at most
   * `(maxPages+1)*limit` posts above its start.
   */
  lemma PlanCovers(ids: seq<int>, limit: int, maxPages: int)
    requires limit >= 1 && maxPages >= 1 && Ascending(ids) && NoZero(ids) && |ids| >= 2
    ensures Plan(ids, limit, maxPages).Success?
    ensures var steps := Plan(ids, limit, maxPages).value;
      && Chained(steps, ids[0], ids[|ids| - 1])
      && forall i :: 0 <= i < |steps| ==>
           CountBetween(ids, steps[i].start, steps[i].end) <= (maxPages + 1) * limit
  {
    AscendingBounds(ids);
    ChainShape(ids, limit, maxPages, ids[0], ids[|ids| - 1]);
    ChainWindowsFit(ids, limit, maxPages, ids[0], ids[|ids| - 1]);
  }

  /** As written, a search matching a single post yields no step at all. */
  lemma SinglePostYieldsNoStep(id: int, limit: int, maxPages: int)
    requires limit >= 1 && maxPages >= 1 && id != 0
    ensures Plan([id], limit, maxPages) == Success([])
  {
  }

  /** The plan with a single window `[id, id]` for a search whose first and last IDs coincide. */
  function CoveringPlan(ids: seq<int>, limit: int, maxPages: int): (r: Result<seq<Step>, SearchError>)
    requires limit >= 1 && maxPages >= 1 && Ascending(ids)
    ensures r.Failure? <==> Plan(ids, limit, maxPages).Failure?
  {
    match Plan(ids, limit, maxPages)
    case Success(steps) =>
      if steps == [] then Success([Step(ids[0], ids[|ids| - 1])]) else Success(steps)
    case Failure(e) => Failure(e)
  }

  /** Every search matching posts, none with ID 0, gets windows that select each
      matching ID exactly once. */
  lemma CoveringPlanCovers(ids: seq<int>, limit: int, maxPages: int)
    requires limit >= 1 && maxPages >= 1 && Ascending(ids) && NoZero(ids) && ids != []
    ensures CoveringPlan(ids, limit, maxPages).Success?
    ensures Chained(CoveringPlan(ids, limit, maxPages).value, ids[0], ids[|ids| - 1])
  {
    AscendingBounds(ids);
    ChainShape(ids, limit, maxPages, ids[0], ids[|ids| - 1]);
    if |ids| >= 2 {
      assert ids[0] < ids[|ids| - 1];
    }
  }
}

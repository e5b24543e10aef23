/**
 * The `GelbooruDeepSearch` object: the probe wrapper that counts requests, the first
 * and last ID probes, the boundary finder (last-page probe, first-page probe, binary
 * search) and the loop that chains windows from the first to the last matching ID.
 */
module DeepSearch {
  import opened Wrappers
  import opened Config
  import opened Tags
  import opened Ids
  import opened Booru
  import opened Window
  import opened Partition

  /** The page limit or page index actually sent: a falsy argument means the default. */
  function OrDefault(arg: Option<int>, default: int): (r: int)
    ensures arg.Some? && arg.value != 0 ==> r == arg.value
    ensures arg.None? || arg.value == 0 ==> r == default
    ensures r == 0 ==> default == 0
  {
    if arg.None? || arg.value == 0 then default else arg.value
  }

  /** The first post of a `limit=1` answer, which the client returns as one post or none. */
  function FirstPost(posts: seq<int>): (r: Option<int>)
    ensures r.None? <==> posts == []
    ensures r.Some? ==> r.value == posts[0]
  {
    if posts == [] then None else Some(posts[0])
  }

  class GelbooruDeepSearch {
    const config: BooruConfig
    /** The search client; its answers are those of this API. */
    const booru: Api
    var requestCounter: nat

    /** The configuration passed validation. */
    ghost predicate Valid() {
      LimitsOk(config)
    }

    constructor (config: BooruConfig, booru: Api)
      requires LimitsOk(config) && booru.Valid()
      ensures Valid() && booru.Valid() && this.config == config && this.booru == booru && requestCounter == 0
    {
      this.config := config;
      this.booru := booru;
      requestCounter := 0;
    }

    /** `_gelbooru_search_wrapped`: one request, counted. */
    method SearchWrapped(tags: seq<string>, limit: Option<int>, page: Option<int>) returns (posts: seq<int>)
      requires Valid()
      requires OrDefault(limit, config.maxPostsPerPage) >= 1 && OrDefault(page, 0) >= 0
      modifies this
      ensures requestCounter == old(requestCounter) + 1
      ensures posts == booru.Search(tags, OrDefault(limit, config.maxPostsPerPage), OrDefault(page, 0))
    {
      var l := limit;
      var p := page;
      if l.None? || l.value == 0 {
        l := Some(config.maxPostsPerPage);
      }
      if p.None? || p.value == 0 {
        p := Some(0);
      }
      requestCounter := requestCounter + 1;
      posts := booru.Search(tags, l.value, p.value);
    }

    /** One page of the search `tags`, which answers the pages of `hits`, at the configured page size. */
    method SearchPage(tags: seq<string>, ghost hits: seq<int>, page: nat) returns (posts: seq<int>)
      requires Valid() && booru.Pages(tags, config.maxPostsPerPage, hits)
      modifies this
      ensures requestCounter == old(requestCounter) + 1
      ensures posts == Page(hits, config.maxPostsPerPage, page)
    {
      posts := SearchWrapped(tags, Some(config.maxPostsPerPage), Some(page));
    }

    /** `_get_last_id_async`: the first post of the search as sorted by `tags`. */
    method GetLastId(tags: seq<string>) returns (id: Option<int>)
      requires Valid()
      modifies this
      ensures requestCounter == old(requestCounter) + 1
      ensures var q := Interpret(tags); var hits := booru.Hits(q);
        && (id.None? <==> hits == [])
        && (id.Some? ==> id.value == if q.ascending then hits[0] else hits[|hits| - 1])
    {
      var posts := SearchWrapped(tags, Some(1), None);
      var q := Interpret(tags);
      ghost var hits := booru.Hits(q);
      if q.ascending {
        booru.SearchAscending(tags, 1, 0);
      } else {
        booru.SearchDescending(tags, 1, 0);
      }
      id := FirstPost(posts);
    }

    /** `_get_first_id_async`: the lowest matching ID. */
    method GetFirstId(tags: seq<string>) returns (id: Option<int>)
      requires Valid()
      modifies this
      ensures requestCounter == old(requestCounter) + 1
      ensures id == FirstId(booru.index(tags))
    {
      InterpretReverse(tags);
      id := GetLastId(AddReverseTag(tags));
    }

    /**
     * One iteration of the binary search in `_find_last_id_binary_async`: probe the middle
     * of pages `left .. right`. A partial page ends the search with its last ID; a full
     * page moves the search right of it and an empty page left of it.
     */
    method ProbeMiddle(reversedAndMinTags: seq<string>, ghost hits: seq<int>,
                       left: int, right: int, lastFullPage: int, ghost budget: int)
      returns (found: Option<int>, left': int, right': int, lastFullPage': int)
      requires Valid() && booru.Pages(reversedAndMinTags, config.maxPostsPerPage, hits)
      requires BinaryInvariant(|hits|, config.maxPostsPerPage, MaxPages(config), left, right, lastFullPage, budget)
      requires left <= right
      modifies this
      ensures requestCounter == old(requestCounter) + 1 && budget >= 1
      ensures found.Some? ==> found.value == hits[Min(|hits|, Offset(MaxPages(config), config.maxPostsPerPage)) - 1]
      ensures found.None? ==> right' - left' < right - left
      ensures found.None? ==> BinaryInvariant(|hits|, config.maxPostsPerPage, MaxPages(config),
                                              left', right', lastFullPage', budget - 1)
    {
      var limit := config.maxPostsPerPage;
      var mid := (left + right) / 2;
      var posts := SearchPage(reversedAndMinTags, hits, mid);
      if 0 < |posts| < limit {
        BinaryPartial(hits, limit, MaxPages(config), left, right, lastFullPage, budget, mid, posts);
        return Some(posts[|posts| - 1]), left, right, lastFullPage;
      } else if |posts| == limit {
        found, left', right', lastFullPage' := None, mid + 1, right, mid;
        BinaryFull(hits, limit, MaxPages(config), left, right, lastFullPage, budget, mid, posts, left', lastFullPage', budget - 1);
      } else {
        found, left', right', lastFullPage' := None, left, mid - 1, lastFullPage;
        BinaryEmpty(hits, limit, MaxPages(config), left, right, lastFullPage, budget, mid, posts, right', budget - 1);
      }
    }

    /**
     * `_find_last_id_binary_async`: the first page of `hits` is full and page `max_pages`
     * is not; binary search over pages `1 .. max_pages-1` for the partial page, falling
     * back to the last page found full.
     */
    method FindLastIdBinary(reversedAndMinTags: seq<string>, ghost hits: seq<int>, ghost rounds: nat)
      returns (id: int)
      requires Valid() && booru.Pages(reversedAndMinTags, config.maxPostsPerPage, hits)
      requires config.maxPostsPerPage <= |hits| < Offset(MaxPages(config) + 1, config.maxPostsPerPage)
      requires MaxPages(config) - 1 < Pow2(rounds)
      modifies this
      ensures id == hits[Min(|hits|, Offset(MaxPages(config), config.maxPostsPerPage)) - 1]
      ensures old(requestCounter) + 1 <= requestCounter <= old(requestCounter) + 1 + rounds
    {
      var limit := config.maxPostsPerPage;
      var maxPages := MaxPages(config);
      var left, right := 1, maxPages - 1;
      var lastFullPage := 0;
      ghost var budget: int := rounds;
      ghost var ceiling := requestCounter + budget;
      BinaryStart(|hits|, limit, maxPages, rounds);
      while left <= right
        invariant BinaryInvariant(|hits|, limit, maxPages, left, right, lastFullPage, budget)
        invariant requestCounter >= old(requestCounter)
        invariant requestCounter + budget <= ceiling
        decreases right - left
      {
        var found;
        found, left, right, lastFullPage := ProbeMiddle(reversedAndMinTags, hits, left, right, lastFullPage, budget);
        if found.Some? {
          return found.value;
        }
        budget := budget - 1;
      }
      var lastFullPagePosts := SearchPage(reversedAndMinTags, hits, lastFullPage);
      LastFullPageEnds(hits, limit, maxPages, left, right, lastFullPage, budget, lastFullPagePosts);
      id := lastFullPagePosts[|lastFullPagePosts| - 1];
    }

    /**
     * `_find_last_id_linear_async`: the end of the window above `minId`, or `None` when
     * no matching ID lies above it.
     */
    method FindLastIdLinear(tags: seq<string>, minId: int) returns (r: Option<int>)
      requires Valid()
      modifies this
      ensures r == WindowEnd(Above(booru.index(tags), minId), config.maxPostsPerPage, MaxPages(config))
      ensures old(requestCounter) + 1 <= requestCounter <= old(requestCounter) + FinderProbes(MaxPages(config))
    {
      var reversedAndMinTags := AddReverseAndMinTag(tags, minId);
      ghost var hits := Above(booru.index(tags), minId);
      var limit := config.maxPostsPerPage;
      var maxPages := MaxPages(config);
      booru.PagesAbove(tags, minId, limit);

      var postsLastPage := SearchPage(reversedAndMinTags, hits, maxPages);
      if |postsLastPage| == limit {
        FullLastPageEnds(hits, limit, maxPages, postsLastPage);
        return Some(postsLastPage[|postsLastPage| - 1]);
      }

      var postsFirstPage := SearchPage(reversedAndMinTags, hits, 0);
      if 0 < |postsFirstPage| < limit {
        PartialFirstPageEnds(hits, limit, maxPages, postsFirstPage);
        return Some(postsFirstPage[|postsFirstPage| - 1]);
      } else if |postsFirstPage| == 0 {
        EmptyFirstPageEnds(hits, limit, maxPages, postsFirstPage);
        return None;
      }

      BinaryCase(hits, limit, maxPages, postsLastPage, postsFirstPage);
      BelowPow2Bits(maxPages - 1);
      var id := FindLastIdBinary(reversedAndMinTags, hits, Bits(maxPages - 1));
      r := Some(id);
    }

    /**
     * The partition loop of `get_deep_search_steps_async`: from `firstId`, ask the boundary
     * finder for the end of each window and chain the windows until `lastId` is reached.
     */
    method ChainSteps(tags: seq<string>, firstId: int, lastId: int) returns (steps: seq<Step>)
      requires Valid() && booru.Valid()
      modifies this
      ensures steps == Chain(booru.index(tags), config.maxPostsPerPage, MaxPages(config), firstId, lastId)
      ensures old(requestCounter) <= requestCounter
                <= old(requestCounter) + Budget(|steps|, FinderProbes(MaxPages(config)))
    {
      ghost var ids := booru.index(tags);
      var limit := config.maxPostsPerPage;
      var maxPages := MaxPages(config);
      ghost var probes := FinderProbes(maxPages);
      ghost var whole := Chain(ids, limit, maxPages, firstId, lastId);

      steps := [];
      var stepStart := firstId;
      while stepStart < lastId
        invariant whole == steps + Chain(ids, limit, maxPages, stepStart, lastId)
        invariant old(requestCounter) <= requestCounter <= old(requestCounter) + Budget(|steps|, probes)
        decreases |Above(ids, stepStart)|
      {
        ghost var spent := Budget(|steps|, probes);
        var stepEnd := FindLastIdLinear(tags, stepStart);
        assert requestCounter <= old(requestCounter) + spent + probes;
        assert Budget(|steps| + 1, probes) == spent + probes;
        if stepEnd.None? || stepEnd.value == 0 {
          ChainClose(ids, limit, maxPages, stepStart, lastId);
          ghost var count := |steps| + 1;
          steps := steps + [Step(stepStart, lastId)];
          assert |steps| == count;
          assert whole == steps;
          assert requestCounter <= old(requestCounter) + Budget(count, probes);
          break;
        }
        ChainUnfold(ids, limit, maxPages, stepStart, lastId, steps);
        steps := steps + [Step(stepStart, stepEnd.value)];
        stepStart := stepEnd.value;
      }
      assert whole == steps;
    }

    /**
     * `get_deep_search_steps_async`: normalise the tags, reset the counter, reject the
     * reserved sort tags, find the first and last IDs, then chain windows.
     */
    method GetDeepSearchSteps(raw: seq<string>) returns (r: Result<seq<Step>, SearchError>)
      requires Valid() && booru.Valid()
      modifies this
      ensures var tags := Normalise(raw);
        && (IsForbidden(tags) ==> r == Failure(ForbiddenTags) && requestCounter == 0)
        && (!IsForbidden(tags) ==>
              r == Plan(booru.index(tags), config.maxPostsPerPage, MaxPages(config)) && requestCounter >= 2)
      ensures r.Success? ==> requestCounter <= 2 + Budget(|r.value|, FinderProbes(MaxPages(config)))
    {
      var tags := SplitAll(raw);
      requestCounter := 0;
      tags := LowerAll(tags);
      if SortAsc in tags || SortDesc in tags {
        return Failure(ForbiddenTags);
      }

      var firstId := GetFirstId(tags);
      InterpretPlain(tags);
      var lastId := GetLastId(tags);
      if firstId.None? || firstId.value == 0 || lastId.None? || lastId.value == 0 {
        return Failure(EmptySearch);
      }
      var steps := ChainSteps(tags, firstId.value, lastId.value);
      r := Success(steps);
    }
  }
}

# Gelbooru deep search, modelled in Dafny

Gelbooru-compatible APIs stop paging at a fixed offset (`max_posts_per_search`). Past
that offset a tag search cannot be read through. `GelbooruDeepSearch` works around this:
it splits the search into a chain of post-ID windows `(start, end)`. Each window holds few
enough posts to be paged through on its own. `format_steps_to_searches` then turns each
window into a search with two ID range tags.

The model covers:

- **Configuration** (`config.dfy`). `BooruConfig` construction with its checks in order,
  one error per `ValueError`, and `max_pages`.
- **Tags** (`tags.dfy`, `decimal.dfy`). Whitespace splitting, lower-casing, the reserved
  `sort:id:*` check, and the `_add_*` helpers. Also the decimal rendering behind the
  `id:>N` tag, with its parse-back.
- **The search API as an oracle** (`booru.dfy`, `ids.dfy`). An `Api` value maps base tags
  to the ascending IDs of the matching posts. A search reads the trailing control tags the
  deep search appends: `sort:id:asc`, optionally followed by `id:>N`. It then answers page
  `p` of `limit` posts as a slice of the ascending IDs, or of the descending IDs for the
  default sort.
- **The boundary finder** (`window.dfy`, `deep_search.dfy`). It probes page `max_pages`,
  then page 0, then falls back to a binary search over pages `1 .. max_pages-1`.
  `WindowEnd` is its specification as a function of the IDs above the window start.
- **The partition loop** (`partition.dfy`, `deep_search.dfy`). `Chain` is the loop as a
  function of the matching IDs. `GelbooruDeepSearch.ChainSteps` is the loop itself, proved
  equal to it, with a bound on the number of requests.
- **Rendering** (`format.dfy`). The range tags of each search read back as exactly the
  window's bounds.

`GelbooruDeepSearch` is a class. It holds the configuration and the oracle, and it has a
`requestCounter` field that every request increments. The entry method resets the counter.

Notes on the code's behaviour:

- A search matching a single post gets no window (see Findings).
- With `max_posts_per_page = 100` and `max_posts_per_search = 200`, a search matching the
  IDs 1..150 gets one window, `(1, 150)`. The finder reads page 2 empty and page 0 full.
  The binary search then reads page 1 partial and returns 150.
- A window is bounded by `(max_pages+1)*max_posts_per_page` IDs above its start, not by
  `max_posts_per_search`. When page `max_pages` is full, the window ends with that page.
  The first window also includes `first_id` itself, through `id:>=`.

## Model

| member | source | states |
|---|---|---|
| Config.NewBooruConfig | gelbooru_deep_search.py:24-69 | Accepted exactly when the API is non-empty and a URL, `0 < max_posts_per_page <= max_posts_per_search`, and `api_key`/`user_id` are both truthy or both falsy. The empty API is the first error. Page-bigger-than-search is reported exactly when the earlier checks pass. |
| Config.MaxPages | gelbooru_deep_search.py:72-73 | Every accepted configuration has at least one page. |
| Config.MaxPagesBounds | gelbooru_deep_search.py:72-73 | `max_pages` full pages fit under the search cap, and one more page does not. |
| Decimal.NatToStringValue | gelbooru_deep_search.py:253 | The decimal rendering of an ID is all digits, and their value is the ID. |
| Decimal.ParseIntToString | gelbooru_deep_search.py:253 | Parsing the rendering of any integer gives the integer back. |
| Decimal.IntToStringInjective | gelbooru_deep_search.py:253 | Distinct integers render as distinct strings. |
| Tags.Split | gelbooru_deep_search.py:196 | `split()` yields only non-empty tags without whitespace. |
| Tags.SplitAtSpace | gelbooru_deep_search.py:196 | Any whitespace character separates: the text before it and the text after it split independently. With SplitToken and the empty case, this pins `split()` on every input, including leading spaces, runs of whitespace and tabs. |
| Tags.SplitJoin | gelbooru_deep_search.py:196 | Splitting tags joined by spaces gives the tags back. |
| Tags.SplitToken | gelbooru_deep_search.py:196 | A tag without whitespace splits into itself. |
| Tags.SplitAll | gelbooru_deep_search.py:196 | Flattening the split of every argument yields only tokens. |
| Tags.SplitAllTokens | gelbooru_deep_search.py:196 | Splitting a list of tokens leaves it unchanged. |
| Tags.Lower | gelbooru_deep_search.py:205 | Lower-casing keeps the length and whitespace positions, turns each letter `A`–`Z` into the lower-case letter at the same place in the alphabet, leaves no upper-case letter, and changes no other character. |
| Tags.LowerIdempotent | gelbooru_deep_search.py:205 | Lower-casing twice is lower-casing once. |
| Tags.LowerAll | gelbooru_deep_search.py:205 | Lower-casing a list keeps its length, and tag `i` becomes the lower-cased tag `i`. |
| Tags.Normalise | gelbooru_deep_search.py:196-205 | The tag list the search uses: the whitespace-separated words of all arguments, in order, each lower-cased. Its properties are stated by NormalisedTokens and NormaliseIdempotent. |
| Tags.NormalisedTokens | gelbooru_deep_search.py:196-205 | Normalised tags are lower-case tokens. |
| Tags.NormaliseIdempotent | gelbooru_deep_search.py:196-205 | Normalising normalised tags changes nothing. |
| Tags.IsForbidden | gelbooru_deep_search.py:209-210 | The check for the reserved tags: `sort:id:asc` or `sort:id:desc` is among the normalised tags. ForbiddenInAnyCase and ForbiddenWitness relate it to the raw input. |
| Tags.ForbiddenInAnyCase | gelbooru_deep_search.py:196-210 | A `sort:id:asc` or `sort:id:desc` in any letter case, in any argument, makes the tags forbidden. |
| Tags.ForbiddenWitness | gelbooru_deep_search.py:196-210 | Forbidden tags always come from such an input word. |
| Tags.AddReverseTag | gelbooru_deep_search.py:238-244 | The tags unchanged as a prefix, then `sort:id:asc`. |
| Tags.MinTag | gelbooru_deep_search.py:253 | The tag `id:>N` for the decimal rendering of `N`. Booru.MinFilterOfMinTag reads it back as `N`. |
| Tags.AddMinTag | gelbooru_deep_search.py:246-253 | The tags unchanged as a prefix, then `id:>minId`. |
| Tags.AddReverseAndMinTag | gelbooru_deep_search.py:255-265 | The tags unchanged as a prefix, then exactly `sort:id:asc` and `id:>minId`, in that order. |
| Ids.AboveMembers | gelbooru_deep_search.py:253 | The `id:>m` filter keeps exactly the IDs above `m`. |
| Ids.AboveAscending | gelbooru_deep_search.py:253 | The filtered IDs stay ascending. |
| Ids.AboveAbove | gelbooru_deep_search.py:229-230 | Filtering above the start and then above a later end is filtering above the end. |
| Ids.AboveShrinks | gelbooru_deep_search.py:224-230 | Moving the start to a matching ID above it strictly shrinks the IDs left above the start, so the loop terminates. |
| Ids.Page | gelbooru_deep_search.py:335-337 | A page holds at most `limit` posts. It is empty exactly when its offset is past the end, full exactly when the next page's offset is within the IDs, and otherwise ends on the last ID it reaches. |
| Ids.ReverseReverse | gelbooru_deep_search.py:311-321 | Reversing the default sort's order gives the ascending IDs back. |
| Ids.ReverseDescending | gelbooru_deep_search.py:311-321 | The default sort lists ascending IDs strictly descending, so its first post is the highest ID. |
| Booru.MinFilterOfMinTag | gelbooru_deep_search.py:246-253 | The API reads the rendered `id:>m` tag back as `m`. |
| Booru.InterpretReverseAndMin | gelbooru_deep_search.py:255-265 | The finder's probe is read as the base tags, ascending, above `m`. |
| Booru.InterpretReverse | gelbooru_deep_search.py:303-309 | The first-ID probe is read as the base tags, ascending. |
| Booru.InterpretPlain | gelbooru_deep_search.py:209-213 | Tags that passed the forbidden check are read as the base tags in the default sort. |
| Booru.Api.Hits | gelbooru_deep_search.py:294 | The IDs a query selects are ascending. |
| Booru.Api.Search | gelbooru_deep_search.py:294 | A request answers at most `limit` posts. |
| Booru.Api.PagesAbove | gelbooru_deep_search.py:332-337 | Every page of the finder's probe is the corresponding page of the IDs above the window start. |
| Window.WindowEnd | gelbooru_deep_search.py:323-403 | The finder's answer. It is `None` exactly when no ID lies above the start, and otherwise a matching ID above the start. It is the last ID when all IDs fit in `max_pages` pages. |
| Window.FullLastPageEnds | gelbooru_deep_search.py:335-343 | A full page `max_pages` ends the window with its last post. |
| Window.PartialFirstPageEnds | gelbooru_deep_search.py:346-354 | A non-full, non-empty page 0 ends the window with its last post. |
| Window.EmptyFirstPageEnds | gelbooru_deep_search.py:355-358 | An empty page 0 means there is no window. |
| Window.BinaryCase | gelbooru_deep_search.py:360-362 | In the remaining case, the window ends with the last of the first `min(count, max_pages*limit)` IDs above the start. |
| Window.WindowEndCount | gelbooru_deep_search.py:323-403 | A window holds at most `(max_pages+1)*limit` IDs above its start, and at least `min(count, max_pages*limit)`. |
| Window.BelowPow2Bits | gelbooru_deep_search.py:374-377 | The pages `1 .. max_pages-1` number fewer than `2^Bits(max_pages-1)`, so that many halvings exhaust them. |
| Window.BinaryStart | gelbooru_deep_search.py:374-375 | The initial `left=1, right=max_pages-1, last_full_page=0` satisfies the loop invariant. Page `last_full_page` is full, page `right+1` is not, and the range fits in the remaining halvings. |
| Window.BinaryPartial | gelbooru_deep_search.py:386-388 | A partial middle page holds the window's end as its last post. |
| Window.BinaryFull | gelbooru_deep_search.py:389-392 | After a full middle page, `last_full_page = mid, left = mid+1` keeps the invariant with one halving fewer. |
| Window.BinaryEmpty | gelbooru_deep_search.py:393-395 | After an empty middle page, `right = mid-1` keeps the invariant with one halving fewer. |
| Window.LastFullPageEnds | gelbooru_deep_search.py:398-403 | When the search range is exhausted, page `last_full_page` is non-empty and its last post is the window's end. |
| Partition.Chain | gelbooru_deep_search.py:220-233 | The partition loop as a function of the matching IDs. It is empty exactly when `start >= last_id`, and otherwise its first window starts at `start`. ChainShape, ChainWindowsFit and ChainedCoversOnce state the rest. |
| Partition.ChainShape | gelbooru_deep_search.py:220-233 | The chain is empty exactly when `start >= last_id`. Otherwise its windows are non-empty and contiguous from `first_id` to `last_id`, each ending on a matching ID or on `last_id`. |
| Partition.FirstWindowFits | gelbooru_deep_search.py:224-230 | Each window ends on a non-zero matching ID above its start, holds at most `(max_pages+1)*limit` IDs, and holds at least `max_pages*limit` unless it reaches `last_id`. |
| Partition.ChainWindowsFit | gelbooru_deep_search.py:220-233 | Every window of the chain holds at most `(max_pages+1)*limit` IDs, and every window but the final one at least `max_pages*limit`. |
| Partition.ChainedOrder | gelbooru_deep_search.py:220-233 | Earlier windows end no later than later windows start. |
| Partition.ChainedBounds | gelbooru_deep_search.py:220-233 | Every window lies between `first_id` and `last_id`. |
| Partition.ChainedCoversOnce | gelbooru_deep_search.py:220-233 | Every ID from `first_id` to `last_id` is selected by some window, by no window outside that range, and never by two windows. |
| Partition.Plan | gelbooru_deep_search.py:212-233 | The deep search fails with the empty-search error exactly when there is no matching post, or the lowest or highest ID is 0. |
| Partition.PlanCovers | gelbooru_deep_search.py:212-233 | A search matching two or more posts, none with ID 0, succeeds. Its windows run contiguously from the lowest to the highest ID, each holding at most `(max_pages+1)*limit` IDs. |
| Partition.SinglePostYieldsNoStep | gelbooru_deep_search.py:220-224 | As written, a search matching exactly one post succeeds with no window at all. |
| Partition.CoveringPlan | gelbooru_deep_search.py:212-233 | Corrected plan: it fails exactly when the written plan fails. |
| Partition.CoveringPlanCovers | gelbooru_deep_search.py:220-233 | Corrected plan: every search matching posts, none with ID 0, gets contiguous windows from the lowest to the highest ID, including the single-post case. |
| DeepSearch.OrDefault | gelbooru_deep_search.py:285-288 | A truthy limit or page is sent as given. A falsy one is replaced by the default, so 0 is sent only when the default is 0. |
| DeepSearch.FirstPost | gelbooru_deep_search.py:316-321 | A `limit=1` answer gives `None` exactly when it is empty, and otherwise its only post. |
| DeepSearch.GelbooruDeepSearch.constructor | gelbooru_deep_search.py:147-158 | A new searcher holds the configuration and client, and its counter is 0. |
| DeepSearch.GelbooruDeepSearch.SearchWrapped | gelbooru_deep_search.py:283-301 | One request: the counter goes up by one. A falsy limit becomes the page size and a falsy page becomes 0. |
| DeepSearch.GelbooruDeepSearch.SearchPage | gelbooru_deep_search.py:332-337 | A page request of the configured size answers that page of the probe's IDs and costs one request. |
| DeepSearch.GelbooruDeepSearch.GetLastId | gelbooru_deep_search.py:311-321 | One `limit=1` request. `None` exactly when nothing matches, otherwise the highest ID in the default sort and the lowest when ascending. |
| DeepSearch.GelbooruDeepSearch.GetFirstId | gelbooru_deep_search.py:303-309 | One request, answering the lowest matching ID or `None`. |
| DeepSearch.GelbooruDeepSearch.ProbeMiddle | gelbooru_deep_search.py:377-395 | One loop iteration and one request. A partial page returns the window's end. Otherwise `right-left` shrinks and the invariant holds with one halving fewer. |
| DeepSearch.GelbooruDeepSearch.FindLastIdBinary | gelbooru_deep_search.py:364-403 | Returns the last of the first `min(count, max_pages*limit)` IDs above the start, after at most `1 + rounds` requests, for any `rounds` with `max_pages-1 < 2^rounds`. |
| DeepSearch.GelbooruDeepSearch.FindLastIdLinear | gelbooru_deep_search.py:323-362 | Returns `WindowEnd` of the IDs above `min_id`, after between 1 and `3 + Bits(max_pages-1)` requests. |
| DeepSearch.GelbooruDeepSearch.ChainSteps | gelbooru_deep_search.py:219-233 | The loop builds exactly `Chain` from `first_id` to `last_id`, in at most `len(steps) * (3 + Bits(max_pages-1))` requests. |
| DeepSearch.GelbooruDeepSearch.GetDeepSearchSteps | gelbooru_deep_search.py:183-233 | Forbidden tags fail before any request, with the counter 0. Otherwise the result is `Plan` of the normalised tags' IDs after at least 2 requests. On success it took at most `2 + len(steps) * (3 + Bits(max_pages-1))` requests. |
| Format.ParseBoundTag | gelbooru_deep_search.py:405-410 | Each rendered range tag (`id:>=N`, `id:>N`, `id:<=N`) reads back as its own bound. |
| Format.FormatStepsToSearches | gelbooru_deep_search.py:405-410 | One search per window, each being the tags unchanged followed by exactly two tags. |
| Format.RenderedBounds | gelbooru_deep_search.py:405-410 | The first search's lower tag reads as `id:>=start` and every later one as `id:>start`. Every upper tag reads as `id:<=end`. |
| Format.RenderedSelects | gelbooru_deep_search.py:405-410 | Search `i` admits exactly the IDs window `i` selects. |
| Format.SearchesCoverOnce | gelbooru_deep_search.py:405-410 | For the corrected plan, the rendered searches admit every matching ID and never admit one ID twice. |

## Left out

- The command line is not modelled: `_build_argparser`, `_check_user_key_both_or_none`, `_check_have_limits_on_custom_booru`, `_get_booru_config`, `main` and the `KNOWN_API` presets. It is argument parsing and process exit. `_get_booru_config` passes `max_per_search` as the page size for custom APIs (line 465); the model takes the configuration as given.
- Logging (`_configure_logging`, `set_logging_level`, `_build_logger`, every debug line) is output only.
- The timing (`_request_time`, `perf_counter`) is wall-clock floating point. Only the integer request counter is kept.
- The pygelbooru client is replaced by the `Booru.Api` oracle. Its habit of answering `limit=1` with a single post or with no post becomes "the first post or none" (`DeepSearch.FirstPost`).
- Config.NewBooruConfig: the URL check (`_is_url`, built on `urllib.parse`) is a parameter `isUrl`.
- Runtime `isinstance` / `TypeError` checks are ruled out by Dafny's types. This includes accepting a single string for the tags: a caller passes a one-element list. `None` for the `BooruConfig` limits is modelled as 0, which is falsy in the same way.
- DeepSearch.GelbooruDeepSearch.SearchPage: every page request of the boundary finder is answered with a list of posts, even when `max_posts_per_page = 1` makes it a `limit=1` request. The single-post answer that line 318 checks for is modelled only for the first- and last-ID probes. With `max_posts_per_page = 1`, the real finder's `len()` and `[-1]` (lines 338-343, 352-354, 386-388, 403) would receive one post object rather than a list, and the model does not capture that.
- `asyncio`: every `await` is a plain sequential call.
- Tags.Lower: only ASCII `A`–`Z` are lowered. Python's `str.lower` also folds other scripts.
- Booru.Interpret: a search whose tags do not end in `sort:id:asc` is always answered in descending-ID order, even when the user's own tags hold another `sort:` tag such as `sort:score`. Only `sort:id:asc` and `sort:id:desc` are rejected (line 209). With another sort tag, the `limit=1` probe at line 317 answers some other post, so `last_id` is not the highest ID. The appended-sort probes are also affected. The model does not capture this.
- Booru.Api: every request is answered from one fixed index. Posts added or deleted during a run are not modelled. The page classes used by the finder, and the non-empty page read at line 403, rely on this.
- Booru.Api.Search: pages past the API's offset cap are answered like any other page. The deep search never asks for an offset beyond `max_pages * max_posts_per_page`.
- DeepSearch.GelbooruDeepSearch.FindLastIdBinary: the request count is stated as an upper bound, `1 + rounds`, and not as the exact number of probes.

## Findings

| source | as written | input that shows it | evidently intended | confidence | as-written member | corrected member |
|---|---|---|---|---|---|---|
| gelbooru_deep_search.py:215-233 | With `first_id == last_id` the loop `while step_start < last_id` never runs, and the search succeeds with no window | a search matching exactly one post, ID 42: `first_id = last_id = 42`, steps `[]`, and `format_steps_to_searches` yields no search | the single window `(42, 42)`, whose search `id:>=42 id:<=42` retrieves the post; an empty result is otherwise reserved for `EmptySearchException` | not executed; medium | Partition.SinglePostYieldsNoStep | Partition.CoveringPlanCovers |

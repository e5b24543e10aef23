/** The `BooruConfig` record: validation at construction and the derived page count. */
module Config {
  import opened Wrappers

  /** A frozen API configuration. `0` in a limit field is Python's falsy "not provided". */
  datatype BooruConfig = BooruConfig(
    api: string,
    maxPostsPerSearch: int,
    maxPostsPerPage: int,
    apiKey: Option<string>,
    userId: Option<string>)

  /** One constructor per `ValueError` raised by the validation, in the order they are checked. */
  datatype ConfigError =
    | ApiNotProvided
    | ApiNotUrl
    | MaxPostsPerSearchNotProvided
    | MaxPostsPerSearchNotPositive
    | MaxPostsPerPageNotProvided
    | MaxPostsPerPageNotPositive
    | PageBiggerThanSearch
    | ApiKeyWithoutUserId
    | UserIdWithoutApiKey

  /** Python truthiness of an optional string: set and non-empty. */
  predicate Truthy(s: Option<string>) {
    s.Some? && s.value != ""
  }

  /** The limit invariant every accepted configuration satisfies. */
  predicate LimitsOk(c: BooruConfig) {
    0 < c.maxPostsPerPage <= c.maxPostsPerSearch
  }

  /**
   * Construction of a `BooruConfig` followed by its post-init checks.
   * `isUrl` stands for the URL check done with the standard library's URL parser.
   */
  function NewBooruConfig(
    api: string, maxPostsPerSearch: int, maxPostsPerPage: int,
    apiKey: Option<string>, userId: Option<string>,
    isUrl: string -> bool): (r: Result<BooruConfig, ConfigError>)
    ensures r.Success? <==>
      && api != "" && isUrl(api)
      && 0 < maxPostsPerPage <= maxPostsPerSearch
      && (Truthy(apiKey) <==> Truthy(userId))
    ensures r.Success? ==>
      r.value == BooruConfig(api, maxPostsPerSearch, maxPostsPerPage, apiKey, userId) && LimitsOk(r.value)
    ensures r == Failure(ApiNotProvided) <==> api == ""
    ensures r == Failure(PageBiggerThanSearch) <==>
      api != "" && isUrl(api) && 0 < maxPostsPerSearch && 0 < maxPostsPerPage
      && maxPostsPerPage > maxPostsPerSearch
    ensures r.Failure? && (r.error == ApiKeyWithoutUserId || r.error == UserIdWithoutApiKey) ==>
      0 < maxPostsPerPage <= maxPostsPerSearch
  {
    if api == "" then Failure(ApiNotProvided)
    else if !isUrl(api) then Failure(ApiNotUrl)
    else if maxPostsPerSearch == 0 then Failure(MaxPostsPerSearchNotProvided)
    else if maxPostsPerSearch <= 0 then Failure(MaxPostsPerSearchNotPositive)
    else if maxPostsPerPage == 0 then Failure(MaxPostsPerPageNotProvided)
    else if maxPostsPerPage <= 0 then Failure(MaxPostsPerPageNotPositive)
    else if maxPostsPerPage > maxPostsPerSearch then Failure(PageBiggerThanSearch)
    else if Truthy(apiKey) && !Truthy(userId) then Failure(ApiKeyWithoutUserId)
    else if !Truthy(apiKey) && Truthy(userId) then Failure(UserIdWithoutApiKey)
    else Success(BooruConfig(api, maxPostsPerSearch, maxPostsPerPage, apiKey, userId))
  }

  /**
   * The number of page indices reachable under the pagination cap (floor division;
   * both operands are positive, so Python's `//` and Dafny's `/` agree).
   */
  function MaxPages(c: BooruConfig): (p: int)
    requires LimitsOk(c)
    ensures p >= 1
  {
    c.maxPostsPerSearch / c.maxPostsPerPage
  }

  /** `MaxPages` full pages fit under the search cap, one more page does not. */
  lemma MaxPagesBounds(c: BooruConfig)
    requires LimitsOk(c)
    ensures MaxPages(c) * c.maxPostsPerPage <= c.maxPostsPerSearch < (MaxPages(c) + 1) * c.maxPostsPerPage
  {
  }
}

/**
 * The remote search API, as the deep search uses it. For each plain list of tags the
 * index gives the IDs of the matching posts in ascending order; the API reads the
 * `sort:id:asc` and `id:>N` tags the deep search appends, filters, sorts (newest,
 * that is highest ID, first by default) and returns the requested page.
 */
module Booru {
  import opened Wrappers
  import opened Decimal
  import opened Tags
  import opened Ids

  /** What a list of tags asks for once the appended control tags are read. */
  datatype Query = Query(base: seq<string>, ascending: bool, minId: Option<int>)

  /** The bound of an `id:>N` tag. */
  function MinFilter(tag: string): (r: Option<int>)
    ensures r.Some? ==> |tag| >= 4 && tag[..4] == "id:>"
  {
    if |tag| >= 4 && tag[..4] == "id:>" then ParseInt(tag[4..]) else None
  }

  /** Reads the trailing control tags. */
  function Interpret(tags: seq<string>): Query {
    var n := |tags|;
    if n >= 2 && tags[n - 2] == SortAsc && MinFilter(tags[n - 1]).Some? then
      Query(tags[..n - 2], true, MinFilter(tags[n - 1]))
    else if n >= 1 && tags[n - 1] == SortAsc then
      Query(tags[..n - 1], true, None)
    else
      Query(tags, false, None)
  }

  lemma MinFilterOfMinTag(m: int)
    ensures MinFilter(MinTag(m)) == Some(m)
  {
    var t := MinTag(m);
    assert t[..4] == "id:>";
    assert t[4..] == IntToString(m);
    ParseIntToString(m);
  }

  /** The probe of the boundary finder is read as: base tags, ascending, IDs above `m`. */
  lemma InterpretReverseAndMin(tags: seq<string>, m: int)
    ensures Interpret(AddReverseAndMinTag(tags, m)) == Query(tags, true, Some(m))
  {
    MinFilterOfMinTag(m);
    var t := AddReverseAndMinTag(tags, m);
    assert t[..|t| - 2] == tags;
  }

  /** The first-ID probe is read as: base tags, ascending, unfiltered. */
  lemma InterpretReverse(tags: seq<string>)
    ensures Interpret(AddReverseTag(tags)) == Query(tags, true, None)
  {
    var t := AddReverseTag(tags);
    assert t[..|t| - 1] == tags;
    assert MinFilter(SortAsc) == None by {
      assert SortAsc[0] == 's' && "id:>"[0] == 'i';
      assert SortAsc[..4][0] != "id:>"[0];
    }
  }

  /** Tags that passed the reserved-tag check are read as a plain, default-sorted search. */
  lemma InterpretPlain(tags: seq<string>)
    requires !IsForbidden(tags)
    ensures Interpret(tags) == Query(tags, false, None)
  {
    if |tags| >= 2 {
      assert tags[|tags| - 2] in tags;
    }
    if |tags| >= 1 {
      assert tags[|tags| - 1] in tags;
    }
  }

  /** The search API: `index` maps a plain list of tags to the IDs of the posts it matches. */
  datatype Api = Api(index: seq<string> -> seq<int>) {

    /** Every search lists its posts in strictly ascending ID order. */
    ghost predicate Valid() {
      forall tags :: Ascending(index(tags))
    }

    /** The IDs a query selects, ascending. */
    function Hits(q: Query): (r: seq<int>)
      ensures Valid() ==> Ascending(r)
    {
      if q.minId.Some? then
        var r := Above(index(q.base), q.minId.value);
        assert Valid() ==> Ascending(r) by {
          if Valid() {
            AboveAscending(index(q.base), q.minId.value);
          }
        }
        r
      else index(q.base)
    }

    /** One search request: the page of index `page` holding at most `limit` posts. */
    function Search(tags: seq<string>, limit: int, page: int): (posts: seq<int>)
      requires limit >= 1 && page >= 0
      ensures |posts| <= limit
    {
      var q := Interpret(tags);
      var hits := Hits(q);
      Page(if q.ascending then hits else Reverse(hits), limit, page)
    }
  
    /** The search `tags`, asked for pages of `limit` posts, answers the pages of `hits`. */
    ghost predicate Pages(tags: seq<string>, limit: int, hits: seq<int>)
      requires limit >= 1
    {
      forall page: nat {:trigger Search(tags, limit, page)} :: Search(tags, limit, page) == Page(hits, limit, page)
    }

    /** The boundary finder's probe `tags + [sort:id:asc, id:>m]` pages through the IDs above `m`. */
    lemma PagesAbove(tags: seq<string>, m: int, limit: int)
      requires limit >= 1
      ensures Pages(AddReverseAndMinTag(tags, m), limit, Above(index(tags), m))
    {
      InterpretReverseAndMin(tags, m);
      forall page: nat ensures Search(AddReverseAndMinTag(tags, m), limit, page) == Page(Above(index(tags), m), limit, page) {
        SearchAscending(AddReverseAndMinTag(tags, m), limit, page);
      }
    }

    /** An ascending search answers with a page of its hits in ascending order. */
    lemma SearchAscending(tags: seq<string>, limit: int, page: int)
      requires limit >= 1 && page >= 0 && Interpret(tags).ascending
      ensures Search(tags, limit, page) == Page(Hits(Interpret(tags)), limit, page)
    {
    }

    /** A default-sorted search answers with a page of its hits, highest ID first. */
    lemma SearchDescending(tags: seq<string>, limit: int, page: int)
      requires limit >= 1 && page >= 0 && !Interpret(tags).ascending
      ensures Search(tags, limit, page) == Page(Reverse(Hits(Interpret(tags))), limit, page)
    {
    }
  }
}

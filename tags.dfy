/**
 * Tag handling of the deep search: whitespace splitting, lower-casing, the check for
 * the reserved sort tags, and the helpers that append the sort and `id:>` filter tags.
 */
module Tags {
  import opened Decimal

  const SortAsc: string := "sort:id:asc"
  const SortDesc: string := "sort:id:desc"

  /** The characters Python's `str.split()` treats as whitespace. */
  predicate IsSpace(c: char) {
    || '\t' <= c <= '\r'
    || '\U{1C}' <= c <= ' '
    || c == '\U{85}' || c == '\U{A0}' || c == '\U{1680}'
    || '\U{2000}' <= c <= '\U{200A}'
    || c == '\U{2028}' || c == '\U{2029}' || c == '\U{202F}' || c == '\U{205F}' || c == '\U{3000}'
  }

  predicate NoSpace(s: string) {
    forall i :: 0 <= i < |s| ==> !IsSpace(s[i])
  }

  /** A tag as `split()` produces it: non-empty, without whitespace. */
  predicate IsToken(s: string) {
    s != "" && NoSpace(s)
  }

  /** Length of the leading run of non-whitespace characters. */
  function WordLength(s: string): (k: nat)
    ensures k <= |s| && NoSpace(s[..k])
    ensures k < |s| ==> IsSpace(s[k])
    ensures s != "" && !IsSpace(s[0]) ==> k >= 1
  {
    if s == [] || IsSpace(s[0]) then 0 else 1 + WordLength(s[1..])
  }

  /** `s.split()`: the maximal runs of non-whitespace characters, in order. */
  function Split(s: string): (r: seq<string>)
    ensures forall i :: 0 <= i < |r| ==> IsToken(r[i])
    decreases |s|
  {
    if s == [] then []
    else if IsSpace(s[0]) then Split(s[1..])
    else
      var k := WordLength(s);
      [s[..k]] + Split(s[k..])
  }

  /** `" ".join(ws)`. */
  function Join(ws: seq<string>): string {
    if |ws| == 0 then ""
    else if |ws| == 1 then ws[0]
    else ws[0] + " " + Join(ws[1..])
  }

  lemma {:induction false} WordLengthOfToken(w: string, t: string)
    requires NoSpace(w)
    requires t == [] || IsSpace(t[0])
    ensures WordLength(w + t) == |w|
    decreases |w|
  {
    if w != [] {
      assert (w + t)[1..] == w[1..] + t;
      WordLengthOfToken(w[1..], t);
    }
  }

  /** Splitting a space-joined list of tokens gives the tokens back. */
  lemma {:induction false} SplitJoin(ws: seq<string>)
    requires forall i :: 0 <= i < |ws| ==> IsToken(ws[i])
    ensures Split(Join(ws)) == ws
  {
    if |ws| == 1 {
      var w := ws[0];
      WordLengthOfToken(w, []);
      assert w + [] == w;
      assert w[..|w|] == w && w[|w|..] == [];
    } else if |ws| >= 2 {
      var w, rest := ws[0], Join(ws[1..]);
      var s := w + " " + rest;
      WordLengthOfToken(w, " " + rest);
      assert s == w + (" " + rest);
      assert s[..|w|] == w;
      assert s[|w|..] == " " + rest;
      assert (" " + rest)[1..] == rest;
      SplitJoin(ws[1..]);
    }
  }

  /** A word that stops before the end of `a` is not lengthened by what follows `a`. */
  lemma {:induction false} WordLengthPrefix(a: string, t: string)
    requires WordLength(a) < |a|
    ensures WordLength(a + t) == WordLength(a)
    decreases |a|
  {
    if !IsSpace(a[0]) {
      assert (a + t)[1..] == a[1..] + t;
      WordLengthPrefix(a[1..], t);
    }
  }

  /** A whitespace character separates: what lies before it and what lies after it split
      on their own. With `SplitToken` and `Split([]) == []` this fixes `Split` on every
      input: the tags are exactly the maximal runs of non-whitespace characters. */
  lemma {:induction false} SplitAtSpace(a: string, c: char, b: string)
    requires IsSpace(c)
    ensures Split(a + [c] + b) == Split(a) + Split(b)
    decreases |a|
  {
    var s := a + [c] + b;
    if a == [] {
      assert s == [c] + b && s[1..] == b;
    } else if IsSpace(a[0]) {
      assert s[1..] == a[1..] + [c] + b;
      SplitAtSpace(a[1..], c, b);
    } else {
      var k := WordLength(a);
      if k < |a| {
        assert s == a + ([c] + b);
        WordLengthPrefix(a, [c] + b);
        assert s[..k] == a[..k];
        assert s[k..] == a[k..] + [c] + b;
        SplitAtSpace(a[k..], c, b);
      } else {
        assert NoSpace(a) by { assert a[..k] == a; }
        assert s == a + ([c] + b);
        WordLengthOfToken(a, [c] + b);
        assert s[..k] == a;
        assert s[k..] == [c] + b && ([c] + b)[1..] == b;
        assert a[..k] == a && a[k..] == [];
      }
    }
  }

  /** A single token splits to itself. */
  lemma SplitToken(w: string)
    requires IsToken(w)
    ensures Split(w) == [w]
  {
    SplitJoin([w]);
  }

  /** ASCII lower-casing of one character. */
  function LowerChar(c: char): char {
    if 'A' <= c <= 'Z' then (c as int + 32) as char else c
  }

  /** `s.lower()`, restricted to the ASCII letters. */
  function Lower(s: string): (r: string)
    ensures |r| == |s|
    ensures forall i :: 0 <= i < |s| ==> !('A' <= r[i] <= 'Z')
    ensures forall i :: 0 <= i < |s| && !('A' <= s[i] <= 'Z') ==> r[i] == s[i]
    ensures forall i :: 0 <= i < |s| ==> (IsSpace(r[i]) <==> IsSpace(s[i]))
    ensures forall i :: 0 <= i < |s| && 'A' <= s[i] <= 'Z' ==>
      'a' <= r[i] <= 'z' && r[i] as int - 'a' as int == s[i] as int - 'A' as int
  {
    seq(|s|, i requires 0 <= i < |s| => LowerChar(s[i]))
  }

  /** Lower-casing twice is lower-casing once. */
  lemma LowerIdempotent(s: string)
    ensures Lower(Lower(s)) == Lower(s)
  {
  }

  /** Splits every string of the input and concatenates the tags. */
  function SplitAll(raw: seq<string>): (r: seq<string>)
    ensures forall i :: 0 <= i < |r| ==> IsToken(r[i])
  {
    if raw == [] then [] else Split(raw[0]) + SplitAll(raw[1..])
  }

  /** Lower-cases every tag of the list. */
  function LowerAll(ts: seq<string>): (r: seq<string>)
    ensures |r| == |ts|
    ensures forall i :: 0 <= i < |ts| ==> r[i] == Lower(ts[i])
  {
    seq(|ts|, i requires 0 <= i < |ts| => Lower(ts[i]))
  }

  /** The tags the deep search works with: split on whitespace, then lower-cased. */
  function Normalise(raw: seq<string>): seq<string> {
    LowerAll(SplitAll(raw))
  }

  /** Normalised tags are tokens without upper-case ASCII letters. */
  lemma NormalisedTokens(raw: seq<string>)
    ensures forall i :: 0 <= i < |Normalise(raw)| ==>
      IsToken(Normalise(raw)[i]) && Lower(Normalise(raw)[i]) == Normalise(raw)[i]
  {
    var ts := SplitAll(raw);
    forall i | 0 <= i < |ts|
      ensures IsToken(Normalise(raw)[i]) && Lower(Normalise(raw)[i]) == Normalise(raw)[i]
    {
      LowerIdempotent(ts[i]);
    }
  }

  lemma {:induction false} SplitAllTokens(ts: seq<string>)
    requires forall i :: 0 <= i < |ts| ==> IsToken(ts[i])
    ensures SplitAll(ts) == ts
  {
    if ts != [] {
      SplitToken(ts[0]);
      SplitAllTokens(ts[1..]);
      assert [ts[0]] + ts[1..] == ts;
    }
  }

  /** Normalising already normalised tags changes nothing. */
  lemma NormaliseIdempotent(raw: seq<string>)
    ensures Normalise(Normalise(raw)) == Normalise(raw)
  {
    var n := Normalise(raw);
    NormalisedTokens(raw);
    SplitAllTokens(n);
  }

  /** True when the tags hold a sort tag the deep search reserves for itself. */
  predicate IsForbidden(tags: seq<string>) {
    SortAsc in tags || SortDesc in tags
  }

  lemma {:induction false} SplitAllHas(raw: seq<string>, i: nat, j: nat)
    requires i < |raw| && j < |Split(raw[i])|
    ensures Split(raw[i])[j] in SplitAll(raw)
  {
    if i > 0 {
      SplitAllHas(raw[1..], i - 1, j);
    }
  }

  lemma {:induction false} SplitAllFrom(raw: seq<string>, w: string) returns (i: nat, j: nat)
    requires w in SplitAll(raw)
    ensures i < |raw| && j < |Split(raw[i])| && Split(raw[i])[j] == w
  {
    if w in Split(raw[0]) {
      i := 0;
      j :| 0 <= j < |Split(raw[0])| && Split(raw[0])[j] == w;
    } else {
      i, j := SplitAllFrom(raw[1..], w);
      i := i + 1;
    }
  }

  /** A reserved sort tag written in any letter case, anywhere among the inputs, is caught. */
  lemma ForbiddenInAnyCase(raw: seq<string>, i: nat, j: nat)
    requires i < |raw| && j < |Split(raw[i])|
    requires Lower(Split(raw[i])[j]) == SortAsc || Lower(Split(raw[i])[j]) == SortDesc
    ensures IsForbidden(Normalise(raw))
  {
    SplitAllHas(raw, i, j);
    var ts := SplitAll(raw);
    var k :| 0 <= k < |ts| && ts[k] == Split(raw[i])[j];
    assert Normalise(raw)[k] == Lower(Split(raw[i])[j]);
  }

  /** Conversely, the check only fires for an input tag that lower-cases to a reserved one. */
  lemma ForbiddenWitness(raw: seq<string>) returns (i: nat, j: nat)
    requires IsForbidden(Normalise(raw))
    ensures i < |raw| && j < |Split(raw[i])|
    ensures Lower(Split(raw[i])[j]) == SortAsc || Lower(Split(raw[i])[j]) == SortDesc
  {
    var n := Normalise(raw);
    var k :| 0 <= k < |n| && (n[k] == SortAsc || n[k] == SortDesc);
    i, j := SplitAllFrom(raw, SplitAll(raw)[k]);
  }

  /** The tag asking for posts with an ID strictly above `minId`. */
  function MinTag(minId: int): string {
    "id:>" + IntToString(minId)
  }

  /** `_add_reverse_tag`: the search sorted by ascending ID. */
  function AddReverseTag(tags: seq<string>): (r: seq<string>)
    ensures |r| == |tags| + 1 && r[..|tags|] == tags && r[|tags|] == SortAsc
  {
    tags + [SortAsc]
  }

  /** `_add_min_tag`: the search restricted to IDs above `minId`. */
  function AddMinTag(tags: seq<string>, minId: int): (r: seq<string>)
    ensures |r| == |tags| + 1 && r[..|tags|] == tags && r[|tags|] == MinTag(minId)
  {
    tags + [MinTag(minId)]
  }

  /** `_add_reverse_and_min_tag`: the sort tag first, then the ID filter. */
  function AddReverseAndMinTag(tags: seq<string>, minId: int): (r: seq<string>)
    ensures |r| == |tags| + 2 && r[..|tags|] == tags
    ensures r[|tags|] == SortAsc && r[|tags| + 1] == MinTag(minId)
  {
    AddMinTag(AddReverseTag(tags), minId)
  }
}

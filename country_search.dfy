/** Searching countries by name (src/lib/fetch/country-by-name.ts), the
    local-data branch: the dataset is a parameter, and a country is kept
    when one of its non-empty names or codes, lower-cased, includes the
    lower-cased search text. */
module CountrySearch {
  import opened Types
  import opened JsBuiltins
  import opened CountryTypes

  /** `[c.name.common, c.name.official, c.cca2, c.cca3]`. */
  function SearchFields(c: Country): (r: seq<string>)
    ensures |r| == 4
    ensures r[0] == c.name.common && r[1] == c.name.official && r[2] == c.cca2 && r[3] == c.cca3
  {
    [c.name.common, c.name.official, c.cca2, c.cca3]
  }

  /** `.filter((s) => !!s)`: the non-empty strings, in order. */
  function NonEmpty(xs: seq<string>): (r: seq<string>)
    ensures forall s :: s in r <==> s in xs && s != ""
    decreases |xs|
  {
    if xs == [] then []
    else (if xs[0] != "" then [xs[0]] else []) + NonEmpty(xs[1..])
  }

  /** `.map((s) => s.toLowerCase())`. */
  function LowerAll(xs: seq<string>): (r: seq<string>)
    ensures |r| == |xs| && forall k :: 0 <= k < |xs| ==> r[k] == Lower(xs[k])
  {
    seq(|xs|, k requires 0 <= k < |xs| => Lower(xs[k]))
  }

  /** `.some((s) => s.includes(needle))`. */
  predicate AnyIncludes(xs: seq<string>, needle: string)
    decreases |xs|
  {
    xs != [] && (Contains(xs[0], needle) || AnyIncludes(xs[1..], needle))
  }

  lemma {:induction false} AnyIncludesIff(xs: seq<string>, needle: string)
    ensures AnyIncludes(xs, needle) <==> exists k :: 0 <= k < |xs| && Contains(xs[k], needle)
    decreases |xs|
  {
    if xs != [] {
      AnyIncludesIff(xs[1..], needle);
      if exists k :: 0 <= k < |xs| && Contains(xs[k], needle) {
        var k :| 0 <= k < |xs| && Contains(xs[k], needle);
        if k > 0 {
          assert xs[1..][k - 1] == xs[k];
        }
      }
      if AnyIncludes(xs[1..], needle) {
        var k :| 0 <= k < |xs[1..]| && Contains(xs[1..][k], needle);
        assert xs[k + 1] == xs[1..][k];
      }
    }
  }

  /** The filter callback of `searchCountryByName`, as the source writes it. */
  predicate MatchesSearch(c: Country, name: string) {
    AnyIncludes(LowerAll(NonEmpty(SearchFields(c))), Lower(name))
  }

  /** A country matches exactly when one of its four fields is non-empty
      and, lower-cased, includes the lower-cased search text. */
  lemma MatchesSearchIff(c: Country, name: string)
    ensures MatchesSearch(c, name) <==>
      exists s :: s in SearchFields(c) && s != "" && Contains(Lower(s), Lower(name))
  {
    var kept := NonEmpty(SearchFields(c));
    AnyIncludesIff(LowerAll(kept), Lower(name));
    if MatchesSearch(c, name) {
      var k :| 0 <= k < |kept| && Contains(LowerAll(kept)[k], Lower(name));
      assert kept[k] in kept;
    }
    if exists s :: s in SearchFields(c) && s != "" && Contains(Lower(s), Lower(name)) {
      var s :| s in SearchFields(c) && s != "" && Contains(Lower(s), Lower(name));
      assert s in kept;
      var k :| 0 <= k < |kept| && kept[k] == s;
      assert Contains(LowerAll(kept)[k], Lower(name));
    }
  }

  /** `allCountries.filter(...)`: the matching countries, in dataset order. */
  function SearchLocal(all: seq<Country>, name: string): (r: seq<Country>)
    ensures |r| <= |all|
    ensures forall c :: c in r <==> c in all && MatchesSearch(c, name)
    decreases |all|
  {
    if all == [] then []
    else
      var rest := SearchLocal(all[1..], name);
      assert all == [all[0]] + all[1..];
      if MatchesSearch(all[0], name) then [all[0]] + rest else rest
  }

  /** Each matching country is kept as many times as the dataset holds it,
      and no other country is kept. */
  lemma {:induction false} SearchLocalCounts(all: seq<Country>, name: string, c: Country)
    ensures multiset(SearchLocal(all, name))[c] == if MatchesSearch(c, name) then multiset(all)[c] else 0
    decreases |all|
  {
    if all != [] {
      var rest := SearchLocal(all[1..], name);
      SearchLocalCounts(all[1..], name, c);
      assert all == [all[0]] + all[1..];
      assert multiset(all) == multiset([all[0]]) + multiset(all[1..]);
      if MatchesSearch(all[0], name) {
        assert SearchLocal(all, name) == [all[0]] + rest;
        assert multiset(SearchLocal(all, name)) == multiset([all[0]]) + multiset(rest);
      } else {
        assert SearchLocal(all, name) == rest;
        assert all[0] != c || !MatchesSearch(c, name);
      }
    }
  }

  /** `xs` is `ys` with some elements left out, the others kept in order. */
  predicate IsSubsequence<T(==)>(xs: seq<T>, ys: seq<T>)
    decreases |ys|
  {
    if xs == [] then true
    else if ys == [] then false
    else (xs[0] == ys[0] && IsSubsequence(xs[1..], ys[1..])) || IsSubsequence(xs, ys[1..])
  }

  /** Every sequence is a subsequence of itself extended at the front. */
  lemma {:induction false} SubsequenceTail<T>(xs: seq<T>, y: T, ys: seq<T>)
    requires IsSubsequence(xs, ys)
    ensures IsSubsequence(xs, [y] + ys)
  {
    assert ([y] + ys)[1..] == ys;
  }

  /** The search result keeps the dataset's order: it is a subsequence. */
  lemma {:induction false} SearchLocalIsSubsequence(all: seq<Country>, name: string)
    ensures IsSubsequence(SearchLocal(all, name), all)
    decreases |all|
  {
    if all != [] {
      SearchLocalIsSubsequence(all[1..], name);
      var rest := SearchLocal(all[1..], name);
      if MatchesSearch(all[0], name) {
        assert ([all[0]] + rest)[1..] == rest;
      } else {
        assert all == [all[0]] + all[1..];
        SubsequenceTail(rest, all[0], all[1..]);
      }
    }
  }

  /** Matching ignores the case of the search text. */
  lemma MatchesSearchIgnoresCase(c: Country, name: string)
    ensures MatchesSearch(c, name) <==> MatchesSearch(c, Lower(name))
  {
    LowerIdempotent(name);
  }

  /** Searching for a text and for its lower-cased form gives the same list. */
  lemma {:induction false} SearchIgnoresCase(all: seq<Country>, name: string)
    ensures SearchLocal(all, name) == SearchLocal(all, Lower(name))
    decreases |all|
  {
    if all != [] {
      SearchIgnoresCase(all[1..], name);
      MatchesSearchIgnoresCase(all[0], name);
    }
  }

  /** The empty search text matches a country exactly when one of its four
      fields is non-empty. */
  lemma EmptySearchMatches(c: Country)
    ensures MatchesSearch(c, "") <==> exists s :: s in SearchFields(c) && s != ""
  {
    MatchesSearchIff(c, "");
    assert Lower("") == "";
    forall s | s in SearchFields(c) && s != ""
      ensures Contains(Lower(s), "")
    {
      ContainsEmpty(Lower(s));
    }
  }

  /** `searchCountryByName(name)` with local data: always a list and never
      an error, the list being the filtered dataset. */
  function SearchCountryByName(all: seq<Country>, name: string): (r: ResultOrError<seq<Country>, string>)
    ensures r.Ok? && r.First() == Some(SearchLocal(all, name)) && r.Second() == None
  {
    Ok(SearchLocal(all, name))
  }
}

/** The country detail view (src/lib/components/CounrtyDetailsView.tsx):
    which country it shows for an id, and the text of its capital, region,
    languages and currencies rows. */
module CountryDetails {
  import opened Types
  import opened JsBuiltins
  import opened CountryTypes

  /** The test of `find`: the id is the country's three- or two-letter code. */
  predicate HasId(c: Country, countryId: string) {
    c.cca3 == countryId || c.cca2 == countryId
  }

  /** The position `find` stops at, searching from `from` on. */
  function FirstMatchFrom(countries: seq<Country>, countryId: string, from: nat): (r: Option<nat>)
    requires from <= |countries|
    ensures r.Some? ==> from <= r.value < |countries| && HasId(countries[r.value], countryId)
                        && forall k :: from <= k < r.value ==> !HasId(countries[k], countryId)
    ensures r.None? <==> forall k :: from <= k < |countries| ==> !HasId(countries[k], countryId)
    decreases |countries| - from
  {
    if from == |countries| then None
    else if HasId(countries[from], countryId) then Some(from)
    else FirstMatchFrom(countries, countryId, from + 1)
  }

  /** The `useMemo` of the view: nothing for an empty id, otherwise the
      first country, in list order, whose `cca3` or `cca2` is the id. */
  function FindCountry(countries: seq<Country>, countryId: string): (r: Option<Country>)
    ensures countryId == "" ==> r.None?
    ensures r.Some? ==> exists k :: (0 <= k < |countries| && countries[k] == r.value
                                     && HasId(r.value, countryId) && forall j :: 0 <= j < k ==> !HasId(countries[j], countryId))
    ensures r.None? && countryId != "" ==> forall k :: 0 <= k < |countries| ==> !HasId(countries[k], countryId)
  {
    if countryId == "" then None
    else
      match FirstMatchFrom(countries, countryId, 0)
      case Some(k) => Some(countries[k])
      case None => None
  }

  /** Which branch the view renders. */
  datatype View = NotFound(countryId: string) | Details(country: Country)

  /** `if (!country)`: the not-found view when no country was found. */
  function DetailView(countries: seq<Country>, countryId: string): (v: View)
    ensures v.NotFound? <==> FindCountry(countries, countryId).None?
    ensures v.NotFound? ==> v.countryId == countryId
    ensures v.Details? ==> HasId(v.country, countryId) && v.country in countries
  {
    match FindCountry(countries, countryId)
    case Some(c) => Details(c)
    case None => NotFound(countryId)
  }

  /** A row of the table is selected by its `cca2`; the view then finds a
      country with that code, no later in the list than the row itself. */
  lemma SelectedRowIsFound(countries: seq<Country>, i: nat)
    requires i < |countries| && countries[i].cca2 != ""
    ensures FindCountry(countries, countries[i].cca2).Some?
    ensures exists k :: 0 <= k <= i && FindCountry(countries, countries[i].cca2) == Some(countries[k])
  {
    var id := countries[i].cca2;
    assert HasId(countries[i], id);
    var found := FindCountry(countries, id);
    var k :| 0 <= k < |countries| && countries[k] == found.value
             && HasId(found.value, id) && forall j :: 0 <= j < k ==> !HasId(countries[j], id);
    assert k <= i;
  }

  const NotAvailable: string := "N/A"

  /** `country.capital?.[0] || 'N/A'`: the first capital, unless the list
      is missing, empty, or starts with the empty string. */
  function CapitalText(c: Country): (r: string)
    ensures r == NotAvailable <==> c.capital.None? || c.capital.value == [] || c.capital.value[0] in {"", NotAvailable}
    ensures r != NotAvailable ==> c.capital.Some? && |c.capital.value| > 0 && r == c.capital.value[0]
    ensures r != ""
  {
    match c.capital
    case Some(cs) => if cs != [] && cs[0] != "" then cs[0] else NotAvailable
    case None => NotAvailable
  }

  /** `{country.region} {country.subregion ? '(sub)' : ''}`: the region and
      a space, followed by the subregion in parentheses when it is not empty. */
  function RegionText(c: Country): (r: string)
    ensures |r| >= |c.region| + 1 && r[..|c.region| + 1] == c.region + " "
    ensures c.subregion == "" <==> |r| == |c.region| + 1
    ensures c.subregion != "" ==> r[|c.region| + 1..] == "(" + c.subregion + ")"
  {
    c.region + " " + (if c.subregion != "" then "(" + c.subregion + ")" else "")
  }

  const ListSeparator: string := ", "

  /** The languages row: shown only when `languages` is present, its values
      joined with ", ". */
  function LanguagesText(c: Country): (r: Option<string>)
    ensures r.Some? <==> c.languages.Some?
    ensures r.Some? ==> forall k :: 0 <= k < |c.languages.value| ==> Contains(r.value, c.languages.value[k])
  {
    match c.languages
    case Some(ls) =>
      assert forall k :: 0 <= k < |ls| ==> Contains(Join(ls, ListSeparator), ls[k]) by {
        forall k | 0 <= k < |ls| {
          JoinContainsEach(ls, ListSeparator, k);
        }
      }
      Some(Join(ls, ListSeparator))
    case None => None
  }

  /** One currency as `name (symbol)`. */
  function CurrencyText(cur: Currency): (r: string)
    ensures |r| >= |cur.name| && r[..|cur.name|] == cur.name && r[|cur.name|..] == " (" + cur.symbol + ")"
  {
    cur.name + " (" + cur.symbol + ")"
  }

  /** The currencies row: shown only when `currencies` is present, each
      currency as `name (symbol)`, joined with ", ". */
  function CurrenciesText(c: Country): (r: Option<string>)
    ensures r.Some? <==> c.currencies.Some?
    ensures r.Some? ==> forall k :: 0 <= k < |c.currencies.value| ==> Contains(r.value, CurrencyText(c.currencies.value[k]))
  {
    match c.currencies
    case Some(cs) =>
      var parts := seq(|cs|, k requires 0 <= k < |cs| => CurrencyText(cs[k]));
      assert forall k :: 0 <= k < |cs| ==> Contains(Join(parts, ListSeparator), CurrencyText(cs[k])) by {
        forall k | 0 <= k < |cs|
          ensures Contains(Join(parts, ListSeparator), CurrencyText(cs[k]))
        {
          assert parts[k] == CurrencyText(cs[k]);
          JoinContainsEach(parts, ListSeparator, k);
        }
      }
      Some(Join(parts, ListSeparator))
    case None => None
  }

  /** The languages row lists the languages in their order: language `k`
      starts at `JoinOffset(.., k)` and is followed by ", " unless it is the
      last, which ends the row. */
  lemma LanguagesTextLayout(c: Country, k: nat)
    requires c.languages.Some? && k < |c.languages.value|
    ensures var ls := c.languages.value;
            PartAt(LanguagesText(c).value, JoinOffset(ls, ListSeparator, k), ls[k], ListSeparator, k == |ls| - 1)
  {
    JoinLayout(c.languages.value, ListSeparator, k);
  }

  /** The currencies row lists `name (symbol)` for each currency, in order,
      separated by ", ". */
  lemma CurrenciesTextLayout(c: Country, k: nat)
    requires c.currencies.Some? && k < |c.currencies.value|
    ensures var cs := c.currencies.value;
            var parts := seq(|cs|, j requires 0 <= j < |cs| => CurrencyText(cs[j]));
            PartAt(CurrenciesText(c).value, JoinOffset(parts, ListSeparator, k), CurrencyText(cs[k]), ListSeparator, k == |cs| - 1)
  {
    var cs := c.currencies.value;
    var parts := seq(|cs|, j requires 0 <= j < |cs| => CurrencyText(cs[j]));
    assert CurrenciesText(c).value == Join(parts, ListSeparator);
    JoinLayout(parts, ListSeparator, k);
  }
}

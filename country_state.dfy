/** The state behind the country search page
    (src/lib/components/useCountryState.ts).

    The hook's state variables are the fields of a class and its handlers
    are methods. The page URL is represented by its query parameters, a map
    from name to value; `updateUrlParams` writes them. The search runs
    against the local dataset, which is a parameter. */
module CountryState {
  import opened Types
  import opened JsBuiltins
  import opened CountryTypes
  import opened CountrySearch

  const QueryParam: string := "q"
  const CountryParam: string := "country"

  /** The `URLSearchParams` of the page, as a map. */
  type UrlParams = map<string, string>

  /** What `getInitialValues` reads from the URL. */
  datatype InitialValues = InitialValues(query: string, countryId: string)

  /** `params.get(name) || ''`. */
  function ParamOrEmpty(params: UrlParams, name: string): (r: string)
    ensures name in params ==> r == params[name]
    ensures name !in params ==> r == ""
  {
    if name in params then params[name] else ""
  }

  /** `getInitialValues`: the `q` and `country` parameters, each `''` when
      missing. */
  function GetInitialValues(params: UrlParams): (r: InitialValues)
    ensures QueryParam !in params ==> r.query == ""
    ensures CountryParam !in params ==> r.countryId == ""
    ensures QueryParam in params ==> r.query == params[QueryParam]
    ensures CountryParam in params ==> r.countryId == params[CountryParam]
  {
    InitialValues(ParamOrEmpty(params, QueryParam), ParamOrEmpty(params, CountryParam))
  }

  /** The optional second argument of `updateUrlParams`: left out
      (`undefined`), `null`, or a string. */
  datatype CountryIdArg = Omitted | Null | Id(id: string)

  /** The URL parameters after `updateUrlParams(newQuery, newCountryId)`:
      `q` is set to a non-empty query and removed for the empty one;
      `country` is set to a non-empty id, removed for `null`, and kept as it
      was when the argument is left out or empty. */
  function UpdatedParams(params: UrlParams, newQuery: string, newCountryId: CountryIdArg): (r: UrlParams)
    ensures newQuery != "" ==> QueryParam in r && r[QueryParam] == newQuery
    ensures newQuery == "" ==> QueryParam !in r
    ensures newCountryId.Id? && newCountryId.id != "" ==> CountryParam in r && r[CountryParam] == newCountryId.id
    ensures newCountryId.Null? ==> CountryParam !in r
    ensures newCountryId.Omitted? || newCountryId == Id("") ==>
              (CountryParam in r <==> CountryParam in params)
              && (CountryParam in r ==> r[CountryParam] == params[CountryParam])
    ensures forall k :: k != QueryParam && k != CountryParam ==>
              (k in r <==> k in params) && (k in r ==> r[k] == params[k])
  {
    var withQuery := if newQuery != "" then params[QueryParam := newQuery] else params - {QueryParam};
    match newCountryId
    case Id(id) => if id != "" then withQuery[CountryParam := id] else withQuery
    case Null => withQuery - {CountryParam}
    case Omitted => withQuery
  }

  /** Writing the same query again changes nothing more. */
  lemma UpdatedParamsIdempotent(params: UrlParams, newQuery: string, newCountryId: CountryIdArg)
    ensures UpdatedParams(UpdatedParams(params, newQuery, newCountryId), newQuery, newCountryId)
            == UpdatedParams(params, newQuery, newCountryId)
  {
    var once := UpdatedParams(params, newQuery, newCountryId);
    var twice := UpdatedParams(once, newQuery, newCountryId);
    assert forall k :: k in twice <==> k in once;
    assert forall k :: k in twice ==> twice[k] == once[k];
  }

  /** What `getInitialValues` reads back after `updateUrlParams`: the query
      that was written (`''` for the empty one, whose `q` was removed), and
      the id that was written, or `''` once `null` removed it. */
  lemma InitialValuesRoundTrip(params: UrlParams, newQuery: string, newCountryId: CountryIdArg)
    ensures GetInitialValues(UpdatedParams(params, newQuery, newCountryId)).query == newQuery
    ensures newCountryId.Id? && newCountryId.id != "" ==>
              GetInitialValues(UpdatedParams(params, newQuery, newCountryId)) == InitialValues(newQuery, newCountryId.id)
    ensures newCountryId.Null? ==>
              GetInitialValues(UpdatedParams(params, newQuery, newCountryId)) == InitialValues(newQuery, "")
    ensures newCountryId.Omitted? ==>
              GetInitialValues(UpdatedParams(params, newQuery, newCountryId)).countryId == GetInitialValues(params).countryId
  {
  }

  /** `urlQuery && urlQuery !== query`: the `q` parameter is present, not
      empty, and differs from `query`. */
  predicate NewUrlQuery(params: UrlParams, query: string) {
    QueryParam in params && params[QueryParam] != "" && params[QueryParam] != query
  }

  /** `urlCountryId !== selectedCountryId`: a missing `country` (`null`)
      always differs from the selected id, which is a string. */
  predicate NewUrlCountry(params: UrlParams, selectedCountryId: string) {
    CountryParam !in params || params[CountryParam] != selectedCountryId
  }

  class CountryState {
    var query: string
    var searchResults: Option<seq<Country>>
    var allCountries: Option<seq<Country>>
    var selectedCountryId: string
    var error: string
    var urlParams: UrlParams

    /** The hook's first render on a page with URL parameters `params`:
        the query starts empty (the `q` read by `getInitialValues` is not
        used here; the mount effect, `HandleUrlChange`, may set it), the
        selected country is the `country` parameter, nothing is
        loaded and there is no error. */
    constructor (params: UrlParams)
      ensures query == "" && searchResults == None && allCountries == None && error == ""
      ensures selectedCountryId == GetInitialValues(params).countryId
      ensures urlParams == params
    {
      var initialValues := GetInitialValues(params);
      query := "";
      searchResults := None;
      allCountries := None;
      selectedCountryId := initialValues.countryId;
      error := "";
      urlParams := params;
    }

    /** `updateUrlParams`: sets or deletes `q`, then sets, deletes or keeps
        `country`, one parameter at a time. */
    method UpdateUrlParams(newQuery: string, newCountryId: CountryIdArg)
      modifies this`urlParams
      ensures urlParams == UpdatedParams(old(urlParams), newQuery, newCountryId)
    {
      if newQuery != "" {
        urlParams := urlParams[QueryParam := newQuery];
      } else {
        urlParams := urlParams - {QueryParam};
      }
      match newCountryId {
        case Id(id) =>
          if id != "" {
            urlParams := urlParams[CountryParam := id];
          }
        case Null =>
          urlParams := urlParams - {CountryParam};
        case Omitted =>
      }
    }

    /** What `performSearch` does once the search has answered: the results
        are the list (none on an error) and the error text is the error, or
        `''`. */
    method ApplySearchResult(result: ResultOrError<seq<Country>, string>)
      modifies this`searchResults, this`error
      ensures searchResults == result.First()
      ensures error == result.Second().GetOr("")
    {
      searchResults := result.First();
      error := result.Second().GetOr("");
    }

    /** `performSearch(searchTerm)` on the local dataset `data`: the
        results are the matching countries and the error is cleared. */
    method PerformSearch(searchTerm: string, data: seq<Country>)
      modifies this`searchResults, this`error
      ensures searchResults == Some(SearchLocal(data, searchTerm))
      ensures error == ""
    {
      ApplySearchResult(SearchCountryByName(data, searchTerm));
    }

    /** `handleSearch`: a query that is not blank (its `trim()` is not empty) goes into the URL as
        typed (untrimmed), with `country` kept, and is searched; a blank
        one clears the results and removes `q`. */
    method HandleSearch(data: seq<Country>)
      modifies this`searchResults, this`error, this`urlParams
      ensures !IsBlank(query) ==>
                && urlParams == UpdatedParams(old(urlParams), query, Omitted)
                && searchResults == Some(SearchLocal(data, query))
                && error == ""
      ensures IsBlank(query) ==>
                && urlParams == UpdatedParams(old(urlParams), "", Omitted)
                && searchResults == None
                && error == old(error)
    {
      TrimProperties(query);
      if Trim(query) != "" {
        UpdateUrlParams(query, Omitted);
        PerformSearch(query, data);
      } else {
        searchResults := None;
        UpdateUrlParams("", Omitted);
      }
    }

    /** `handleInputChange`: the query becomes the typed value; a blank value
        also clears the results and removes `q`. */
    method HandleInputChange(value: string)
      modifies this`query, this`searchResults, this`urlParams
      ensures query == value
      ensures IsBlank(value) ==> searchResults == None && urlParams == UpdatedParams(old(urlParams), "", Omitted)
      ensures !IsBlank(value) ==> searchResults == old(searchResults) && urlParams == old(urlParams)
    {
      query := value;
      TrimProperties(value);
      if Trim(value) == "" {
        searchResults := None;
        UpdateUrlParams("", Omitted);
      }
    }

    /** `handleCountrySelect`: selects the country and writes its id, with
        the current query, into the URL. */
    method HandleCountrySelect(countryId: string)
      modifies this`selectedCountryId, this`urlParams
      ensures selectedCountryId == countryId
      ensures urlParams == UpdatedParams(old(urlParams), query, Id(countryId))
    {
      selectedCountryId := countryId;
      UpdateUrlParams(query, Id(countryId));
    }

    /** `handleCountryDeselect`: clears the selection and removes `country`
        from the URL, writing the current query. */
    method HandleCountryDeselect()
      modifies this`selectedCountryId, this`urlParams
      ensures selectedCountryId == ""
      ensures urlParams == UpdatedParams(old(urlParams), query, Null)
      ensures CountryParam !in urlParams
    {
      selectedCountryId := "";
      UpdateUrlParams(query, Null);
    }

    /** `handleUrlChange`, the mount effect, on the current URL parameters
        and the local dataset `data`. A new, non-empty `q` is searched and
        becomes the query, but only when `country` differs from the
        selection as well; a missing or empty `q` clears the results and the
        query; in every other case they stay. Afterwards the selection is
        the `country` parameter, or `''` when it is missing. */
    method HandleUrlChange(data: seq<Country>)
      modifies this`query, this`searchResults, this`error, this`selectedCountryId
      ensures old(NewUrlQuery(urlParams, query) && NewUrlCountry(urlParams, selectedCountryId)) ==>
                && query == urlParams[QueryParam]
                && searchResults == Some(SearchLocal(data, urlParams[QueryParam]))
                && error == ""
      ensures GetInitialValues(urlParams).query == "" ==>
                query == "" && searchResults == None && error == old(error)
      ensures GetInitialValues(urlParams).query != "" && !old(NewUrlQuery(urlParams, query) && NewUrlCountry(urlParams, selectedCountryId)) ==>
                query == old(query) && searchResults == old(searchResults) && error == old(error)
      ensures selectedCountryId == GetInitialValues(urlParams).countryId
    {
      var urlCountryChanged := NewUrlCountry(urlParams, selectedCountryId);
      if NewUrlQuery(urlParams, query) && urlCountryChanged {
        var urlQuery := urlParams[QueryParam];
        PerformSearch(urlQuery, data);
        query := urlQuery;
      } else if QueryParam !in urlParams || urlParams[QueryParam] == "" {
        searchResults := None;
        query := "";
      }
      if urlCountryChanged {
        selectedCountryId := ParamOrEmpty(urlParams, CountryParam);
      }
    }

    /** `clearError`. */
    method ClearError()
      modifies this`error
      ensures error == ""
    {
      error := "";
    }
  }

  /** Opening the page with URL parameters `params`: the first render, then
      the mount effect. A non-empty `q` is searched and restored as the
      query only when the URL has no `country`; with a `country` the
      selection matches it, so the search is not restored and the query
      stays empty. */
  method Mount(params: UrlParams, data: seq<Country>) returns (state: CountryState)
    ensures state.urlParams == params
    ensures state.selectedCountryId == GetInitialValues(params).countryId
    ensures GetInitialValues(params).query != "" && CountryParam !in params ==>
              state.query == params[QueryParam] && state.searchResults == Some(SearchLocal(data, params[QueryParam]))
    ensures GetInitialValues(params).query == "" || CountryParam in params ==>
              state.query == "" && state.searchResults == None
    ensures state.error == ""
  {
    state := new CountryState(params);
    state.HandleUrlChange(data);
  }

  /** Selecting a country and then going back leaves the URL without
      `country` and with the query as the selection wrote it. */
  lemma SelectThenDeselect(params: UrlParams, query: string, countryId: string)
    ensures var after := UpdatedParams(UpdatedParams(params, query, Id(countryId)), query, Null);
            && CountryParam !in after
            && (QueryParam in after <==> query != "")
            && forall k :: k != QueryParam && k != CountryParam ==> (k in after <==> k in params)
  {
  }

  /** Pressing Enter in the search box: the selection is dropped, then the
      query is searched. Afterwards no country is selected and the URL has
      no `country` parameter. */
  method PressEnter(state: CountryState, data: seq<Country>)
    modifies state
    ensures state.selectedCountryId == "" && CountryParam !in state.urlParams
    ensures state.query == old(state.query)
    ensures !IsBlank(state.query) ==> state.searchResults == Some(SearchLocal(data, state.query))
    ensures IsBlank(state.query) ==> state.searchResults == None
  {
    state.HandleCountryDeselect();
    state.HandleSearch(data);
  }
}

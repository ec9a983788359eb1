/** The component state behind the menu's search: the stored results `data`
    and the `isLoading` flag, and how one search response updates them. The
    awaited search call is not modelled; its response is an input. */
module SearchState {
  import opened Optional
  import opened DisplayList

  /** What the search action resolves to: absent altogether, or a record whose
      `results` list may itself be absent. */
  datatype SearchResponse = SearchResponse(results: Option<seq<Movie>>)

  /** The guard `data?.results?.length`: results are present and non-empty. */
  predicate HasResults(response: Option<SearchResponse>)
  {
    response.Some? && response.value.results.Some? && |response.value.results.value| > 0
  }

  /** The stored results after a response: replaced only by a non-empty result list. */
  function NextData(current: seq<Movie>, response: Option<SearchResponse>): (r: seq<Movie>)
    ensures HasResults(response) ==> r == response.value.results.value
    ensures !HasResults(response) ==> r == current
  {
    if HasResults(response) then response.value.results.value else current
  }

  /** Once there are stored results, no response empties them. */
  lemma NextDataNeverEmpties(current: seq<Movie>, response: Option<SearchResponse>)
    requires |current| > 0
    ensures |NextData(current, response)| > 0
  {
  }

  /** Applying the same response twice is the same as applying it once. */
  lemma NextDataIdempotent(current: seq<Movie>, response: Option<SearchResponse>)
    ensures NextData(NextData(current, response), response) == NextData(current, response)
  {
  }

  /** A response with results makes the earlier state irrelevant: the last such response wins. */
  lemma NextDataForgetsEarlier(a: seq<Movie>, b: seq<Movie>, response: Option<SearchResponse>)
    requires HasResults(response)
    ensures NextData(a, response) == NextData(b, response)
  {
  }

  class MenuState {
    /** The stored search results (`useState<Movie[]>([])`). */
    var data: seq<Movie>
    /** Whether a search is in flight; owned by the shortcut hook. */
    var isLoading: bool

    /** The state on mount: no results; the hook supplies the loading flag. */
    constructor (loading: bool)
      ensures data == [] && isLoading == loading
    {
      data := [];
      isLoading := loading;
    }

    /** The movie items rendered for the current state. */
    function Shown(): (r: seq<Movie>)
      reads this
      ensures forall k :: 0 <= k < |r| ==> HasPoster(r[k])
      ensures DistinctTitles(r)
    {
      DisplayedDistinctTitles(data);
      Displayed(data)
    }

    /** The step before the search is awaited: loading is switched on. */
    method BeginSearch()
      modifies this`isLoading
      ensures isLoading && data == old(data)
    {
      isLoading := true;
    }

    /** The step after the search resolves: the results are stored when there
        are any, and loading is switched off. */
    method FinishSearch(response: Option<SearchResponse>)
      modifies this
      ensures data == NextData(old(data), response) && !isLoading
    {
      if HasResults(response) {
        data := response.value.results.value;
      }
      isLoading := false;
    }

    /** `getMovieResults` with the awaited response given as a parameter. */
    method GetMovieResults(response: Option<SearchResponse>)
      modifies this
      ensures data == NextData(old(data), response) && !isLoading
      ensures HasResults(response) ==> data == response.value.results.value
      ensures !HasResults(response) ==> data == old(data)
    {
      BeginSearch();
      FinishSearch(response);
    }
  }
}

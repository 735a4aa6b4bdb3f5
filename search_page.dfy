/** The search page's state: the query, the two view flags and the three
    sentiment columns, and the search operation that drives them. */
module SearchPage {
  import opened Articles

  /** How the request to the articles endpoint settled: a parsed response,
      or any failure (network error, unreadable body, a body whose lists
      cannot be cleaned), all of which the page handles alike. */
  datatype Outcome = Success(data: ArticleResponse) | Failure

  /** Which part of the page is rendered below the heading. */
  datatype View = Spinner | SearchBar | Results

  /** The spinner is rendered when `loading` holds. */
  predicate ShowsSpinner(loading: bool, showResults: bool) { loading }

  /** The bare search bar is rendered when neither loading nor showing results. */
  predicate ShowsSearchBar(loading: bool, showResults: bool) { !loading && !showResults }

  /** The results (with a search bar for a new query) are rendered when not loading and showing results. */
  predicate ShowsResults(loading: bool, showResults: bool) { !loading && showResults }

  /** The one view the three render conditions select. */
  function SelectView(loading: bool, showResults: bool): (v: View)
    ensures v == Spinner <==> ShowsSpinner(loading, showResults)
    ensures v == SearchBar <==> ShowsSearchBar(loading, showResults)
    ensures v == Results <==> ShowsResults(loading, showResults)
  {
    if loading then Spinner else if showResults then Results else SearchBar
  }

  /** For every pair of flags, exactly one of the three conditions holds. */
  lemma ExactlyOneView(loading: bool, showResults: bool)
    ensures ShowsSpinner(loading, showResults) || ShowsSearchBar(loading, showResults) || ShowsResults(loading, showResults)
    ensures !(ShowsSpinner(loading, showResults) && ShowsSearchBar(loading, showResults))
    ensures !(ShowsSpinner(loading, showResults) && ShowsResults(loading, showResults))
    ensures !(ShowsSearchBar(loading, showResults) && ShowsResults(loading, showResults))
  {
  }

  /** A response with no article in any category. */
  const EmptyResponse := ArticleResponse([], [], [])

  /** The three lists a settled request leaves behind: on success each
      category is the cleaning of the same category of the response, on
      failure every category is empty. */
  function Settle(decode: Decoder, outcome: Outcome): (r: ArticleResponse)
    ensures outcome.Failure? ==> r.supportive == [] && r.neutral == [] && r.opposing == []
    ensures outcome.Success? ==>
      |r.supportive| == |outcome.data.supportive| &&
      |r.neutral| == |outcome.data.neutral| &&
      |r.opposing| == |outcome.data.opposing|
  {
    match outcome
    case Success(data) =>
      ArticleResponse(CleanArticles(decode, data.supportive),
                      CleanArticles(decode, data.opposing),
                      CleanArticles(decode, data.neutral))
    case Failure => EmptyResponse
  }

  /** On success, each column holds exactly the response's articles of that
      category, cleaned one by one: nothing moves to another column. */
  lemma SettleSuccessColumns(decode: Decoder, data: ArticleResponse, i: nat)
    ensures var r := Settle(decode, Success(data));
      (i < |data.supportive| ==> r.supportive[i] == CleanArticle(decode, data.supportive[i])) &&
      (i < |data.neutral| ==> r.neutral[i] == CleanArticle(decode, data.neutral[i])) &&
      (i < |data.opposing| ==> r.opposing[i] == CleanArticle(decode, data.opposing[i]))
  {
  }

  class SearchSession {
    var query: String
    var loading: bool
    var showResults: bool
    var supportive: seq<Article>
    var neutral: seq<Article>
    var opposing: seq<Article>
    /** The browser's entity decoder. */
    const decode: Decoder
    /** The response the three columns were last cleaned from (empty before
        any search and after a failed one). */
    ghost var raw: ArticleResponse

    /** The spinner and the results are never flagged together, and every
        column is the cleaning of the same category of one response. */
    ghost predicate Valid()
      reads this
    {
      !(loading && showResults) &&
      supportive == CleanArticles(decode, raw.supportive) &&
      neutral == CleanArticles(decode, raw.neutral) &&
      opposing == CleanArticles(decode, raw.opposing)
    }

    /** A fresh page: empty query, not loading, no results, so the search bar is shown. */
    constructor (decode: Decoder)
      ensures Valid()
      ensures this.decode == decode
      ensures query == [] && !loading && !showResults
      ensures supportive == [] && neutral == [] && opposing == []
      ensures SelectView(loading, showResults) == SearchBar
    {
      this.decode := decode;
      query := [];
      loading := false;
      showResults := false;
      supportive := [];
      neutral := [];
      opposing := [];
      raw := EmptyResponse;
    }

    /** Entering a search stores the query and switches to the spinner; the
        columns still hold the previous results until the outcome arrives. */
    method BeginSearch(value: String)
      requires Valid()
      modifies this
      ensures Valid()
      ensures query == value && loading && !showResults
      ensures supportive == old(supportive) && neutral == old(neutral) && opposing == old(opposing)
      ensures raw == old(raw)
      ensures SelectView(loading, showResults) == Spinner
    {
      query := value;
      loading := true;
      showResults := false;
    }

    /** Storing the outcome: the three column setters of the success path, or
        the three resets of the failure path. The flags and the query stay. */
    method ApplyOutcome(outcome: Outcome)
      requires Valid()
      modifies this
      ensures Valid()
      ensures query == old(query) && loading == old(loading) && showResults == old(showResults)
      ensures supportive == Settle(decode, outcome).supportive
      ensures neutral == Settle(decode, outcome).neutral
      ensures opposing == Settle(decode, outcome).opposing
      ensures raw == (if outcome.Success? then outcome.data else EmptyResponse)
    {
      match outcome {
        case Success(data) =>
          supportive := CleanArticles(decode, data.supportive);
          neutral := CleanArticles(decode, data.neutral);
          opposing := CleanArticles(decode, data.opposing);
          raw := data;
        case Failure =>
          supportive := [];
          neutral := [];
          opposing := [];
          raw := EmptyResponse;
      }
    }

    /** Leaving a search, whatever its outcome: the spinner goes and the results view appears. */
    method Finish()
      requires Valid()
      modifies this
      ensures Valid()
      ensures !loading && showResults
      ensures query == old(query)
      ensures supportive == old(supportive) && neutral == old(neutral) && opposing == old(opposing)
      ensures raw == old(raw)
      ensures SelectView(loading, showResults) == Results
    {
      loading := false;
      showResults := true;
    }

    /** `handleSearch` for one request that settles with `outcome`. */
    method HandleSearch(value: String, outcome: Outcome)
      requires Valid()
      modifies this
      ensures Valid()
      ensures query == value
      ensures !loading && showResults
      ensures SelectView(loading, showResults) == Results
      ensures supportive == Settle(decode, outcome).supportive
      ensures neutral == Settle(decode, outcome).neutral
      ensures opposing == Settle(decode, outcome).opposing
    {
      BeginSearch(value);
      ApplyOutcome(outcome);
      Finish();
    }
  }

  /** A search for "climate change" answered with one supportive, no neutral
      and two opposing articles shows 1, 0 and 2 articles in the columns. */
  method ScenarioSuccess(decode: Decoder, a: Article, b: Article, c: Article)
  {
    var page := new SearchSession(decode);
    var data := ArticleResponse([a], [b, c], []);
    page.HandleSearch("climate change", Success(data));
    assert |page.supportive| == 1 && |page.neutral| == 0 && |page.opposing| == 2;
    assert page.opposing[1].url == c.url;
    assert !page.loading;
  }

  /** A request that fails leaves all three columns empty and the results view shown. */
  method ScenarioFailure(decode: Decoder, a: Article)
  {
    var page := new SearchSession(decode);
    page.HandleSearch("first", Success(ArticleResponse([a], [], [a])));
    page.HandleSearch("second", Failure);
    assert page.supportive == [] && page.neutral == [] && page.opposing == [];
    assert page.query == "second" && !page.loading && page.showResults;
  }
}

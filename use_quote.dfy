/** The quote-of-the-moment hook: the state a fetch steps through, and the
    retry budget the error view offers against it. */
module QuoteFetch {
  import opened Wrappers
  import opened Records
  import opened ApiService

  /** The retry budget the error view uses when none is given. */
  const DefaultMaxRetries: nat := 3

  /** The hook's state: the last quote shown, whether a fetch is under way,
      the last error, and the number of failures since the last success. */
  datatype View = View(quote: Option<string>, loading: bool, error: Option<ApiError>, retryCount: nat)

  const Initial: View := View(None, false, None, 0)

  /** The state while a fetch is awaited. */
  function Begin(v: View): (r: View)
    ensures r.loading && r.error.None?
    ensures r.quote == v.quote && r.retryCount == v.retryCount
  {
    v.(loading := true, error := None)
  }

  /** The state once a fetch started from `v` has settled with `result`. */
  function Fetched(v: View, result: ApiResult): (r: View)
    ensures !r.loading
    ensures result.ApiSuccess? ==> r.quote == Some(result.data) && r.retryCount == 0 && r.error.None?
    ensures result.ApiFailure? ==>
      r.quote == v.quote && r.retryCount == v.retryCount + 1 && r.error == Some(result.error)
  {
    var b := Begin(v);
    match result
    case ApiSuccess(data) => b.(quote := Some(data), retryCount := 0, loading := false)
    case ApiFailure(error) => b.(error := Some(error), retryCount := b.retryCount + 1, loading := false)
  }

  /** The state after the fetches settling with `results`, one after another. */
  function AfterFetches(v: View, results: seq<ApiResult>): View
    decreases |results|
  {
    if results == [] then v else Fetched(AfterFetches(v, results[..|results| - 1]), results[|results| - 1])
  }

  /** The number of failures at the end of `results`. */
  function TrailingFailures(results: seq<ApiResult>): (n: nat)
    ensures n <= |results|
    ensures forall i :: |results| - n <= i < |results| ==> results[i].ApiFailure?
    ensures n < |results| ==> results[|results| - 1 - n].ApiSuccess?
    decreases |results|
  {
    if results == [] || results[|results| - 1].ApiSuccess? then 0
    else 1 + TrailingFailures(results[..|results| - 1])
  }

  /** The data of the last success in `results`, if any. */
  function LastSuccess(results: seq<ApiResult>): (r: Option<string>)
    ensures r.None? <==> forall i :: 0 <= i < |results| ==> results[i].ApiFailure?
    ensures r.Some? ==> exists i :: 0 <= i < |results| && results[i] == ApiSuccess(r.value) &&
                                    forall j :: i < j < |results| ==> results[j].ApiFailure?
  {
    var n := TrailingFailures(results);
    if n == |results| then None
    else
      assert results[|results| - 1 - n] == ApiSuccess(results[|results| - 1 - n].data);
      Some(results[|results| - 1 - n].data)
  }

  /** The retry count is the number of failures since the last success, on
      top of the starting count when there has been none. */
  lemma {:induction false} RetryCountCountsFailures(v: View, results: seq<ApiResult>)
    ensures AfterFetches(v, results).retryCount ==
      if LastSuccess(results).Some? then TrailingFailures(results) else v.retryCount + |results|
    decreases |results|
  {
    if results != [] {
      var prefix := results[..|results| - 1];
      RetryCountCountsFailures(v, prefix);
      if results[|results| - 1].ApiFailure? && LastSuccess(prefix).None? {
        assert LastSuccess(results).None?;
      }
    }
  }

  /** The quote shown is the data of the last success, or the starting quote
      when every fetch failed: a failure never clears it. */
  lemma {:induction false} QuoteIsLastSuccess(v: View, results: seq<ApiResult>)
    ensures AfterFetches(v, results).quote == if LastSuccess(results).Some? then LastSuccess(results) else v.quote
    decreases |results|
  {
    if results != [] {
      QuoteIsLastSuccess(v, results[..|results| - 1]);
    }
  }

  /** After at least one fetch nothing is loading, and the error is that of
      the last fetch exactly when it failed. */
  lemma SettledReflectsLastFetch(v: View, results: seq<ApiResult>)
    requires results != []
    ensures var r := AfterFetches(v, results);
      && !r.loading
      && (results[|results| - 1].ApiFailure? <==> r.error.Some?)
      && (r.error.Some? ==> r.error.value == results[|results| - 1].error)
  {
  }

  /** `canRetry` and the count the retry button shows: a retry is offered
      while fewer than `maxRetries` failures have accumulated, and it says
      how many are left. */
  function RetriesLeft(retryCount: nat, maxRetries: nat): (r: Option<nat>)
    ensures r.Some? <==> retryCount < maxRetries
    ensures r.Some? ==> r.value >= 1 && r.value + retryCount == maxRetries
  {
    if retryCount < maxRetries then Some(maxRetries - retryCount) else None
  }

  /** From the initial state, a run of failures leaves a retry on offer
      exactly while it is shorter than the default budget. */
  lemma RetryOfferedWhileBudgetLasts(results: seq<ApiResult>)
    requires forall i :: 0 <= i < |results| ==> results[i].ApiFailure?
    ensures RetriesLeft(AfterFetches(Initial, results).retryCount, DefaultMaxRetries).Some? <==> |results| < 3
  {
    RetryCountCountsFailures(Initial, results);
  }

  /** The hook as a component instance: its language and its state fields. */
  class QuoteHook {
    var language: Language
    var quote: Option<string>
    var loading: bool
    var error: Option<ApiError>
    var retryCount: nat

    function State(): View
      reads this
    {
      View(quote, loading, error, retryCount)
    }

    /** Mounting: the initial state, then the first fetch. */
    constructor (language: Language, network: string -> Completion<HttpResponse>)
      ensures this.language == language
      ensures State() == Fetched(Initial, FetchQuote(language, network))
    {
      this.language := language;
      quote := None;
      loading := false;
      error := None;
      retryCount := 0;
      new;
      FetchNewQuote(network);
    }

    /** `fetchNewQuote`: loading and no error while the request is awaited,
        then the outcome recorded. */
    method FetchNewQuote(network: string -> Completion<HttpResponse>)
      modifies this
      ensures language == old(language)
      ensures State() == Fetched(old(State()), FetchQuote(language, network))
    {
      loading := true;
      error := None;
      var result := FetchQuote(language, network);
      match result {
        case ApiSuccess(data) =>
          quote := Some(data);
          retryCount := 0;
        case ApiFailure(e) =>
          error := Some(e);
          retryCount := retryCount + 1;
      }
      loading := false;
    }

    /** A change of language triggers a fetch in the new language; the same
        language does nothing. */
    method SetLanguage(lang: Language, network: string -> Completion<HttpResponse>)
      modifies this
      ensures language == lang
      ensures lang == old(language) ==> State() == old(State())
      ensures lang != old(language) ==> State() == Fetched(old(State()), FetchQuote(lang, network))
    {
      if lang != language {
        language := lang;
        FetchNewQuote(network);
      }
    }
  }
}

/** Fetching one quote: the URL chosen by language, and the decoding of the
    fetch's outcome and JSON body into a result with a fixed error code on
    every failure path. The network, the response body parser and the
    5-second abort timer are represented by what they produce: a response or
    the value they throw. */
module ApiService {
  import opened Wrappers
  import opened Text
  import opened Records
  import opened JsonValues

  const KoreanUrl: string := "/api/quote"
  const EnglishUrl: string := "https://random-quotes-freeapi.vercel.app/api/random"

  datatype ApiError = ApiError(message: string, code: string)

  /** `ApiResult<string>`. */
  datatype ApiResult = ApiSuccess(data: string) | ApiFailure(error: ApiError)

  /** A value thrown by `fetch`, by `response.json()`, or by reading a
      property of null: an `Error` with its name and message, or any other
      value. */
  datatype Thrown = ErrorValue(name: string, message: string) | NonErrorValue

  /** How an awaited step ends. */
  datatype Completion<+T> = Returned(value: T) | Threw(thrown: Thrown)

  /** A response: its status and how reading its body as JSON ends. */
  datatype HttpResponse = HttpResponse(status: nat, body: Completion<Json>)

  function QuoteUrl(language: Language): (url: string)
    ensures language == Ko ==> url == KoreanUrl
    ensures language != Ko ==> url == EnglishUrl
  {
    if language == Ko then KoreanUrl else EnglishUrl
  }

  /** `response.ok`. */
  predicate IsOk(status: nat) {
    200 <= status <= 299
  }

  /** The message a `TypeError` carries when a property of null is read. */
  function NullPropertyMessage(key: string): string {
    "Cannot read properties of null (reading '" + key + "')"
  }

  /** The `catch` block: an abort is a timeout, any other `Error` a network
      error with its message, anything else an unknown error. */
  function FromThrown(t: Thrown): (r: ApiResult)
    ensures t.ErrorValue? && t.name == "AbortError" ==> r == ApiFailure(ApiError("Request timeout", "TIMEOUT"))
    ensures t.ErrorValue? && t.name != "AbortError" ==> r == ApiFailure(ApiError(t.message, "NETWORK_ERROR"))
    ensures t.NonErrorValue? ==> r == ApiFailure(ApiError("An unexpected error occurred", "UNKNOWN_ERROR"))
  {
    match t
    case ErrorValue(name, message) =>
      if name == "AbortError" then ApiFailure(ApiError("Request timeout", "TIMEOUT"))
      else ApiFailure(ApiError(message, "NETWORK_ERROR"))
    case NonErrorValue => ApiFailure(ApiError("An unexpected error occurred", "UNKNOWN_ERROR"))
  }

  /** The failure reported for a TypeError with `message`, as the `catch`
      block turns it. */
  function TypeErrorFailure(message: string): ApiResult {
    ApiFailure(ApiError(message, "NETWORK_ERROR"))
  }

  /** A Korean body that decodes to a quote. */
  predicate KoreanAccepted(body: Json) {
    && body.JArr? && |body.elems| >= 2
    && !body.elems[0].JNull? && Get(body.elems[0], "result") == Some(JStr("success"))
    && !body.elems[1].JNull? && Truthy(Get(body.elems[1], "respond"))
  }

  /** The Korean service answers `[{result: 'success'}, {respond: <quote>}]`.
      A body that is not an array of two or more is an invalid response; a
      null element throws when its property is read; a status other than the
      string `success` or a falsy `respond` is a failed fetch. The status is
      read first, and `respond` only when the status is `success`. */
  function DecodeKorean(body: Json): (r: ApiResult)
    ensures !body.JArr? || |body.elems| < 2 ==>
      r == ApiFailure(ApiError("Invalid response format", "INVALID_RESPONSE"))
    ensures body.JArr? && |body.elems| >= 2 && body.elems[0].JNull? ==>
      r == TypeErrorFailure(NullPropertyMessage("result"))
    ensures body.JArr? && |body.elems| >= 2 && !body.elems[0].JNull? &&
            Get(body.elems[0], "result") != Some(JStr("success")) ==>
      r == ApiFailure(ApiError("Failed to fetch quote", "FETCH_FAILED"))
    ensures body.JArr? && |body.elems| >= 2 && !body.elems[0].JNull? &&
            Get(body.elems[0], "result") == Some(JStr("success")) && body.elems[1].JNull? ==>
      r == TypeErrorFailure(NullPropertyMessage("respond"))
    ensures body.JArr? && |body.elems| >= 2 && !body.elems[0].JNull? &&
            Get(body.elems[0], "result") == Some(JStr("success")) && !body.elems[1].JNull? &&
            !Truthy(Get(body.elems[1], "respond")) ==>
      r == ApiFailure(ApiError("Failed to fetch quote", "FETCH_FAILED"))
    ensures r.ApiSuccess? <==> KoreanAccepted(body)
    ensures r.ApiSuccess? ==> r.data == ToText(Get(body.elems[1], "respond").value)
  {
    if !body.JArr? || |body.elems| < 2 then
      ApiFailure(ApiError("Invalid response format", "INVALID_RESPONSE"))
    else
      var status := body.elems[0];
      var quote := body.elems[1];
      if status.JNull? then FromThrown(ErrorValue("TypeError", NullPropertyMessage("result")))
      else if Get(status, "result") != Some(JStr("success")) then
        ApiFailure(ApiError("Failed to fetch quote", "FETCH_FAILED"))
      else if quote.JNull? then FromThrown(ErrorValue("TypeError", NullPropertyMessage("respond")))
      else if !Truthy(Get(quote, "respond")) then
        ApiFailure(ApiError("Failed to fetch quote", "FETCH_FAILED"))
      else ApiSuccess(ToText(Get(quote, "respond").value))
  }

  /** `body[key] || fallback`, as the template literal prints it. */
  function FieldText(body: Json, key: string, fallback: string): string
    requires !body.JNull?
  {
    var v := Get(body, key);
    if Truthy(v) then ToText(v.value) else fallback
  }

  /** A field the template literal cannot print: a truthy value that is not
      `Printable`. A falsy value is replaced by its default first. */
  predicate Unprintable(v: Option<Json>) {
    Truthy(v) && !Printable(v.value)
  }

  /** An English body that decodes to a quote: not null, and neither field
      throws when printed. */
  predicate EnglishAccepted(body: Json) {
    !body.JNull? && !Unprintable(Get(body, "quote")) && !Unprintable(Get(body, "author"))
  }

  /** The English service answers `{quote, author, id}`. A null body throws
      when `quote` is read; a field the template literal cannot print throws
      there; otherwise the quote and the author, with defaults for missing or
      falsy fields, are joined by ` - `. */
  function DecodeEnglish(body: Json): (r: ApiResult)
    ensures body.JNull? ==> r == TypeErrorFailure(NullPropertyMessage("quote"))
    ensures !body.JNull? && (Unprintable(Get(body, "quote")) || Unprintable(Get(body, "author"))) ==>
      r == TypeErrorFailure(ConversionMessage)
    ensures r.ApiSuccess? <==> EnglishAccepted(body)
    ensures r.ApiSuccess? ==>
      r.data == EnglishText(FieldText(body, "quote", "No quote available"), FieldText(body, "author", "Unknown"))
  {
    if body.JNull? then FromThrown(ErrorValue("TypeError", NullPropertyMessage("quote")))
    else if Unprintable(Get(body, "quote")) || Unprintable(Get(body, "author")) then
      FromThrown(ErrorValue("TypeError", ConversionMessage))
    else
      ApiSuccess(EnglishText(FieldText(body, "quote", "No quote available"), FieldText(body, "author", "Unknown")))
  }

  /** How an English quote is presented: `<quote> - <author>`. */
  function EnglishText(quote: string, author: string): string {
    quote + " - " + author
  }

  /** The error codes `fetchQuote` can produce. */
  predicate IsKnownCode(code: string) {
    code in {"TIMEOUT", "NETWORK_ERROR", "UNKNOWN_ERROR", "INVALID_RESPONSE", "FETCH_FAILED"} ||
    (|code| > 5 && code[..5] == "HTTP_" && forall i :: 5 <= i < |code| ==> '0' <= code[i] <= '9')
  }

  /** `fetchQuote(language)`, given what the network does with the request
      for `QuoteUrl(language)`. It never throws: every path ends in a result,
      every failure carries one of the fixed codes, and it succeeds exactly
      for an ok response whose JSON body the language's decoder accepts.
      A throw from `fetch` or from `response.json()` goes to the `catch`
      block; a body that parsed goes to the language's decoder. */
  function FetchQuote(language: Language, network: string -> Completion<HttpResponse>): (r: ApiResult)
    ensures r.ApiFailure? ==> IsKnownCode(r.error.code)
    ensures r.ApiSuccess? <==>
      && network(QuoteUrl(language)).Returned?
      && IsOk(network(QuoteUrl(language)).value.status)
      && network(QuoteUrl(language)).value.body.Returned?
      && (var body := network(QuoteUrl(language)).value.body.value;
          if language == Ko then KoreanAccepted(body) else EnglishAccepted(body))
    ensures network(QuoteUrl(language)).Threw? ==> r == FromThrown(network(QuoteUrl(language)).thrown)
    ensures network(QuoteUrl(language)).Returned? && IsOk(network(QuoteUrl(language)).value.status) ==>
      (match network(QuoteUrl(language)).value.body
       case Threw(t) => r == FromThrown(t)
       case Returned(body) => r == if language == Ko then DecodeKorean(body) else DecodeEnglish(body))
  {
    match network(QuoteUrl(language))
    case Threw(t) => FromThrown(t)
    case Returned(response) =>
      if !IsOk(response.status) then
        var status := NatToString(response.status);
        var code := "HTTP_" + status;
        assert code[..5] == "HTTP_" && forall i :: 5 <= i < |code| ==> code[i] == status[i - 5];
        ApiFailure(ApiError("HTTP error! status: " + status, code))
      else
        match response.body
        case Threw(t) => FromThrown(t)
        case Returned(body) =>
          if language == Ko then DecodeKorean(body) else DecodeEnglish(body)
  }

  /** A non-ok status is reported with its number, which the code gives back:
      different statuses give different codes. */
  lemma HttpErrorCarriesStatus(language: Language, network: string -> Completion<HttpResponse>)
    requires network(QuoteUrl(language)).Returned?
    requires !IsOk(network(QuoteUrl(language)).value.status)
    ensures var status := network(QuoteUrl(language)).value.status;
      var r := FetchQuote(language, network);
      && r.ApiFailure?
      && r.error.message == "HTTP error! status: " + r.error.code[5..]
      && (forall i :: 5 <= i < |r.error.code| ==> '0' <= r.error.code[i] <= '9')
      && DigitsValue(r.error.code[5..]) == status
  {
    var status := network(QuoteUrl(language)).value.status;
    var code := "HTTP_" + NatToString(status);
    assert code[5..] == NatToString(status);
    NatToStringRoundTrip(status);
  }

  /** The Korean quote is the `respond` text itself. */
  lemma KoreanQuoteIsRespond(network: string -> Completion<HttpResponse>, respond: string)
    requires network(KoreanUrl).Returned? && IsOk(network(KoreanUrl).value.status)
    requires network(KoreanUrl).value.body.Returned?
    requires var body := network(KoreanUrl).value.body.value;
      && KoreanAccepted(body) && Get(body.elems[1], "respond") == Some(JStr(respond))
    ensures FetchQuote(Ko, network) == ApiSuccess(respond)
  {
  }

  /** An English body always succeeds, with defaults for missing or falsy
      fields. */
  lemma EnglishDefaults(network: string -> Completion<HttpResponse>)
    requires network(EnglishUrl).Returned? && IsOk(network(EnglishUrl).value.status)
    requires network(EnglishUrl).value.body.Returned?
    requires var body := network(EnglishUrl).value.body.value;
      !body.JNull? && !Truthy(Get(body, "quote")) && !Truthy(Get(body, "author"))
    ensures FetchQuote(En, network) == ApiSuccess("No quote available - Unknown")
  {
  }

  /** Non-empty string fields are presented as `<quote> - <author>`. */
  lemma EnglishFieldsPresented(network: string -> Completion<HttpResponse>, quote: string, author: string)
    requires network(EnglishUrl).Returned? && IsOk(network(EnglishUrl).value.status)
    requires network(EnglishUrl).value.body.Returned?
    requires var body := network(EnglishUrl).value.body.value;
      && !body.JNull? && Get(body, "quote") == Some(JStr(quote)) && Get(body, "author") == Some(JStr(author))
    requires quote != [] && author != []
    ensures FetchQuote(En, network) == ApiSuccess(quote + " - " + author)
  {
  }

  /** A quote object with its own `toString` property cannot be printed:
      the template literal throws, and the failure is a network error. */
  lemma ObjectQuoteThrows(network: string -> Completion<HttpResponse>)
    requires network(EnglishUrl) ==
      Returned(HttpResponse(200, Returned(JObj(map["quote" := JObj(map["toString" := JNum(1)])]))))
    ensures FetchQuote(En, network) == ApiFailure(ApiError(ConversionMessage, "NETWORK_ERROR"))
  {
    var body := JObj(map["quote" := JObj(map["toString" := JNum(1)])]);
    assert Get(body, "quote") == Some(JObj(map["toString" := JNum(1)]));
    assert Unprintable(Get(body, "quote"));
  }
}

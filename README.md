# Wisdom Whispers: offline caching and saved-quotes store, in Dafny

This project models the offline-first layer of the Wisdom Whispers quote
app and proves properties of it:

- **The saved-quotes store** (`SavedQuotesStore`). It is one JSON list in browser
  storage under the key `wisdom_whispers_saved_quotes`, newest first. The list is
  deduplicated by exact text and cut to 100 records on every write. When the quota
  is exceeded, the store retries once with 50. Corrupt storage reads as the empty list.
  - The storage slot is the field of a `Store` class. Each method is proved equal to
    a pure effect function, and the lemmas prove properties of those functions:
    - reading back what was written;
    - save idempotence and eviction order;
    - toggle involution;
    - delete selection;
    - the 100-record bound;
    - distinct texts.
- **The saved-quotes coordinator** (`SavedQuotesCoordinator`). It keeps a `quotes` and a
  `favorites` view in step with the store, reloads on storage signals for its own key,
  and passes mutations through.
- **The service worker** (`ServiceWorker`). It covers:
  - install: precaching the manifest, all or nothing;
  - activate: deleting every cache bucket except `wisdom-whispers-v1`;
  - the fetch handler: network first for the quote API, cache first for everything
    else, with an offline fallback to `/index.html` for documents;
  - the sync and push handlers.

  The model proves four cache facts:
  - after activation, a lookup sees only the current bucket;
  - a put is what the next lookup returns, unless a bucket of another name holds
    the URL (after activation there is none);
  - a put leaves other URLs alone;
  - the Korean endpoint `/api/quote` is handled network first, but the English
    endpoint `https://random-quotes-freeapi.vercel.app/api/random` matches neither
    quote-API pattern and is handled cache first.

  Together with the rule that only `basic` 200 responses are cached on that path,
  the cache-first handling means a cross-origin English quote is never stored for
  offline use.
- **The quote service** (`ApiService`). `fetchQuote` is given what the network does for
  its request, and the model shows that it never throws. Every failure carries one of
  the fixed codes, and success holds exactly for an ok response whose JSON body the
  language's decoder accepts. Each decoder's contract gives the code for every kind
  of bad body. An English field that a template literal cannot print (an object
  with its own `toString` property) throws a TypeError, which becomes a network
  error. An HTTP error code gives back its status.
- **The quote parser** (`QuoteParser`, `QuoteRoundTrip`). `parseQuote`'s two regular
  expressions are written out as the backtracking search JavaScript performs. The
  output is proved trimmed, and any author is non-empty. The author is null exactly
  when neither rule matches, and a quoted text with no dash and no `b` takes that path.
  The round trips below hold for a quote that is non-empty, trimmed, and free of
  dashes, double quotes and line breaks, and for an author that is non-empty,
  trimmed and free of line breaks:
  - `<quote> - <author>`, the English service's format, parses back to its parts.
  - A hyphen inside the quote splits it early: `a-b - C` parses as the text `a` with
    the author `b - C`.
  - `<quote> by <author>` parses back through the second rule when the quote also
    holds no `b` and the author no dash.
  - When both rules could split a text, the dash rule wins.
- **The fetch state machine** (`QuoteFetch`). The `useQuote` hook's fields and the
  error view's retry budget of 3 are modelled. The retry count is proved to be the
  number of failures since the last success. A failure never clears the quote.
- **The drawer's pure parts** (`SavedQuotesDrawer`). The model covers the relative-age
  buckets of `formatDate`, each range stated both ways, and the tab and language
  selection with its badge counts. The copy of `formatDate` in
  `src/components/SavedQuotesModal.tsx:78-90` is the same function.

The browser, the clock, the random id and the network are parameters of the
operations:

- Reading the storage slot gives a `Stored` value.
- Each `setItem` gives a `WriteOutcome`: one for the first attempt and one for the
  retry.
- `save` is given its id and its timestamp.
- The fetch handler is given what `fetch` would answer.
- `fetchQuote` is given a function from URL to response.

Three behaviours of the code worth knowing:

- **Second quota failure.** When the retry after a quota error also fails, the
  exception escapes `save`, `toggleFavorite` and `delete`. The retry at
  `src/services/savedQuotes.service.ts:46` is not inside a `try`, so the error reaches
  the caller, and the coordinator does not reload. `Escapes` states this case. Any
  other write error is swallowed: `save` then returns a new record that was never
  stored, and `SaveLostOnOtherError` states what follows.
- **Eviction order.** Eviction removes records by list position: the last records of
  the newest-first list are dropped. It does not re-sort by `savedAt`.
- **Deduplication.** Records are deduplicated by exact text, with no normalisation.

## Model

| member | source | states |
|---|---|---|
| SavedQuotesStore.Decode | src/services/savedQuotes.service.ts:21-36 | an absent, empty, unparsable or non-array slot reads as the empty list; an array yields at most its length in records |
| SavedQuotesStore.Encode | src/services/savedQuotes.service.ts:41 | a write stores an array with one complete record per element |
| SavedQuotesStore.Take | src/services/savedQuotes.service.ts:40 | the slice is the prefix of length min(n, length) |
| SavedQuotesStore.Store.GetStoredQuotes | src/services/savedQuotes.service.ts:21-36 | reading returns exactly the records of the slot, never an error |
| SavedQuotesStore.Store.SaveToStorage | src/services/savedQuotes.service.ts:38-49 | the slot and the escaping error are those of the write policy (100 records, 50 on quota error, second failure escapes, other errors swallowed) |
| SavedQuotesStore.Store.GetAll | src/services/savedQuotes.service.ts:51-53 | returns the records of the slot |
| SavedQuotesStore.Store.Save | src/services/savedQuotes.service.ts:55-76 | new slot and result follow the save rule: an existing text returns its first record without a write, otherwise the new record, not a favorite unless asked, is prepended and written |
| SavedQuotesStore.Store.ToggleFavorite | src/services/savedQuotes.service.ts:78-86 | new slot and outcome follow the toggle rule; an unknown id writes nothing |
| SavedQuotesStore.Store.Delete | src/services/savedQuotes.service.ts:88-92 | new slot and outcome follow the delete rule, a write even when nothing matched |
| SavedQuotesStore.Store.ClearAll | src/services/savedQuotes.service.ts:94-96 | the key is removed and later reads are empty |
| SavedQuotesStore.Store.Exists | src/services/savedQuotes.service.ts:98-101 | true exactly when some stored record has that text |
| SavedQuotesStore.Store.IsFavorited | src/services/savedQuotes.service.ts:103-107 | true exactly when the first record with that text is a favorite; false when there is none |
| SavedQuotesStore.DecodeEncode | src/services/savedQuotes.service.ts:41 | reading back a written list gives that list |
| SavedQuotesStore.DecodeAppend | src/services/savedQuotes.service.ts:29-32 | reading keeps array order: the records of a concatenation are the concatenation of the records |
| SavedQuotesStore.DecodeOne | src/services/savedQuotes.service.ts:29-32 | an element is kept exactly when it is an object with id, quote and savedAt |
| SavedQuotesStore.PersistWrites | src/services/savedQuotes.service.ts:38-49 | a successful write stores the first 100; after a quota error the first 50; a failed write leaves the slot; an error escapes exactly on a second failure; the stored list never exceeds 100 |
| SavedQuotesStore.SaveStoredText | src/services/savedQuotes.service.ts:56-61 | saving a stored text returns the first record with it and writes nothing |
| SavedQuotesStore.SaveNewText | src/services/savedQuotes.service.ts:63-75 | saving a new text stores the new record followed by the first 99 previous records in order: eviction drops the last by position |
| SavedQuotesStore.SaveIsIdempotent | src/services/savedQuotes.service.ts:55-76 | once a first save was written, at once or on the retry after a quota error, a second save of the same text changes nothing and returns the first save's record, same id and timestamp |
| SavedQuotesStore.SaveLostOnOtherError | src/services/savedQuotes.service.ts:36-50 | a first save of a new text whose write fails with a non-quota error reports the new record but leaves the slot unchanged, so the text is still unsaved and a second save returns a record with the new id |
| SavedQuotesStore.PersistKeepsDistinct | src/services/savedQuotes.service.ts:38-49 | writing a list without repeated texts leaves none in storage |
| SavedQuotesStore.SaveKeepsDistinct | src/services/savedQuotes.service.ts:55-76 | saving never creates a second record with the same text |
| SavedQuotesStore.ToggleFlipsFirstMatch | src/services/savedQuotes.service.ts:78-86 | toggling flips the flag of the first record with the id and nothing else; an unknown id leaves the slot unchanged |
| SavedQuotesStore.ToggleTwiceRestores | src/services/savedQuotes.service.ts:78-86 | toggling the same id twice restores every record |
| SavedQuotesStore.ToggleKeepsDistinct | src/services/savedQuotes.service.ts:78-86 | toggling keeps texts distinct |
| SavedQuotesStore.FilterKeepsDistinct | src/services/savedQuotes.service.ts:90 | a filtered list without repeated texts has none |
| SavedQuotesStore.DeleteKeepsOthers | src/services/savedQuotes.service.ts:88-92 | deleting keeps, in order, exactly the records whose id differs, each with its number of copies |
| SavedQuotesStore.DeleteKeepsDistinct | src/services/savedQuotes.service.ts:88-92 | deleting keeps texts distinct |
| SavedQuotesStore.SaveKeepsBound | src/services/savedQuotes.service.ts:55-76 | saving never takes the stored list past 100 records, whatever the write outcomes |
| SavedQuotesStore.ToggleKeepsBound | src/services/savedQuotes.service.ts:78-86 | toggling never takes the stored list past 100 records |
| SavedQuotesStore.DeleteKeepsBound | src/services/savedQuotes.service.ts:88-92 | deleting never takes the stored list past 100 records |
| SavedQuotesStore.SaveScenario | src/services/savedQuotes.service.ts:55-76 | from an empty slot, saving A, A, B stores [B, A] with A's first record |
| SavedQuotesCoordinator.FavoritesSelection | src/hooks/useSavedQuotes.ts:12 | the favorites are the order-preserving selection of exactly the favorite records, each with its number of copies |
| SavedQuotesCoordinator.Coordinator.constructor | src/hooks/useSavedQuotes.ts:15-16 | activation loads the view from the store |
| SavedQuotesCoordinator.Coordinator.LoadQuotes | src/hooks/useSavedQuotes.ts:9-13 | the view shows the stored records and their favorites |
| SavedQuotesCoordinator.Coordinator.OnStorageChange | src/hooks/useSavedQuotes.ts:18-22 | a signal for the store's key reloads the view; any other leaves it unchanged |
| SavedQuotesCoordinator.Coordinator.SaveQuote | src/hooks/useSavedQuotes.ts:28-31 | the store saves; on success the view is reloaded; an escaping write error leaves the view as it was |
| SavedQuotesCoordinator.Coordinator.ToggleFavorite | src/hooks/useSavedQuotes.ts:33-36 | the store toggles, then the view is reloaded unless an error escaped |
| SavedQuotesCoordinator.Coordinator.DeleteQuote | src/hooks/useSavedQuotes.ts:38-41 | the store deletes, then the view is reloaded unless an error escaped |
| SavedQuotesCoordinator.Coordinator.ClearAll | src/hooks/useSavedQuotes.ts:43-46 | the key is removed and both views are empty |
| SavedQuotesCoordinator.Coordinator.IsQuoteSaved | src/hooks/useSavedQuotes.ts:48-50 | answers from the store, not the view |
| SavedQuotesCoordinator.Coordinator.IsQuoteFavorited | src/hooks/useSavedQuotes.ts:52-54 | answers from the store: the first record with the text is a favorite |
| ServiceWorker.Match | public/service-worker.js:64 | a lookup finds an entry exactly when some bucket has the URL, and returns the first such bucket's entry |
| ServiceWorker.Open | public/service-worker.js:15 | opening keeps an existing bucket or appends an empty one, keeping names distinct |
| ServiceWorker.Put | public/service-worker.js:56-58 | a put changes no bucket name and keeps names distinct |
| ServiceWorker.Precached | public/service-worker.js:18 | exactly the manifest entries without "undefined" are precached |
| ServiceWorker.PutAll | public/service-worker.js:18 | storing the precache keeps bucket names distinct |
| ServiceWorker.PurgeLeavesCurrentOnly | public/service-worker.js:26-37 | after activation at most one bucket is left, and it is the current one |
| ServiceWorker.MatchAfterPurge | public/service-worker.js:26-37 | after activation a lookup answers exactly from the current bucket; with none it finds nothing |
| ServiceWorker.PutHolds | public/service-worker.js:56-58 | a put stores its entry in the named bucket and keeps every other entry |
| ServiceWorker.PutAllHolds | public/service-worker.js:13-21 | a successful precache stores every URL in the current bucket |
| ServiceWorker.PutThenMatch | public/service-worker.js:56-64 | a lookup after a put returns the put response unless a bucket of another name holds the URL |
| ServiceWorker.PutAfterPurgeThenMatch | public/service-worker.js:26-64 | after activation a put is always what the next lookup returns |
| ServiceWorker.PutKeepsOtherUrls | public/service-worker.js:56-58 | a put leaves every lookup of another URL unchanged |
| ServiceWorker.KoreanQuoteIsNetworkFirst | public/service-worker.js:48-49 | the Korean quote endpoint, on any origin, is handled network first |
| ServiceWorker.EnglishQuoteIsCacheFirst | public/service-worker.js:48-49 | the English quote endpoint matches neither quote-API pattern, so it is handled cache first |
| ServiceWorker.SyncPosts | public/service-worker.js:103-121 | the refresh tag with a fetched quote posts one NEW_QUOTE message with it to each client in order; otherwise nothing |
| ServiceWorker.PushBody | public/service-worker.js:126 | the notification shows the payload text, or the default text when there is none |
| ServiceWorker.Worker.constructor | public/service-worker.js:1-10 | the worker starts from distinctly named buckets |
| ServiceWorker.Worker.Install | public/service-worker.js:13-23 | the current bucket is opened, then filled with the precache only if every fetch gave an ok response that is not a partial (206) one |
| ServiceWorker.Worker.Activate | public/service-worker.js:26-40 | every bucket but the current one is deleted |
| ServiceWorker.Worker.HandleFetch | public/service-worker.js:43-100 | non-GET passes through; the quote API goes network first and caches any response, falling back to the cache; otherwise a hit answers without the network, a miss caches only basic 200 responses, and offline a document gets the cached index page and anything else nothing |
| ApiService.QuoteUrl | src/services/api.service.ts:9-18 | Korean uses the relative endpoint, English the remote one |
| ApiService.FromThrown | src/services/api.service.ts:74-103 | every thrown value becomes a failure: an abort is TIMEOUT, another Error NETWORK_ERROR with its message, anything else UNKNOWN_ERROR |
| ApiService.DecodeKorean | src/services/api.service.ts:42-65 | a body that is not an array of two or more is INVALID_RESPONSE; a null status or a null quote object after a `success` status is NETWORK_ERROR with the TypeError message; a status other than `success` or a falsy `respond` is FETCH_FAILED; it succeeds exactly for an accepted body, with the `respond` text |
| ApiService.DecodeEnglish | src/services/api.service.ts:66-73 | a null body is NETWORK_ERROR with the TypeError message; a field a template literal cannot print is NETWORK_ERROR with the conversion message; otherwise it succeeds with `<quote or default> - <author or default>` |
| ApiService.FetchQuote | src/services/api.service.ts:13-104 | never throws; every failure has a known code; succeeds exactly for an ok response whose body parsed and is accepted by the language's decoder; a throw from `fetch` or `response.json()` goes to the `catch` mapping, a parsed body of an ok response to the decoder |
| ApiService.EnglishFieldsPresented | src/services/api.service.ts:66-73 | non-empty string fields are presented as `<quote> - <author>` |
| ApiService.ObjectQuoteThrows | src/services/api.service.ts:68-70 | a quote object with its own `toString` property makes the fetch fail with a NETWORK_ERROR carrying the conversion message |
| ApiService.HttpErrorCarriesStatus | src/services/api.service.ts:29-37 | a non-ok status gives an HTTP_ code of decimal digits whose value is the status, and the message repeats it |
| ApiService.KoreanQuoteIsRespond | src/services/api.service.ts:42-65 | an accepted Korean body yields the respond text |
| ApiService.EnglishDefaults | src/services/api.service.ts:68-70 | an English body without quote and author yields the default text |
| JsonValues.Get | src/services/api.service.ts:53-56 | a property exists only on an object that has the key |
| JsonValues.ToText | src/services/api.service.ts:70 | a string prints as itself in a template literal |
| Seqs.FilterCounts | src/services/savedQuotes.service.ts:90 | a filter keeps every copy of a selected element and none of the others |
| Text.Trim | src/utils/parseQuote.ts:7 | the result is trimmed and is the middle of the input between whitespace runs |
| Text.TrimIdempotent | src/utils/parseQuote.ts:7 | trimming twice is trimming once |
| QuoteParser.SkipSpaces | src/utils/parseQuote.ts:9 | `\s*` stops at the first non-space |
| QuoteParser.Backtrack | src/utils/parseQuote.ts:9 | the tail group starts where it covers a non-empty, line-break-free rest of the input |
| QuoteParser.AfterGroup | src/utils/parseQuote.ts:9-17 | a separator match leaves a non-empty line-break-free author tail |
| QuoteParser.LazyEnd | src/utils/parseQuote.ts:9-17 | a group found by the lazy search has no line break, and the rest of the rule matches where it ends |
| QuoteParser.LazyEndStep | src/utils/parseQuote.ts:9-17 | a group not ending at `e` means the rest failed at `e` and the search goes on from `e + 1` to the same group |
| QuoteParser.Match | src/utils/parseQuote.ts:9-17 | both groups are non-empty and the author group is a suffix of the input |
| QuoteParser.AuthorNotEmpty | src/utils/parseQuote.ts:13-21 | the trimmed author of a trimmed input is never empty |
| QuoteParser.ParseQuote | src/utils/parseQuote.ts:6-29 | the text is trimmed; an author, when found, is trimmed and non-empty; the author is null exactly when neither the dash rule nor the `by` rule matches the trimmed input |
| QuoteRoundTrip.NoSplitInside | src/utils/parseQuote.ts:9-17 | inside a prefix with no double quote, line break or separator start, ending in a non-space, the rest of the rule never matches |
| QuoteRoundTrip.SplitsAt | src/utils/parseQuote.ts:9-17 | a rule whose separator follows such a prefix splits there: the prefix is the first group |
| QuoteRoundTrip.DashSeparator | src/utils/parseQuote.ts:9 | ` - ` followed by a trimmed line-break-free author is a dash separator |
| QuoteRoundTrip.BySeparator | src/utils/parseQuote.ts:17 | ` by ` followed by a trimmed line-break-free author is a `by` separator |
| QuoteRoundTrip.DashRuleSplitsEnglishText | src/utils/parseQuote.ts:9 | for a non-empty, trimmed quote with no dash, double quote or line break and a non-empty, trimmed author with no line break, the dash pattern splits `<quote> - <author>` exactly at the separator |
| QuoteRoundTrip.EnglishQuoteParsesBack | src/utils/parseQuote.ts:6-15 | for a non-empty, trimmed quote with no dash, double quote or line break and a non-empty, trimmed author with no line break, parsing `<quote> - <author>` gives back the quote and the author |
| QuoteRoundTrip.EnglishFetchParsesBack | src/services/api.service.ts:66-73 | string fields of an English body that meet those conditions (quote non-empty, trimmed, no dash, double quote or line break; author non-empty, trimmed, no line break) come back through `fetchQuote` and `parseQuote` as the quote and the author |
| QuoteRoundTrip.HyphenSplitsEarly | src/utils/parseQuote.ts:9-15 | a hyphen inside the quote ends the first group: for a non-empty, trimmed head with no dash, double quote or line break, and a tail and an author each non-empty, trimmed and free of line breaks, `<head>-<tail> - <author>` parses as `<head>` with the author `<tail> - <author>` |
| QuoteRoundTrip.NoDashNoMatch | src/utils/parseQuote.ts:9 | a text without a dash is not matched by the dash rule |
| QuoteRoundTrip.NoByNoMatch | src/utils/parseQuote.ts:17 | a text without a `b` or `B` is not matched by the case-insensitive `by` rule |
| QuoteRoundTrip.QuotedTextHasNoAuthor | src/utils/parseQuote.ts:6-29 | a quoted, non-empty, trimmed text with no dash, `b`, inner double quote or line break matches neither rule and parses as the text without its quotes and with a null author |
| QuoteRoundTrip.ByRuleSplitsByText | src/utils/parseQuote.ts:17 | for a non-empty, trimmed quote with no `b`, dash, double quote or line break and a non-empty, trimmed author with no line break, the `by` pattern splits `<quote> by <author>` at the separator |
| QuoteRoundTrip.ByQuoteParsesBack | src/utils/parseQuote.ts:6-22 | for a non-empty, trimmed quote with no `b`, dash, double quote or line break and a non-empty, trimmed author with no dash or line break, parsing `<quote> by <author>` gives back the quote and the author |
| QuoteRoundTrip.ByRuleSplitsDashed | src/utils/parseQuote.ts:17 | for a quote and a middle each non-empty, trimmed and free of `b`, dashes, double quotes and line breaks, and a non-empty, trimmed author with no line break, `<quote> - <middle> by <author>` matches the `by` pattern too, splitting before `by` |
| QuoteRoundTrip.DashRuleWins | src/utils/parseQuote.ts:9-22 | under the same conditions, when both rules match `<quote> - <middle> by <author>`, the dash rule decides: the author is `<middle> by <author>` |
| QuoteFetch.Begin | src/hooks/useQuote.ts:21-22 | a fetch starts loading with no error, quote and count unchanged |
| QuoteFetch.Fetched | src/hooks/useQuote.ts:20-35 | after a fetch nothing loads; success sets the quote and resets the count; failure sets the error, adds one to the count and keeps the quote |
| QuoteFetch.TrailingFailures | src/hooks/useQuote.ts:26-31 | counts exactly the failures after the last success |
| QuoteFetch.LastSuccess | src/hooks/useQuote.ts:26-27 | the data of the last success, none exactly when all failed |
| QuoteFetch.RetryCountCountsFailures | src/hooks/useQuote.ts:26-31 | the retry count is the number of failures since the last success |
| QuoteFetch.QuoteIsLastSuccess | src/hooks/useQuote.ts:26-31 | the quote shown is the last success's data; failures never clear it |
| QuoteFetch.SettledReflectsLastFetch | src/hooks/useQuote.ts:21-34 | after fetches nothing is loading and the error is the last fetch's exactly when it failed |
| QuoteFetch.RetriesLeft | src/components/ErrorMessage.tsx:16-19 | a retry is offered exactly while the count is under the budget, and shows how many remain |
| QuoteFetch.RetryOfferedWhileBudgetLasts | src/components/ErrorMessage.tsx:16-19 | from the start, a run of failures leaves a retry on offer exactly while it is shorter than 3 |
| QuoteFetch.QuoteHook.constructor | src/hooks/useQuote.ts:14-40 | mounting starts empty and fetches once |
| QuoteFetch.QuoteHook.FetchNewQuote | src/hooks/useQuote.ts:20-35 | the state after a fetch is the settled state for the service's result |
| QuoteFetch.QuoteHook.SetLanguage | src/hooks/useQuote.ts:37-40 | a new language triggers a fetch in it; the same language changes nothing |
| SavedQuotesDrawer.DayCount | src/components/SavedQuotesDrawer.tsx:69-70 | the day count is the floor of the elapsed milliseconds over a day |
| SavedQuotesDrawer.AgeOf | src/components/SavedQuotesDrawer.tsx:72-77 | each bucket holds exactly its range: 0 today, 1 yesterday, 2-6 or negative days, 7-29 weeks in 1..4, 30-364 months in 1..12, 365+ years at least 1 |
| SavedQuotesDrawer.Render | src/components/SavedQuotesDrawer.tsx:72-77 | the label is the fixed word, or the decimal number followed by the unit word |
| SavedQuotesDrawer.FreshQuoteIsToday | src/components/SavedQuotesDrawer.tsx:66-78 | a quote saved now is today; one saved seven days ago is one week |
| SavedQuotesDrawer.DayCountMonotone | src/components/SavedQuotesDrawer.tsx:69-70 | a later save never shows as older |
| SavedQuotesDrawer.BadgeCount | src/components/SavedQuotesDrawer.tsx:117-123 | a badge never exceeds its tab's list |
| SavedQuotesDrawer.ShownIsSelection | src/components/SavedQuotesDrawer.tsx:57-58 | the shown list keeps order, holds exactly the tab's quotes in the language, each with its number of copies, and the badge counts it |
| SavedQuotesDrawer.FavoritesTabSelects | src/components/SavedQuotesDrawer.tsx:57-58 | with derived favorites the favorites tab shows the favorite quotes of the language in saved order, and its badge never exceeds the all tab's |

## Left out

- Browser storage, Cache Storage, `fetch`, clients and notifications are parameters or
  values, not real I/O. Promise timing is not modelled, and an un-awaited `cache.put` is
  applied at once.
- Cache Storage is a list of named buckets in creation order, not a map. `caches.match`
  searches buckets in that order, which a map would lose.
- The fetch handler does not model a `cache.put` that the Cache API itself rejects (for
  example a partial response); the rejection is not awaited in the source.
- `skipWaiting`, `clients.claim`, the console logging and the notification's icon,
  vibration and timestamp options carry no state the model needs.
- The 5-second abort timer of `fetchQuote` is not modelled as a clock. An abort appears
  as a thrown `AbortError`.
- JSON numbers are integers, so floating point is not modelled. The day count's
  floating-point division is taken as exact integer floor division.
- Stored records: only the presence of `id`, `quote` and `savedAt` is checked by the
  source, as in the model. Field values of other types are not modelled.
- ApiService.FetchQuote: a Korean `respond` value that is not a string is passed through
  as-is by the source. The model turns it into its template-literal text.
- `NullPropertyMessage` uses one engine's TypeError wording. Other engines word it
  differently.
- The random id and `Date.now()` are parameters of `save`.
- Rendering, sharing, clipboard, translations and icons are left out, as are the drawer's
  tab and copied-id state.
- QuoteParser.LazyEnd: that the group found is the shortest one is stated one step at a
  time, by `LazyEndStep`, and not as one property over every shorter end.

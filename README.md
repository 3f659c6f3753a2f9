# movie-search: a verified model of the search coordinator

The search page in `script.js` works like this:

- It reads `s` (title) and `y` (year) from the address bar and normalises them into canonical query parameters.
- It uses the serialized parameters as the key of a response cache.
- It asks the movie-metadata API for the first page of a search, or for the next page when "Load more" is clicked.
- It keeps a `fetching` set of in-flight markers.
- It renders an answer only while the search it belongs to is still the active one.

This project models that logic in Dafny and proves its properties. The modules follow the page's structure:

- `JsText`: the ECMAScript string behaviour the page depends on. These are `trim`, with the full ECMAScript white-space set, and `parseInt(_, 10)`, where NaN is `None`.
- `FormUrlEncoded`: `URLSearchParams.prototype.toString`, i.e. the `application/x-www-form-urlencoded` serializer of section 5.2 of the WHATWG URL Standard, with UTF-8 percent-encoding. It is modelled concretely, not abstractly, for two reasons:
  - its injectivity, which makes the cache key identify a search, is proved rather than assumed;
  - the key collision in the findings below can be exhibited on real keys.
- `Query`: `getTrimmedSearchParam` and `getApiSearchParams`.
- `Responses`: the API's response body and the record built from it with `totalResults` parsed.
- `InFlight`: the `fetching` markers. It has the code as written, and beside it the evidently intended discipline.
- `Pagination`: the decisions `loadSearchResult` takes, as pure functions:
  - decline, answer from the cache, or request which page;
  - how a load-more page extends the cached entry;
  - a lemma that repeated load-more, under the API's paging contract, retrieves every result once and in order.
- `Display`: what the two display functions do to the results panel (headline, items, inline error note, "Load more" button).
- `Coordinator`: the page's mutable state, as the class `MovieSearch` with fields `cache`, `fetching`, `current` and `view`.
  - Cache entries are objects of class `Entry`, because load-more pushes into the entry captured when its request was issued.
  - `loadSearchResult` is split at its suspension points into `Begin`, `Complete` and `Settle`.
  - The network's answer is a parameter of `Complete`.
- `Scenarios`: runs driven step by step from a fresh page: a paginated search, the two marker defects below, and an answer that arrives after the user has moved on.

Where the code and a natural reading of the page differ, the model follows the code:

- A failed initial response is cached like a successful one; its `totalResults` is NaN.
- The marker a request adds never suppresses a repeat of that same request.
- The page number is a JavaScript division and is not floored.

## Model

| member | source | states |
|---|---|---|
| JsText.TrimStart | script.js:40 | the result is a suffix of the input; what precedes it is white space; it does not start with white space |
| JsText.TrimEnd | script.js:40 | the result is a prefix of the input; what follows it is white space; it does not end with white space |
| JsText.Trim | script.js:40 | the result is no longer than the input and neither starts nor ends with white space |
| JsText.TrimIsSlice | script.js:40 | the trim is a contiguous slice of the input whose cut-away ends are both blank |
| JsText.TrimEmptyIffBlank | script.js:40 | the trim is empty exactly when the input is all white space (so `trim() \|\| null` is null exactly then) |
| JsText.TrimIdempotent | script.js:40 | trimming twice equals trimming once |
| JsText.TrimOfTrimmed | script.js:40 | a string that neither starts nor ends with white space is its own trim |
| JsText.DigitPrefix | script.js:77 | the longest run of decimal digits at the start of the text: a digit prefix that cannot be extended |
| JsText.DecimalText | script.js:77 | the decimal text of a number is non-empty, all digits, and has no leading zero |
| JsText.DecimalTextValue | script.js:77 | reading back the decimal text of n gives n |
| JsText.ParseInt | script.js:77 | `parseInt` is NaN exactly when no digit follows the leading white space and an optional sign |
| JsText.Unsigned | script.js:77 | a leading `+` or `-` is removed, exactly one; text that does not start with a sign is kept whole |
| JsText.ParseIntOfDecimal | script.js:77 | `parseInt` of optional white space, an optional minus, decimal text of n and any non-digit tail is n (or -n) |
| JsText.ParseIntUndefined | script.js:77 | `parseInt(undefined, 10)`, which reads the text "undefined", is NaN |
| FormUrlEncoded.Utf8Decodes | script.js:58 | the UTF-8 bytes written for a character give back its code point, and the first byte gives the length |
| FormUrlEncoded.EscapeAppend | script.js:58 | escaping distributes over concatenation |
| FormUrlEncoded.EscapeUnreserved | script.js:58 | text of ASCII alphanumerics and `*-._` is written unchanged |
| FormUrlEncoded.SerializeUnreservedPair | script.js:58 | one pair of such text serializes to `name=value` |
| FormUrlEncoded.EscapeAvoidsSeparators | script.js:58 | escaped text never holds `=` or `&` |
| FormUrlEncoded.EscapeInjective | script.js:58 | two texts that escape alike are equal |
| FormUrlEncoded.SerializeShape | script.js:58 | no pairs give the empty key; one pair gives a key without `&`; more pairs give a key with `&` |
| FormUrlEncoded.Serialize | script.js:58 | `searchParams.toString()`: each pair as `name=value`, joined by `&` (no contract; SerializeShape, SerializeUnreservedPair and SerializeInjective state its properties) |
| FormUrlEncoded.SerializeInjective | script.js:58 | equal cache keys come only from equal parameter lists |
| Query.Lookup | script.js:37-40 | `get` finds nothing exactly when no pair has the name; otherwise it returns the value of the first pair with that name |
| Query.TrimmedParam | script.js:36-41 | null exactly when the parameter is missing or blank; otherwise the trimmed value, which is non-empty and trimmed at both ends |
| Query.ApiSearchParams | script.js:43-51 | no search exactly when `s` is missing or blank; otherwise the trimmed `s` comes last, preceded by the trimmed `y` exactly when `y` is present and not blank |
| Query.NormaliseIdempotent | script.js:43-51 | the canonical parameters normalise to themselves |
| Query.KeysIdentifySearches | script.js:43-58 | two queries share a cache key exactly when their trimmed `s` and `y` agree |
| Responses.ParseDecimalTotal | script.js:77 | a decimal `totalResults` parses to its number, and every other field is kept as it came |
| Responses.IsSuccessful | script.js:53-55 | `isSuccessfulResponse`: the `Response` field is the text "True" (no contract; used by the `Display` and `Pagination` lemmas) |
| Responses.ParseTotal | script.js:77 | `parseInt(rawData.totalResults, 10)`, an absent field read as "undefined" (no contract; ParseDecimalTotal and ParseMissingTotal state its results) |
| Responses.Parse | script.js:77 | the spread copy with `totalResults` parsed (no contract; ParseDecimalTotal and ParseMissingTotal state its results) |
| Responses.ParseMissingTotal | script.js:77 | a body without `totalResults` gets NaN |
| InFlight.Marker | script.js:59 | `cacheKey + more`: the key followed by "true" or "false" (no contract; MarkerInjective states it) |
| InFlight.IsInFlight | script.js:59 | `fetching.has(cacheKey + more)` (no contract) |
| InFlight.MarkIssued | script.js:72 | `fetching.add(cacheKey)`, the bare key as written (no contract; IssueNeverDeduplicates and BareKeyCollides state its effect) |
| InFlight.MarkSettled | script.js:88 | `fetching.delete(cacheKey + more)` (no contract; IssueNeverDeduplicates and CorrectedSettleReleases state its effect) |
| InFlight.IssueNeverDeduplicates | script.js:59-88 | the bare key that is added never answers the lookup of the same request, and settling leaves it in the set |
| InFlight.BareKeyCollides | script.js:58-72 | for every term, the bare key left by a search for term + "false" answers the lookup of the initial search for term |
| InFlight.MarkerInjective | script.js:59 | distinct (key, mode) pairs have distinct markers |
| InFlight.CorrectedIssueMarksOnlyItself | script.js:59-72 | with the composite marker inserted, the lookup answers true for the issued request and for no other new one |
| InFlight.CorrectedBeginAdmitsOnce | script.js:59-72 | with the composite marker inserted, the lookup answers exactly whether the same request is pending, and issuing keeps every request pending at most once |
| InFlight.CorrectedSettleReleases | script.js:87-89 | with the composite marker inserted, settling removes that request from the tracked set and from no other |
| Pagination.NextPage | script.js:68 | `length / pageSize + 1` as a real division with `pageSize` 10 (no contract; NextPageWhole states when it is whole and its value) |
| Pagination.Admission | script.js:58-71 | the decision `loadSearchResult` takes before its request: declined, answered from the cache, a request for which page, or a throw (no contract; InFlightDeclines, LoadMoreSuppression and InitialUsesCache state it, and Begin is tied to it) |
| Pagination.NextPageWhole | script.js:6-68 | the page number is whole exactly when the item count is a multiple of 10, and then it is count / 10 + 1 |
| Pagination.InFlightDeclines | script.js:59-60 | a call whose marker is in `fetching` resolves to `false` |
| Pagination.LoadMoreSuppression | script.js:64-68 | load-more is declined exactly when there is no entry or the item count equals `totalResults`; otherwise it requests page count / 10 + 1 |
| Pagination.InitialUsesCache | script.js:69-72 | an initial call answers from the cache exactly when the key is cached, and otherwise requests the first page |
| Pagination.Appended | script.js:78-82 | a failed page leaves the entry unchanged; a successful page appends its items in order and changes nothing else; the push throws when either `Search` is missing |
| Pagination.FirstPage | script.js:74-83 | under the API's paging contract the first answer is the first ten results |
| Pagination.LoadMoreStep | script.js:64-82 | after k full pages load-more asks for page k + 1 and the answer extends the entry by exactly that page; once everything is loaded it is declined |
| Pagination.LoadMoreRetrievesAll | script.js:64-82 | clicking load-more until it is declined leaves exactly all results, in order, in the cache |
| Display.ShowsLoadMore | script.js:117 | `totalResults > Search.length`, false when either is missing (no contract; ShownButton states it) |
| Display.ListComplete | script.js:142 | the cached item count equals `totalResults` (no contract; ShownMoreSuccess ties it to load-more being declined) |
| Display.Shown | script.js:103-119 | the panel `displaySearchResult` leaves past its guard (no contract; ShownButton states it) |
| Display.ShownMore | script.js:128-144 | the panel `displayMoreSearchResult` leaves past its guard (no contract; ShownMoreSuccess and ShownMoreFailure state it) |
| Display.ShownButton | script.js:104-119 | for every response, with or without `Search`, the button is shown exactly when the response succeeded, has items, and `totalResults` exceeds their count; a failure shows only its `Error` text |
| Display.VisibleButtonLoadsMore | script.js:117-119 | a visible button over the entry leads to a load-more request for the next page |
| Display.ShownMoreSuccess | script.js:137-144 | a successful page appends exactly its items and clears the error note; the button goes exactly when load-more would now be declined |
| Display.ShownMoreFailure | script.js:129-135 | a failed page keeps the items and the button and shows its error once |
| Coordinator.Entry.constructor | script.js:83 | the new entry holds the response record |
| Coordinator.Entry.Push | script.js:80 | the items are appended to `Search` in place; nothing else changes |
| Coordinator.MovieSearch.constructor | script.js:1-11 | empty cache, empty `fetching`, no active key, empty panel |
| Coordinator.MovieSearch.Begin | script.js:57-73 | the answer follows `Admission`; a hit returns the cached entry object itself; an issued request adds the bare key to `fetching`; nothing else changes |
| Coordinator.MovieSearch.Complete | script.js:75-86 | transport failure rejects. An initial response (failed or not) becomes a fresh entry for the key, and other keys keep their entries. A load-more response is pushed into the captured entry when it succeeded, and the page's own record is returned. No entry other than the captured one changes; when the captured entry is still the key's entry, every other key keeps its entry's contents |
| Coordinator.MovieSearch.CacheFirstPage | script.js:83-85 | the parsed response becomes a new entry for the key; other entries are unchanged |
| Coordinator.MovieSearch.AppendPage | script.js:78-85 | the captured entry becomes `Appended` of itself and the page; a throwing push rejects |
| Coordinator.MovieSearch.Settle | script.js:87-89 | `cacheKey + more` is no longer in `fetching`, and that is the only change |
| Coordinator.MovieSearch.DisplaySearchResult | script.js:99-120 | a stale key changes nothing; otherwise the panel becomes `Shown` of the data |
| Coordinator.MovieSearch.DisplayMoreSearchResult | script.js:124-145 | a stale key changes nothing; otherwise the panel becomes `ShownMore` of the panel, the page and the active cache entry |
| Coordinator.MovieSearch.ShowSearchResult | script.js:177-178 | a stale key changes nothing; a throwing display or a rejection shows the generic error message |
| Coordinator.MovieSearch.ShowMoreResult | script.js:155-161 | a stale key or a `false` reply changes nothing; a throwing display or a rejection shows the generic error message |
| Coordinator.MovieSearch.LoadAndDisplay | script.js:164-179 | no search changes nothing; otherwise the key becomes active before the request, and an initial `Begin` follows |
| Coordinator.MovieSearch.LoadMore | script.js:149-162 | no search changes nothing; otherwise a load-more `Begin` follows, capturing the cached entry when a request is issued |
| Scenarios.PlainSearch | script.js:43-58 | `?s=term` of plain characters normalises to itself, with key `s=term` |
| Scenarios.PagedSearch | script.js:57-179 | with 23 results the requests ask for no page, then page 2, then page 3; all 23 items are listed; the button is gone; the next click is suppressed |
| Scenarios.DoubleClickLoadMore | script.js:59-88 | two clicks before an answer both ask for page 2; its items are listed twice; the next click asks for page 4 |
| Scenarios.BareKeyBlocksSearch | script.js:59-112 | after a search with key k + "false", an initial search with key k sends no request and the panel shows "undefined" |
| Scenarios.CollidingSearches | script.js:43-112 | after searching term + "false", the search for term is dead |
| Scenarios.FullPages | script.js:68 | after 10, 20 and 30 items the page numbers are 2, 3 and 4 |
| Scenarios.SupersededAnswer | script.js:83-102 | an answer for a search that is no longer active still fills the cache and leaves the panel alone |

## Left out

- Document building and templating are not modelled: the movie cards, `createElement` and `innerHTML` (script.js:13-34, 92-97). The panel is kept as its headline, its item list, its error note and its button.
- The headline's text format is not modelled: "`n` movie(s) found" (script.js:112). It is modelled as `Found(totalResults)`.
- `fetch` and JSON decoding are I/O (script.js:74-75). An answer is a decoded body, or a transport failure that rejects the promise.
- The request URL, the `apikey` parameter and the `page` parameter's number format (script.js:2, 73-74) are not modelled beyond the page number itself.
- Promises and the microtask queue are not modelled. Each request is split into explicit steps (`Begin`, `Complete`, `Settle`, the display callbacks), and the scenarios choose their interleaving.
- The form, history, focus and event wiring (script.js:169-174, 181-190) is browser glue.
- The parsing of `window.location.search` into pairs is not modelled. The query arrives as a list of name/value pairs; only the serializer half of `URLSearchParams` is modelled.
- JsText.ParseInt: does not model the loss of precision above 2^53, because the page only compares the result with item counts.
- FormUrlEncoded.Utf8Decodes: lone surrogate code points are not modelled, because a Dafny `char` is a Unicode scalar value.
- The synchronous TypeError that load-more raises for a cached entry without `Search` (script.js:65) is not followed into display. `Begin` answers `Threw`, and the error stops there, as it escapes `loadMore` uncaught.
- A request that never answers is not modelled; that would need a timeout, and the page sets none.

## Findings

| source | as written | input that shows it | evidently intended | confidence | as-written member | corrected member |
|---|---|---|---|---|---|---|
| script.js:72 | `fetching.add(cacheKey)`, while the lookup (script.js:59) and the removal (script.js:88) use `cacheKey + more` | 35 results, 10 listed, "Load more" clicked twice before the first answer: both requests ask for page 2, its items are pushed twice, and page 3 is never requested | `fetching.add(cacheKey + more)`, so that a second identical request is declined while the first is in flight | not executed | InFlight.IssueNeverDeduplicates, Scenarios.DoubleClickLoadMore | InFlight.CorrectedBeginAdmitsOnce, InFlight.CorrectedSettleReleases |
| script.js:72 | the bare `cacheKey` stays in `fetching` forever and is compared with other searches' `cacheKey + more` | search `?s=catfalse`, then `?s=cat`: the key `s=cat` + `false` is the bare key `s=catfalse`, so the second search is declined and the panel shows "undefined" | composite markers that only the same request matches, removed when it settles | not executed | InFlight.BareKeyCollides, Scenarios.BareKeyBlocksSearch | InFlight.MarkerInjective, InFlight.CorrectedIssueMarksOnlyItself |

`MovieSearch` runs the code as written. The corrected discipline is defined on the marker set, as `MarkIssuedCorrected` together with the `Corrected` lemmas. `Begin` would adopt it by calling `MarkIssuedCorrected(fetching, key, more)` in place of `MarkIssued(fetching, key)`.

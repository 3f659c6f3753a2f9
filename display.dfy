/** What `displaySearchResult` (script.js:99-120) and
    `displayMoreSearchResult` (script.js:124-145) do to the results panel,
    kept to the decisions: which headline, which items, whether the inline
    error note and the "Load more" button are attached. The DOM nodes and
    their markup are not modelled. */
module Display {
  import opened Wrappers
  import opened Responses
  import opened InFlight
  import opened Pagination

  /** `errorMessage` (script.js:9), spelled as the page spells it. */
  const ErrorMessage: string := "Unexpected error occured. Please try again."

  /** `{ Error: errorMessage }`, the record the `.catch` handlers display. */
  const GenericError: Data := Data(None, None, None, Some(ErrorMessage))

  /** The value `false` read as a response: every field is `undefined`. */
  const FalseValue: Data := Data(None, None, None, None)

  /** The first paragraph of the panel. */
  datatype Headline =
    | NoHeadline
    | Message(text: string)       // the `Error` text of a failed response
    | Found(total: Option<int>)   // "<totalResults> movie(s) found"

  datatype View = View(headline: Headline, items: seq<Movie>, errorNote: Option<string>, button: bool)

  const EmptyView: View := View(NoHeadline, [], None, false)

  /** The panel after a display call, and whether the call threw. */
  datatype Rendered = Rendered(view: View, threw: bool)

  /** `document.createTextNode(data.Error)`: an absent field reads "undefined". */
  function ErrorText(d: Data): string
  {
    d.error.GetOr("undefined")
  }

  /** script.js:117: the button is attached when `totalResults` exceeds the
      number of items (never when it is NaN). */
  predicate ShowsLoadMore(d: Data)
  {
    d.search.Some? && d.totalResults.Some? && d.totalResults.value > |d.search.value|
  }

  /** script.js:142: the cached list is complete. */
  predicate ListComplete(cached: Data)
  {
    cached.search.Some? && cached.totalResults == Some(|cached.search.value|)
  }

  /** `displaySearchResult` past its guard (script.js:103-119). The panel is
      cleared first; a successful response without `Search` throws in
      `movies.map` once the headline is in place. */
  function Shown(d: Data): Rendered
  {
    if !IsSuccessful(d) then Rendered(View(Message(ErrorText(d)), [], None, false), false)
    else if d.search.None? then Rendered(View(Found(d.totalResults), [], None, false), true)
    else Rendered(View(Found(d.totalResults), d.search.value, None, ShowsLoadMore(d)), false)
  }

  /** `displayMoreSearchResult` past its guard (script.js:128-144), given the
      panel, the page response and the cached entry of the active key.
      `insertBefore(_, loadMoreButton)` throws when the button is not
      attached. */
  function ShownMore(v: View, d: Data, cached: Option<Data>): Rendered
  {
    if !IsSuccessful(d) then
      if v.errorNote.Some? then Rendered(v, false)
      else if !v.button then Rendered(v, true)
      else Rendered(v.(errorNote := Some(ErrorText(d))), false)
    else
      var cleared := v.(errorNote := None);
      if d.search.None? || !v.button then Rendered(cleared, true)
      else
        var extended := cleared.(items := v.items + d.search.value);
        if cached.None? || cached.value.search.None? then Rendered(extended, true)
        else if ListComplete(cached.value) then Rendered(extended.(button := false), false)
        else Rendered(extended, false)
  }

  /** The button is shown exactly when the response succeeded and reports more
      results than it holds; a failure shows its `Error` text alone. */
  lemma ShownButton(d: Data)
    ensures Shown(d).view.button <==>
              (IsSuccessful(d) && d.search.Some? && d.totalResults.Some? && d.totalResults.value > |d.search.value|)
    ensures !IsSuccessful(d) ==> Shown(d).view == View(Message(ErrorText(d)), [], None, false)
  {
  }

  /** A button shown over a cached entry leads to a load-more request for the
      next page (unless one is in flight). */
  lemma VisibleButtonLoadsMore(d: Data, fetching: set<string>, key: string)
    requires Shown(d).view.button
    requires !IsInFlight(fetching, key, true)
    ensures Admission(fetching, Some(d), key, true) == Request(Some(NextPage(|d.search.value|)))
  {
  }

  /** A successful page appends exactly its items after the ones shown and
      clears the error note; the button is removed exactly when the cached
      list is complete, and then load-more is declined. */
  lemma ShownMoreSuccess(v: View, d: Data, cached: Data, fetching: set<string>, key: string)
    requires IsSuccessful(d) && d.search.Some? && v.button && cached.search.Some?
    requires !IsInFlight(fetching, key, true)
    ensures !ShownMore(v, d, Some(cached)).threw
    ensures ShownMore(v, d, Some(cached)).view.items == v.items + d.search.value
    ensures ShownMore(v, d, Some(cached)).view.errorNote.None?
    ensures !ShownMore(v, d, Some(cached)).view.button <==> Admission(fetching, Some(cached), key, true) == Declined
  {
  }

  /** A failed page leaves the items and the button alone and shows its
      error once. */
  lemma ShownMoreFailure(v: View, d: Data, cached: Option<Data>)
    requires !IsSuccessful(d) && v.button
    ensures ShownMore(v, d, cached).view.items == v.items
    ensures ShownMore(v, d, cached).view.button
    ensures ShownMore(v, d, cached).view.errorNote
            == if v.errorNote.Some? then v.errorNote else Some(ErrorText(d))
  {
  }
}

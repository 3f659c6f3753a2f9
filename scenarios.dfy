/** Runs of the page, driven step by step from a fresh `MovieSearch`: the
    paginated "batman" search, and the two ways the `fetching` markers
    misbehave. */
module Scenarios {
  import opened Wrappers
  import opened JsText
  import opened FormUrlEncoded
  import opened Query
  import opened Responses
  import opened InFlight
  import opened Pagination
  import opened Display
  import opened Coordinator

  /** The address-bar query `?s=<term>` normalises to `[("s", term)]`, whose
      cache key is `s=<term>`. */
  lemma PlainSearch(term: string)
    requires term != [] && forall i :: 0 <= i < |term| ==> IsUnreserved(term[i])
    ensures ApiSearchParams([("s", term)]) == Some([("s", term)])
    ensures Serialize([("s", term)]) == "s=" + term
    ensures Searches([("s", term)], "s=" + term)
  {
    var q := [("s", term)];
    assert IsUnreserved(term[0]) && IsUnreserved(term[|term| - 1]);
    assert !IsSpace(term[0]) && !IsSpace(term[|term| - 1]);
    assert Lookup(q, "s") == Some(term);
    assert Lookup(q, "y") == None;
    TrimOfTrimmed(term);
    TrimEmptyIffBlank(term);
    assert TrimmedParam(q, "s") == Some(term);
    assert TrimmedParam(q, "y") == None;
    SerializeUnreservedPair("s", term);
  }

  /** A successful page: `Response` "True", the items, `totalResults` as
      decimal text. */
  function Success(items: seq<Movie>, total: nat): Transport
  {
    Delivered(RawResponse(Some("True"), Some(items), Some(DecimalText(total)), None))
  }

  /** `Success(items, total)`, known to the caller only by what it parses
      to. */
  method SuccessAnswer(items: seq<Movie>, total: nat) returns (t: Transport)
    ensures t.Delivered? && Parse(t.body) == Listing(items, total)
  {
    t := Success(items, total);
    ParseDecimalTotal(t.body, total);
  }

  /** The successful data for `items` out of `total`. */
  function Listing(items: seq<Movie>, total: nat): Data
  {
    Data(Some("True"), Some(items), Some(total), None)
  }

  /** The page after listing `items` of `total` for the only key searched:
      the bare key stays in `fetching` (nothing ever removes it). */
  predicate Showing(page: MovieSearch, key: string, items: seq<Movie>, total: nat)
    reads page, page.cache.Values
  {
    && page.current == Some(key) && page.fetching == {key}
    && page.cache.Keys == {key}
    && page.Cached(key) == Some(Listing(items, total))
    && page.view == View(Found(Some(total)), items, None, |items| < total)
  }

  /** `q` names a search whose cache key is `key`. */
  predicate KeyOf(q: Pairs, key: string)
  {
    ApiSearchParams(q).Some? && Serialize(ApiSearchParams(q).value) == key
  }

  /** `KeyOf`, behind a quantifier: the serialized key is only unfolded
      where it is looked up, by the two entry points below. */
  predicate Searches(q: Pairs, key: string)
  {
    forall k :: k == key ==> KeyOf(q, k)
  }

  /** `loadAndDisplaySearchResult` for a query whose key is `key`. */
  method Search(page: MovieSearch, q: Pairs, key: string) returns (b: Begun)
    requires Searches(q, key) && page.Valid()
    modifies page`current, page`fetching
    ensures page.Valid() && page.current == Some(key)
    ensures b.Decision() == Admission(old(page.fetching), page.Cached(key), key, false)
    ensures b.Issued? ==> b.request == Initial(key)
    ensures page.fetching == if b.Issued? then MarkIssued(old(page.fetching), key) else old(page.fetching)
  {
    assert KeyOf(q, key);
    var r := page.LoadAndDisplay(q);
    b := r.value;
  }

  /** `loadMore` for a query whose key is `key`. */
  method Click(page: MovieSearch, q: Pairs, key: string) returns (b: Begun)
    requires Searches(q, key) && page.Valid()
    modifies page`fetching
    ensures page.Valid()
    ensures b.Decision() == Admission(old(page.fetching), page.Cached(key), key, true)
    ensures b.Issued? ==> key in page.cache && b.request == More(key, page.cache[key])
    ensures page.fetching == if b.Issued? then MarkIssued(old(page.fetching), key) else old(page.fetching)
  {
    assert KeyOf(q, key);
    var r := page.LoadMore(q);
    b := r.value;
  }

  /** A first search on a fresh page: the key becomes the active one and an
      initial request goes out. */
  method SubmitFirst(page: MovieSearch, q: Pairs, key: string) returns (b: Option<Begun>)
    requires Searches(q, key)
    requires page.Valid() && page.cache == map[] && page.fetching == {}
    modifies page`current, page`fetching
    ensures page.Valid() && page.cache == map[] && page.view == old(page.view)
    ensures b == Some(Issued(Initial(key), None))
    ensures page.current == Some(key) && page.fetching == {key}
  {
    var begun := Search(page, q, key);
    b := Some(begun);
  }

  /** The initial request for `key` answered with `items` out of `total`:
      a new entry for the key. */
  method ReceiveFirst(page: MovieSearch, key: string, items: seq<Movie>, total: nat) returns (r: Reply)
    requires page.Valid() && page.cache == map[]
    modifies page`cache
    ensures page.Valid() && page.cache.Keys == {key} && fresh(page.cache[key])
    ensures page.Cached(key) == Some(Listing(items, total))
    ensures r == Answer(Listing(items, total))
  {
    var t := SuccessAnswer(items, total);
    r := page.Complete(Initial(key), t);
  }

  /** A load-more request for `key` answered with `next`: pushed onto the
      cached entry. */
  method ReceiveMore(page: MovieSearch, key: string, shown: seq<Movie>, next: seq<Movie>, total: nat) returns (r: Reply)
    requires page.Valid() && key in page.cache
    requires page.Cached(key) == Some(Listing(shown, total))
    modifies page`cache, page.cache[key]
    ensures page.Valid() && page.cache == old(page.cache)
    ensures page.Cached(key) == Some(Listing(shown + next, total))
    ensures r == Answer(Listing(next, total))
  {
    var t := SuccessAnswer(next, total);
    r := page.Complete(More(key, page.cache[key]), t);
  }

  /** The first request answered with `first` out of `total`. */
  method AnswerFirst(page: MovieSearch, key: string, first: seq<Movie>, total: nat)
    requires page.Valid() && page.cache == map[]
    requires page.current == Some(key) && page.fetching == {key}
    requires |first| <= total
    modifies page
    ensures page.Valid()
    ensures Showing(page, key, first, total)
    ensures fresh(page.cache[key])
  {
    var r := ReceiveFirst(page, key, first, total);
    page.Settle(Initial(key));
    assert page.fetching == {key};
    assert !Shown(Listing(first, total)).threw;
    page.ShowSearchResult(r, key);
  }

  /** A click on load-more while `shown` items of `total` are listed: a
      request for the next page goes out for the cached entry. */
  method SubmitMore(page: MovieSearch, q: Pairs, key: string, shown: seq<Movie>, total: nat)
    returns (b: Option<Begun>)
    requires Searches(q, key)
    requires page.Valid() && Showing(page, key, shown, total)
    requires |shown| < total
    modifies page`fetching
    ensures page.Valid() && Showing(page, key, shown, total)
    ensures b == Some(Issued(More(key, page.cache[key]), Some(NextPage(|shown|))))
  {
    assert !IsInFlight(page.fetching, key, true);
    var begun := Click(page, q, key);
    b := Some(begun);
  }

  /** The load-more request answered with `next`. */
  method AnswerMore(page: MovieSearch, key: string, shown: seq<Movie>, next: seq<Movie>, total: nat)
    requires page.Valid() && Showing(page, key, shown, total)
    requires |shown| < total && |shown| + |next| <= total
    modifies page, page.cache[key]
    ensures page.Valid()
    ensures Showing(page, key, shown + next, total)
    ensures page.cache == old(page.cache)
  {
    var entry := page.cache[key];
    var r := ReceiveMore(page, key, shown, next, total);
    page.Settle(More(key, entry));
    assert page.fetching == {key};
    assert page.Cached(key) == Some(Listing(shown + next, total));
    var shownMore := ShownMore(page.view, Listing(next, total), page.Cached(key));
    assert !shownMore.threw;
    assert shownMore.view == View(Found(Some(total)), shown + next, None, |shown + next| < total);
    page.ShowMoreResult(r, key);
  }

  /** A first search on a fresh page, answered with `first` out of
      `total`. */
  method FirstSearch(page: MovieSearch, q: Pairs, key: string, first: seq<Movie>, total: nat)
    returns (requested: Option<real>)
    requires Searches(q, key)
    requires page.Valid() && page.cache == map[] && page.fetching == {}
    requires |first| <= total
    modifies page
    ensures page.Valid() && Showing(page, key, first, total)
    ensures fresh(page.cache[key])
    ensures requested == None
  {
    var b := SubmitFirst(page, q, key);
    AnswerFirst(page, key, first, total);
    requested := b.value.page;
  }

  /** One load-more round trip while `shown` items of `total` are listed,
      answered with `next`. */
  method NextPageRound(page: MovieSearch, q: Pairs, key: string, shown: seq<Movie>, next: seq<Movie>, total: nat)
    returns (requested: Option<real>)
    requires Searches(q, key)
    requires page.Valid() && Showing(page, key, shown, total)
    requires |shown| < total && |shown| + |next| <= total
    modifies page, page.cache[key]
    ensures page.Valid() && Showing(page, key, shown + next, total)
    ensures page.cache == old(page.cache)
    ensures requested == Some(NextPage(|shown|))
  {
    var b := SubmitMore(page, q, key, shown, total);
    AnswerMore(page, key, shown, next, total);
    requested := b.value.page;
  }

  /** A click on load-more once all `total` items are listed: suppressed,
      and nothing changes. */
  method SubmitExhausted(page: MovieSearch, q: Pairs, key: string, items: seq<Movie>, total: nat)
    returns (b: Option<Begun>)
    requires Searches(q, key)
    requires page.Valid() && Showing(page, key, items, total)
    requires |items| == total
    modifies page`fetching
    ensures page.Valid() && Showing(page, key, items, total)
    ensures b == Some(Suppressed)
  {
    assert page.Cached(key) == Some(Listing(items, total));
    assert Admission(page.fetching, page.Cached(key), key, true) == Declined;
    var begun := Click(page, q, key);
    b := Some(begun);
  }

  /** 23 results in pages of 10, 10 and 3: the first search lists 10 items
      with the button; load-more asks for page 2, then page 3; then all 23
      are listed, the button is gone and load-more is suppressed. */
  method PagedSearch(q: Pairs, key: string, p1: seq<Movie>, p2: seq<Movie>, p3: seq<Movie>)
    returns (pages: seq<Option<real>>, listed: seq<Movie>, button: bool, last: Option<Begun>)
    requires Searches(q, key)
    requires |p1| == 10 && |p2| == 10 && |p3| == 3
    ensures pages == [None, Some(2.0), Some(3.0)]
    ensures listed == p1 + p2 + p3
    ensures !button
    ensures last == Some(Suppressed)
  {
    var page := new MovieSearch();
    var a := FirstSearch(page, q, key, p1, 23);
    var b := NextPageRound(page, q, key, p1, p2, 23);
    var c := NextPageRound(page, q, key, p1 + p2, p3, 23);
    FullPages();
    last := SubmitExhausted(page, q, key, p1 + p2 + p3, 23);
    pages := [a, b, c];
    listed := page.view.items;
    button := page.view.button;
  }

  /** Two clicks on load-more before the first answer (35 results, 10
      shown): both requests ask for page 2, whose items are then pushed
      twice; the next click asks for page 4, page 3 is never requested, and
      the button disappears once 35 items are listed. */
  method DoubleClickLoadMore(q: Pairs, key: string, p1: seq<Movie>, p2: seq<Movie>, p4: seq<Movie>)
    returns (pages: seq<Option<real>>, listed: seq<Movie>, button: bool, last: Option<Begun>)
    requires Searches(q, key)
    requires |p1| == 10 && |p2| == 10 && |p4| == 5
    ensures pages == [None, Some(2.0), Some(2.0), Some(4.0)]
    ensures listed == p1 + p2 + p2 + p4
    ensures !button
    ensures last == Some(Suppressed)
  {
    var page := new MovieSearch();
    var a := FirstSearch(page, q, key, p1, 35);
    var b, c := DoubleClick(page, q, key, p1, p2, 35);
    FullPages();
    var d := NextPageRound(page, q, key, p1 + p2 + p2, p4, 35);
    last := SubmitExhausted(page, q, key, p1 + p2 + p2 + p4, 35);
    pages := [a, b, c, d];
    listed := page.view.items;
    button := page.view.button;
  }

  /** Two load-more requests issued back to back for the same key, then
      both answered with `next`. */
  method DoubleClick(page: MovieSearch, q: Pairs, key: string, shown: seq<Movie>, next: seq<Movie>, total: nat)
    returns (first: Option<real>, second: Option<real>)
    requires Searches(q, key)
    requires page.Valid() && Showing(page, key, shown, total)
    requires |shown| < total && |shown| + 2 * |next| <= total
    modifies page, page.cache[key]
    ensures page.Valid() && Showing(page, key, shown + next + next, total)
    ensures page.cache == old(page.cache)
    ensures first == second == Some(NextPage(|shown|))
  {
    var b := SubmitMore(page, q, key, shown, total);
    var c := SubmitMore(page, q, key, shown, total);
    AnswerMore(page, key, shown, next, total);
    AnswerMore(page, key, shown + next, next, total);
    first, second := b.value.page, c.value.page;
  }

  /** After a search whose key is `key + "false"`, the bare marker it left
      behind makes every initial search for `key` resolve to `false`: no
      request goes out and the panel shows the text "undefined". */
  method BareKeyBlocksSearch(q1: Pairs, q2: Pairs, key: string, items: seq<Movie>, total: nat)
    returns (second: Option<Begun>, shown: View)
    requires Searches(q1, key + "false") && Searches(q2, key)
    requires |items| <= total
    ensures second == Some(Suppressed)
    ensures shown == View(Message("undefined"), [], None, false)
  {
    var page := new MovieSearch();
    var _ := FirstSearch(page, q1, key + "false", items, total);
    second := BlockedSearch(page, q2, key, key + "false");
    page.ShowSearchResult(Refused, key);
    shown := page.view;
  }

  /** An initial search for `key` while the bare `other` marker is left in
      `fetching`. */
  method BlockedSearch(page: MovieSearch, q: Pairs, key: string, other: string) returns (b: Option<Begun>)
    requires Searches(q, key) && other == key + "false"
    requires page.Valid() && other in page.fetching
    modifies page`current, page`fetching
    ensures page.Valid() && page.current == Some(key)
    ensures b == Some(Suppressed)
  {
    assert IsInFlight(page.fetching, key, false);
    var begun := Search(page, q, key);
    b := Some(begun);
  }

  /** For a plain term, the plain search for the term with "false"
      appended has the term's key with "false" appended ("catfalse" and
      "cat"). */
  lemma SuffixedSearch(term: string)
    requires term != [] && forall i :: 0 <= i < |term| ==> IsUnreserved(term[i])
    ensures Searches([("s", term + "false")], ("s=" + term) + "false")
  {
    var longer := term + "false";
    UnreservedAppend(term, "false");
    assert "s=" + longer == ("s=" + term) + "false";
    PlainSearch(longer);
  }

  /** The instance on plain terms: after searching `term + "false"`, the
      search for `term` is dead. */
  method CollidingSearches(term: string, items: seq<Movie>, total: nat) returns (second: Option<Begun>, shown: View)
    requires term != [] && forall i :: 0 <= i < |term| ==> IsUnreserved(term[i])
    requires |items| <= total
    ensures second == Some(Suppressed)
    ensures shown == View(Message("undefined"), [], None, false)
  {
    SuffixedSearch(term);
    PlainSearch(term);
    second, shown := BareKeyBlocksSearch([("s", term + "false")], [("s", term)], "s=" + term, items, total);
  }

  /** Page numbers after one, two and three full pages. */
  lemma FullPages()
    ensures NextPage(10) == 2.0 && NextPage(20) == 3.0 && NextPage(30) == 4.0
  {
    NextPageWhole(10);
    NextPageWhole(20);
    NextPageWhole(30);
  }

  /** A second search submitted before the first is answered: the first
      answer still fills the cache, but the panel, which belongs to the
      second search, stays as it was. */
  method SupersededAnswer(q1: Pairs, k1: string, q2: Pairs, k2: string, items: seq<Movie>, total: nat)
    returns (cached: Option<Data>, shown: View)
    requires Searches(q1, k1) && Searches(q2, k2)
    requires k1 != k2 && k1 != k2 + "false"
    ensures cached == Some(Listing(items, total))
    ensures shown == EmptyView
  {
    var page := new MovieSearch();
    var _ := SubmitFirst(page, q1, k1);
    var _ := SubmitSecond(page, q2, k2, k1);
    AnswerStale(page, k1, items, total);
    cached, shown := page.Cached(k1), page.view;
  }

  /** The initial request for `key` answered after another key became the
      active one. */
  method AnswerStale(page: MovieSearch, key: string, items: seq<Movie>, total: nat)
    requires page.Valid() && page.cache == map[] && page.current != Some(key)
    modifies page
    ensures page.Cached(key) == Some(Listing(items, total))
    ensures page.view == old(page.view)
  {
    var r := ReceiveFirst(page, key, items, total);
    var before := page.view;
    page.Settle(Initial(key));
    page.ShowSearchResult(r, key);
    assert page.view == before;
  }

  /** A search for `key` while only the bare `other` marker is in flight. */
  method SubmitSecond(page: MovieSearch, q: Pairs, key: string, other: string) returns (b: Option<Begun>)
    requires Searches(q, key) && other != key && other != key + "false"
    requires page.Valid() && page.cache == map[] && page.fetching == {other}
    requires page.view == EmptyView
    modifies page`current, page`fetching
    ensures page.Valid() && page.cache == map[] && page.view == EmptyView
    ensures page.current == Some(key)
    ensures b == Some(Issued(Initial(key), None))
  {
    var begun := Search(page, q, key);
    b := Some(begun);
  }
}

/** The decisions `loadSearchResult` (script.js:57-90) takes before and
    after its request, as pure functions of the state it reads: whether to
    answer at once, from the cache, or with a request for which page; and
    how a load-more page extends the cached entry. */
module Pagination {
  import opened Wrappers
  import opened Responses
  import opened InFlight

  /** `pageSize` (script.js:6). */
  const PageSize: nat := 10

  /** `cachedData.Search.length / pageSize + 1` (script.js:68): a JavaScript
      division, so not floored. */
  function NextPage(length: nat): real
  {
    length as real / PageSize as real + 1.0
  }

  predicate IsWhole(r: real)
  {
    r.Floor as real == r
  }

  /** The page number is a whole number exactly when every page so far was
      full, and then it is the number of the page after them. */
  lemma NextPageWhole(length: nat)
    ensures IsWhole(NextPage(length)) <==> length % PageSize == 0
    ensures length % PageSize == 0 ==> NextPage(length) == (length / PageSize + 1) as real
  {
    var q, r := length / PageSize, length % PageSize;
    assert length == PageSize * q + r;
    assert NextPage(length) == (q + 1) as real + r as real / 10.0;
    if r != 0 {
      assert 0.0 < r as real / 10.0 < 1.0;
      assert NextPage(length).Floor == q + 1;
    }
  }

    /** How `loadSearchResult` answers a call. */
  datatype Decision =
    | Declined                  // resolves to `false`
    | FromCache                 // resolves to the cached entry
    | Request(page: Option<real>) // issues a request, with this `page` parameter if any
    | Throws                    // throws a TypeError before any promise exists

  /** script.js:58-71 as a function of the `fetching` set, the cached entry
      for the key (if any), the key and the mode. */
  function Admission(fetching: set<string>, cached: Option<Data>, key: string, more: bool): Decision
  {
    if IsInFlight(fetching, key, more) then Declined
    else if more then
      match cached
      case None => Declined
      case Some(d) =>
        match d.search
        case None => Throws          // `cachedData.Search.length` of undefined
        case Some(items) =>
          if d.totalResults == Some(|items|) then Declined else Request(Some(NextPage(|items|)))
    else if cached.Some? then FromCache
    else Request(None)
  }

  /** A call whose marker is found in `fetching` resolves to `false`. */
  lemma InFlightDeclines(fetching: set<string>, cached: Option<Data>, key: string, more: bool)
    requires IsInFlight(fetching, key, more)
    ensures Admission(fetching, cached, key, more) == Declined
  {
  }

  /** Load-more is suppressed, and nothing is requested, exactly when there is
      no cache entry or its item count equals `totalResults`; an entry
      without items makes the call throw. */
  lemma LoadMoreSuppression(fetching: set<string>, cached: Option<Data>, key: string)
    requires !IsInFlight(fetching, key, true)
    requires cached.Some? ==> cached.value.search.Some?
    ensures Admission(fetching, cached, key, true) == Declined
            <==> (cached.None? || cached.value.totalResults == Some(|cached.value.search.value|))
    ensures Admission(fetching, cached, key, true) != Declined
            ==> Admission(fetching, cached, key, true) == Request(Some(NextPage(|cached.value.search.value|)))
  {
  }

  /** An initial call answers from the cache whenever the key is cached,
      and otherwise requests the first page (no `page` parameter). */
  lemma InitialUsesCache(fetching: set<string>, cached: Option<Data>, key: string)
    requires !IsInFlight(fetching, key, false)
    ensures Admission(fetching, cached, key, false) == if cached.Some? then FromCache else Request(None)
  {
  }

  /** script.js:79-81: a successful page is pushed onto the cached items
      (`None` when the push throws, because either `Search` is missing); a
      failed page leaves the entry as it was. */
  function Appended(entry: Data, page: Data): (r: Option<Data>)
    ensures !IsSuccessful(page) ==> r == Some(entry)
    ensures IsSuccessful(page) ==> (r.Some? <==> entry.search.Some? && page.search.Some?)
    ensures IsSuccessful(page) && r.Some? ==>
              && r.value.search == Some(entry.search.value + page.search.value)
              && r.value == entry.(search := r.value.search)
  {
    if !IsSuccessful(page) then Some(entry)
    else if entry.search.None? || page.search.None? then None
    else Some(entry.(search := Some(entry.search.value + page.search.value)))
  }

  // ---------------------------------------------------------------------
  // Load-more under the API's pagination contract

  function Min(a: int, b: int): int
  {
    if a < b then a else b
  }

  /** The API's answer for page `page` of the result list `all`: the items
      of that page, or a failure past the end. */
  ghost function ApiPage(all: seq<Movie>, page: real): Data
  {
    var p := page.Floor;
    if IsWhole(page) && 1 <= p && PageSize * (p - 1) < |all| then
      Data(Some("True"), Some(all[PageSize * (p - 1)..Min(PageSize * p, |all|)]), Some(|all|), None)
    else
      Data(Some("False"), None, None, Some("Movie not found!"))
  }

  /** The cached entry once pages 1 to `k` of `all` have been loaded. */
  ghost function Loaded(all: seq<Movie>, k: nat): Data
  {
    Data(Some("True"), Some(all[..Min(PageSize * k, |all|)]), Some(|all|), None)
  }

  /** The entry after up to `fuel` clicks on "load more", each answered by
      the API and settled before the next click. */
  ghost function Drive(d: Data, all: seq<Movie>, fetching: set<string>, key: string, fuel: nat): Data
    decreases fuel
  {
    if fuel == 0 then d
    else
      match Admission(fetching, Some(d), key, true)
      case Request(Some(p)) =>
        (match Appended(d, ApiPage(all, p))
         case Some(next) => Drive(next, all, fetching, key, fuel - 1)
         case None => d)
      case _ => d
  }

  /** The first page is the first request's answer. */
  lemma FirstPage(all: seq<Movie>)
    requires |all| > 0
    ensures ApiPage(all, 1.0) == Loaded(all, 1)
  {
    assert (1.0).Floor == 1;
  }

  /** One click: after `k` loaded pages, load-more asks for page `k + 1`,
      and the answer extends the entry by exactly that page; once every
      item is loaded, load-more is declined. */
  lemma LoadMoreStep(all: seq<Movie>, k: nat, fetching: set<string>, key: string)
    requires 1 <= k
    requires !IsInFlight(fetching, key, true)
    ensures PageSize * k < |all| ==>
              && Admission(fetching, Some(Loaded(all, k)), key, true) == Request(Some((k + 1) as real))
              && Appended(Loaded(all, k), ApiPage(all, (k + 1) as real)) == Some(Loaded(all, k + 1))
    ensures PageSize * k >= |all| ==> Admission(fetching, Some(Loaded(all, k)), key, true) == Declined
  {
    if PageSize * k < |all| {
      NextPageWhole(PageSize * k);
      assert (PageSize * k) / PageSize == k;
      assert ((k + 1) as real).Floor == k + 1;
      var page := all[PageSize * k..Min(PageSize * (k + 1), |all|)];
      assert all[..PageSize * k] + page == all[..Min(PageSize * (k + 1), |all|)];
    }
  }

  /** Under the API's pagination contract, clicking "load more" until it is
      declined retrieves every result exactly once and in order. */
  lemma {:induction false} LoadMoreRetrievesAll(all: seq<Movie>, k: nat, fetching: set<string>, key: string, fuel: nat)
    requires 1 <= k
    requires !IsInFlight(fetching, key, true)
    requires |all| <= PageSize * (k + fuel)
    ensures Drive(Loaded(all, k), all, fetching, key, fuel) == Loaded(all, k + fuel)
    ensures Drive(Loaded(all, k), all, fetching, key, fuel).search == Some(all)
    decreases fuel
  {
    LoadMoreStep(all, k, fetching, key);
    if PageSize * k < |all| {
      LoadMoreRetrievesAll(all, k + 1, fetching, key, fuel - 1);
    } else {
      assert Loaded(all, k) == Loaded(all, k + fuel);
      assert all[..|all|] == all;
    }
  }
}

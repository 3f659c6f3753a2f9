/** The search page's mutable state and the steps that change it: the
    `cache` Map (script.js:1), the `fetching` Set (script.js:10),
    `currentSearchParams` (script.js:11) and the results panel.
    `loadSearchResult` (script.js:57-90) is split at its suspension points
    into `Begin` (up to the `fetch` call), `Complete` (the first two `.then`
    handlers) and `Settle` (the `.finally` handler); the network's answer is
    an input of `Complete`. */
module Coordinator {
  import opened Wrappers
  import opened FormUrlEncoded
  import opened Query
  import opened Responses
  import opened InFlight
  import opened Pagination
  import opened Display

  /** A cached response object. Its `Search` array is the one place updated
      in place (`cachedData.Search.push(...)`, script.js:80). */
  class Entry {
    const response: Option<string>
    var search: Option<seq<Movie>>
    const totalResults: Option<int>
    const error: Option<string>

    constructor (d: Data)
      ensures Snapshot() == d
    {
      response, search, totalResults, error := d.response, d.search, d.totalResults, d.error;
    }

    /** The entry's current value. */
    function Snapshot(): Data
      reads this
    {
      Data(response, search, totalResults, error)
    }

    /** `Array.prototype.push(...items)` on the `Search` array. */
    method Push(items: seq<Movie>)
      requires search.Some?
      modifies this
      ensures Snapshot() == old(Snapshot()).(search := Some(old(search.value) + items))
    {
      search := Some(search.value + items);
    }
  }

  /** A request in flight, with what its closure captured: the cache key,
      the mode, and in load-more mode the entry read at script.js:63. */
  datatype Pending =
    | Initial(key: string)
    | More(key: string, target: Entry)

  /** How `Begin` ended. */
  datatype Begun =
    | Suppressed                                // `Promise.resolve(false)`
    | Hit(entry: Entry)                         // `Promise.resolve(cache.get(cacheKey))`
    | Issued(request: Pending, page: Option<real>) // `fetch` called, with this `page` parameter
    | Threw                                     // TypeError thrown synchronously
  {
    function Decision(): Pagination.Decision
    {
      match this
      case Suppressed => Declined
      case Hit(_) => FromCache
      case Issued(_, page) => Request(page)
      case Threw => Throws
    }
  }

  /** What the promise of `loadSearchResult` settles to. */
  datatype Reply =
    | Refused          // resolved to `false`
    | Answer(data: Data)
    | Rejected

  /** The single page instance: cache, in-flight markers, active key and
      results panel. */
  class MovieSearch {
    var cache: map<string, Entry>
    var fetching: set<string>
    var current: Option<string>
    var view: View

    /** Every key has an entry object of its own. */
    ghost predicate Valid()
      reads this`cache
    {
      forall k1, k2 | k1 in cache && k2 in cache && k1 != k2 :: cache[k1] != cache[k2]
    }

    /** `cache.get(key)`, read as a value. */
    function Cached(key: string): Option<Data>
      reads this`cache, cache.Values
    {
      if key in cache then Some(cache[key].Snapshot()) else None
    }

    constructor ()
      ensures Valid()
      ensures cache == map[] && fetching == {} && current == None && view == EmptyView
    {
      cache, fetching, current, view := map[], {}, None, EmptyView;
    }

    /** `loadSearchResult(searchParams, more)` up to the request
        (script.js:58-73): the answer follows `Admission`; an issued request
        adds the bare cache key to `fetching`, and nothing else changes. */
    method Begin(params: Pairs, more: bool) returns (b: Begun)
      requires Valid()
      modifies this`fetching
      ensures Valid()
      ensures b.Decision() == Admission(old(fetching), Cached(Serialize(params)), Serialize(params), more)
      ensures b.Hit? ==> Serialize(params) in cache && b.entry == cache[Serialize(params)]
      ensures b.Issued? ==> b.request.key == Serialize(params) && b.request.More? == more
      ensures b.Issued? && more ==> Serialize(params) in cache && b.request.target == cache[Serialize(params)]
      ensures fetching == if b.Issued? then MarkIssued(old(fetching), Serialize(params)) else old(fetching)
    {
      var key := Serialize(params);
      if IsInFlight(fetching, key, more) {
        return Suppressed;
      }
      if more {
        if key !in cache {
          return Suppressed;
        }
        var entry := cache[key];
        if entry.search.None? {
          return Threw;
        }
        if entry.totalResults == Some(|entry.search.value|) {
          return Suppressed;
        }
        fetching := MarkIssued(fetching, key);
        return Issued(More(key, entry), Some(NextPage(|entry.search.value|)));
      } else if key in cache {
        return Hit(cache[key]);
      }
      fetching := MarkIssued(fetching, key);
      b := Issued(Initial(key), None);
    }

    /** The response handlers (script.js:75-86). An initial response, failed
        or not, becomes a fresh cache entry for the key; a load-more
        response pushes its items into the captured entry when it succeeded,
        and its own record is what the promise resolves to. No other entry
        changes. */
    method Complete(req: Pending, t: Transport) returns (r: Reply)
      requires Valid()
      modifies this`cache, if req.More? then {req.target} else {}
      ensures Valid()
      ensures t.TransportFailed? ==> r == Rejected && cache == old(cache)
      ensures t.TransportFailed? && req.More? ==> req.target.Snapshot() == old(req.target.Snapshot())
      ensures t.Delivered? && req.Initial? ==>
                && r == Answer(Parse(t.body))
                && cache.Keys == old(cache.Keys) + {req.key}
                && fresh(cache[req.key]) && Cached(req.key) == Some(Parse(t.body))
                && forall k | k in old(cache) && k != req.key :: cache[k] == old(cache[k])
      ensures t.Delivered? && req.More? ==>
                var a := Appended(old(req.target.Snapshot()), Parse(t.body));
                && cache == old(cache)
                && r == (if a.None? then Rejected else Answer(Parse(t.body)))
                && req.target.Snapshot() == a.GetOr(old(req.target.Snapshot()))
      ensures req.More? ==> forall k | k in cache && cache[k] != req.target ::
                cache[k].Snapshot() == old(cache[k].Snapshot())
      ensures req.More? && req.key in old(cache) && old(cache[req.key]) == req.target ==>
                forall k | k in cache && k != req.key :: cache[k].Snapshot() == old(cache[k].Snapshot())
    {
      match t
      case TransportFailed =>
        r := Rejected;
      case Delivered(body) =>
        match req
        case Initial(key) =>
          r := CacheFirstPage(key, Parse(body));
        case More(_, target) =>
          r := AppendPage(target, Parse(body));
    }

    /** script.js:83-85: the parsed response, whatever it says, becomes the
        cache entry for the key. */
    method CacheFirstPage(key: string, data: Data) returns (r: Reply)
      requires Valid()
      modifies this`cache
      ensures Valid()
      ensures r == Answer(data)
      ensures cache.Keys == old(cache.Keys) + {key}
      ensures fresh(cache[key]) && Cached(key) == Some(data)
      ensures forall k | k in old(cache) && k != key :: cache[k] == old(cache[k])
    {
      var e := new Entry(data);
      cache := cache[key := e];
      r := Answer(data);
    }

    /** script.js:78-82: a successful page is pushed onto the captured
        entry; `push` on a missing `Search` array rejects the promise. */
    method AppendPage(target: Entry, data: Data) returns (r: Reply)
      modifies target
      ensures var a := Appended(old(target.Snapshot()), data);
              && r == (if a.None? then Rejected else Answer(data))
              && target.Snapshot() == a.GetOr(old(target.Snapshot()))
    {
      if !IsSuccessful(data) {
        r := Answer(data);
      } else if target.search.None? || data.search.None? {
        r := Rejected;
      } else {
        target.Push(data.search.value);
        r := Answer(data);
      }
    }

    /** The `.finally` handler (script.js:87-89): drops `cacheKey + more`. */
    method Settle(req: Pending)
      modifies this`fetching
      ensures fetching == MarkSettled(old(fetching), req.key, req.More?)
      ensures !IsInFlight(fetching, req.key, req.More?)
    {
      fetching := MarkSettled(fetching, req.key, req.More?);
    }

    /** `displaySearchResult(data, searchParams)`: nothing happens unless the
        key is the active one (script.js:100-102). */
    method DisplaySearchResult(d: Data, key: string) returns (threw: bool)
      modifies this`view
      ensures current != Some(key) ==> view == old(view) && !threw
      ensures current == Some(key) ==> Rendered(view, threw) == Shown(d)
    {
      if current != Some(key) {
        return false;
      }
      var out := Shown(d);
      view, threw := out.view, out.threw;
    }

    /** `displayMoreSearchResult(data, searchParams)`: nothing happens unless
        the key is the active one (script.js:125-127); the button decision
        reads the cache entry of the active key (script.js:141). */
    method DisplayMoreSearchResult(d: Data, key: string) returns (threw: bool)
      modifies this`view
      ensures current != Some(key) ==> view == old(view) && !threw
      ensures current == Some(key) ==> Rendered(view, threw) == ShownMore(old(view), d, Cached(key))
    {
      if current != Some(key) {
        return false;
      }
      var out := ShownMore(view, d, Cached(key));
      view, threw := out.view, out.threw;
    }

    /** The initial callbacks (script.js:177-178): display the reply, and the
        generic error if that throws or the promise rejected. A stale key
        changes nothing. */
    method ShowSearchResult(r: Reply, key: string)
      modifies this`view
      ensures current != Some(key) ==> view == old(view)
      ensures current == Some(key) ==> view == match r
        case Refused => Shown(FalseValue).view
        case Answer(d) => if Shown(d).threw then Shown(GenericError).view else Shown(d).view
        case Rejected => Shown(GenericError).view
    {
      match r
      case Refused =>
        var _ := DisplaySearchResult(FalseValue, key);
      case Answer(d) =>
        var threw := DisplaySearchResult(d, key);
        if threw {
          var _ := DisplaySearchResult(GenericError, key);
        }
      case Rejected =>
        var _ := DisplaySearchResult(GenericError, key);
    }

    /** The load-more callbacks (script.js:155-161): a `false` reply is
        dropped; otherwise display it, and the generic error if that throws
        or the promise rejected. A stale key changes nothing. */
    method ShowMoreResult(r: Reply, key: string)
      modifies this`view
      ensures current != Some(key) ==> view == old(view)
      ensures current == Some(key) && r.Refused? ==> view == old(view)
      ensures current == Some(key) && r.Answer? ==>
                var first := ShownMore(old(view), r.data, Cached(key));
                view == if first.threw then ShownMore(first.view, GenericError, Cached(key)).view else first.view
      ensures current == Some(key) && r.Rejected? ==>
                view == ShownMore(old(view), GenericError, Cached(key)).view
    {
      match r
      case Refused =>
      case Answer(d) =>
        var threw := DisplayMoreSearchResult(d, key);
        if threw {
          var _ := DisplayMoreSearchResult(GenericError, key);
        }
      case Rejected =>
        var _ := DisplayMoreSearchResult(GenericError, key);
    }

    /** `loadAndDisplaySearchResult` (script.js:164-179) up to the request: no
        search, no change; otherwise the key becomes the active one at once
        (script.js:175) and an initial `Begin` follows. */
    method LoadAndDisplay(q: Pairs) returns (b: Option<Begun>)
      requires Valid()
      modifies this`current, this`fetching
      ensures Valid()
      ensures ApiSearchParams(q).None? ==> b.None? && current == old(current) && fetching == old(fetching)
      ensures ApiSearchParams(q).Some? ==>
                var key := Serialize(ApiSearchParams(q).value);
                && current == Some(key)
                && b.Some? && b.value.Decision() == Admission(old(fetching), Cached(key), key, false)
                && (b.value.Hit? ==> key in cache && b.value.entry == cache[key])
                && (b.value.Issued? ==> b.value.request == Initial(key))
                && fetching == if b.value.Issued? then MarkIssued(old(fetching), key) else old(fetching)
    {
      var params := ApiSearchParams(q);
      if params.None? {
        return None;
      }
      current := Some(Serialize(params.value));
      var begun := Begin(params.value, false);
      b := Some(begun);
    }

    /** `loadMore` (script.js:149-162) up to the request. */
    method LoadMore(q: Pairs) returns (b: Option<Begun>)
      requires Valid()
      modifies this`fetching
      ensures Valid()
      ensures ApiSearchParams(q).None? ==> b.None? && fetching == old(fetching)
      ensures ApiSearchParams(q).Some? ==>
                var key := Serialize(ApiSearchParams(q).value);
                && b.Some? && b.value.Decision() == Admission(old(fetching), Cached(key), key, true)
                && (b.value.Issued? ==> b.value.request.More? && b.value.request.key == key &&
                                         key in cache && b.value.request.target == cache[key])
                && fetching == if b.value.Issued? then MarkIssued(old(fetching), key) else old(fetching)
    {
      var params := ApiSearchParams(q);
      if params.None? {
        return None;
      }
      var begun := Begin(params.value, true);
      b := Some(begun);
    }
  }
}

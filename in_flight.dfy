/** The `fetching` set of script.js: markers for requests in flight. The
    lookup (script.js:59) and the removal (script.js:88) use the cache key
    followed by the text of the `more` flag, but the insertion
    (script.js:72) uses the bare cache key. The functions below model the
    code as written; the `Corrected` ones model the evidently intended
    discipline, where one composite marker serves all three. */
module InFlight {
  import FormUrlEncoded

  /** `String(more)`, as `cacheKey + more` writes it. */
  function FlagText(more: bool): string
  {
    if more then "true" else "false"
  }

  /** `cacheKey + more`. */
  function Marker(key: string, more: bool): string
  {
    key + FlagText(more)
  }

  /** `fetching.has(cacheKey + more)` (script.js:59). */
  predicate IsInFlight(fetching: set<string>, key: string, more: bool)
  {
    Marker(key, more) in fetching
  }

  /** `fetching.add(cacheKey)` (script.js:72), as written. */
  function MarkIssued(fetching: set<string>, key: string): set<string>
  {
    fetching + {key}
  }

  /** `fetching.delete(cacheKey + more)` (script.js:88). */
  function MarkSettled(fetching: set<string>, key: string, more: bool): set<string>
  {
    fetching - {Marker(key, more)}
  }

  /** The insertion the lookup and the removal expect. */
  function MarkIssuedCorrected(fetching: set<string>, key: string, more: bool): set<string>
  {
    fetching + {Marker(key, more)}
  }

  // ---------------------------------------------------------------------
  // As written

  /** The marker an issued request leaves never answers the lookup of that
      same request, and settling does not remove it: bare keys pile up. */
  lemma IssueNeverDeduplicates(fetching: set<string>, key: string, more: bool)
    ensures IsInFlight(MarkIssued(fetching, key), key, more) == IsInFlight(fetching, key, more)
    ensures key in MarkSettled(MarkIssued(fetching, key), key, more)
  {
    assert |Marker(key, more)| > |key|;
  }

  /** A bare key left by one search can answer the lookup of another: for
      every term, the key of the search for the term followed by "false"
      ("catfalse") is the marker of an initial search for the term ("cat"). */
  lemma BareKeyCollides(term: string)
    ensures IsInFlight(MarkIssued({}, FormUrlEncoded.Serialize([("s", term + "false")])),
                       FormUrlEncoded.Serialize([("s", term)]), false)
  {
    var escaped := FormUrlEncoded.Escape(term);
    FormUrlEncoded.EscapeAppend(term, "false");
    PlainWords();
    SinglePair("s", term);
    SinglePair("s", term + "false");
    assert Marker("s" + "=" + escaped, false) == "s" + "=" + (escaped + "false");
  }

  /** The parameter name `s` and the flag text "false" are written as they are. */
  lemma PlainWords()
    ensures FormUrlEncoded.Escape("s") == "s" && FormUrlEncoded.Escape("false") == "false"
  {
    FormUrlEncoded.EscapeUnreserved("s");
    FormUrlEncoded.EscapeUnreserved("false");
  }

  /** A one-pair list serializes to its single `name=value` text. */
  lemma SinglePair(name: string, value: string)
    ensures FormUrlEncoded.Serialize([(name, value)])
            == FormUrlEncoded.Escape(name) + "=" + FormUrlEncoded.Escape(value)
  {
  }

  // ---------------------------------------------------------------------
  // Corrected

  /** Distinct requests have distinct markers: the flag text can be told
      from the end of the marker ("...ue" against "...se"), and then the key
      is what precedes it. */
  lemma MarkerInjective(k1: string, m1: bool, k2: string, m2: bool)
    requires Marker(k1, m1) == Marker(k2, m2)
    ensures k1 == k2 && m1 == m2
  {
    var x := Marker(k1, m1);
    assert x[|x| - 2] == FlagText(m1)[|FlagText(m1)| - 2];
    assert x[|x| - 2] == FlagText(m2)[|FlagText(m2)| - 2];
    assert k1 == x[..|k1|] && k2 == x[..|k2|];
  }

  /** With the corrected insertion, issuing a request makes the lookup of
      that same request, and of no other, answer true: no bare key is left to
      collide with another search's marker. */
  lemma CorrectedIssueMarksOnlyItself(fetching: set<string>, key: string, more: bool, other: string, otherMore: bool)
    ensures IsInFlight(MarkIssuedCorrected(fetching, key, more), other, otherMore)
            <==> (other == key && otherMore == more) || IsInFlight(fetching, other, otherMore)
  {
    if Marker(other, otherMore) == Marker(key, more) {
      MarkerInjective(other, otherMore, key, more);
    }
  }

  /** The fetching set exactly records a multiset of requests in flight,
      each (key, mode) pair at most once. */
  ghost predicate Tracks(fetching: set<string>, pending: multiset<(string, bool)>)
  {
    && (forall p | p in pending :: pending[p] == 1)
    && (forall p | p in pending :: Marker(p.0, p.1) in fetching)
    && (forall m | m in fetching :: exists p | p in pending :: m == Marker(p.0, p.1))
  }

  /** With the corrected insertion, the lookup answers exactly whether the
      same request is in flight, and issuing keeps every pair at most once. */
  lemma CorrectedBeginAdmitsOnce(fetching: set<string>, pending: multiset<(string, bool)>, key: string, more: bool)
    requires Tracks(fetching, pending)
    ensures IsInFlight(fetching, key, more) <==> (key, more) in pending
    ensures !IsInFlight(fetching, key, more) ==>
              Tracks(MarkIssuedCorrected(fetching, key, more), pending + multiset{(key, more)})
  {
    if IsInFlight(fetching, key, more) {
      var p :| p in pending && Marker(key, more) == Marker(p.0, p.1);
      MarkerInjective(key, more, p.0, p.1);
    }
  }

  /** With the corrected insertion, settling a request clears its marker
      and only its marker. */
  lemma CorrectedSettleReleases(fetching: set<string>, pending: multiset<(string, bool)>, key: string, more: bool)
    requires Tracks(fetching, pending)
    requires (key, more) in pending
    ensures Tracks(MarkSettled(fetching, key, more), pending - multiset{(key, more)})
    ensures !IsInFlight(MarkSettled(fetching, key, more), key, more)
  {
    var rest := pending - multiset{(key, more)};
    assert (key, more) !in rest;
    forall p | p in rest ensures Marker(p.0, p.1) in MarkSettled(fetching, key, more) {
      if Marker(p.0, p.1) == Marker(key, more) {
        MarkerInjective(p.0, p.1, key, more);
      }
    }
    forall m | m in MarkSettled(fetching, key, more) ensures exists p | p in rest :: m == Marker(p.0, p.1) {
      var p :| p in pending && m == Marker(p.0, p.1);
      assert p != (key, more);
      assert p in rest;
    }
  }
}

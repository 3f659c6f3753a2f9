/** The query normaliser of script.js: `getTrimmedSearchParam` and
    `getApiSearchParams`. The address-bar query arrives already split into
    name/value pairs (the parsing half of `URLSearchParams` is outside the
    model). */
module Query {
  import opened Wrappers
  import opened JsText
  import opened FormUrlEncoded

  /** `URLSearchParams.prototype.get`: the value of the first pair with the
      given name; `None` exactly when `has` would say false. */
  function Lookup(q: Pairs, name: string): (r: Option<string>)
    ensures r.None? <==> forall i :: 0 <= i < |q| ==> q[i].0 != name
    ensures r.Some? ==> exists i :: 0 <= i < |q| && q[i] == (name, r.value) &&
                                    forall j :: 0 <= j < i ==> q[j].0 != name
  {
    if q == [] then None
    else if q[0].0 == name then Some(q[0].1)
    else
      var r := Lookup(q[1..], name);
      assert forall i :: 1 <= i < |q| ==> q[i] == q[1..][i - 1];
      r
  }

  /** `getTrimmedSearchParam`: the trimmed value of the parameter, or `None`
      when it is missing or blank. */
  function TrimmedParam(q: Pairs, name: string): (r: Option<string>)
    ensures r.None? <==> (Lookup(q, name).None? || Blank(Lookup(q, name).value))
    ensures r.Some? ==> r.value == Trim(Lookup(q, name).value)
    ensures r.Some? ==> r.value != [] && !IsSpace(r.value[0]) && !IsSpace(r.value[|r.value| - 1])
  {
    match Lookup(q, name)
    case None => None
    case Some(v) =>
      TrimEmptyIffBlank(v);
      var t := Trim(v);
      if t == "" then None else Some(t)
  }

  /** `getApiSearchParams`: `None` ("no search") when `s` is missing or
      blank; otherwise the canonical parameters, the trimmed `s` last and,
      before it, the trimmed `y` when that is present and not blank. */
  function ApiSearchParams(q: Pairs): (r: Option<Pairs>)
    ensures r.None? <==> (Lookup(q, "s").None? || Blank(Lookup(q, "s").value))
    ensures r.Some? ==> 1 <= |r.value| <= 2
    ensures r.Some? ==> r.value[|r.value| - 1] == ("s", Trim(Lookup(q, "s").value))
    ensures r.Some? ==> (|r.value| == 2 <==> (Lookup(q, "y").Some? && !Blank(Lookup(q, "y").value)))
    ensures r.Some? && |r.value| == 2 ==> r.value[0] == ("y", Trim(Lookup(q, "y").value))
  {
    match TrimmedParam(q, "s")
    case None => None
    case Some(s) =>
      match TrimmedParam(q, "y")
      case None => Some([("s", s)])
      case Some(y) => Some([("y", y), ("s", s)])
  }

  /** The canonical parameters are a fixed point of the normaliser: reading
      them back gives the same search. */
  lemma NormaliseIdempotent(q: Pairs)
    requires ApiSearchParams(q).Some?
    ensures ApiSearchParams(ApiSearchParams(q).value) == ApiSearchParams(q)
  {
    var p := ApiSearchParams(q).value;
    var s := TrimmedParam(q, "s").value;
    TrimOfTrimmed(s);
    assert Lookup(p, "s") == Some(s);
    if |p| == 2 {
      var y := TrimmedParam(q, "y").value;
      TrimOfTrimmed(y);
      assert Lookup(p, "y") == Some(y);
    } else {
      assert Lookup(p, "y") == None;
    }
  }

  /** Two address-bar queries share a cache key exactly when they normalise
      to the same search term and year. */
  lemma KeysIdentifySearches(q1: Pairs, q2: Pairs)
    requires ApiSearchParams(q1).Some? && ApiSearchParams(q2).Some?
    ensures Serialize(ApiSearchParams(q1).value) == Serialize(ApiSearchParams(q2).value)
            <==> (TrimmedParam(q1, "s") == TrimmedParam(q2, "s") &&
                  TrimmedParam(q1, "y") == TrimmedParam(q2, "y"))
  {
    if Serialize(ApiSearchParams(q1).value) == Serialize(ApiSearchParams(q2).value) {
      SerializeInjective(ApiSearchParams(q1).value, ApiSearchParams(q2).value);
    }
  }
}

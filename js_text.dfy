/** The two pieces of ECMAScript string behaviour the search page relies on:
    `String.prototype.trim` (section 22.1.3.32 of ECMA-262) and
    `parseInt(string, 10)` (section 19.2.5 of ECMA-262). */
module JsText {
  import opened Wrappers

  /** ECMAScript WhiteSpace and LineTerminator code points: the set that both
      `trim` and `parseInt` strip. */
  predicate IsSpace(c: char)
  {
    var n := c as int;
    n == 0x09 || n == 0x0B || n == 0x0C || n == 0x20 || n == 0xA0 || n == 0xFEFF ||
    n == 0x1680 || (0x2000 <= n <= 0x200A) || n == 0x202F || n == 0x205F || n == 0x3000 ||
    n == 0x0A || n == 0x0D || n == 0x2028 || n == 0x2029
  }

  /** Every character of `s` is white space (so the empty string is blank). */
  predicate Blank(s: string)
  {
    forall i :: 0 <= i < |s| ==> IsSpace(s[i])
  }

  lemma {:induction false} BlankConcat(a: string, b: string)
    requires Blank(a) && Blank(b)
    ensures Blank(a + b)
  {
    forall i | 0 <= i < |a + b| ensures IsSpace((a + b)[i]) {
      if i < |a| { assert (a + b)[i] == a[i]; } else { assert (a + b)[i] == b[i - |a|]; }
    }
  }

  /** A blank prefix of the tail, after a space, is a blank prefix. */
  lemma BlankPrefixStep(s: string, k: nat)
    requires 1 <= k <= |s| && IsSpace(s[0]) && Blank(s[1..][..k - 1])
    ensures Blank(s[..k]) && s[1..][k - 1..] == s[k..]
  {
    forall i | 0 <= i < k
      ensures IsSpace(s[..k][i])
    {
      if i > 0 {
        assert s[..k][i] == s[1..][..k - 1][i - 1];
      }
    }
  }

  /** A blank suffix of the front, before a space, is a blank suffix. */
  lemma BlankSuffixStep(s: string, k: nat)
    requires k < |s| && IsSpace(s[|s| - 1]) && Blank(s[..|s| - 1][k..])
    ensures Blank(s[k..]) && s[..|s| - 1][..k] == s[..k]
  {
    forall i | 0 <= i < |s| - k
      ensures IsSpace(s[k..][i])
    {
      if i < |s| - 1 - k {
        assert s[k..][i] == s[..|s| - 1][k..][i];
      }
    }
  }

  /** How many white-space characters `s` starts with. */
  function LeadingSpaces(s: string): (n: nat)
    ensures n <= |s| && Blank(s[..n])
    ensures n < |s| ==> !IsSpace(s[n])
  {
    if |s| > 0 && IsSpace(s[0]) then
      var m := LeadingSpaces(s[1..]);
      BlankPrefixStep(s, m + 1);
      assert m + 1 < |s| ==> s[m + 1] == s[1..][m];
      m + 1
    else
      assert s[..0] == [];
      0
  }

  /** How many white-space characters `s` ends with. */
  function TrailingSpaces(s: string): (n: nat)
    ensures n <= |s| && Blank(s[|s| - n..])
    ensures n < |s| ==> !IsSpace(s[|s| - n - 1])
  {
    if |s| > 0 && IsSpace(s[|s| - 1]) then
      var m := TrailingSpaces(s[..|s| - 1]);
      BlankSuffixStep(s, |s| - 1 - m);
      assert m + 1 < |s| ==> s[|s| - m - 2] == s[..|s| - 1][|s| - 1 - m - 1];
      m + 1
    else
      assert s[|s|..] == [];
      0
  }

  /** Leading white space removed: the result is the suffix of `s` that
      starts at its first non-space character. */
  function TrimStart(s: string): (r: string)
    ensures |r| <= |s| && r == s[|s| - |r|..]
    ensures Blank(s[..|s| - |r|])
    ensures r == [] || !IsSpace(r[0])
  {
    s[LeadingSpaces(s)..]
  }

  /** Trailing white space removed: the result is the prefix of `s` that
      ends at its last non-space character. */
  function TrimEnd(s: string): (r: string)
    ensures |r| <= |s| && r == s[..|r|]
    ensures Blank(s[|r|..])
    ensures r == [] || !IsSpace(r[|r| - 1])
  {
    s[..|s| - TrailingSpaces(s)]
  }

  /** `String.prototype.trim`: white space cut off both ends. */
  function Trim(s: string): (r: string)
    ensures |r| <= |s|
    ensures r == [] || (!IsSpace(r[0]) && !IsSpace(r[|r| - 1]))
  {
    var t := TrimStart(s);
    var r := TrimEnd(t);
    assert r != [] ==> r[0] == t[0];
    r
  }

  /** What `Trim` keeps is the slice of `s` once the white space on both ends
      is cut off: the parts cut away are blank. */
  lemma TrimIsSlice(s: string)
    ensures var r := Trim(s);
      exists i :: 0 <= i <= |s| - |r| && s[i..i + |r|] == r && Blank(s[..i]) && Blank(s[i + |r|..])
  {
    var t := TrimStart(s);
    var r := TrimEnd(t);
    var i := |s| - |t|;
    assert Trim(s) == r;
    SuffixSlices(s, i, |r|);
    assert 0 <= i <= |s| - |r| && s[i..i + |r|] == r && Blank(s[..i]) && Blank(s[i + |r|..]);
  }

  /** Slicing the suffix that starts at `i` is slicing `s` shifted by `i`. */
  lemma SuffixSlices(s: string, i: nat, k: nat)
    requires i + k <= |s|
    ensures s[i..][..k] == s[i..i + k] && s[i..][k..] == s[i + k..]
  {
    assert forall j :: 0 <= j < k ==> s[i..][..k][j] == s[i + j];
    assert forall j :: 0 <= j < |s| - i - k ==> s[i..][k..][j] == s[i + k + j];
  }

  /** The trim is empty exactly when the whole string is blank. */
  lemma TrimEmptyIffBlank(s: string)
    ensures Trim(s) == [] <==> Blank(s)
  {
    var t := TrimStart(s);
    var r := TrimEnd(t);
    var i := |s| - |t|;
    assert t == s[i..];
    if r == [] {
      assert t[|r|..] == t;
      assert s == s[..i] + t;
      BlankConcat(s[..i], t);
    } else {
      assert t[0] == s[i] && !IsSpace(t[0]);
    }
  }

  /** Trimming an already trimmed string changes nothing. */
  lemma TrimIdempotent(s: string)
    ensures Trim(Trim(s)) == Trim(s)
  {
    var r := Trim(s);
    assert TrimStart(r) == r;
    assert TrimEnd(r) == r;
  }

  /** A string that neither starts nor ends with white space is its own trim. */
  lemma TrimOfTrimmed(s: string)
    requires s == [] || (!IsSpace(s[0]) && !IsSpace(s[|s| - 1]))
    ensures Trim(s) == s
  {
    assert TrimStart(s) == s;
    assert TrimEnd(s) == s;
  }

  // ---------------------------------------------------------------------
  // parseInt(string, 10)

  predicate IsDigit(c: char)
  {
    '0' <= c <= '9'
  }

  predicate AllDigits(s: string)
  {
    forall i :: 0 <= i < |s| ==> IsDigit(s[i])
  }

  /** The longest prefix of `s` made of decimal digits. */
  function DigitPrefix(s: string): (r: string)
    ensures |r| <= |s| && r == s[..|r|]
    ensures AllDigits(r)
    ensures |r| == |s| || !IsDigit(s[|r|])
  {
    if |s| > 0 && IsDigit(s[0]) then [s[0]] + DigitPrefix(s[1..]) else []
  }

  /** The number a string of decimal digits denotes, most significant first. */
  function DigitsValue(ds: string): nat
    requires AllDigits(ds)
  {
    if ds == [] then 0 else DigitsValue(ds[..|ds| - 1]) * 10 + (ds[|ds| - 1] as int - '0' as int)
  }

  /** The decimal text of a natural number, as `Number.prototype.toString`
      writes it (no sign, no leading zeros). */
  function DecimalText(n: nat): (r: string)
    ensures |r| > 0 && AllDigits(r)
    ensures |r| > 1 ==> r[0] != '0'
  {
    var d := ['0' + ((n % 10) as char)];
    if n < 10 then d else DecimalText(n / 10) + d
  }

  /** Reading back the decimal text of `n` gives `n`. */
  lemma {:induction false} DecimalTextValue(n: nat)
    ensures DigitsValue(DecimalText(n)) == n
  {
    var t := DecimalText(n);
    if n >= 10 {
      DecimalTextValue(n / 10);
      assert t[..|t| - 1] == DecimalText(n / 10);
    }
  }

  /** `parseInt(s, 10)`: skip leading white space, take an optional sign, then
      the longest run of decimal digits; `None` is NaN (no digits at all).
      Precision loss above 2^53 is not modelled. */
  function ParseInt(s: string): (r: Option<int>)
    ensures r.None? <==> DigitPrefix(Unsigned(TrimStart(s))) == []
  {
    var t := TrimStart(s);
    var negative := |t| > 0 && t[0] == '-';
    var digits := DigitPrefix(Unsigned(t));
    if digits == [] then None
    else if negative then Some(0 - DigitsValue(digits))
    else Some(DigitsValue(digits))
  }

  /** `t` with one leading sign character removed. */
  function Unsigned(t: string): (r: string)
    ensures |t| > 0 && t[0] in "+-" ==> r == t[1..]
    ensures !(|t| > 0 && t[0] in "+-") ==> r == t
  {
    if |t| > 0 && (t[0] == '+' || t[0] == '-') then t[1..] else t
  }

  /** A blank run followed by a non-space (or nothing) is exactly the
      leading white space. */
  lemma LeadingSpacesExact(s: string, n: nat)
    requires n <= |s| && Blank(s[..n])
    requires n < |s| ==> !IsSpace(s[n])
    ensures LeadingSpaces(s) == n
  {
    var m := LeadingSpaces(s);
    assert forall i :: 0 <= i < n ==> s[..n][i] == s[i];
    assert forall i :: 0 <= i < m ==> s[..m][i] == s[i];
  }

  lemma TrimStartAfterBlank(lead: string, s: string)
    requires Blank(lead)
    requires s == [] || !IsSpace(s[0])
    ensures TrimStart(lead + s) == s
  {
    var input := lead + s;
    assert input[..|lead|] == lead;
    assert |lead| < |input| ==> input[|lead|] == s[0];
    LeadingSpacesExact(input, |lead|);
    assert input[|lead|..] == s;
  }

  lemma {:induction false} DigitPrefixOfDigits(ds: string, rest: string)
    requires AllDigits(ds)
    requires rest == [] || !IsDigit(rest[0])
    ensures DigitPrefix(ds + rest) == ds
  {
    if ds != [] {
      assert (ds + rest)[1..] == ds[1..] + rest;
      DigitPrefixOfDigits(ds[1..], rest);
      assert ds == [ds[0]] + ds[1..];
    } else {
      assert ds + rest == rest;
    }
  }

  /** `parseInt` reads an integer written in decimal, whatever white space
      precedes it and whatever non-digit text follows it. */
  lemma ParseIntOfDecimal(lead: string, n: nat, negative: bool, rest: string)
    requires Blank(lead)
    requires rest == [] || !IsDigit(rest[0])
    ensures ParseInt(lead + (if negative then "-" else "") + DecimalText(n) + rest)
            == Some(if negative then 0 - n else n)
  {
    var sign := if negative then "-" else "";
    var digits := DecimalText(n);
    var body := digits + rest;
    var t := sign + body;
    var input := lead + sign + digits + rest;
    assert input == lead + t;
    assert body[0] == digits[0];
    assert !IsSpace(t[0]);
    TrimStartAfterBlank(lead, t);
    UnsignedOfSigned(sign, body);
    DigitPrefixOfDigits(digits, rest);
    DecimalTextValue(n);
    ParseIntOfParts(input, t, digits, negative);
  }

  /** `parseInt` once its input is taken apart: the text after the white
      space, the digits after the sign, and the sign. */
  lemma ParseIntOfParts(input: string, t: string, digits: string, negative: bool)
    requires TrimStart(input) == t && DigitPrefix(Unsigned(t)) == digits && digits != []
    requires negative <==> (|t| > 0 && t[0] == '-')
    ensures ParseInt(input) == Some(if negative then 0 - DigitsValue(digits) else DigitsValue(digits))
  {
  }

  lemma UnsignedOfSigned(sign: string, body: string)
    requires sign == "-" || sign == ""
    requires body != [] && IsDigit(body[0])
    ensures Unsigned(sign + body) == body
  {
    if sign == "" { assert sign + body == body; } else { assert (sign + body)[1..] == body; }
  }

  /** `parseInt(undefined, 10)` reads the text "undefined" and gives NaN. */
  lemma ParseIntUndefined()
    ensures ParseInt("undefined") == None
  {
    assert TrimStart("undefined") == "undefined";
    assert Unsigned("undefined") == "undefined";
    assert DigitPrefix("undefined") == [];
  }
}

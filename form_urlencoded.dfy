/** The `application/x-www-form-urlencoded` serializer of section 5.2 of the
    WHATWG URL Standard, which `URLSearchParams.prototype.toString` applies:
    the search page uses its output as the cache key. Each name and value is
    UTF-8 encoded and percent-encoded, except ASCII alphanumerics and
    `*-._`, which stay as they are, and the space, which becomes `+`; pairs
    are written `name=value` and joined by `&`. */
module FormUrlEncoded {

  /** An ordered list of name/value pairs, as `URLSearchParams` holds them. */
  type Pairs = seq<(string, string)>

  const HexDigits: string := "0123456789ABCDEF"

  /** Characters the serializer leaves as they are. */
  predicate IsUnreserved(c: char)
  {
    ('a' <= c <= 'z') || ('A' <= c <= 'Z') || ('0' <= c <= '9') ||
    c == '*' || c == '-' || c == '.' || c == '_'
  }

  predicate IsByte(b: int)
  {
    0 <= b < 256
  }

  /** The UTF-8 encoding of one Unicode scalar value. */
  function Utf8(c: char): (bs: seq<int>)
    ensures 1 <= |bs| <= 4
    ensures forall i :: 0 <= i < |bs| ==> IsByte(bs[i])
  {
    var n := c as int;
    if n < 0x80 then [n]
    else if n < 0x800 then [0xC0 + n / 0x40, 0x80 + n % 0x40]
    else if n < 0x1_0000 then [0xE0 + n / 0x1000, 0x80 + (n / 0x40) % 0x40, 0x80 + n % 0x40]
    else [0xF0 + n / 0x4_0000, 0x80 + (n / 0x1000) % 0x40, 0x80 + (n / 0x40) % 0x40, 0x80 + n % 0x40]
  }

  /** How many bytes a UTF-8 sequence has, read off its first byte. */
  function Utf8Length(lead: int): nat
  {
    if lead < 0x80 then 1 else if lead < 0xE0 then 2 else if lead < 0xF0 then 3 else 4
  }

  /** The code point a UTF-8 sequence of the right length stands for. */
  function Utf8Value(bs: seq<int>): int
    requires 1 <= |bs| <= 4
  {
    if |bs| == 1 then bs[0]
    else if |bs| == 2 then (bs[0] - 0xC0) * 0x40 + (bs[1] - 0x80)
    else if |bs| == 3 then ((bs[0] - 0xE0) * 0x40 + (bs[1] - 0x80)) * 0x40 + (bs[2] - 0x80)
    else (((bs[0] - 0xF0) * 0x40 + (bs[1] - 0x80)) * 0x40 + (bs[2] - 0x80)) * 0x40 + (bs[3] - 0x80)
  }

  /** The first byte tells the length, and the bytes give back the code point. */
  lemma Utf8Decodes(c: char)
    ensures |Utf8(c)| == Utf8Length(Utf8(c)[0])
    ensures Utf8Value(Utf8(c)) == c as int
  {
    var n := c as int;
    assert n == (n / 0x40) * 0x40 + n % 0x40;
    assert n / 0x40 == (n / 0x1000) * 0x40 + (n / 0x40) % 0x40;
    assert n / 0x1000 == (n / 0x4_0000) * 0x40 + (n / 0x1000) % 0x40;
  }

  /** One byte written as `%` and two upper-case hexadecimal digits. */
  function PercentByte(b: int): (r: string)
    requires IsByte(b)
    ensures |r| == 3
  {
    ['%', HexDigits[b / 16], HexDigits[b % 16]]
  }

  function PercentBytes(bs: seq<int>): (r: string)
    requires forall i :: 0 <= i < |bs| ==> IsByte(bs[i])
    ensures |r| == 3 * |bs|
  {
    if bs == [] then [] else PercentByte(bs[0]) + PercentBytes(bs[1..])
  }

  /** Where each byte's three characters sit in the percent-encoded text. */
  lemma {:induction false} PercentBytesAt(bs: seq<int>, k: nat)
    requires forall i :: 0 <= i < |bs| ==> IsByte(bs[i])
    requires k < |bs|
    ensures PercentBytes(bs)[3 * k] == '%'
    ensures PercentBytes(bs)[3 * k + 1] == HexDigits[bs[k] / 16]
    ensures PercentBytes(bs)[3 * k + 2] == HexDigits[bs[k] % 16]
  {
    if k > 0 {
      PercentBytesAt(bs[1..], k - 1);
      assert PercentBytes(bs)[3 * k..] == PercentBytes(bs[1..])[3 * (k - 1)..];
    }
  }

  /** Percent-encoded text holds only `%` and hexadecimal digits. */
  lemma {:induction false} PercentBytesChars(bs: seq<int>, j: nat)
    requires forall i :: 0 <= i < |bs| ==> IsByte(bs[i])
    requires j < 3 * |bs|
    ensures PercentBytes(bs)[j] == '%' || PercentBytes(bs)[j] in HexDigits
  {
    PercentBytesAt(bs, j / 3);
  }

  /** The value of a hexadecimal digit. */
  function HexValue(d: char): int
  {
    if '0' <= d <= '9' then d as int - '0' as int
    else if 'A' <= d <= 'F' then d as int - 'A' as int + 10
    else 0
  }

  /** Each hexadecimal digit reads back as its position. */
  lemma HexDigitValues()
    ensures forall i :: 0 <= i < 16 ==> HexValue(HexDigits[i]) == i
  {
    forall i | 0 <= i < 16 ensures HexValue(HexDigits[i]) == i { }
  }

  /** The two digits written for a byte read back as that byte. */
  lemma HexDigitsDecode(b: int)
    requires IsByte(b)
    ensures HexValue(HexDigits[b / 16]) * 16 + HexValue(HexDigits[b % 16]) == b
  {
    var hi, lo := b / 16, b % 16;
    HexDigitValues();
    assert HexValue(HexDigits[hi]) == hi && HexValue(HexDigits[lo]) == lo;
  }

  /** How one character is written. */
  function EscapeChar(c: char): (r: string)
    ensures |r| > 0
  {
    if IsUnreserved(c) then [c] else if c == ' ' then "+" else PercentBytes(Utf8(c))
  }

  /** How a name or a value is written: each character in turn. */
  function Escape(s: string): (r: string)
    ensures s == [] <==> r == []
  {
    if s == [] then [] else EscapeChar(s[0]) + Escape(s[1..])
  }

  /** `name=value`. */
  function PairText(p: (string, string)): string
  {
    Escape(p.0) + "=" + Escape(p.1)
  }

  /** `URLSearchParams.prototype.toString`. */
  function Serialize(ps: Pairs): string
  {
    if |ps| == 0 then ""
    else if |ps| == 1 then PairText(ps[0])
    else PairText(ps[0]) + "&" + Serialize(ps[1..])
  }

  // ---------------------------------------------------------------------
  // What the model relies on

  /** Escaping distributes over concatenation. */
  lemma {:induction false} EscapeAppend(a: string, b: string)
    ensures Escape(a + b) == Escape(a) + Escape(b)
  {
    if a != [] {
      assert (a + b)[1..] == a[1..] + b;
      EscapeAppend(a[1..], b);
    } else {
      assert a + b == b;
    }
  }

  /** Text made of unreserved characters is written as it is. */
  lemma {:induction false} EscapeUnreserved(s: string)
    requires forall i :: 0 <= i < |s| ==> IsUnreserved(s[i])
    ensures Escape(s) == s
  {
    if s != [] {
      EscapeUnreserved(s[1..]);
      assert s == [s[0]] + s[1..];
    }
  }

  /** Text made of characters the serializer keeps stays so when joined. */
  lemma UnreservedAppend(a: string, b: string)
    requires forall i :: 0 <= i < |a| ==> IsUnreserved(a[i])
    requires forall i :: 0 <= i < |b| ==> IsUnreserved(b[i])
    ensures forall i :: 0 <= i < |a + b| ==> IsUnreserved((a + b)[i])
  {
    forall i | 0 <= i < |a + b|
      ensures IsUnreserved((a + b)[i])
    {
      if i >= |a| {
        assert (a + b)[i] == b[i - |a|];
      }
    }
  }

  /** A single pair of unreserved text is written `name=value` verbatim. */
  lemma SerializeUnreservedPair(name: string, value: string)
    requires forall i :: 0 <= i < |name| ==> IsUnreserved(name[i])
    requires forall i :: 0 <= i < |value| ==> IsUnreserved(value[i])
    ensures Serialize([(name, value)]) == name + "=" + value
  {
    EscapeUnreserved(name);
    EscapeUnreserved(value);
  }

  /** Escaped text never holds the separators `=` and `&`. */
  lemma {:induction false} EscapeAvoidsSeparators(s: string)
    ensures '=' !in Escape(s) && '&' !in Escape(s)
  {
    if s != [] {
      EscapeAvoidsSeparators(s[1..]);
      var e := EscapeChar(s[0]);
      if !IsUnreserved(s[0]) && s[0] != ' ' {
        forall j | 0 <= j < |e| ensures e[j] != '=' && e[j] != '&' {
          PercentBytesChars(Utf8(s[0]), j);
        }
      }
      assert Escape(s) == e + Escape(s[1..]);
    }
  }

  /** Two percent-encoded byte sequences that begin a text alike agree on
      their first byte. */
  lemma PercentBytesLead(b1: seq<int>, b2: seq<int>, r1: string, r2: string)
    requires forall i :: 0 <= i < |b1| ==> IsByte(b1[i])
    requires forall i :: 0 <= i < |b2| ==> IsByte(b2[i])
    requires |b1| > 0 && |b2| > 0
    requires PercentBytes(b1) + r1 == PercentBytes(b2) + r2
    ensures b1[0] == b2[0]
  {
    PercentBytesAt(b1, 0);
    PercentBytesAt(b2, 0);
    var x := PercentBytes(b1) + r1;
    assert x[1] == PercentBytes(b1)[1] == PercentBytes(b2)[1];
    assert x[2] == PercentBytes(b1)[2] == PercentBytes(b2)[2];
    HexDigitsDecode(b1[0]);
    HexDigitsDecode(b2[0]);
  }

  /** Percent-encoded byte sequences of one length that begin a text alike
      are the same bytes. */
  lemma PercentBytesInjective(b1: seq<int>, b2: seq<int>, r1: string, r2: string)
    requires forall i :: 0 <= i < |b1| ==> IsByte(b1[i])
    requires forall i :: 0 <= i < |b2| ==> IsByte(b2[i])
    requires |b1| == |b2|
    requires PercentBytes(b1) + r1 == PercentBytes(b2) + r2
    ensures b1 == b2
  {
    var x := PercentBytes(b1) + r1;
    forall k | 0 <= k < |b1| ensures b1[k] == b2[k] {
      PercentBytesAt(b1, k);
      PercentBytesAt(b2, k);
      assert x[3 * k + 1] == PercentBytes(b1)[3 * k + 1] == PercentBytes(b2)[3 * k + 1];
      assert x[3 * k + 2] == PercentBytes(b1)[3 * k + 2] == PercentBytes(b2)[3 * k + 2];
      HexDigitsDecode(b1[k]);
      HexDigitsDecode(b2[k]);
    }
  }

  /** Characters written as percent-encoded UTF-8 that begin a text alike
      are the same character. */
  lemma Utf8PercentInjective(c1: char, c2: char, r1: string, r2: string)
    requires PercentBytes(Utf8(c1)) + r1 == PercentBytes(Utf8(c2)) + r2
    ensures c1 == c2
  {
    PercentBytesLead(Utf8(c1), Utf8(c2), r1, r2);
    Utf8Decodes(c1);
    Utf8Decodes(c2);
    PercentBytesInjective(Utf8(c1), Utf8(c2), r1, r2);
  }

  /** No written character is a proper prefix of another: the text that
      follows tells which character was written first. */
  lemma EscapeCharInjective(c1: char, c2: char, r1: string, r2: string)
    requires EscapeChar(c1) + r1 == EscapeChar(c2) + r2
    ensures c1 == c2 && r1 == r2
  {
    var x := EscapeChar(c1) + r1;
    assert x[0] == EscapeChar(c1)[0] == EscapeChar(c2)[0];
    if !IsUnreserved(c1) && c1 != ' ' {
      PercentBytesAt(Utf8(c1), 0);
      assert x[0] == '%';
      PercentBytesAt(Utf8(c2), 0);
      assert !IsUnreserved(c2) && c2 != ' ';
      Utf8PercentInjective(c1, c2, r1, r2);
    }
    assert EscapeChar(c1) == EscapeChar(c2);
    assert r1 == x[|EscapeChar(c1)|..] == r2;
  }

  /** Two texts that escape alike are the same text. */
  lemma {:induction false} EscapeInjective(a: string, b: string)
    requires Escape(a) == Escape(b)
    ensures a == b
  {
    if a != [] && b != [] {
      EscapeCharInjective(a[0], b[0], Escape(a[1..]), Escape(b[1..]));
      EscapeInjective(a[1..], b[1..]);
      assert a == [a[0]] + a[1..] && b == [b[0]] + b[1..];
    }
  }

  /** The position of the first `sep` in `s`. */
  function IndexOf(s: string, sep: char): (i: nat)
    requires sep in s
    ensures i < |s| && s[i] == sep
  {
    if s[0] == sep then 0 else 1 + IndexOf(s[1..], sep)
  }

  lemma {:induction false} IndexOfAfter(a: string, sep: char, b: string)
    requires sep !in a
    ensures IndexOf(a + [sep] + b, sep) == |a|
  {
    if a != [] {
      assert (a + [sep] + b)[1..] == a[1..] + [sep] + b;
      IndexOfAfter(a[1..], sep, b);
    }
  }

  /** Splitting at the first occurrence of a separator is unambiguous. */
  lemma SplitAtSeparator(sep: char, a: string, b: string, c: string, d: string)
    requires sep !in a && sep !in c
    requires a + [sep] + b == c + [sep] + d
    ensures a == c && b == d
  {
    var x := a + [sep] + b;
    IndexOfAfter(a, sep, b);
    IndexOfAfter(c, sep, d);
    assert a == x[..|a|] && c == x[..|c|];
    assert b == x[|a| + 1..] && d == x[|c| + 1..];
  }

  lemma PairTextInjective(p: (string, string), q: (string, string))
    requires PairText(p) == PairText(q)
    ensures p == q
  {
    EscapeAvoidsSeparators(p.0);
    EscapeAvoidsSeparators(q.0);
    SplitAtSeparator('=', Escape(p.0), Escape(p.1), Escape(q.0), Escape(q.1));
    EscapeInjective(p.0, q.0);
    EscapeInjective(p.1, q.1);
  }

  lemma PairTextAvoidsAmpersand(p: (string, string))
    ensures '&' !in PairText(p)
  {
    EscapeAvoidsSeparators(p.0);
    EscapeAvoidsSeparators(p.1);
  }

  /** An empty list gives the empty text, one pair gives text without `&`,
      and more pairs give text with `&`. */
  lemma SerializeShape(ps: Pairs)
    ensures |ps| == 0 <==> Serialize(ps) == []
    ensures |ps| == 1 ==> '&' !in Serialize(ps)
    ensures |ps| > 1 ==> '&' in Serialize(ps)
  {
    if |ps| > 0 {
      PairTextAvoidsAmpersand(ps[0]);
      if |ps| > 1 {
        assert Serialize(ps)[|PairText(ps[0])|] == '&';
      }
    }
  }

  /** The serializer is injective: two parameter lists give the same cache
      key only if they are the same list. */
  lemma {:induction false} SerializeInjective(ps: Pairs, qs: Pairs)
    requires Serialize(ps) == Serialize(qs)
    ensures ps == qs
  {
    if |ps| <= 1 || |qs| <= 1 {
      SerializeShape(ps);
      SerializeShape(qs);
      if |ps| == 1 && |qs| == 1 {
        PairTextInjective(ps[0], qs[0]);
      }
    } else if |ps| > 1 && |qs| > 1 {
      PairTextAvoidsAmpersand(ps[0]);
      PairTextAvoidsAmpersand(qs[0]);
      assert Serialize(ps) == PairText(ps[0]) + ['&'] + Serialize(ps[1..]);
      assert Serialize(qs) == PairText(qs[0]) + ['&'] + Serialize(qs[1..]);
      SplitAtSeparator('&', PairText(ps[0]), Serialize(ps[1..]), PairText(qs[0]), Serialize(qs[1..]));
      PairTextInjective(ps[0], qs[0]);
      SerializeInjective(ps[1..], qs[1..]);
      assert ps == [ps[0]] + ps[1..] && qs == [qs[0]] + qs[1..];
    }
  }
}

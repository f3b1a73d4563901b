/** The slice of JavaScript's string and number built-ins that the catalog page
    relies on: `String.prototype.trim`, `toLowerCase` (on ASCII letters),
    `split` and `join` with a one-character separator, the global `parseInt`
    with no radix argument, and the decimal rendering of an integral Number
    inside a template literal. */
module JsStrings {
  import opened Wrappers

  // ---------------------------------------------------------------------------
  // Whitespace and trim
  // ---------------------------------------------------------------------------

  /** The code points ECMAScript classes as WhiteSpace or LineTerminator: the
      characters `trim` removes and `parseInt` skips. */
  predicate IsWhitespace(c: char) {
    || c == '\t' || c == '\n' || c == '\U{000B}' || c == '\U{000C}' || c == '\r'
    || c == ' ' || c == '\U{00A0}' || c == '\U{1680}'
    || ('\U{2000}' <= c <= '\U{200A}')
    || c == '\U{2028}' || c == '\U{2029}' || c == '\U{202F}' || c == '\U{205F}'
    || c == '\U{3000}' || c == '\U{FEFF}'
  }

  predicate AllWhitespace(s: string) {
    forall i :: 0 <= i < |s| ==> IsWhitespace(s[i])
  }

  /** Drops the leading whitespace of `s`. */
  function TrimStart(s: string): (r: string)
    ensures |r| <= |s| && r == s[|s| - |r|..]
    ensures AllWhitespace(s[..|s| - |r|])
    ensures r == [] || !IsWhitespace(r[0])
  {
    if |s| > 0 && IsWhitespace(s[0]) then
      var r := TrimStart(s[1..]);
      assert s[..|s| - |r|] == [s[0]] + s[1..][..|s| - 1 - |r|];
      r
    else s
  }

  /** Drops the trailing whitespace of `s`. */
  function TrimEnd(s: string): (r: string)
    ensures |r| <= |s| && r == s[..|r|]
    ensures AllWhitespace(s[|r|..])
    ensures r == [] || !IsWhitespace(r[|r| - 1])
  {
    if |s| > 0 && IsWhitespace(s[|s| - 1]) then
      var r := TrimEnd(s[..|s| - 1]);
      assert s[|r|..] == s[..|s| - 1][|r|..] + [s[|s| - 1]];
      r
    else s
  }

  /** `String.prototype.trim`. */
  function Trim(s: string): (r: string)
    ensures r == [] || (!IsWhitespace(r[0]) && !IsWhitespace(r[|r| - 1]))
    ensures r == [] <==> AllWhitespace(s)
  {
    var t := TrimStart(s);
    var r := TrimEnd(t);
    assert r == [] ==> AllWhitespace(s) by {
      if r == [] {
        assert s == s[..|s| - |t|] + t;
        assert AllWhitespace(t) by { assert t[|r|..] == t; }
      }
    }
    r
  }

  lemma {:induction false} TrimStartOfWhitespacePrefix(p: string, s: string)
    requires AllWhitespace(p)
    ensures TrimStart(p + s) == TrimStart(s)
    decreases |p|
  {
    if |p| > 0 {
      assert (p + s)[1..] == p[1..] + s;
      TrimStartOfWhitespacePrefix(p[1..], s);
    } else {
      assert p + s == s;
    }
  }

  lemma {:induction false} TrimEndOfWhitespaceSuffix(s: string, q: string)
    requires AllWhitespace(q)
    ensures TrimEnd(s + q) == TrimEnd(s)
    decreases |q|
  {
    if |q| > 0 {
      assert (s + q)[..|s + q| - 1] == s + q[..|q| - 1];
      TrimEndOfWhitespaceSuffix(s, q[..|q| - 1]);
    } else {
      assert s + q == s;
    }
  }

  /** Trimming the concatenation `s + q` either keeps `q` whole (when `s` has a
      non-whitespace character) or is the trim of `q` alone. */
  lemma {:induction false} TrimStartOfConcat(s: string, q: string)
    ensures TrimStart(s + q) == if TrimStart(s) == [] then TrimStart(q) else TrimStart(s) + q
    decreases |s|
  {
    if |s| == 0 {
      assert s + q == q;
    } else if IsWhitespace(s[0]) {
      assert (s + q)[1..] == s[1..] + q;
      TrimStartOfConcat(s[1..], q);
    }
  }

  /** Whitespace added before and after a string never changes its trim. */
  lemma TrimIgnoresPadding(p: string, s: string, q: string)
    requires AllWhitespace(p) && AllWhitespace(q)
    ensures Trim(p + s + q) == Trim(s)
  {
    assert p + s + q == p + (s + q);
    TrimStartOfWhitespacePrefix(p, s + q);
    TrimStartOfConcat(s, q);
    if TrimStart(s) == [] {
      TrimStartOfWhitespacePrefix(q, []);
      assert q + [] == q;
    } else {
      TrimEndOfWhitespaceSuffix(TrimStart(s), q);
    }
  }

  /** A string with no whitespace at either end is its own trim. */
  lemma TrimOfTrimmed(s: string)
    requires s == [] || (!IsWhitespace(s[0]) && !IsWhitespace(s[|s| - 1]))
    ensures Trim(s) == s
  {
  }

  lemma TrimIdempotent(s: string)
    ensures Trim(Trim(s)) == Trim(s)
  {
    TrimOfTrimmed(Trim(s));
  }

  // ---------------------------------------------------------------------------
  // Lower case
  // ---------------------------------------------------------------------------

  predicate IsAsciiUpper(c: char) { 'A' <= c <= 'Z' }

  function LowerChar(c: char): (r: char)
  {
    if IsAsciiUpper(c) then (c as int + 32) as char else c
  }

  /** `String.prototype.toLowerCase`, restricted to the ASCII letters. */
  function ToLower(s: string): (r: string)
    ensures |r| == |s|
    ensures forall i :: 0 <= i < |s| ==> r[i] == LowerChar(s[i])
  {
    if |s| == 0 then [] else [LowerChar(s[0])] + ToLower(s[1..])
  }

  /** `b` spells the same text as `a` with possibly different letter case. */
  predicate SameUpToCase(a: string, b: string) {
    |a| == |b| && forall i :: 0 <= i < |a| ==> LowerChar(a[i]) == LowerChar(b[i])
  }

  lemma SameUpToCaseLowersEqual(a: string, b: string)
    requires SameUpToCase(a, b)
    ensures ToLower(a) == ToLower(b)
  {
  }

  /** Lower-casing never creates or removes whitespace, so it commutes with trim. */
  lemma LowerKeepsWhitespace(c: char)
    ensures IsWhitespace(LowerChar(c)) == IsWhitespace(c)
  {
  }

  lemma {:induction false} LowerCommutesWithTrimStart(s: string)
    ensures ToLower(TrimStart(s)) == TrimStart(ToLower(s))
    decreases |s|
  {
    if |s| > 0 {
      var l := ToLower(s);
      LowerKeepsWhitespace(s[0]);
      if IsWhitespace(s[0]) {
        assert l[1..] == ToLower(s[1..]);
        LowerCommutesWithTrimStart(s[1..]);
      }
    }
  }

  lemma {:induction false} LowerCommutesWithTrimEnd(s: string)
    ensures ToLower(TrimEnd(s)) == TrimEnd(ToLower(s))
    decreases |s|
  {
    if |s| > 0 {
      var l := ToLower(s);
      LowerKeepsWhitespace(s[|s| - 1]);
      if IsWhitespace(s[|s| - 1]) {
        assert l[..|s| - 1] == ToLower(s[..|s| - 1]);
        LowerCommutesWithTrimEnd(s[..|s| - 1]);
      }
    }
  }

  lemma LowerCommutesWithTrim(s: string)
    ensures ToLower(Trim(s)) == Trim(ToLower(s))
  {
    LowerCommutesWithTrimStart(s);
    LowerCommutesWithTrimEnd(TrimStart(s));
  }

  // ---------------------------------------------------------------------------
  // split and join
  // ---------------------------------------------------------------------------

  /** The position of the first occurrence of `c` in `s`. */
  function IndexOf(s: string, c: char): (r: nat)
    requires c in s
    ensures r < |s| && s[r] == c && c !in s[..r]
  {
    if s[0] == c then 0 else 1 + IndexOf(s[1..], c)
  }

  /** `Array.prototype.join`: the parts with `sep` between consecutive ones. */
  function Join(parts: seq<string>, sep: string): (r: string)
    ensures |parts| == 0 ==> r == []
    ensures |parts| > 0 ==> |parts[0]| <= |r| && r[..|parts[0]|] == parts[0]
    ensures |parts| > 0 ==> |parts[|parts| - 1]| <= |r| && r[|r| - |parts[|parts| - 1]|..] == parts[|parts| - 1]
  {
    if |parts| == 0 then ""
    else if |parts| == 1 then parts[0]
    else
      var tail := Join(parts[1..], sep);
      var r := parts[0] + sep + tail;
      assert r[|r| - |tail|..] == tail;
      assert parts[1..][|parts| - 2] == parts[|parts| - 1];
      r
  }

  /** Joining introduces no character beyond those of the parts and the
      separator. */
  lemma {:induction false} JoinCharacters(parts: seq<string>, sep: string)
    ensures forall c :: c in Join(parts, sep) ==> c in sep || exists i :: 0 <= i < |parts| && c in parts[i]
    decreases |parts|
  {
    if |parts| > 1 {
      JoinCharacters(parts[1..], sep);
      forall c | c in Join(parts, sep) && c !in sep && c !in parts[0]
        ensures exists i :: 0 <= i < |parts| && c in parts[i]
      {
        assert c in Join(parts[1..], sep);
        var k :| 0 <= k < |parts| - 1 && c in parts[1..][k];
        assert parts[1..][k] == parts[k + 1];
      }
    }
  }

  /** One step of `split`: the piece before the first separator, then the
      pieces of the rest. */
  lemma SplitStep(s: string, sep: char, i: nat, rest: seq<string>)
    requires i < |s| && s[i] == sep && sep !in s[..i]
    requires |rest| >= 1 && Join(rest, [sep]) == s[i + 1..]
    requires forall k :: 0 <= k < |rest| ==> sep !in rest[k]
    ensures forall k :: 0 <= k < |[s[..i]] + rest| ==> sep !in ([s[..i]] + rest)[k]
    ensures Join([s[..i]] + rest, [sep]) == s
  {
    var parts := [s[..i]] + rest;
    assert parts[1..] == rest;
    assert s == s[..i] + [sep] + s[i + 1..];
    assert forall k :: 1 <= k < |parts| ==> parts[k] == rest[k - 1];
  }

  /** `String.prototype.split` with a one-character separator: the maximal
      separator-free pieces, in order; the empty string yields one empty piece. */
  function Split(s: string, sep: char): (parts: seq<string>)
    ensures |parts| >= 1
    ensures forall i :: 0 <= i < |parts| ==> sep !in parts[i]
    ensures Join(parts, [sep]) == s
    decreases |s|
  {
    if sep !in s then [s]
    else
      var i := IndexOf(s, sep);
      var rest := Split(s[i + 1..], sep);
      SplitStep(s, sep, i, rest);
      [s[..i]] + rest
  }

  /** Splitting at a first separator peels off exactly the text before it. */
  lemma SplitAtFirst(p: string, sep: char, q: string)
    requires sep !in p
    ensures Split(p + [sep] + q, sep) == [p] + Split(q, sep)
  {
    var s := p + [sep] + q;
    IndexOfAfterPrefix(p, sep, q);
    assert s[..|p|] == p;
    assert s[|p| + 1..] == q;
  }

  lemma {:induction false} IndexOfAfterPrefix(p: string, sep: char, q: string)
    requires sep !in p
    ensures IndexOf(p + [sep] + q, sep) == |p|
    decreases |p|
  {
    if |p| > 0 {
      assert p[0] != sep;
      assert (p + [sep] + q)[1..] == p[1..] + [sep] + q;
      IndexOfAfterPrefix(p[1..], sep, q);
    }
  }

  // ---------------------------------------------------------------------------
  // Numbers as text
  // ---------------------------------------------------------------------------

  /** The value of `c` as a digit in bases up to 36, or 36 when it is no digit. */
  function DigitValue(c: char): (v: nat)
    ensures v <= 36
  {
    if '0' <= c <= '9' then c as int - '0' as int
    else if 'a' <= c <= 'z' then c as int - 'a' as int + 10
    else if 'A' <= c <= 'Z' then c as int - 'A' as int + 10
    else 36
  }

  predicate IsDigit(c: char, radix: nat) { DigitValue(c) < radix }

  predicate AllDigits(s: string, radix: nat) {
    forall i :: 0 <= i < |s| ==> IsDigit(s[i], radix)
  }

  /** The value of a string of digits, most significant first. */
  function DigitsValue(s: string, radix: nat): nat
    requires AllDigits(s, radix)
  {
    if |s| == 0 then 0
    else DigitsValue(s[..|s| - 1], radix) * radix + DigitValue(s[|s| - 1])
  }

  /** The longest prefix of `s` made of `radix` digits. */
  function DigitPrefix(s: string, radix: nat): (z: string)
    ensures |z| <= |s| && z == s[..|z|]
    ensures AllDigits(z, radix)
    ensures |z| == |s| || !IsDigit(s[|z|], radix)
  {
    if |s| > 0 && IsDigit(s[0], radix) then [s[0]] + DigitPrefix(s[1..], radix) else []
  }

  function DecimalDigit(d: nat): (c: char)
    requires d < 10
    ensures IsDigit(c, 10) && DigitValue(c) == d
  {
    ('0' as int + d) as char
  }

  /** The decimal text of a natural number, as a template literal renders it. */
  function NatToString(n: nat): (r: string)
    ensures |r| >= 1 && AllDigits(r, 10)
    ensures DigitsValue(r, 10) == n
    ensures r[0] == '0' ==> r == "0"
  {
    if n < 10 then [DecimalDigit(n)]
    else
      var r := NatToString(n / 10) + [DecimalDigit(n % 10)];
      assert r[..|r| - 1] == NatToString(n / 10);
      r
  }

  /** The decimal text of an integral Number: a minus sign, then the magnitude. */
  function IntToString(n: int): (r: string)
    ensures |r| >= 1 && (r[0] == '-' <==> n < 0)
    ensures forall i :: 0 < i < |r| ==> IsDigit(r[i], 10)
    ensures r[0] == '0' ==> r == "0"
    ensures var u := if n < 0 then r[1..] else r;
      && |u| >= 1 && AllDigits(u, 10)
      && DigitsValue(u, 10) == (if n < 0 then -n else n)
      && (u[0] == '0' ==> u == "0")
  {
    var u := NatToString(if n < 0 then -n else n);
    assert IsDigit(u[0], 10);
    if n < 0 then
      assert ("-" + u)[1..] == u;
      "-" + u
    else u
  }

  /** The digits `parseInt` reads after the sign: a `0x`/`0X` prefix selects
      base 16, otherwise base 10; reading stops at the first non-digit, and no
      digit at all is `NaN`. */
  function ParseUnsigned(u: string): (r: Option<nat>)
  {
    var hex := |u| >= 2 && u[0] == '0' && (u[1] == 'x' || u[1] == 'X');
    var radix := if hex then 16 else 10;
    var z := DigitPrefix(if hex then u[2..] else u, radix);
    if |z| == 0 then None else Some(DigitsValue(z, radix))
  }

  /** `parseInt` after the leading whitespace is gone: an optional sign, then
      the unsigned part. A result of `-0` is the integer 0. */
  function ParseSigned(t: string): (r: Option<int>)
  {
    var negative := |t| > 0 && t[0] == '-';
    var unsigned := if |t| > 0 && (t[0] == '-' || t[0] == '+') then t[1..] else t;
    match ParseUnsigned(unsigned)
    case None => None
    case Some(v) =>
      var magnitude: int := v;
      Some(if negative then -magnitude else magnitude)
  }

  /** The global `parseInt(s)` with no radix: `None` stands for `NaN`. */
  function ParseInt(s: string): (r: Option<int>)
    ensures r.Some? ==> exists i :: 0 <= i < |s| && IsDigit(s[i], 10)
  {
    var t := TrimStart(s);
    var u := if |t| > 0 && (t[0] == '-' || t[0] == '+') then t[1..] else t;
    ParseUnsignedStartsWithDigit(u);
    assert ParseUnsigned(u).Some? ==> IsDigit(s[|s| - |u|], 10) by {
      if ParseUnsigned(u).Some? {
        assert u[0] == s[|s| - |u|];
      }
    }
    ParseSigned(t)
  }

  /** `parseInt` yields a number only when the text after the sign starts
      with a decimal digit: `0x` starts with `0`, and otherwise the digits read
      start at the first character. */
  lemma ParseUnsignedStartsWithDigit(u: string)
    ensures ParseUnsigned(u).Some? ==> |u| > 0 && IsDigit(u[0], 10)
  {
  }

  /** A decimal numeral: at least one digit, no redundant leading zero. */
  predicate Numeral(u: string) {
    |u| >= 1 && AllDigits(u, 10) && (u[0] == '0' ==> u == "0")
  }

  lemma TrimStartOfNonBlankStart(t: string)
    requires |t| > 0 && !IsWhitespace(t[0])
    ensures TrimStart(t) == t
  {
  }

  /** A numeral reads back as its value, with no sign or with a minus sign. */
  lemma ParseSignedOfNumeral(u: string)
    requires Numeral(u)
    ensures ParseSigned(u) == Some(DigitsValue(u, 10))
    ensures ParseSigned("-" + u) == Some(-(DigitsValue(u, 10) as int))
  {
    assert IsDigit(u[0], 10);
    assert !(|u| >= 2 && u[0] == '0');
    assert DigitPrefix(u, 10) == u;
    assert ("-" + u)[1..] == u;
  }

  lemma ParseIntOfNumeral(u: string)
    requires Numeral(u)
    ensures ParseInt(u) == Some(DigitsValue(u, 10))
    ensures ParseInt("-" + u) == Some(-(DigitsValue(u, 10) as int))
  {
    assert IsDigit(u[0], 10);
    TrimStartOfNonBlankStart(u);
    TrimStartOfNonBlankStart("-" + u);
    ParseSignedOfNumeral(u);
  }

  /** `parseInt` reads back exactly the integer a template literal printed. */
  lemma ParseIntOfIntToString(n: int)
    ensures ParseInt(IntToString(n)) == Some(n)
  {
    var u := NatToString(if n < 0 then -n else n);
    ParseIntOfNumeral(u);
  }

  /** Text with no decimal digit at all (the empty string among it) parses as `NaN`. */
  lemma ParseIntWithoutDigits(s: string)
    requires forall i :: 0 <= i < |s| ==> !IsDigit(s[i], 10)
    ensures ParseInt(s) == None
  {
    var t := TrimStart(s);
    var unsigned := if |t| > 0 && (t[0] == '-' || t[0] == '+') then t[1..] else t;
    if |unsigned| > 0 {
      assert unsigned[0] == s[|s| - |unsigned|];
      assert DigitPrefix(unsigned, 10) == [];
    }
  }
}

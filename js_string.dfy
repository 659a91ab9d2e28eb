/**
 * The JavaScript string operations the catalog uses, restricted to ASCII:
 * `trim`, `toLowerCase`, `toUpperCase`, `includes`, `parseInt(_, 10)`,
 * `String(n)` on naturals and `Number(s)` on digit strings.
 */
module JsString {
  import opened Optional

  // ---------------------------------------------------------------------
  // Characters

  /** ASCII white space and line terminators (the part of ECMAScript's
      WhiteSpace and LineTerminator sets inside ASCII). */
  predicate IsWhiteSpace(c: char) {
    c == ' ' || c == '\t' || c == '\n' || c == '\r' || c == '\U{B}' || c == '\U{C}'
  }

  predicate IsDigit(c: char) { '0' <= c <= '9' }

  predicate IsUpper(c: char) { 'A' <= c <= 'Z' }

  predicate IsLower(c: char) { 'a' <= c <= 'z' }

  /** The regular-expression class `[a-zA-Z0-9]`. */
  predicate IsAlphaNumeric(c: char) { IsUpper(c) || IsLower(c) || IsDigit(c) }

  function LowerChar(c: char): (r: char)
    ensures !IsUpper(r)
    ensures IsUpper(c) ==> IsLower(r) && r as int == c as int + 32
    ensures !IsUpper(c) ==> r == c
  {
    if IsUpper(c) then (c as int + 32) as char else c
  }

  function UpperChar(c: char): (r: char)
    ensures !IsLower(r)
    ensures IsLower(c) ==> IsUpper(r) && r as int == c as int - 32
    ensures !IsLower(c) ==> r == c
  {
    if IsLower(c) then (c as int - 32) as char else c
  }

  function DigitValue(c: char): (d: nat)
    requires IsDigit(c)
    ensures d < 10
  {
    c as int - '0' as int
  }

  function DigitChar(d: nat): (c: char)
    requires d < 10
    ensures IsDigit(c) && DigitValue(c) == d
  {
    ('0' as int + d) as char
  }

  // ---------------------------------------------------------------------
  // trim

  /** Drops the leading white space. */
  function TrimStart(s: string): (r: string)
    ensures |r| <= |s| && r == s[|s| - |r|..]
    ensures forall i :: 0 <= i < |s| - |r| ==> IsWhiteSpace(s[i])
    ensures r == [] || !IsWhiteSpace(r[0])
  {
    if s != [] && IsWhiteSpace(s[0]) then TrimStart(s[1..]) else s
  }

  /** Drops the trailing white space. */
  function TrimEnd(s: string): (r: string)
    ensures |r| <= |s| && r == s[..|r|]
    ensures forall i :: |r| <= i < |s| ==> IsWhiteSpace(s[i])
    ensures r == [] || !IsWhiteSpace(r[|r| - 1])
  {
    if s != [] && IsWhiteSpace(s[|s| - 1]) then TrimEnd(s[..|s| - 1]) else s
  }

  /** `s.trim()`: the longest infix of `s` that neither starts nor ends with
      white space, obtained by dropping only white space at both ends
      (`TrimIsInfix`, `TrimPadded`). */
  function Trim(s: string): (r: string)
    ensures |r| <= |s|
    ensures r == [] || (!IsWhiteSpace(r[0]) && !IsWhiteSpace(r[|r| - 1]))
    ensures r == [] ==> forall i :: 0 <= i < |s| ==> IsWhiteSpace(s[i])
  {
    TrimEnd(TrimStart(s))
  }

  /** `trim` only drops white space: its result is an infix of the input with
      white space, and nothing else, on either side of it. */
  lemma TrimIsInfix(s: string)
    ensures exists i, j :: 0 <= i <= j <= |s| && Trim(s) == s[i..j] && AllWhiteSpace(s[..i]) && AllWhiteSpace(s[j..])
  {
    var t := TrimStart(s);
    InfixOfTrimmed(s, t, TrimEnd(t));
  }

  /** Dropping white space from the front of `s` to get `t`, then from the back
      of `t` to get `r`, leaves `r` as an infix of `s` between white space. */
  lemma InfixOfTrimmed(s: string, t: string, r: string)
    requires |t| <= |s| && t == s[|s| - |t|..] && forall k :: 0 <= k < |s| - |t| ==> IsWhiteSpace(s[k])
    requires |r| <= |t| && r == t[..|r|] && forall k :: |r| <= k < |t| ==> IsWhiteSpace(t[k])
    ensures exists i, j :: 0 <= i <= j <= |s| && r == s[i..j] && AllWhiteSpace(s[..i]) && AllWhiteSpace(s[j..])
  {
    var i := |s| - |t|;
    var j := i + |r|;
    assert r == s[i..j];
    forall k | 0 <= k < i ensures IsWhiteSpace(s[..i][k]) {
      assert s[..i][k] == s[k];
    }
    forall k | 0 <= k < |s| - j ensures IsWhiteSpace(s[j..][k]) {
      assert s[j..][k] == t[|r| + k];
    }
    assert AllWhiteSpace(s[..i]) && AllWhiteSpace(s[j..]);
  }

  predicate AllWhiteSpace(s: string) {
    forall i :: 0 <= i < |s| ==> IsWhiteSpace(s[i])
  }

  /** Padding a string with white space on either side does not change what
      `trim` gives, as long as the string itself has no white space at its ends. */
  lemma {:induction false} TrimPadded(pre: string, s: string, post: string)
    requires AllWhiteSpace(pre) && AllWhiteSpace(post)
    requires s == [] || (!IsWhiteSpace(s[0]) && !IsWhiteSpace(s[|s| - 1]))
    ensures Trim(pre + s + post) == s
  {
    if s == [] {
      assert pre + s + post == (pre + post) + s;
      assert AllWhiteSpace(pre + post);
      TrimStartPadded(pre + post, s);
    } else {
      assert pre + s + post == pre + (s + post);
      TrimStartPadded(pre, s + post);
      TrimEndPadded(s, post);
    }
  }

  lemma {:induction false} TrimStartPadded(pre: string, s: string)
    requires AllWhiteSpace(pre)
    requires s == [] || !IsWhiteSpace(s[0])
    ensures TrimStart(pre + s) == s
  {
    if pre == [] {
      assert pre + s == s;
    } else {
      assert (pre + s)[1..] == pre[1..] + s;
      TrimStartPadded(pre[1..], s);
    }
  }

  lemma {:induction false} TrimEndPadded(s: string, post: string)
    requires AllWhiteSpace(post)
    requires s == [] || !IsWhiteSpace(s[|s| - 1])
    ensures TrimEnd(s + post) == s
  {
    if post == [] {
      assert s + post == s;
    } else {
      assert (s + post)[..|s + post| - 1] == s + post[..|post| - 1];
      TrimEndPadded(s, post[..|post| - 1]);
    }
  }

  // ---------------------------------------------------------------------
  // toLowerCase / toUpperCase

  /** `s.toLowerCase()` on ASCII letters; every other character is kept. */
  function ToLowerCase(s: string): (r: string)
    ensures |r| == |s|
    ensures forall i :: 0 <= i < |s| ==> r[i] == LowerChar(s[i])
  {
    if s == [] then [] else [LowerChar(s[0])] + ToLowerCase(s[1..])
  }

  /** `s.toUpperCase()` on ASCII letters; every other character is kept. */
  function ToUpperCase(s: string): (r: string)
    ensures |r| == |s|
    ensures forall i :: 0 <= i < |s| ==> r[i] == UpperChar(s[i])
  {
    if s == [] then [] else [UpperChar(s[0])] + ToUpperCase(s[1..])
  }

  /** Upper-casing forgets whether a letter was lower-cased first. */
  lemma UpperOfLower(s: string)
    ensures ToUpperCase(ToLowerCase(s)) == ToUpperCase(s)
  {
  }

  /** Lower-casing forgets whether a letter was upper-cased first. */
  lemma LowerOfUpper(s: string)
    ensures ToLowerCase(ToUpperCase(s)) == ToLowerCase(s)
  {
  }

  // ---------------------------------------------------------------------
  // includes

  /** `t` occurs in `s` starting at position `i`. */
  predicate OccursAt(s: string, t: string, i: int) {
    0 <= i && i + |t| <= |s| && s[i..i + |t|] == t
  }

  function IncludesFrom(s: string, t: string, i: nat): (b: bool)
    decreases |s| - i
    ensures b <==> exists j :: i <= j && OccursAt(s, t, j)
  {
    if i + |t| > |s| then false
    else if s[i..i + |t|] == t then assert OccursAt(s, t, i); true
    else IncludesFrom(s, t, i + 1)
  }

  /** `s.includes(t)`: a substring test anywhere in `s`. */
  function Includes(s: string, t: string): (b: bool)
    ensures b <==> exists j :: OccursAt(s, t, j)
  {
    IncludesFrom(s, t, 0)
  }

  // ---------------------------------------------------------------------
  // Decimal digits: String(n), Number(s), parseInt(s, 10)

  predicate AllDigits(s: string) {
    forall i :: 0 <= i < |s| ==> IsDigit(s[i])
  }

  /** A non-empty string of ASCII digits, on which `Number(s)` is the decimal value. */
  predicate IsDigitString(s: string) {
    |s| > 0 && AllDigits(s)
  }

  /** The decimal value of a digit string. */
  function DecimalValue(s: string): (n: nat)
    requires AllDigits(s)
  {
    if s == [] then 0 else DecimalValue(s[..|s| - 1]) * 10 + DigitValue(s[|s| - 1])
  }

  /** `String(n)` for a natural number `n`: its decimal digits, no leading zero. */
  function NatToString(n: nat): (s: string)
    ensures IsDigitString(s)
    ensures |s| > 1 ==> s[0] != '0'
  {
    if n < 10 then [DigitChar(n)] else NatToString(n / 10) + [DigitChar(n % 10)]
  }

  /** `String(n)` for an integer `n`. */
  function IntToString(n: int): (s: string)
    ensures |s| > 0
  {
    if n < 0 then "-" + NatToString(-n) else NatToString(n)
  }

  lemma {:induction false} DecimalOfNatToString(n: nat)
    ensures DecimalValue(NatToString(n)) == n
  {
    if n >= 10 {
      var s := NatToString(n);
      assert s[..|s| - 1] == NatToString(n / 10);
      DecimalOfNatToString(n / 10);
    }
  }

  /** `String` is injective on naturals: distinct positions give distinct ids. */
  lemma NatToStringInjective(m: nat, n: nat)
    requires m != n
    ensures NatToString(m) != NatToString(n)
  {
    DecimalOfNatToString(m);
    DecimalOfNatToString(n);
  }

  /** The longest prefix of `s` made of digits. */
  function LeadingDigits(s: string): (d: string)
    ensures AllDigits(d) && |d| <= |s| && d == s[..|d|]
    ensures |d| < |s| ==> !IsDigit(s[|d|])
  {
    if s != [] && IsDigit(s[0]) then [s[0]] + LeadingDigits(s[1..]) else []
  }

  lemma {:induction false} LeadingDigitsOfDigits(d: string, rest: string)
    requires AllDigits(d)
    requires rest == [] || !IsDigit(rest[0])
    ensures LeadingDigits(d + rest) == d
  {
    if d != [] {
      assert (d + rest)[1..] == d[1..] + rest;
      LeadingDigitsOfDigits(d[1..], rest);
    } else {
      assert d + rest == rest;
    }
  }

  /** `parseInt(s, 10)`: skip leading white space, accept one optional sign,
      read the longest run of digits; `None` is `NaN` (no digits at all). */
  function ParseInt(s: string): (r: Option<int>)
    ensures r.None? <==> Unsigned(TrimStart(s)) == [] || !IsDigit(Unsigned(TrimStart(s))[0])
    ensures r.Some? ==> var t := TrimStart(s); var d := LeadingDigits(Unsigned(t));
              d != [] && d == Unsigned(t)[..|d|] &&
              r.value == (if t[0] == '-' then -(DecimalValue(d) as int) else DecimalValue(d) as int)
  {
    ParseSigned(TrimStart(s))
  }

  /** What `parseInt` reads once the white space is gone: an optional sign and
      the longest run of digits after it. */
  function ParseSigned(t: string): (r: Option<int>)
  {
    var digits := LeadingDigits(Unsigned(t));
    var magnitude: int := if digits == [] then 0 else DecimalValue(digits);
    if digits == [] then None
    else if t[0] == '-' then Some(-magnitude)
    else Some(magnitude)
  }

  /** The text after one optional leading sign. */
  function Unsigned(t: string): string {
    if t != [] && (t[0] == '-' || t[0] == '+') then t[1..] else t
  }

  /** `parseInt` reads back what `String` writes, and stops at the first non-digit:
      `parseInt(String(n) + rest, 10) == n` ("12abc" gives 12). */
  lemma ParseIntOfIntToString(n: int, rest: string)
    requires rest == [] || !IsDigit(rest[0])
    ensures ParseInt(IntToString(n) + rest) == Some(n)
  {
    if n < 0 {
      ParseIntOfNegative(n, rest);
    } else {
      var d := NatToString(n);
      DecimalOfNatToString(n);
      assert IntToString(n) + rest == [] + (d + rest);
      ParseIntSigned(IntToString(n) + rest, [], d, rest);
    }
  }

  lemma ParseIntOfNegative(n: int, rest: string)
    requires n < 0
    requires rest == [] || !IsDigit(rest[0])
    ensures ParseInt(IntToString(n) + rest) == Some(n)
  {
    var m: nat := -n;
    var d := NatToString(m);
    DecimalOfNatToString(m);
    var s := IntToString(n) + rest;
    assert IntToString(n) == ['-'] + d;
    SeqAssoc(['-'], d, rest);
    ParseIntSigned(s, ['-'], d, rest);
  }

  lemma SeqAssoc(a: string, b: string, c: string)
    ensures (a + b) + c == a + (b + c)
  {
  }

  lemma ParseIntSigned(s: string, sign: string, d: string, rest: string)
    requires sign == [] || sign == ['-']
    requires IsDigitString(d)
    requires rest == [] || !IsDigit(rest[0])
    requires s == sign + (d + rest)
    ensures ParseInt(s) == Some(if sign == [] then DecimalValue(d) as int else -(DecimalValue(d) as int))
  {
    assert s[0] == if sign == [] then d[0] else '-';
    TrimStartUnchanged(s);
    ParseSignedDigits(sign, d, rest);
  }

  lemma TrimStartUnchanged(s: string)
    requires s != [] && !IsWhiteSpace(s[0])
    ensures TrimStart(s) == s
  {
  }

  lemma ParseSignedDigits(sign: string, d: string, rest: string)
    requires sign == [] || sign == ['-']
    requires IsDigitString(d)
    requires rest == [] || !IsDigit(rest[0])
    ensures ParseSigned(sign + (d + rest)) == Some(if sign == [] then DecimalValue(d) as int else -(DecimalValue(d) as int))
  {
    LeadingDigitsOfDigits(d, rest);
    var t := sign + (d + rest);
    if sign == [] {
      assert t == d + rest;
      assert t[0] == d[0];
    } else {
      assert t[1..] == d + rest;
    }
  }

  /** `parseInt` ignores leading white space. */
  lemma ParseIntSkipsWhiteSpace(pre: string, s: string)
    requires AllWhiteSpace(pre)
    ensures ParseInt(pre + s) == ParseInt(s)
  {
    TrimStartOfTrimStart(pre, s);
  }

  lemma {:induction false} TrimStartOfTrimStart(pre: string, s: string)
    requires AllWhiteSpace(pre)
    ensures TrimStart(pre + s) == TrimStart(s)
  {
    if pre == [] {
      assert pre + s == s;
    } else {
      assert (pre + s)[1..] == pre[1..] + s;
      TrimStartOfTrimStart(pre[1..], s);
    }
  }

  /** A string that, after white space and an optional sign, does not start with a
      digit is `NaN` for `parseInt`. */
  lemma ParseIntNoDigits(s: string)
    requires Unsigned(TrimStart(s)) == [] || !IsDigit(Unsigned(TrimStart(s))[0])
    ensures ParseInt(s) == None
  {
  }
}

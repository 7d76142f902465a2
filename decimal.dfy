/**
 * Decimal text of numbers as JavaScript produces and reads it, restricted to the
 * natural numbers: `Number.prototype.toString()` (section 6.1.6.1.20 of ECMA-262,
 * Number::toString) and `parseFloat` (section 19.2.4 of ECMA-262).
 */
module Decimal {

  predicate IsDigit(c: char) { '0' <= c <= '9' }

  predicate AllDigits(s: string) { forall i :: 0 <= i < |s| ==> IsDigit(s[i]) }

  function DigitChar(d: int): (c: char)
    requires 0 <= d < 10
    ensures IsDigit(c) && DigitValue(c) == d
  {
    ('0' as int + d) as char
  }

  function DigitValue(c: char): (d: nat)
    requires IsDigit(c)
    ensures d < 10
  {
    c as int - '0' as int
  }

  /** `n.toString()` for a natural number n: its decimal digits, no leading zero. */
  function NatToString(n: nat): (r: string)
    ensures |r| >= 1 && AllDigits(r)
    ensures |r| > 1 ==> r[0] != '0'
    decreases n
  {
    if n < 10 then [DigitChar(n)] else NatToString(n / 10) + [DigitChar(n % 10)]
  }

  /** The value of a string of decimal digits, most significant first. */
  function DigitsValue(s: string): nat
    requires AllDigits(s)
    decreases |s|
  {
    if |s| == 0 then 0 else DigitsValue(s[..|s| - 1]) * 10 + DigitValue(s[|s| - 1])
  }

  /**
   * StrWhiteSpaceChar of ECMA-262: the WhiteSpace code points (TAB, VT, FF, ZWNBSP and
   * the space separators of category Zs) and the LineTerminator code points.
   */
  predicate IsJsWhitespace(c: char) {
    c == '\t' || c == '\U{000B}' || c == '\U{000C}' || c == '\U{FEFF}'
    || c == ' ' || c == '\U{00A0}' || c == '\U{1680}' || ('\U{2000}' <= c <= '\U{200A}')
    || c == '\U{202F}' || c == '\U{205F}' || c == '\U{3000}'
    || c == '\n' || c == '\r' || c == '\U{2028}' || c == '\U{2029}'
  }

  /** Drops the leading whitespace, as parseFloat's first step does. */
  function TrimStart(s: string): (r: string)
    ensures |r| <= |s| && r == s[|s| - |r|..]
    ensures r != [] ==> !IsJsWhitespace(r[0])
    ensures forall i :: 0 <= i < |s| - |r| ==> IsJsWhitespace(s[i])
    decreases |s|
  {
    if s != [] && IsJsWhitespace(s[0]) then
      var r := TrimStart(s[1..]);
      assert forall i :: 1 <= i < |s| - |r| ==> s[i] == s[1..][i - 1];
      r
    else s
  }

  /** Index `i` holds the first character of `s` that is not whitespace. */
  predicate FirstVisibleAt(s: string, i: int) {
    0 <= i < |s| && !IsJsWhitespace(s[i]) && forall j :: 0 <= j < i ==> IsJsWhitespace(s[j])
  }

  /** The first visible character is the one TrimStart leaves at the front. */
  lemma FirstVisibleIsTrimStart(s: string, i: int)
    ensures FirstVisibleAt(s, i) <==> TrimStart(s) != [] && i == |s| - |TrimStart(s)|
  {
    var t := TrimStart(s);
    var m := |s| - |t|;
    if t != [] {
      assert s[m] == t[0];
    }
  }

  /** The text without the one optional sign a StrDecimalLiteral may begin with. */
  function Unsigned(t: string): string {
    if t != [] && (t[0] == '+' || t[0] == '-') then t[1..] else t
  }

  /**
   * Some prefix of `u` is a StrUnsignedDecimalLiteral of ECMA-262: `u` starts with a digit,
   * with '.' followed by a digit, or with "Infinity".
   */
  predicate StartsUnsignedLiteral(u: string) {
    || (|u| >= 1 && IsDigit(u[0]))
    || (|u| >= 2 && u[0] == '.' && IsDigit(u[1]))
    || (|u| >= 8 && u[..8] == "Infinity")
  }

  /** Some prefix of `t` is a StrDecimalLiteral: an optional sign, then an unsigned literal. */
  predicate StartsLiteral(t: string) {
    StartsUnsignedLiteral(Unsigned(t))
  }

  /** The length of the longest prefix of decimal digits. */
  function DigitRun(s: string): (k: nat)
    ensures k <= |s| && AllDigits(s[..k])
    ensures k < |s| ==> !IsDigit(s[k])
    decreases |s|
  {
    if s != [] && IsDigit(s[0]) then
      var k := 1 + DigitRun(s[1..]);
      assert s[..k] == [s[0]] + s[1..][..k - 1];
      k
    else 0
  }

  /**
   * What parseFloat returns, as far as this model evaluates it.  NaN is exact: no prefix of
   * the trimmed text is a decimal literal.  Unevaluated covers the literals this model does
   * not compute: signed, fractional, exponent and "Infinity" forms.
   */
  datatype Number = Natural(n: nat) | NaN | Unevaluated

  /** What parseFloat reads from text that has no leading whitespace. */
  function ReadLiteral(t: string): (r: Number)
    ensures r == NaN <==> !StartsLiteral(t)
    ensures r.Natural? ==> t != [] && IsDigit(t[0])
  {
    var k := DigitRun(t);
    if !StartsLiteral(t) then NaN
    else if k == 0 then Unevaluated
    else if k < |t| && (t[k] == '.' || t[k] == 'e' || t[k] == 'E') then Unevaluated
    else Natural(DigitsValue(t[..k]))
  }

  function ParseFloat(s: string): (r: Number)
    ensures r == NaN <==> forall i :: FirstVisibleAt(s, i) ==> !StartsLiteral(s[i..])
    ensures r.Natural? ==> forall i :: FirstVisibleAt(s, i) ==> IsDigit(s[i])
  {
    var t := TrimStart(s);
    assert forall i :: FirstVisibleAt(s, i) ==> s[i..] == t by {
      forall i | FirstVisibleAt(s, i) ensures s[i..] == t { FirstVisibleIsTrimStart(s, i); }
    }
    assert t != [] ==> FirstVisibleAt(s, |s| - |t|) by {
      FirstVisibleIsTrimStart(s, |s| - |t|);
    }
    ReadLiteral(t)
  }

  /** Text that starts with no whitespace is read as it is. */
  lemma ParseFloatOfVisible(s: string)
    requires s != [] && !IsJsWhitespace(s[0])
    ensures ParseFloat(s) == ReadLiteral(s)
  {
    assert TrimStart(s) == s;
  }

  /**
   * A sign, '.' or 'I' that begins no literal reads as NaN, as in ECMA-262; by
   * ParseFloatOfVisible this is also what parseFloat returns for these texts.
   */
  lemma ReadLiteralMalformedIsNaN()
    ensures ReadLiteral("-x") == NaN && ReadLiteral("+") == NaN && ReadLiteral(".") == NaN
    ensures ReadLiteral(".e1") == NaN && ReadLiteral("Ix") == NaN && ReadLiteral("+-1") == NaN
  {
    assert Unsigned("+-1") == "-1";
  }

  lemma {:induction false} DigitsValueOfNatToString(n: nat)
    ensures DigitsValue(NatToString(n)) == n
    decreases n
  {
    var s := NatToString(n);
    if n >= 10 {
      DigitsValueOfNatToString(n / 10);
      assert s[..|s| - 1] == NatToString(n / 10);
    }
  }

  lemma {:induction false} DigitsValuePositive(s: string)
    requires |s| >= 1 && AllDigits(s) && s[0] != '0'
    ensures DigitsValue(s) >= 1
    decreases |s|
  {
    if |s| > 1 {
      DigitsValuePositive(s[..|s| - 1]);
    }
  }

  /** A digit string without a leading zero is exactly what toString prints for its value. */
  lemma {:induction false} NatToStringOfDigitsValue(s: string)
    requires |s| >= 1 && AllDigits(s)
    requires |s| > 1 ==> s[0] != '0'
    ensures NatToString(DigitsValue(s)) == s
    decreases |s|
  {
    if |s| > 1 {
      var p := s[..|s| - 1];
      NatToStringOfDigitsValue(p);
      DigitsValuePositive(p);
      var n := DigitsValue(s);
      assert n / 10 == DigitsValue(p) && n % 10 == DigitValue(s[|s| - 1]);
      assert s == p + [s[|s| - 1]];
    }
  }

  /** parseFloat reads back what toString printed. */
  lemma ParseFloatNatToString(n: nat)
    ensures ParseFloat(NatToString(n)) == Natural(n)
  {
    var s := NatToString(n);
    assert !IsJsWhitespace(s[0]);
    assert TrimStart(s) == s;
    DigitRunOfDigits(s);
    assert s[..|s|] == s;
    DigitsValueOfNatToString(n);
  }

  lemma {:induction false} DigitRunOfDigits(s: string)
    requires AllDigits(s)
    ensures DigitRun(s) == |s|
    decreases |s|
  {
    if s != [] {
      DigitRunOfDigits(s[1..]);
    }
  }

  lemma {:induction false} TrimStartSkipsWhitespace(w: string, s: string)
    requires forall i :: 0 <= i < |w| ==> IsJsWhitespace(w[i])
    ensures TrimStart(w + s) == TrimStart(s)
    decreases |w|
  {
    if w != [] {
      assert (w + s)[1..] == w[1..] + s;
      TrimStartSkipsWhitespace(w[1..], s);
    } else {
      assert w + s == s;
    }
  }

  /** Leading whitespace does not change what parseFloat reads. */
  lemma ParseFloatSkipsWhitespace(w: string, s: string)
    requires forall i :: 0 <= i < |w| ==> IsJsWhitespace(w[i])
    ensures ParseFloat(w + s) == ParseFloat(s)
  {
    TrimStartSkipsWhitespace(w, s);
  }

  /** parseFloat stops at the first character after the digits that cannot continue a literal. */
  lemma ParseFloatIgnoresTrailingText(n: nat, rest: string)
    requires rest != [] ==> !IsDigit(rest[0]) && rest[0] != '.' && rest[0] != 'e' && rest[0] != 'E'
    ensures ParseFloat(NatToString(n) + rest) == Natural(n)
  {
    var s := NatToString(n);
    var t := s + rest;
    assert !IsJsWhitespace(t[0]);
    assert TrimStart(t) == t;
    DigitRunPrefix(s, rest);
    assert t[..|s|] == s;
    DigitsValueOfNatToString(n);
  }

  lemma {:induction false} DigitRunPrefix(s: string, rest: string)
    requires AllDigits(s)
    requires rest != [] ==> !IsDigit(rest[0])
    ensures DigitRun(s + rest) == |s|
    decreases |s|
  {
    if s != [] {
      assert (s + rest)[1..] == s[1..] + rest;
      DigitRunPrefix(s[1..], rest);
    } else {
      assert s + rest == rest;
    }
  }
}

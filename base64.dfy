/**
 * The browser built-ins `btoa` and `atob`: base64 with the alphabet and padding of
 * section 4 of RFC 4648, decoded by the "forgiving-base64 decode" algorithm of the
 * WHATWG Infra Standard.  A JavaScript "binary string" is a string whose code units
 * are all at most 0xFF; each code unit stands for one byte.
 */
module Base64 {
  import opened Wrappers
  import opened Bytes

  type Sextet = v: int | 0 <= v < 64

  /** Row `v` of the base64 alphabet table (section 4 of RFC 4648). */
  function CharOf(v: Sextet): (c: char)
    ensures IsAlphabetChar(c) && ValueOf(c) == v
  {
    if v < 26 then ('A' as int + v) as char
    else if v < 52 then ('a' as int + (v - 26)) as char
    else if v < 62 then ('0' as int + (v - 52)) as char
    else if v == 62 then '+'
    else '/'
  }

  predicate IsAlphabetChar(c: char) {
    ('A' <= c <= 'Z') || ('a' <= c <= 'z') || ('0' <= c <= '9') || c == '+' || c == '/'
  }

  /** The inverse of the alphabet table. */
  function ValueOf(c: char): Sextet
    requires IsAlphabetChar(c)
  {
    if 'A' <= c <= 'Z' then c as int - 'A' as int
    else if 'a' <= c <= 'z' then c as int - 'a' as int + 26
    else if '0' <= c <= '9' then c as int - '0' as int + 52
    else if c == '+' then 62
    else 63
  }

  /** Splits bytes into 6-bit groups, each 3-byte group giving 4 sextets and a final
      partial group of 1 or 2 bytes giving 2 or 3 sextets (its low bits zero-filled). */
  function ToSextets(b: seq<Byte>): seq<Sextet>
    decreases |b|
  {
    if |b| == 0 then []
    else if |b| == 1 then [First(b[0]), Second(b[0], 0)]
    else if |b| == 2 then [First(b[0]), Second(b[0], b[1]), Third(b[1], 0)]
    else [First(b[0]), Second(b[0], b[1]), Third(b[1], b[2]), Fourth(b[2])] + ToSextets(b[3..])
  }

  /** The four sextets of a 24-bit group, from the bytes that hold their bits. */
  function First(a: Byte): Sextet { a / 4 }
  function Second(a: Byte, b: Byte): Sextet { a % 4 * 16 + b / 16 }
  function Third(b: Byte, c: Byte): Sextet { b % 16 * 4 + c / 64 }
  function Fourth(c: Byte): Sextet { c % 64 }

  /** Reassembles bytes from sextets: every full group of 24 bits gives 3 bytes; 12 or 18
      leftover bits give 1 or 2 bytes and their last 4 or 2 bits are discarded.  A single
      leftover sextet (6 bits) gives nothing; atob rejects such input before decoding. */
  function FromSextets(s: seq<Sextet>): seq<Byte>
    decreases |s|
  {
    if |s| < 2 then []
    else if |s| == 2 then [High(s[0], s[1])]
    else if |s| == 3 then [High(s[0], s[1]), Middle(s[1], s[2])]
    else [High(s[0], s[1]), Middle(s[1], s[2]), Low(s[2], s[3])] + FromSextets(s[4..])
  }

  /** The first, second and third byte of a 24-bit group, from the sextets that hold its bits. */
  function High(a: Sextet, b: Sextet): Byte { a as int * 4 + b as int / 16 }
  function Middle(b: Sextet, c: Sextet): Byte { b as int % 16 * 16 + c as int / 4 }
  function Low(c: Sextet, d: Sextet): Byte { c as int % 4 * 64 + d as int }

  function Padding(n: nat): string {
    if n % 3 == 1 then "==" else if n % 3 == 2 then "=" else ""
  }

  /** Base64 encoding of a byte sequence, padded to a multiple of four characters. */
  function Encode(b: seq<Byte>): (r: string)
    ensures |r| == (|b| + 2) / 3 * 4
    ensures forall i :: 0 <= i < |r| ==> IsAlphabetChar(r[i]) || (r[i] == '=' && i >= |r| - 2)
  {
    SextetCount(b);
    Chars(ToSextets(b)) + Padding(|b|)
  }

  function Chars(s: seq<Sextet>): (r: string)
    ensures |r| == |s| && AllAlphabet(r)
  {
    seq(|s|, i requires 0 <= i < |s| => CharOf(s[i]))
  }

  predicate IsBinaryString(s: string) {
    forall i :: 0 <= i < |s| ==> s[i] as int < 256
  }

  function BytesOf(s: string): (b: seq<Byte>)
    requires IsBinaryString(s)
    ensures |b| == |s|
  {
    seq(|s|, i requires 0 <= i < |s| => s[i] as int)
  }

  function StringOf(b: seq<Byte>): (s: string)
    ensures IsBinaryString(s) && BytesOf(s) == b
  {
    seq(|b|, i requires 0 <= i < |b| => b[i] as char)
  }

  /** `btoa`: None where the browser throws InvalidCharacterError (a code unit above 0xFF). */
  function Btoa(s: string): (r: Option<string>)
    ensures r.Some? <==> IsBinaryString(s)
  {
    if IsBinaryString(s) then Some(Encode(BytesOf(s))) else None
  }

  /** ASCII whitespace of the Infra Standard: TAB, LF, FF, CR and SPACE. */
  predicate IsAsciiWhitespace(c: char) {
    c == '\t' || c == '\n' || c == '\U{000C}' || c == '\r' || c == ' '
  }

  /**
   * The Infra Standard's "strip ASCII whitespace" step of atob: every whitespace character
   * goes, every other character stays (in order, by RemoveAsciiWhitespaceAppend).
   * Text without whitespace is kept as it is; whitespace-only text vanishes
   * (RemoveAsciiWhitespaceDrops).
   */
  function RemoveAsciiWhitespace(s: string): (r: string)
    ensures forall i :: 0 <= i < |r| ==> !IsAsciiWhitespace(r[i])
    ensures (forall i :: 0 <= i < |s| ==> !IsAsciiWhitespace(s[i])) ==> r == s
    ensures |r| <= |s|
    decreases |s|
  {
    if s == [] then []
    else
      assert s == [s[0]] + s[1..];
      if IsAsciiWhitespace(s[0]) then RemoveAsciiWhitespace(s[1..])
      else [s[0]] + RemoveAsciiWhitespace(s[1..])
  }

  /** Whitespace removal works character by character, so it keeps the order of the rest. */
  lemma {:induction false} RemoveAsciiWhitespaceAppend(a: string, b: string)
    ensures RemoveAsciiWhitespace(a + b) == RemoveAsciiWhitespace(a) + RemoveAsciiWhitespace(b)
    decreases |a|
  {
    if a == [] {
      assert a + b == b;
    } else {
      assert (a + b)[0] == a[0];
      assert (a + b)[1..] == a[1..] + b;
      RemoveAsciiWhitespaceAppend(a[1..], b);
    }
  }

  /** Text made of whitespace only is removed entirely. */
  lemma {:induction false} RemoveAsciiWhitespaceDrops(w: string)
    requires forall i :: 0 <= i < |w| ==> IsAsciiWhitespace(w[i])
    ensures RemoveAsciiWhitespace(w) == []
    decreases |w|
  {
    if w != [] {
      assert IsAsciiWhitespace(w[0]);
      RemoveAsciiWhitespaceDrops(w[1..]);
    }
  }

  /** A character that is not whitespace survives the removal. */
  lemma {:induction false} RemoveAsciiWhitespaceKeeps(s: string, c: char)
    requires c in s && !IsAsciiWhitespace(c)
    ensures c in RemoveAsciiWhitespace(s)
    decreases |s|
  {
    if s[0] != c {
      RemoveAsciiWhitespaceKeeps(s[1..], c);
    }
  }

  /** Removes one or two trailing '=' characters. */
  function StripPadding(d: string): string {
    if |d| >= 2 && d[|d| - 2] == '=' && d[|d| - 1] == '=' then d[..|d| - 2]
    else if |d| >= 1 && d[|d| - 1] == '=' then d[..|d| - 1]
    else d
  }

  predicate AllAlphabet(d: string) {
    forall i :: 0 <= i < |d| ==> IsAlphabetChar(d[i])
  }

  /** `atob`: None where the browser throws InvalidCharacterError. */
  function Atob(s: string): (r: Option<string>)
    ensures r.Some? ==> IsBinaryString(r.value)
  {
    var d0 := RemoveAsciiWhitespace(s);
    var d := if |d0| % 4 == 0 then StripPadding(d0) else d0;
    if |d| % 4 == 1 || !AllAlphabet(d) then None
    else
      var sextets := seq(|d|, i requires 0 <= i < |d| && AllAlphabet(d) => ValueOf(d[i]));
      Some(StringOf(FromSextets(sextets)))
  }

  /** Each byte is recovered from the sextets that hold its bits. */
  lemma GroupRoundTrip(a: Byte, b: Byte, c: Byte)
    ensures High(First(a), Second(a, b)) == a
    ensures Middle(Second(a, b), Third(b, c)) == b
    ensures Low(Third(b, c), Fourth(c)) == c
  {
  }

  /** Three bytes give four sextets; a final one or two bytes give two or three. */
  lemma {:induction false} SextetCount(b: seq<Byte>)
    ensures |ToSextets(b)| == |b| / 3 * 4 + (if |b| % 3 == 0 then 0 else |b| % 3 + 1)
    decreases |b|
  {
    if |b| >= 3 {
      SextetCount(b[3..]);
      assert |b| / 3 == |b[3..]| / 3 + 1 && |b| % 3 == |b[3..]| % 3;
    }
  }

  lemma {:induction false} SextetsRoundTrip(b: seq<Byte>)
    ensures FromSextets(ToSextets(b)) == b
    decreases |b|
  {
    if |b| >= 3 {
      var rest := b[3..];
      assert b == [b[0], b[1], b[2]] + rest;
      SextetsRoundTrip(rest);
      var s := ToSextets(b);
      assert s[4..] == ToSextets(rest);
      GroupRoundTrip(b[0], b[1], b[2]);
    } else if |b| == 2 {
      assert b == [b[0], b[1]];
      GroupRoundTrip(b[0], b[1], 0);
    } else if |b| == 1 {
      assert b == [b[0]];
      GroupRoundTrip(b[0], 0, 0);
    }
  }

  /** With no alphabet character equal to '=', stripping the padding leaves the sextet characters. */
  lemma StripEncodedPadding(chars: string, pad: string)
    requires AllAlphabet(chars)
    requires pad == "" || pad == "=" || pad == "=="
    requires pad != "" ==> |chars| >= 1
    ensures StripPadding(chars + pad) == chars
  {
    var enc := chars + pad;
    if |pad| == 0 {
      assert enc == chars;
      if |chars| >= 1 { assert IsAlphabetChar(enc[|enc| - 1]); }
    } else if |pad| == 1 {
      assert IsAlphabetChar(enc[|enc| - 2]);
      assert enc[..|enc| - 1] == chars;
    } else {
      assert enc[..|enc| - 2] == chars;
    }
  }

  lemma ValuesOfChars(sx: seq<Sextet>)
    ensures seq(|sx|, i requires 0 <= i < |sx| && AllAlphabet(Chars(sx)) => ValueOf(Chars(sx)[i])) == sx
  {
  }

  lemma NoWhitespaceInEncoding(chars: string, pad: string)
    requires AllAlphabet(chars)
    requires pad == "" || pad == "=" || pad == "=="
    ensures RemoveAsciiWhitespace(chars + pad) == chars + pad
  {
    var enc := chars + pad;
    forall i | 0 <= i < |enc| ensures !IsAsciiWhitespace(enc[i]) {
      if i < |chars| { assert IsAlphabetChar(chars[i]); }
    }
  }

  /** atob on alphabet characters followed by correct padding decodes their sextets. */
  lemma AtobOfEncoding(sx: seq<Sextet>, pad: string)
    requires pad == "" || pad == "=" || pad == "=="
    requires (|sx| + |pad|) % 4 == 0 && |sx| % 4 != 1
    requires pad != "" ==> |sx| >= 1
    ensures Atob(Chars(sx) + pad) == Some(StringOf(FromSextets(sx)))
  {
    var chars := Chars(sx);
    var enc := chars + pad;
    NoWhitespaceInEncoding(chars, pad);
    assert |enc| % 4 == 0;
    StripEncodedPadding(chars, pad);
    ValuesOfChars(sx);
    assert !(|chars| % 4 == 1 || !AllAlphabet(chars));
  }

  lemma StringOfBytesOf(s: string)
    requires IsBinaryString(s)
    ensures StringOf(BytesOf(s)) == s
  {
  }

  /** The sextet count of n bytes plus the padding fills whole quartets, and never leaves one over. */
  lemma PaddedLength(n: nat, count: nat)
    requires count == n / 3 * 4 + (if n % 3 == 0 then 0 else n % 3 + 1)
    ensures (count + |Padding(n)|) % 4 == 0 && count % 4 != 1
    ensures Padding(n) != "" ==> count >= 1
  {
  }

  /** Decoding what `btoa` produced gives back the original binary string. */
  lemma AtobBtoa(s: string)
    requires IsBinaryString(s)
    ensures Atob(Btoa(s).value) == Some(s)
  {
    var b := BytesOf(s);
    var sx := ToSextets(b);
    assert Btoa(s).value == Chars(sx) + Padding(|b|);
    SextetCount(b);
    PaddedLength(|b|, |sx|);
    AtobOfEncoding(sx, Padding(|b|));
    SextetsRoundTrip(b);
    StringOfBytesOf(s);
  }

  /** atob ignores ASCII whitespace wherever it stands. */
  lemma AtobIgnoresWhitespace(a: string, w: string, b: string)
    requires forall i :: 0 <= i < |w| ==> IsAsciiWhitespace(w[i])
    ensures Atob(a + w + b) == Atob(a + b)
  {
    RemoveAsciiWhitespaceAppend(a + w, b);
    RemoveAsciiWhitespaceAppend(a, w);
    RemoveAsciiWhitespaceAppend(a, b);
    RemoveAsciiWhitespaceDrops(w);
    assert RemoveAsciiWhitespace(a + w) == RemoveAsciiWhitespace(a);
  }

  /** Without whitespace, a length of the form 4k + 1 leaves one sextet over: atob throws. */
  lemma AtobRejectsLeftoverCharacter(s: string)
    requires forall i :: 0 <= i < |s| ==> !IsAsciiWhitespace(s[i])
    requires |s| % 4 == 1
    ensures Atob(s) == None
  {
    assert RemoveAsciiWhitespace(s) == s;
  }

  /**
   * An '=' that is not one of at most two trailing padding characters of a text whose length
   * is a multiple of four makes atob throw.
   */
  lemma AtobRejectsMisplacedPadding(s: string, i: nat)
    requires forall j :: 0 <= j < |s| ==> !IsAsciiWhitespace(s[j])
    requires i < |s| && s[i] == '='
    requires i < |s| - 2 || |s| % 4 != 0
    ensures Atob(s) == None
  {
    assert RemoveAsciiWhitespace(s) == s;
    var d := if |s| % 4 == 0 then StripPadding(s) else s;
    assert i < |d| && d[i] == '=';
    assert !IsAlphabetChar(d[i]);
  }

  /** A character outside the alphabet, other than whitespace and '=', makes atob throw. */
  lemma AtobRejectsForeignCharacter(s: string, c: char)
    requires c in s && !IsAlphabetChar(c) && !IsAsciiWhitespace(c) && c != '='
    ensures Atob(s) == None
  {
    var d0 := RemoveAsciiWhitespace(s);
    RemoveAsciiWhitespaceKeeps(s, c);
    var d := if |d0| % 4 == 0 then StripPadding(d0) else d0;
    var k :| 0 <= k < |d0| && d0[k] == c;
    assert d[k] == c;
  }
}

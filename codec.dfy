/**
 * The "FHE" codec of the chess front end.  Encrypting a number tags its base64-encoded
 * decimal text with "FHE-"; decrypting strips the tag (when present), base64-decodes and
 * parses the result.  There is no key: anyone holding the string recovers the number.
 */
module Codec {
  import opened Wrappers
  import Base64
  import opened Decimal

  const Tag: string := "FHE-"

  /** The string begins with the "FHE-" tag. */
  predicate HasTag(s: string) {
    |s| >= |Tag| && s[..|Tag|] == Tag
  }

  /** FHEEncryptNumber on a natural number: the tag followed by btoa of its decimal text. */
  function Encrypt(value: nat): (r: string)
    ensures HasTag(r)
    ensures Base64.Btoa(NatToString(value)) == Some(r[|Tag|..])
  {
    var text := NatToString(value);
    assert Base64.IsBinaryString(text) by {
      forall i | 0 <= i < |text| ensures text[i] as int < 256 { assert IsDigit(text[i]); }
    }
    var r := Tag + Base64.Btoa(text).value;
    assert r[|Tag|..] == Base64.Btoa(text).value;
    r
  }

  /** The outcome of FHEDecryptNumber: a parsed number, or the InvalidCharacterError atob throws. */
  datatype Decryption = Parsed(number: Number) | InvalidCharacter

  /** FHEDecryptNumber: strip the tag and base64-decode when tagged, then parseFloat. */
  function Decrypt(s: string): (r: Decryption)
    ensures r == InvalidCharacter <==> HasTag(s) && Base64.Atob(s[|Tag|..]).None?
    ensures !HasTag(s) ==> r == Parsed(ParseFloat(s))
  {
    if HasTag(s) then
      match Base64.Atob(s[|Tag|..])
      case None => InvalidCharacter
      case Some(text) => Parsed(ParseFloat(text))
    else Parsed(ParseFloat(s))
  }

  /** Decrypting what Encrypt produced yields the original number. */
  lemma DecryptEncrypt(n: nat)
    ensures Decrypt(Encrypt(n)) == Parsed(Natural(n))
  {
    var text := NatToString(n);
    var e := Encrypt(n);
    Base64.AtobBtoa(text);
    assert Base64.Atob(e[|Tag|..]) == Some(text);
    ParseFloatNatToString(n);
  }

  /** An untagged decimal string is parsed directly. */
  lemma DecryptUntaggedDecimal(n: nat)
    ensures Decrypt(NatToString(n)) == Parsed(Natural(n))
  {
    var s := NatToString(n);
    assert IsDigit(s[0]);
    assert !HasTag(s) by {
      if |s| >= |Tag| { assert s[..|Tag|][0] == s[0]; }
    }
    ParseFloatNatToString(n);
  }

  lemma DecryptFortyTwo()
    ensures Decrypt("42") == Parsed(Natural(42))
  {
    assert NatToString(42) == "42";
    DecryptUntaggedDecimal(42);
  }

  /** A tagged string whose payload holds a character base64 does not use makes atob throw. */
  lemma DecryptForeignPayload(s: string, c: char)
    requires HasTag(s) && c in s[|Tag|..]
    requires !Base64.IsAlphabetChar(c) && !Base64.IsAsciiWhitespace(c) && c != '='
    ensures Decrypt(s) == InvalidCharacter
  {
    Base64.AtobRejectsForeignCharacter(s[|Tag|..], c);
  }
}

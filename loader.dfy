/**
 * How loadData turns one stored blob into a list: an empty blob, text that fails UTF-8
 * decoding, blank text and text that fails JSON parsing all give the empty list; only
 * failures are swallowed, never reported.  UTF-8 decoding and JSON parsing are library
 * calls and enter as the functions `decodeUtf8` and `parseJson` (None: the call throws).
 */
module Loader {
  import opened Wrappers
  import opened Bytes
  import Decimal

  /** Text that trimming empties: nothing but whitespace and line terminators. */
  predicate IsBlank(text: string) {
    forall i :: 0 <= i < |text| ==> Decimal.IsJsWhitespace(text[i])
  }

  function LoadList<T>(blob: seq<Byte>, decodeUtf8: seq<Byte> -> Option<string>,
                       parseJson: string -> Option<seq<T>>): (r: seq<T>)
    ensures |blob| == 0 ==> r == []
    ensures decodeUtf8(blob).None? ==> r == []
    ensures decodeUtf8(blob).Some? && IsBlank(decodeUtf8(blob).value) ==> r == []
    ensures r != [] ==> |blob| > 0 && decodeUtf8(blob).Some? && parseJson(decodeUtf8(blob).value) == Some(r)
  {
    if |blob| == 0 then []
    else match decodeUtf8(blob)
      case None => []
      case Some(text) => if IsBlank(text) then [] else parseJson(text).GetOr([])
  }

  /** A stored list that parses back to itself is loaded unchanged, whatever its encoding. */
  lemma LoadListOfWritten<T>(blob: seq<Byte>, decodeUtf8: seq<Byte> -> Option<string>,
                             parseJson: string -> Option<seq<T>>, text: string, written: seq<T>)
    requires |blob| > 0 && decodeUtf8(blob) == Some(text) && !IsBlank(text)
    requires parseJson(text) == Some(written)
    ensures LoadList(blob, decodeUtf8, parseJson) == written
  {
  }
}

/**
 * PHP's `addslashes`, used to escape string arguments before they are quoted,
 * with its inverse `stripslashes` and the scan that finds the closing quote of
 * an escaped string.
 */
module Slashes {
  import opened Wrappers

  /** The bytes `addslashes` escapes: single quote, double quote, backslash and NUL. */
  predicate IsSpecial(c: char) {
    c == '\'' || c == '"' || c == '\\' || c == '\0'
  }

  /** How many bytes of `s` get escaped. */
  function CountSpecial(s: string): nat
  {
    if |s| == 0 then 0
    else (if IsSpecial(s[0]) then 1 else 0) + CountSpecial(s[1..])
  }

  /** One byte's escape: a backslash before a special byte (NUL is written as `\0`), the byte itself otherwise. */
  function EscapeByte(c: char): (r: string)
    ensures IsSpecial(c) ==> |r| == 2 && r[0] == '\\'
    ensures !IsSpecial(c) ==> r == [c]
  {
    if c == '\0' then ['\\', '0']
    else if IsSpecial(c) then ['\\', c]
    else [c]
  }

  /** PHP's `addslashes(s)`. */
  function AddSlashes(s: string): (r: string)
    ensures |r| == |s| + CountSpecial(s)
    ensures CountSpecial(s) == 0 ==> r == s
  {
    if |s| == 0 then ""
    else EscapeByte(s[0]) + AddSlashes(s[1..])
  }

  /**
   * PHP's `stripslashes(s)`: every backslash is dropped and the byte after it
   * kept, except that `\0` becomes NUL; a lone trailing backslash vanishes.
   */
  function StripSlashes(s: string): string
  {
    if |s| == 0 then ""
    else if s[0] == '\\' then
      if |s| == 1 then ""
      else (if s[1] == '0' then ['\0'] else [s[1]]) + StripSlashes(s[2..])
    else [s[0]] + StripSlashes(s[1..])
  }

  /** Escaping loses nothing: `stripslashes` recovers the original bytes. */
  lemma {:induction false} StripAddSlashes(s: string)
    ensures StripSlashes(AddSlashes(s)) == s
  {
    if |s| > 0 {
      var e := EscapeByte(s[0]);
      var rest := AddSlashes(s[1..]);
      StripAddSlashes(s[1..]);
      if IsSpecial(s[0]) {
        assert (e + rest)[2..] == rest;
      } else {
        assert (e + rest)[1..] == rest;
      }
      assert [s[0]] + s[1..] == s;
    }
  }

  /**
   * The offset of the first double quote not preceded by an escaping
   * backslash, reading escape pairs as `stripslashes` does.
   */
  function ClosingQuote(s: string): (r: Option<nat>)
    ensures r.Some? ==> r.value < |s| && s[r.value] == '"'
  {
    if |s| == 0 then None
    else if s[0] == '"' then Some(0)
    else if s[0] == '\\' then
      if |s| < 2 then None
      else match ClosingQuote(s[2..])
        case None => None
        case Some(k) => Some(k + 2)
    else match ClosingQuote(s[1..])
      case None => None
      case Some(k) => Some(k + 1)
  }

  /** The escape of one byte holds no closing quote: the scan passes over it. */
  lemma ClosingQuoteAfterEscape(c: char, tail: string)
    ensures ClosingQuote(EscapeByte(c) + tail) ==
      (match ClosingQuote(tail)
       case None => None
       case Some(k) => Some(k + |EscapeByte(c)|))
  {
    var s := EscapeByte(c) + tail;
    if IsSpecial(c) {
      assert s[0] == '\\' && s[2..] == tail;
    } else {
      assert s[0] == c && s[1..] == tail;
    }
  }

  /** An escaped string contains no bare double quote: the quote after it is the closing one. */
  lemma {:induction false} EscapedThenQuote(p: string, q: string)
    requires |q| > 0 && q[0] == '"'
    ensures ClosingQuote(AddSlashes(p) + q) == Some(|AddSlashes(p)|)
  {
    if |p| == 0 {
      assert AddSlashes(p) + q == q;
    } else {
      var a, b := EscapeByte(p[0]), AddSlashes(p[1..]);
      assert AddSlashes(p) + q == a + (b + q);
      EscapedThenQuote(p[1..], q);
      ClosingQuoteAfterEscape(p[0], b + q);
    }
  }
}

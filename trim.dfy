/** Removing leading and trailing whitespace.

    The backend calls Python's `str.strip()` on every answer of the AI
    provider, and the page's `addAIMessage` calls JavaScript's
    `String.prototype.trim()` to decide whether a stretch of text is worth
    showing. The two languages disagree on what whitespace is, so the
    operation is defined once, over a whitespace predicate, and instantiated
    with each language's set of characters. */
module Trim {

  /** The characters for which Python's `str.isspace()` is true. */
  predicate IsPyWhitespace(c: char) {
    c == '\t' || c == '\n' || c == '\U{000B}' || c == '\U{000C}' || c == '\r'
    || ('\U{001C}' <= c <= '\U{001F}') || c == ' ' || c == '\U{0085}' || c == '\U{00A0}'
    || c == '\U{1680}' || ('\U{2000}' <= c <= '\U{200A}') || c == '\U{2028}' || c == '\U{2029}'
    || c == '\U{202F}' || c == '\U{205F}' || c == '\U{3000}'
  }

  /** The characters that JavaScript's `trim()` removes: WhiteSpace and
      LineTerminator of the ECMAScript grammar. */
  predicate IsJsWhitespace(c: char) {
    c == '\t' || c == '\U{000B}' || c == '\U{000C}' || c == ' ' || c == '\U{00A0}' || c == '\U{FEFF}'
    || c == '\U{1680}' || ('\U{2000}' <= c <= '\U{200A}') || c == '\U{202F}' || c == '\U{205F}'
    || c == '\U{3000}' || c == '\n' || c == '\r' || c == '\U{2028}' || c == '\U{2029}'
  }

  /** Every character of `s` is whitespace in the sense of `ws`. */
  predicate AllWhitespace(s: string, ws: char -> bool) {
    forall i :: 0 <= i < |s| ==> ws(s[i])
  }

  /** The length of the longest all-whitespace prefix of `s`. */
  function LeadingWhitespace(s: string, ws: char -> bool): (n: nat)
    ensures n <= |s| && AllWhitespace(s[..n], ws)
    ensures n < |s| ==> !ws(s[n])
  {
    if s == [] || !ws(s[0]) then 0
    else
      var k := LeadingWhitespace(s[1..], ws);
      assert s[..k + 1] == [s[0]] + s[1..][..k];
      k + 1
  }

  /** The length of the longest all-whitespace suffix of `s`. */
  function TrailingWhitespace(s: string, ws: char -> bool): (n: nat)
    ensures n <= |s| && AllWhitespace(s[|s| - n..], ws)
    ensures n < |s| ==> !ws(s[|s| - 1 - n])
  {
    if s == [] || !ws(s[|s| - 1]) then 0
    else
      var t := s[..|s| - 1];
      var k := TrailingWhitespace(t, ws);
      assert s[|s| - (k + 1)..] == t[|t| - k..] + [s[|s| - 1]];
      assert k < |t| ==> s[|s| - 2 - k] == t[|t| - 1 - k];
      k + 1
  }

  /** `s` without its leading and trailing whitespace: the one slice
      `s[lo..hi]` that leaves only whitespace outside it and neither begins
      nor ends with whitespace itself. */
  function Trim(s: string, ws: char -> bool): (r: string)
    ensures |r| <= |s|
    ensures r == [] <==> AllWhitespace(s, ws)
    ensures r != [] ==> !ws(r[0]) && !ws(r[|r| - 1])
  {
    var lo := LeadingWhitespace(s, ws);
    if lo == |s| then
      assert s[..lo] == s && s[lo..lo] == [];
      []
    else
      var hi := |s| - TrailingWhitespace(s, ws);
      assert lo < hi;
      var r := s[lo..hi];
      assert r[0] == s[lo] && r[|r| - 1] == s[hi - 1];
      assert !AllWhitespace(s, ws) by { assert !ws(s[lo]); }
      r
  }

  /** Trimming removes only whitespace, and only at the two ends: the result
      is a slice of `s` with nothing but whitespace on either side of it. */
  lemma TrimIsSlice(s: string, ws: char -> bool)
    ensures exists lo :: 0 <= lo <= |s| - |Trim(s, ws)| && s[lo..lo + |Trim(s, ws)|] == Trim(s, ws)
              && AllWhitespace(s[..lo], ws) && AllWhitespace(s[lo + |Trim(s, ws)|..], ws)
  {
    var lo := LeadingWhitespace(s, ws);
    var r := Trim(s, ws);
    if lo == |s| {
      assert s[..lo] == s && s[lo..lo] == [];
      assert 0 <= lo <= |s| - |r| && s[lo..lo + |r|] == r && AllWhitespace(s[..lo], ws) && AllWhitespace(s[lo + |r|..], ws);
    } else {
      var hi := |s| - TrailingWhitespace(s, ws);
      assert r == s[lo..hi] && lo + |r| == hi;
      assert AllWhitespace(s[hi..], ws);
      assert 0 <= lo <= |s| - |r| && s[lo..lo + |r|] == r && AllWhitespace(s[..lo], ws) && AllWhitespace(s[lo + |r|..], ws);
    }
  }

  /** Python's `s.strip()` with no argument: empty exactly for text that
      is all whitespace, and otherwise free of whitespace at both ends. */
  function PyStrip(s: string): (r: string)
    ensures r == [] <==> AllWhitespace(s, IsPyWhitespace)
    ensures r != [] ==> !IsPyWhitespace(r[0]) && !IsPyWhitespace(r[|r| - 1])
  {
    Trim(s, IsPyWhitespace)
  }

  /** JavaScript's `s.trim()`: empty exactly for text that is all
      whitespace, and otherwise free of whitespace at both ends. */
  function JsTrim(s: string): (r: string)
    ensures r == [] <==> AllWhitespace(s, IsJsWhitespace)
    ensures r != [] ==> !IsJsWhitespace(r[0]) && !IsJsWhitespace(r[|r| - 1])
  {
    Trim(s, IsJsWhitespace)
  }

  /** The backend and the page disagree on whitespace: Python strips the
      information separator U+001C and the next line U+0085, which
      JavaScript keeps, and JavaScript trims the byte order mark U+FEFF,
      which Python keeps. */
  lemma StripAndTrimDiffer()
    ensures PyStrip("\U{001C}") == [] && JsTrim("\U{001C}") == "\U{001C}"
    ensures PyStrip("\U{0085}") == [] && JsTrim("\U{0085}") == "\U{0085}"
    ensures JsTrim("\U{FEFF}") == [] && PyStrip("\U{FEFF}") == "\U{FEFF}"
  {
    TrimKeepsInnerText("\U{001C}", IsJsWhitespace);
    TrimKeepsInnerText("\U{0085}", IsJsWhitespace);
    TrimKeepsInnerText("\U{FEFF}", IsPyWhitespace);
  }

  /** Trimming twice trims nothing more. */
  lemma TrimIdempotent(s: string, ws: char -> bool)
    ensures Trim(Trim(s, ws), ws) == Trim(s, ws)
  {
    var r := Trim(s, ws);
    if r != [] {
      var lo := LeadingWhitespace(r, ws);
      assert lo == 0;
      var t := TrailingWhitespace(r, ws);
      assert t == 0;
      assert r[0..|r|] == r;
    }
  }

  /** Trimming only removes whitespace: text without whitespace at either end
      is left exactly as it is. */
  lemma TrimKeepsInnerText(s: string, ws: char -> bool)
    requires s != [] && !ws(s[0]) && !ws(s[|s| - 1])
    ensures Trim(s, ws) == s
  {
    assert LeadingWhitespace(s, ws) == 0;
    assert TrailingWhitespace(s, ws) == 0;
    assert s[0..|s|] == s;
  }
}

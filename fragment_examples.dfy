/** Worked inputs of the inline-code splitter, each showing one rule of the
    regular expression /`([^`]+)`/g as the page applies it. */
module FragmentExamples {
  import opened Wrappers
  import opened Trim
  import opened Fragmenter

  /** A gap before a match is kept as text, its space included. */
  lemma TextThenCode(a: char, b: char)
    requires a != '`' && b != '`' && !IsJsWhitespace(a)
    ensures Fragments([a, ' ', '`', b, '`']) == [Text([a, ' ']), Code([b])]
  {
    var t := [a, ' ', '`', b, '`'];
    assert NextBacktick(t, 4) == 4 && NextBacktick(t, 3) == 4;
    assert FindMatch(t, 2) == Some(Span(2, 5));
    assert FindMatch(t, 1) == FindMatch(t, 2);
    assert FindMatch(t, 0) == FindMatch(t, 1);
    assert FindMatch(t, 5) == None;
    VisibleScanRest(t, 5);
    assert Visible(ScanFrom(t, 5)) == [];
    VisibleScanMatch(t, 0, Span(2, 5));
    assert t[0..2] == [a, ' '] && t[3..4] == [b];
    assert JsTrim([a, ' ']) != [] by { assert [a, ' '][0] == a; }
    assert Visible(ScanFrom(t, 0)) == [Text([a, ' '])] + [Code([b])];
  }

  /** A gap of only whitespace between two matches is dropped. */
  lemma BlankGapDropped(a: char, w: char, b: char)
    requires a != '`' && b != '`' && IsJsWhitespace(w)
    ensures Fragments(['`', a, '`', w, '`', b, '`']) == [Code([a]), Code([b])]
  {
    var t := ['`', a, '`', w, '`', b, '`'];
    TwoMatches(a, w, b);
    BlankGapThenCode(a, w, b);
    VisibleScanMatch(t, 0, Span(0, 3));
    assert t[1..2] == [a];
    assert Visible(ScanFrom(t, 0)) == [Code([a])] + [Code([b])];
  }

  /** After the first match of `a` `b`: the blank gap, then the second box. */
  lemma BlankGapThenCode(a: char, w: char, b: char)
    requires a != '`' && b != '`' && IsJsWhitespace(w)
    ensures Visible(ScanFrom(['`', a, '`', w, '`', b, '`'], 3)) == [Code([b])]
  {
    var t := ['`', a, '`', w, '`', b, '`'];
    TwoMatches(a, w, b);
    VisibleScanRest(t, 7);
    VisibleScanMatch(t, 3, Span(4, 7));
    assert t[3..4] == [w] && t[5..6] == [b];
    assert JsTrim([w]) == [] by { assert AllWhitespace([w], IsJsWhitespace); }
  }

  /** Where `exec` finds the two matches of `a` `b`. */
  lemma TwoMatches(a: char, w: char, b: char)
    requires a != '`' && b != '`' && w != '`'
    ensures FindMatch(['`', a, '`', w, '`', b, '`'], 0) == Some(Span(0, 3))
    ensures FindMatch(['`', a, '`', w, '`', b, '`'], 3) == Some(Span(4, 7))
    ensures FindMatch(['`', a, '`', w, '`', b, '`'], 7) == None
  {
    var t := ['`', a, '`', w, '`', b, '`'];
    assert NextBacktick(t, 2) == 2 && NextBacktick(t, 1) == 2;
    assert NextBacktick(t, 6) == 6 && NextBacktick(t, 5) == 6;
    assert FindMatch(t, 4) == Some(Span(4, 7));
  }

  /** Matches do not overlap: the middle backtick closes the first match, and
      the last backtick, left alone, stays in the text. */
  lemma FirstPairWins(a: char, b: char)
    requires a != '`' && b != '`' && !IsJsWhitespace(b)
    ensures Fragments(['`', a, '`', b, '`']) == [Code([a]), Text([b, '`'])]
  {
    var t := ['`', a, '`', b, '`'];
    FirstPairMatch(a, b);
    VisibleScanRest(t, 3);
    assert t[3..] == [b, '`'];
    assert JsTrim([b, '`']) != [] by { assert [b, '`'][0] == b; }
    assert Visible(ScanFrom(t, 3)) == [Text([b, '`'])];
    VisibleScanMatch(t, 0, Span(0, 3));
    assert t[1..2] == [a];
    assert Visible(ScanFrom(t, 0)) == [Code([a])] + [Text([b, '`'])];
  }

  /** Where `exec` finds the one match of `a`b`. */
  lemma FirstPairMatch(a: char, b: char)
    requires a != '`' && b != '`'
    ensures FindMatch(['`', a, '`', b, '`'], 0) == Some(Span(0, 3))
    ensures FindMatch(['`', a, '`', b, '`'], 3) == None
  {
    var t := ['`', a, '`', b, '`'];
    assert NextBacktick(t, 2) == 2 && NextBacktick(t, 1) == 2;
  }

  /** Two backticks with nothing between them are not a match. */
  lemma EmptyPair()
    ensures Fragments("``") == [Text("``")]
  {
    assert FindMatch("``", 0) == None;
    VisibleScanRest("``", 0);
    assert !IsJsWhitespace('`');
  }
}

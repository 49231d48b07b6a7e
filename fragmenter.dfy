/** The inline-code splitter of the page's `addAIMessage`.

    An AI answer is shown as a run of plain-text nodes and code boxes. The
    page finds code with the global regular expression
    /`([^`]+)`/g, calling `exec` repeatedly: each call searches from
    `lastIndex` for the leftmost match and moves `lastIndex` past it. The text
    between two matches becomes a text fragment unless it is whitespace only;
    each match becomes a code fragment holding what stands between its
    backticks.

    Here `FindMatch` is one `exec` call, `ScanFrom` cuts the whole text into
    pieces (gaps and matches, nothing dropped), `Visible` drops the blank
    gaps, and the method `AddAIMessage` is the page's own while loop, proved to
    produce `Fragments(text)`. */
module Fragmenter {
  import opened Wrappers
  import opened Trim

  /** What the page puts into the message bubble: a text node or a code box. */
  datatype Fragment = Text(text: string) | Code(code: string)

  /** `match.index` of a successful `exec`, and the `lastIndex` it leaves. */
  datatype Span = Span(index: nat, end: nat)

  predicate NoBacktick(s: string) {
    forall i :: 0 <= i < |s| ==> s[i] != '`'
  }

  /** The pattern `([^`]+)` matches exactly text[k..e]: a backtick, one or
      more characters that are not backticks, a backtick. */
  predicate IsMatch(text: string, k: int, e: int) {
    0 <= k && k + 2 < e <= |text| && text[k] == '`' && text[e - 1] == '`'
    && NoBacktick(text[k + 1..e - 1])
  }

  /** Some match of the pattern starts at position k. */
  ghost predicate MatchesAt(text: string, k: int) {
    exists e :: IsMatch(text, k, e)
  }

  /** `s` holds no complete match of the pattern anywhere. */
  ghost predicate NoCodeSpan(s: string) {
    forall k, e :: !IsMatch(s, k, e)
  }

  /** The first backtick at or after position i (|text| if there is none). */
  function NextBacktick(text: string, i: nat): (j: nat)
    requires i <= |text|
    ensures i <= j <= |text|
    ensures j < |text| ==> text[j] == '`'
    ensures NoBacktick(text[i..j])
    decreases |text| - i
  {
    if i == |text| || text[i] == '`' then i
    else
      var j := NextBacktick(text, i + 1);
      assert text[i..j] == [text[i]] + text[i + 1..j];
      j
  }

  /** Greedy `[^`]+` stops at the first backtick: a match that starts at k
      ends just after the next backtick. */
  lemma MatchEndIsNextBacktick(text: string, k: int, e: int)
    requires IsMatch(text, k, e)
    ensures e == NextBacktick(text, k + 1) + 1
  {
    var j := NextBacktick(text, k + 1);
    assert text[e - 1] == '`';
    assert forall i :: k + 1 <= i < e - 1 ==> text[i] == text[k + 1..e - 1][i - (k + 1)];
    assert forall i :: k + 1 <= i < j ==> text[i] == text[k + 1..j][i - (k + 1)];
  }

  /** One call of `codeRegex.exec(text)` while `codeRegex.lastIndex == from`:
      a match that starts at or after `from`; FindMatchLeftmost shows it is
      the leftmost one, and that null means there is none. */
  function FindMatch(text: string, from: nat): (m: Option<Span>)
    requires from <= |text|
    ensures m.Some? ==> from <= m.value.index && IsMatch(text, m.value.index, m.value.end)
    decreases |text| - from
  {
    if from + 2 >= |text| then None
    else
      var j := NextBacktick(text, from + 1);
      if text[from] == '`' && from + 1 < j < |text| then Some(Span(from, j + 1))
      else FindMatch(text, from + 1)
  }

  /** `exec` finds the leftmost match: no match starts between `from` and
      the one it returns, and none starts at or after `from` when it returns
      null. */
  lemma {:induction false} FindMatchLeftmost(text: string, from: nat)
    requires from <= |text|
    ensures FindMatch(text, from).Some? ==>
      forall k :: from <= k < FindMatch(text, from).value.index ==> !MatchesAt(text, k)
    ensures FindMatch(text, from).None? ==> forall k :: from <= k ==> !MatchesAt(text, k)
    decreases |text| - from
  {
    if from + 2 < |text| {
      var j := NextBacktick(text, from + 1);
      if !(text[from] == '`' && from + 1 < j < |text|) {
        assert !MatchesAt(text, from) by {
          if e :| IsMatch(text, from, e) {
            MatchEndIsNextBacktick(text, from, e);
          }
        }
        FindMatchLeftmost(text, from + 1);
      }
    }
  }

  /** The whole of text[from..] cut into pieces, left to right: the gap
      before each match as a Text piece (never empty), each match as a Code
      piece, and the rest after the last match as a Text piece. Blank gaps
      are kept here; `Visible` drops them. */
  function ScanFrom(text: string, from: nat): (ps: seq<Fragment>)
    requires from <= |text|
    ensures ps == [] <==> from == |text|
    decreases |text| - from
  {
    match FindMatch(text, from)
    case None => if from < |text| then [Text(text[from..])] else []
    case Some(m) => AroundMatch(text, from, m, ScanFrom(text, m.end))
  }

  /** The gap from `from` to the match `m` as a piece (if not empty), the
      match as a piece, then `rest`. */
  function AroundMatch(text: string, from: nat, m: Span, rest: seq<Fragment>): seq<Fragment>
    requires from <= m.index && m.index + 2 <= m.end <= |text|
  {
    (if from < m.index then [Text(text[from..m.index])] else [])
    + [Code(text[m.index + 1..m.end - 1])] + rest
  }

  function Scan(text: string): seq<Fragment> {
    ScanFrom(text, 0)
  }

  /** The page keeps a fragment unless it is text whose `trim()` is empty:
      text is dropped exactly when it is whitespace only. */
  predicate Shown(p: Fragment): (b: bool)
    ensures b <==> p.Code? || !AllWhitespace(p.text, IsJsWhitespace)
  {
    p.Code? || JsTrim(p.text) != []
  }

  /** The pieces that are shown, in their order. */
  function Visible(ps: seq<Fragment>): seq<Fragment> {
    if ps == [] then []
    else (if Shown(ps[0]) then [ps[0]] else []) + Visible(ps[1..])
  }

  /** Visible keeps exactly the shown pieces. */
  lemma {:induction false} VisibleMembers(ps: seq<Fragment>)
    ensures forall p :: p in Visible(ps) <==> p in ps && Shown(p)
  {
    if ps != [] {
      VisibleMembers(ps[1..]);
      assert ps == [ps[0]] + ps[1..];
    }
  }

  /** What `addAIMessage` appends to the message bubble for `text`: the
      pieces of the scan that are code or text that is not blank. */
  function Fragments(text: string): (r: seq<Fragment>)
    ensures forall p :: p in r <==> p in Scan(text) && (p.Code? || !AllWhitespace(p.text, IsJsWhitespace))
  {
    VisibleMembers(Scan(text));
    Visible(Scan(text))
  }

  /** The loop of `addAIMessage`, with DOM nodes replaced by fragments. */
  method AddAIMessage(text: string) returns (fragments: seq<Fragment>, copies: seq<string>, shared: Option<Span>)
    ensures fragments == Fragments(text)
    ensures copies == Codes(fragments)
    ensures shared == None
  {
    var lastIndex := 0;
    fragments := [];
    copies := [];
    shared := FindMatch(text, lastIndex);
    while shared.Some?
      invariant lastIndex <= |text|
      invariant shared == FindMatch(text, lastIndex)
      invariant fragments + Visible(ScanFrom(text, lastIndex)) == Fragments(text)
      invariant copies == Codes(fragments)
      decreases |text| - lastIndex
    {
      var m := shared.value;
      VisibleScanMatch(text, lastIndex, m);
      var before: seq<Fragment> := [];
      if m.index > lastIndex {
        var textBefore := text[lastIndex..m.index];
        if JsTrim(textBefore) != [] {
          before := [Text(textBefore)];
        }
      }
      var code := text[m.index + 1..m.end - 1];
      var shown := before + [Code(code)];
      assert before == if lastIndex < m.index && JsTrim(text[lastIndex..m.index]) != [] then [Text(text[lastIndex..m.index])] else [];
      assert Visible(ScanFrom(text, lastIndex)) == shown + Visible(ScanFrom(text, m.end));
      ConcatAssoc(fragments, shown, Visible(ScanFrom(text, m.end)));
      CodesAfterMatch(fragments, before, code);
      fragments := fragments + shown;
      copies := copies + [code];
      lastIndex := m.end;
      shared := FindMatch(text, lastIndex);
    }
    VisibleScanRest(text, lastIndex);
    if lastIndex < |text| {
      var remainingText := text[lastIndex..];
      if JsTrim(remainingText) != [] {
        CodesAppend(fragments, [Text(remainingText)]);
        fragments := fragments + [Text(remainingText)];
      }
    }
  }

  /** The contents of the code boxes, in order: what their Copy buttons are
      meant to put on the clipboard, one per box. */
  function Codes(ps: seq<Fragment>): seq<string> {
    if ps == [] then []
    else (if ps[0].Code? then [ps[0].code] else []) + Codes(ps[1..])
  }

  /** A string is among the copy targets exactly when a box holds it. */
  lemma {:induction false} CodesMembers(ps: seq<Fragment>)
    ensures forall c :: c in Codes(ps) <==> Code(c) in ps
  {
    if ps != [] {
      CodesMembers(ps[1..]);
      assert ps == [ps[0]] + ps[1..];
    }
  }

  lemma {:induction false} CodesAppend(a: seq<Fragment>, b: seq<Fragment>)
    ensures Codes(a + b) == Codes(a) + Codes(b)
  {
    if a != [] {
      assert (a + b)[0] == a[0];
      assert (a + b)[1..] == a[1..] + b;
      CodesAppend(a[1..], b);
    } else {
      assert a + b == b;
    }
  }

  lemma CodesAfterMatch(ps: seq<Fragment>, before: seq<Fragment>, code: string)
    requires |before| <= 1 && (before != [] ==> before[0].Text?)
    ensures Codes(ps + (before + [Code(code)])) == Codes(ps) + [code]
  {
    CodesAppend(ps, before + [Code(code)]);
    CodesAppend(before, [Code(code)]);
    assert [Code(code)][1..] == [];
    if before != [] {
      assert before[1..] == [];
    }
  }

  /** What a Copy button puts on the clipboard when clicked, as the page is
      written: the handler reads the one `match` variable that the whole loop
      shares, at click time. When it holds no match, `match[1]` throws and
      nothing is copied. */
  function ClickAsWritten(text: string, shared: Option<Span>): (copied: Option<string>)
    ensures shared.None? ==> copied.None?
    ensures shared.Some? && IsMatch(text, shared.value.index, shared.value.end) ==>
      copied == Some(text[shared.value.index + 1..shared.value.end - 1])
  {
    if shared.Some? && IsMatch(text, shared.value.index, shared.value.end)
    then Some(text[shared.value.index + 1..shared.value.end - 1])
    else None
  }

  /** The loop only stops once `exec` has returned null, so every Copy
      button, clicked after the message is shown, copies nothing: for the
      answer "`a`" the box shows a but its button copies nothing, while the
      intended copy is a. */
  lemma CopyButtonLosesCode()
    ensures Fragments("`a`") == [Code("a")]
    ensures Codes(Fragments("`a`")) == ["a"]
    ensures ClickAsWritten("`a`", None) == None
  {
    var t := "`a`";
    assert NextBacktick(t, 2) == 2 && NextBacktick(t, 1) == 2;
    assert FindMatch(t, 0) == Some(Span(0, 3));
    assert FindMatch(t, 3) == None;
    VisibleScanMatch(t, 0, Span(0, 3));
    VisibleScanRest(t, 3);
    assert t[1..2] == "a";
    assert [Code("a")][1..] == [];
  }

  /** For every answer: the Copy buttons as the page wires them. There is one
      button per code box; button i is meant to copy box i's content,
      `intended[i]`, but every click, coming after the loop, reads the
      shared `match` that the loop left null and copies nothing. */
  method CopyButtonsAsWritten(text: string) returns (intended: seq<string>, clicked: seq<Option<string>>)
    ensures intended == Codes(Fragments(text))
    ensures forall c :: c in intended <==> Code(c) in Fragments(text)
    ensures |clicked| == |intended|
    ensures forall i :: 0 <= i < |clicked| ==> clicked[i].None?
  {
    var fragments, copies, shared := AddAIMessage(text);
    CodesMembers(fragments);
    intended := copies;
    clicked := seq(|copies|, i => ClickAsWritten(text, shared));
  }

  /** One turn of the loop: what the page shows for text[from..] when `exec`
      finds a match. */
  lemma VisibleScanMatch(text: string, from: nat, m: Span)
    requires from <= |text| && FindMatch(text, from) == Some(m)
    ensures m.end <= |text|
    ensures Visible(ScanFrom(text, from))
      == (if from < m.index && JsTrim(text[from..m.index]) != [] then [Text(text[from..m.index])] else [])
         + [Code(text[m.index + 1..m.end - 1])] + Visible(ScanFrom(text, m.end))
  {
    ScanFromMatch(text, from, m);
    VisibleAround(text, from, m, ScanFrom(text, m.end));
  }

  lemma VisibleAround(text: string, from: nat, m: Span, rest: seq<Fragment>)
    requires from <= m.index && m.index + 2 <= m.end <= |text|
    ensures Visible(AroundMatch(text, from, m, rest))
      == (if from < m.index && JsTrim(text[from..m.index]) != [] then [Text(text[from..m.index])] else [])
         + [Code(text[m.index + 1..m.end - 1])] + Visible(rest)
  {
    var gap := if from < m.index then [Text(text[from..m.index])] else [];
    var code := [Code(text[m.index + 1..m.end - 1])];
    assert AroundMatch(text, from, m, rest) == gap + code + rest;
    VisibleAppend(gap + code, rest);
    VisibleAppend(gap, code);
    VisibleSingle(code[0]);
    if from < m.index {
      VisibleSingle(gap[0]);
    }
  }

  /** After the last match: what the page shows for the rest of the text. */
  lemma VisibleScanRest(text: string, from: nat)
    requires from <= |text| && FindMatch(text, from).None?
    ensures Visible(ScanFrom(text, from))
      == if from < |text| && JsTrim(text[from..]) != [] then [Text(text[from..])] else []
  {
    if from < |text| {
      VisibleSingle(Text(text[from..]));
    }
  }

  /** Regrouping a concatenation; the loop's invariant needs it spelled out. */
  lemma ConcatAssoc(a: seq<Fragment>, b: seq<Fragment>, c: seq<Fragment>)
    ensures (a + b) + c == a + (b + c)
  {
  }

  lemma VisibleSingle(p: Fragment)
    ensures Visible([p]) == if Shown(p) then [p] else []
  {
    assert [p][1..] == [];
  }

  lemma {:induction false} VisibleAppend(a: seq<Fragment>, b: seq<Fragment>)
    ensures Visible(a + b) == Visible(a) + Visible(b)
  {
    if a != [] {
      assert (a + b)[0] == a[0];
      assert (a + b)[1..] == a[1..] + b;
      VisibleAppend(a[1..], b);
      calc {
        Visible(a + b);
        (if Shown(a[0]) then [a[0]] else []) + Visible(a[1..] + b);
        (if Shown(a[0]) then [a[0]] else []) + Visible(a[1..]) + Visible(b);
      }
    } else {
      assert a + b == b;
    }
  }

  /** The page text a piece stands for: a gap as it is, a match with its
      backticks put back. */
  function Render(p: Fragment): string {
    match p
    case Text(s) => s
    case Code(c) => "`" + c + "`"
  }

  function Join(ps: seq<Fragment>): string {
    if ps == [] then [] else Render(ps[0]) + Join(ps[1..])
  }

  lemma {:induction false} JoinAppend(a: seq<Fragment>, b: seq<Fragment>)
    ensures Join(a + b) == Join(a) + Join(b)
  {
    if a != [] {
      assert (a + b)[0] == a[0];
      assert (a + b)[1..] == a[1..] + b;
      JoinAppend(a[1..], b);
      calc {
        Join(a + b);
        Render(a[0]) + Join(a[1..] + b);
        Render(a[0]) + Join(a[1..]) + Join(b);
      }
    } else {
      assert a + b == b;
    }
  }

  /** The scan at a match: the gap before it, the match, then the scan of
      what follows. */
  lemma ScanFromMatch(text: string, from: nat, m: Span)
    requires from <= |text| && FindMatch(text, from) == Some(m)
    ensures m.end <= |text|
    ensures ScanFrom(text, from) == AroundMatch(text, from, m, ScanFrom(text, m.end))
  {
  }

  /** The scan after the last match: the rest of the text, if any. */
  lemma ScanFromEnd(text: string, from: nat)
    requires from <= |text| && FindMatch(text, from).None?
    ensures ScanFrom(text, from) == if from < |text| then [Text(text[from..])] else []
  {
  }

  /** Nothing is lost or reordered by the scan: putting the pieces back
      together gives text[from..] exactly. */
  lemma {:induction false} ScanFromRebuilds(text: string, from: nat)
    requires from <= |text|
    ensures Join(ScanFrom(text, from)) == text[from..]
    decreases |text| - from
  {
    var found := FindMatch(text, from);
    if found.None? {
      RebuildsAtEnd(text, from);
    } else {
      var m := found.value;
      ScanFromRebuilds(text, m.end);
      RebuildsThroughMatch(text, from, m, ScanFrom(text, m.end));
    }
  }

  /** With no match left, the scan rebuilds the rest of the text. */
  lemma RebuildsAtEnd(text: string, from: nat)
    requires from <= |text| && FindMatch(text, from).None?
    ensures Join(ScanFrom(text, from)) == text[from..]
  {
    ScanFromEnd(text, from);
    if from < |text| {
      JoinSingle(Text(text[from..]));
    } else {
      assert text[from..] == [];
    }
  }

  /** The gap before the match `m`, the match, and pieces that rebuild
      text[m.end..] together rebuild text[from..]. */
  lemma RebuildsThroughMatch(text: string, from: nat, m: Span, rest: seq<Fragment>)
    requires from <= m.index && m.index + 2 <= m.end <= |text|
    requires text[m.index] == '`' && text[m.end - 1] == '`'
    requires Join(rest) == text[m.end..]
    ensures Join(AroundMatch(text, from, m, rest)) == text[from..]
  {
    var k, e := m.index, m.end;
    var gap := text[from..k];
    var c := text[k + 1..e - 1];
    var g := if from < k then [Text(gap)] else [];
    assert g == if gap == [] then [] else [Text(gap)];
    assert AroundMatch(text, from, m, rest) == g + [Code(c)] + rest;
    calc {
      Join(AroundMatch(text, from, m, rest));
      Join(g + [Code(c)] + rest);
      { JoinPieces(gap, c, rest); }
      gap + ("`" + c + "`") + Join(rest);
      { Bracketed(text, k, e); }
      gap + text[k..e] + text[e..];
      { SplitAt(text, from, k, e); }
      text[from..];
    }
  }

  lemma JoinPieces(gap: string, c: string, rest: seq<Fragment>)
    ensures Join((if gap == [] then [] else [Text(gap)]) + [Code(c)] + rest) == gap + ("`" + c + "`") + Join(rest)
  {
    var g := if gap == [] then [] else [Text(gap)];
    JoinAppend(g + [Code(c)], rest);
    JoinAppend(g, [Code(c)]);
    JoinSingle(Code(c));
    if gap != [] {
      JoinSingle(Text(gap));
    }
    calc {
      Join(g + [Code(c)] + rest);
      Join(g) + Join([Code(c)]) + Join(rest);
      gap + ("`" + c + "`") + Join(rest);
    }
  }

  lemma JoinSingle(p: Fragment)
    ensures Join([p]) == Render(p)
  {
    assert [p][1..] == [];
  }

  /** text[a..] is text[a..b], then the match text[b..c], then text[c..]. */
  lemma SplitAt(text: string, a: nat, b: nat, c: nat)
    requires a <= b <= c <= |text|
    ensures text[a..] == text[a..b] + text[b..c] + text[c..]
  {
  }

  /** A match is its content between two backticks. */
  lemma Bracketed(text: string, a: nat, b: nat)
    requires a + 2 <= b <= |text| && text[a] == '`' && text[b - 1] == '`'
    ensures text[a..b] == "`" + text[a + 1..b - 1] + "`"
  {
    assert text[a..b] == [text[a]] + text[a + 1..b - 1] + [text[b - 1]];
  }

  /** The text of `addAIMessage` is recovered from its pieces. */
  lemma ScanRebuilds(text: string)
    ensures Join(Scan(text)) == text
  {
    ScanFromRebuilds(text, 0);
  }

  /** A match inside a slice of the text is a match of the text itself. */
  lemma SliceMatch(text: string, lo: nat, hi: nat, k: int, e: int)
    requires lo <= hi <= |text|
    ensures IsMatch(text[lo..hi], k, e) ==> IsMatch(text, lo + k, lo + e)
  {
    var s := text[lo..hi];
    if IsMatch(s, k, e) {
      assert s[k] == text[lo + k] && s[e - 1] == text[lo + e - 1];
      var inner := text[lo + k + 1..lo + e - 1];
      forall i | 0 <= i < |inner| ensures inner[i] != '`' {
        assert inner[i] == s[k + 1..e - 1][i];
      }
    }
  }

  /** A gap holds no complete match: had it held one, `exec` would have
      found that match first. */
  lemma GapHasNoCodeSpan(text: string, lo: nat, hi: nat)
    requires lo <= hi <= |text|
    requires forall k :: lo <= k < hi ==> !MatchesAt(text, k)
    ensures NoCodeSpan(text[lo..hi])
  {
    forall k, e ensures !IsMatch(text[lo..hi], k, e) {
      SliceMatch(text, lo, hi, k, e);
      if 0 <= k < hi - lo {
        assert !MatchesAt(text, lo + k);
        assert !IsMatch(text, lo + k, lo + e);
      }
    }
  }

  /** The pieces are well formed: a Code piece is non-empty and holds no
      backtick, a Text piece is non-empty and holds no complete match, and
      a Text piece is always followed by a Code piece or ends the scan. */
  predicate WellFormedPiece(p: Fragment) {
    match p
    case Code(c) => c != [] && NoBacktick(c)
    case Text(s) => s != []
  }

  ghost predicate WellFormed(ps: seq<Fragment>) {
    && (forall i :: 0 <= i < |ps| ==> WellFormedPiece(ps[i]))
    && (forall i :: 0 <= i < |ps| && ps[i].Text? ==> NoCodeSpan(ps[i].text))
    && (forall i :: 0 <= i < |ps| - 1 && ps[i].Text? ==> ps[i + 1].Code?)
  }

  lemma {:induction false} ScanFromWellFormed(text: string, from: nat)
    requires from <= |text|
    ensures WellFormed(ScanFrom(text, from))
    decreases |text| - from
  {
    var found := FindMatch(text, from);
    FindMatchLeftmost(text, from);
    if found.None? {
      if from < |text| {
        assert text[from..|text|] == text[from..];
        GapHasNoCodeSpan(text, from, |text|);
      }
    } else {
      var m := found.value;
      ScanFromMatch(text, from, m);
      var gap := if from < m.index then [Text(text[from..m.index])] else [];
      var code := [Code(text[m.index + 1..m.end - 1])];
      var rest := ScanFrom(text, m.end);
      ScanFromWellFormed(text, m.end);
      if from < m.index {
        GapHasNoCodeSpan(text, from, m.index);
      }
      WellFormedPrefix(gap, code, rest);
    }
  }

  /** A well-formed scan stays well formed with a gap and a match in
      front of it. */
  lemma WellFormedPrefix(gap: seq<Fragment>, code: seq<Fragment>, rest: seq<Fragment>)
    requires |gap| <= 1 && |code| == 1 && code[0].Code?
    requires WellFormed(gap) && WellFormed(code) && WellFormed(rest)
    ensures WellFormed(gap + code + rest)
  {
    var ps := gap + code + rest;
    forall i | 0 <= i < |ps| - 1 && ps[i].Text? ensures ps[i + 1].Code? {
      if i >= |gap| + 1 {
        assert ps[i] == rest[i - |gap| - 1];
        assert ps[i + 1] == rest[i + 1 - |gap| - 1];
      }
    }
  }

  /** What the page shows: every code box is non-empty and holds no
      backtick, no text node is blank, and no text node holds a piece of
      code that the page failed to box. Every fragment is a piece of the
      scan, so it is a stretch of the input (by ScanRebuilds). */
  lemma FragmentsWellFormed(text: string)
    ensures forall p :: p in Fragments(text) ==> p in Scan(text)
    ensures forall p :: p in Fragments(text) && p.Code? ==> p.code != [] && NoBacktick(p.code)
    ensures forall p :: p in Fragments(text) && p.Text? ==> !AllWhitespace(p.text, IsJsWhitespace) && NoCodeSpan(p.text)
  {
    ScanFromWellFormed(text, 0);
    var ps := Scan(text);
    forall p | p in Fragments(text) ensures p in ps && WellFormedPiece(p) && (p.Text? ==> NoCodeSpan(p.text)) {
      var i :| 0 <= i < |ps| && ps[i] == p;
    }
  }
}

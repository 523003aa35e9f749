/** The formatting passes every artifact goes through before it is
    written: collapse newline runs, strip the indentation of every line,
    `strip` the ends, then put a line break in front of each keyword of a
    kind-specific list. */
module Formatting {
  import opened Text
  import opened Gsub

  /** No two newlines in a row. */
  predicate NoBlankLines(s: string) {
    forall i :: 0 <= i < |s| - 1 ==> !(s[i] == '\n' && s[i + 1] == '\n')
  }

  /** No line after the first starts with whitespace. */
  predicate LinesUnindented(s: string) {
    forall i :: 0 <= i < |s| - 1 && s[i] == '\n' ==> !IsSpace(s[i + 1])
  }

  /** Independent reference for newline collapsing: drop a newline whenever
      the next character is a newline too. */
  function Squeeze(s: string): (r: string)
    ensures NoBlankLines(r)
    ensures r == [] <==> s == []
    ensures r != [] ==> r[0] == s[0]
    decreases |s|
  {
    if s == [] then []
    else if |s| >= 2 && s[0] == '\n' && s[1] == '\n' then Squeeze(s[1..])
    else [s[0]] + Squeeze(s[1..])
  }

  lemma RunEndStep(s: string, k: CharClass)
    requires s != [] && InClass(k, s[0])
    ensures RunEnd(s, 0, k) == 1 + RunEnd(s[1..], 0, k)
  {
    var j' := RunEnd(s[1..], 0, k);
    forall m | 1 <= m < 1 + j' ensures InClass(k, s[m]) { assert s[1..][m - 1] == s[m]; }
    assert 1 + j' < |s| ==> s[1..][j'] == s[1 + j'];
  }

  /** `gsub(/\n+/, "\n")` agrees with the reference, whatever came before. */
  lemma {:induction false} CollapseIsSqueeze(prev: Option<char>, s: string)
    ensures GSub(NewlineRun, prev, s) == Squeeze(s)
    decreases |s|
  {
    if s != [] {
      var j := RunEnd(s, 0, Newline);
      if s[0] != '\n' {
        CollapseIsSqueeze(Some(s[0]), s[1..]);
      } else if |s| >= 2 && s[1] == '\n' {
        RunEndStep(s, Newline);
        assert s[1..][j - 1..] == s[j..];
        assert GSub(NewlineRun, Some(s[0]), s[1..]) == "\n" + GSub(NewlineRun, Some(s[j - 1]), s[j..]);
        CollapseIsSqueeze(Some(s[0]), s[1..]);
      } else {
        assert j == 1;
        CollapseIsSqueeze(Some(s[0]), s[1..]);
      }
    }
  }

  /** `gsub(/\n+/, "\n")`. */
  function CollapseNewlines(s: string): string {
    GSub(NewlineRun, None, s)
  }

  /** Every run of newlines becomes one newline, and nothing else changes. */
  lemma CollapseNewlinesSpec(s: string)
    ensures var r := CollapseNewlines(s);
      r == Squeeze(s) && NoBlankLines(r) && Visible(r) == Visible(s)
  {
    CollapseIsSqueeze(None, s);
    BlankKeepsVisible(NewlineRun, None, s);
  }

  predicate AtLineStart(prev: Option<char>) {
    prev.None? || prev.value == '\n'
  }

  /** What `gsub(/^\s+/m, '')` leaves: no indented line, and text that
      does not start with whitespace starts the output unchanged. */
  lemma {:induction false} IndentRemoved(prev: Option<char>, s: string)
    ensures var r := GSub(LineIndent, prev, s);
      && LinesUnindented(r)
      && (AtLineStart(prev) && r != [] ==> !IsSpace(r[0]))
      && (s != [] && !IsSpace(s[0]) ==> r != [] && r[0] == s[0])
    decreases |s|
  {
    if s != [] {
      var r := GSub(LineIndent, prev, s);
      match Find(LineIndent, prev, s)
      case None =>
        var rest := GSub(LineIndent, Some(s[0]), s[1..]);
        IndentRemoved(Some(s[0]), s[1..]);
        assert r == [s[0]] + rest;
        forall i | 0 <= i < |r| - 1 && r[i] == '\n' ensures !IsSpace(r[i + 1]) {
          if i > 0 { assert r[i] == rest[i - 1] && r[i + 1] == rest[i]; }
        }
      case Some(h) =>
        var n := h.len;
        var rest := GSub(LineIndent, Some(s[n - 1]), s[n..]);
        IndentRemoved(Some(s[n - 1]), s[n..]);
        assert r == rest;
        if s[n..] != [] {
          assert !IsSpace(s[n..][0]);
        }
    }
  }

  /** `gsub(/^\s+/m, '')`. */
  function StripIndent(s: string): string {
    GSub(LineIndent, None, s)
  }

  /** The whitespace at the start of every line is gone, and nothing else. */
  lemma StripIndentSpec(s: string)
    ensures var r := StripIndent(s);
      LinesUnindented(r) && (r == [] || !IsSpace(r[0])) && Visible(r) == Visible(s)
  {
    IndentRemoved(None, s);
    BlankKeepsVisible(LineIndent, None, s);
  }

  /** A slice of text with no indented line has no indented line. */
  lemma UnindentedSlice(a: string, k: nat, n: nat)
    requires k + n <= |a|
    requires LinesUnindented(a)
    ensures LinesUnindented(a[k..k + n])
  {
    var r := a[k..k + n];
    forall i | 0 <= i < |r| - 1 && r[i] == '\n' ensures !IsSpace(r[i + 1]) {
      assert r[i] == a[k + i] && r[i + 1] == a[k + i + 1];
    }
  }

  /** A newline is whitespace, so unindented text has no blank line. */
  lemma UnindentedNoBlank(r: string)
    requires LinesUnindented(r)
    ensures NoBlankLines(r)
  {
  }

  /** The two rewrites of the normaliser, in source order. */
  const NormalisePasses: seq<Pattern> := [NewlineRun, LineIndent]

  /** The three passes `gsub(/\n+/, "\n").gsub(/^\s+/m, '').strip`. */
  function Normalise(s: string): string {
    Strip(Rewrite(NormalisePasses, s))
  }

  /** The normaliser, pass by pass. */
  lemma NormaliseSteps(s: string)
    ensures Normalise(s) == Strip(StripIndent(CollapseNewlines(s)))
  {
    var c := CollapseNewlines(s);
    assert Rewrite(NormalisePasses, s) == Rewrite(NormalisePasses[1..], c);
    assert Rewrite(NormalisePasses[1..], c) == Rewrite([], StripIndent(c));
  }

  /** After normalising there is no blank line, no indented line and no
      whitespace at either end, and every character `strip` would keep is
      still there, in order. */
  lemma NormaliseShape(s: string)
    ensures var r := Normalise(s);
      && NoBlankLines(r)
      && LinesUnindented(r)
      && (r == [] || (!IsStripSpace(r[0]) && !IsStripSpace(r[|r| - 1])))
      && Visible(r) == Visible(s)
  {
    NormaliseSteps(s);
    var c := CollapseNewlines(s);
    var a := StripIndent(c);
    CollapseNewlinesSpec(s);
    StripIndentSpec(c);
    StripIsSlice(a);
    UnindentedSlice(a, |a| - |TrimStart(a)|, |Strip(a)|);
    UnindentedNoBlank(Strip(a));
  }

  /** The keyword lists of the line-break pass. */
  const FunctionKeywords: seq<string> := ["BEGIN", "END", "LANGUAGE", "SET", "WHERE"]
  const StatementKeywords: seq<string> := ["AS", "BEGIN", "END", "LANGUAGE", "CREATE"]
  const TriggerKeywords: seq<string> := ["AFTER", "FOR EACH ROW", "WHEN", "EXECUTE FUNCTION"]

  /** `\b` at position `i` of `s`. */
  predicate BoundaryAt(s: string, i: nat)
    requires i <= |s|
  {
    (i > 0 && IsWord(s[i - 1])) != (i < |s| && IsWord(s[i]))
  }

  /** Keyword `k` followed by `\b` at position `i`. */
  predicate KeywordFits(s: string, i: nat, k: string)
    requires i <= |s|
  {
    i + |k| <= |s| && s[i..i + |k|] == k && BoundaryAt(s, i + |k|)
  }

  /** Some alternative of `kws` fits at position `i`. */
  predicate SomeKeywordFits(s: string, i: nat, kws: seq<string>)
    requires i <= |s|
    decreases |kws|
  {
    kws != [] && (KeywordFits(s, i, kws[0]) || SomeKeywordFits(s, i, kws[1..]))
  }

  /** The lookahead `(?=\b(K1|K2|...)\b)` holds at position `i`. */
  predicate KeywordAt(s: string, i: nat, kws: seq<string>)
    requires i <= |s|
  {
    BoundaryAt(s, i) && SomeKeywordFits(s, i, kws)
  }

  /** How many of the first `n` positions of `s` get a line break. */
  function BreakCount(s: string, kws: seq<string>, n: nat): (c: nat)
    requires n <= |s|
    ensures c <= n
  {
    if n == 0 then 0 else BreakCount(s, kws, n - 1) + (if KeywordAt(s, n - 1, kws) then 1 else 0)
  }

  lemma {:induction false} BreakCountMono(s: string, kws: seq<string>, a: nat, b: nat)
    requires a <= b <= |s|
    ensures BreakCount(s, kws, a) <= BreakCount(s, kws, b) <= BreakCount(s, kws, a) + (b - a)
    decreases b - a
  {
    if a < b { BreakCountMono(s, kws, a, b - 1); }
  }

  /** The output of the zero-width `gsub` for `s[i..]`: a newline goes in
      front of every position where the lookahead holds. */
  function Breaks(s: string, kws: seq<string>, i: nat): string
    requires i <= |s|
    decreases |s| - i
  {
    if i == |s| then []
    else (if KeywordAt(s, i, kws) then "\n" else "") + [s[i]] + Breaks(s, kws, i + 1)
  }

  lemma {:induction false} BreaksLength(s: string, kws: seq<string>, i: nat)
    requires i <= |s|
    ensures |Breaks(s, kws, i)| == (|s| - i) + BreakCount(s, kws, |s|) - BreakCount(s, kws, i)
    decreases |s| - i
  {
    if i < |s| {
      BreaksLength(s, kws, i + 1);
    }
  }

  lemma {:induction false} BreaksChar(s: string, kws: seq<string>, i: nat, p: nat)
    requires i <= p < |s|
    ensures var k := p - i + BreakCount(s, kws, p + 1) - BreakCount(s, kws, i);
      0 <= k < |Breaks(s, kws, i)| && Breaks(s, kws, i)[k] == s[p]
    decreases p - i
  {
    BreaksLength(s, kws, i);
    BreakCountMono(s, kws, i, p + 1);
    BreakCountMono(s, kws, p + 1, |s|);
    var pre := (if KeywordAt(s, i, kws) then "\n" else "") + [s[i]];
    assert Breaks(s, kws, i) == pre + Breaks(s, kws, i + 1);
    if p > i {
      BreakCountMono(s, kws, i + 1, p + 1);
      BreaksChar(s, kws, i + 1, p);
    }
  }

  lemma {:induction false} BreaksNewline(s: string, kws: seq<string>, i: nat, p: nat)
    requires i <= p < |s| && KeywordAt(s, p, kws)
    ensures var k := p - i + BreakCount(s, kws, p) - BreakCount(s, kws, i);
      0 <= k < |Breaks(s, kws, i)| && Breaks(s, kws, i)[k] == '\n'
    decreases p - i
  {
    BreaksLength(s, kws, i);
    BreakCountMono(s, kws, i, p);
    BreakCountMono(s, kws, p, |s|);
    var pre := (if KeywordAt(s, i, kws) then "\n" else "") + [s[i]];
    assert Breaks(s, kws, i) == pre + Breaks(s, kws, i + 1);
    if p > i {
      BreakCountMono(s, kws, i + 1, p);
      BreaksNewline(s, kws, i + 1, p);
    }
  }

  /** `gsub(/(?=\b(K1|K2|...)\b)/, "\n")`: a newline in front of every
      position where one of the keywords starts at a word boundary. */
  function InsertBreaks(s: string, kws: seq<string>): string {
    Breaks(s, kws, 0)
  }

  /** `r` is `s` with newlines inserted by the keyword lookahead: character
      `p` of `s` lands at `p` plus the number of breaks up to and including
      position `p`, a newline sits just in front of it where the lookahead
      holds, and nothing else is in `r`. */
  predicate BreaksInserted(s: string, kws: seq<string>, r: string) {
    && |r| == |s| + BreakCount(s, kws, |s|)
    && (forall p :: 0 <= p < |s| ==> p + BreakCount(s, kws, p + 1) < |r| && r[p + BreakCount(s, kws, p + 1)] == s[p])
    && (forall p :: 0 <= p < |s| && KeywordAt(s, p, kws) ==> p + BreakCount(s, kws, p) < |r| && r[p + BreakCount(s, kws, p)] == '\n')
  }

  /** The keyword pass only inserts, so deleting the inserted newlines gives
      back the input. */
  lemma InsertBreaksSpec(s: string, kws: seq<string>)
    ensures BreaksInserted(s, kws, InsertBreaks(s, kws))
  {
    BreaksLength(s, kws, 0);
    forall p | 0 <= p < |s| {
      InsertBreaksChar(s, kws, p);
    }
    forall p | 0 <= p < |s| && KeywordAt(s, p, kws) {
      InsertBreaksNewline(s, kws, p);
    }
  }

  lemma InsertBreaksChar(s: string, kws: seq<string>, p: nat)
    requires p < |s|
    ensures var r := InsertBreaks(s, kws); p + BreakCount(s, kws, p + 1) < |r| && r[p + BreakCount(s, kws, p + 1)] == s[p]
  {
    BreaksChar(s, kws, 0, p);
    assert BreakCount(s, kws, 0) == 0;
  }

  lemma InsertBreaksNewline(s: string, kws: seq<string>, p: nat)
    requires p < |s| && KeywordAt(s, p, kws)
    ensures var r := InsertBreaks(s, kws); p + BreakCount(s, kws, p) < |r| && r[p + BreakCount(s, kws, p)] == '\n'
  {
    BreaksNewline(s, kws, 0, p);
    assert BreakCount(s, kws, 0) == 0;
  }

  /** The last character survives the line-break pass in last place. */
  lemma InsertBreaksLast(s: string, kws: seq<string>)
    requires s != []
    ensures var r := InsertBreaks(s, kws); r != [] && r[|r| - 1] == s[|s| - 1]
  {
    var r := InsertBreaks(s, kws);
    InsertBreaksSpec(s, kws);
    assert r[|s| - 1 + BreakCount(s, kws, |s|)] == s[|s| - 1];
  }
}

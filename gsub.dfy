/** Ruby's `String#gsub` for the handful of regular expressions the
    extractors use.  Each pattern has its own character-level matcher
    (`Find`), which returns the length of the match a backtracking engine
    settles on at one position together with the replacement text;
    `GSub` scans the string left to right exactly as `gsub` does,
    resuming after each match and judging anchors (`^`, `\b`) against the
    original text. */
module Gsub {
  import opened Text

  /** The character classes the patterns repeat. */
  datatype CharClass =
    | Space        // \s
    | Newline      // \n
    | WordChar     // \w
    | ClauseValue  // [^,\)\n]
    | Token        // [^\s,]

  predicate InClass(k: CharClass, c: char) {
    match k
    case Space => IsSpace(c)
    case Newline => c == '\n'
    case WordChar => IsWord(c)
    case ClauseValue => c != ',' && c != ')' && c != '\n'
    case Token => !IsSpace(c) && c != ','
  }

  /** End of the longest run of class `k` starting at `i` (a greedy `k*`). */
  function RunEnd(s: string, i: nat, k: CharClass): (j: nat)
    requires i <= |s|
    ensures i <= j <= |s|
    ensures forall m :: i <= m < j ==> InClass(k, s[m])
    ensures j == |s| || !InClass(k, s[j])
    decreases |s| - i
  {
    if i < |s| && InClass(k, s[i]) then RunEnd(s, i + 1, k) else i
  }

  /** The patterns, each with the line of the source that uses it. */
  datatype Pattern =
    | NewlineRun             // /\n+/ replaced by "\n"
    | LineIndent             // /^\s+/m replaced by ''
    | CommaClause(key: string) // /,\s*KEY\s*=\s*[^,\)\n]*/ replaced by ''
    | BoundaryClause         // /\b(FINALFUNC|...|DESERIALFUNC)\s*=\s*[^,\)\n]*/ replaced by ''
    | SfuncStype             // /(SFUNC\s*=\s*[^\s,]+)\s+(STYPE\s*=\s*[^\s,]+)/ replaced by '\1, \2'
    | CommaParen             // /,\s*\)/ replaced by ')'
    | DoubleSemicolonEol     // /;;$/ replaced by ';'
    | SpaceRun               // /\s{2,}/ replaced by ' '
    | InfoClause(key: string)  // /, KEY =\s*\w*/ replaced by ''

  /** The alternation of the dangling-clause pattern, in its order. */
  const ClauseKeys: seq<string> :=
    ["FINALFUNC", "FINALFUNC_MODIFY", "MFINALFUNC_MODIFY", "COMBINEFUNC", "SERIALFUNC", "DESERIALFUNC"]

  /** A match: how many characters it spans and what replaces them. */
  datatype Hit = Hit(len: nat, replacement: string)

  /** `\b` between the previous character and the first one of `s`. */
  predicate WordBoundary(prev: Option<char>, s: string) {
    var before := prev.Some? && IsWord(prev.value);
    var after := s != [] && IsWord(s[0]);
    before != after
  }

  /** `\s*=\s*[^,\)\n]*` from `i`: the end of the match, if `=` is there. */
  function EqValueEnd(s: string, i: nat): (r: Option<nat>)
    requires i <= |s|
    ensures r.Some? ==> i < r.value <= |s|
  {
    var j := RunEnd(s, i, Space);
    if j < |s| && s[j] == '=' then Some(RunEnd(s, RunEnd(s, j + 1, Space), ClauseValue)) else None
  }

  /** `KEY\s*=\s*[^,\)\n]*` from `i`. */
  function KeyedEnd(s: string, i: nat, key: string): (r: Option<nat>)
    requires i <= |s|
    ensures r.Some? ==> i < r.value <= |s|
  {
    if key <= s[i..] then EqValueEnd(s, i + |key|) else None
  }

  /** The first alternative of `keys` whose continuation succeeds, as backtracking tries them. */
  function ClauseAlternatives(s: string, keys: seq<string>): (r: Option<nat>)
    ensures r.Some? ==> 0 < r.value <= |s|
    decreases |keys|
  {
    if keys == [] then None
    else match KeyedEnd(s, 0, keys[0])
      case Some(e) => Some(e)
      case None => ClauseAlternatives(s, keys[1..])
  }

  /** The SFUNC/STYPE pair with the two capture groups rejoined by ", ".
      Every repetition is greedy and the engine never profits from
      backtracking, because each one is followed by a character its
      class excludes. */
  function SfuncStypeFind(s: string): (r: Option<Hit>)
    ensures r.Some? ==> 0 < r.value.len <= |s|
  {
    if !("SFUNC" <= s) then None
    else
      var a := RunEnd(s, 5, Space);
      if a == |s| || s[a] != '=' then None
      else
        var b := RunEnd(s, a + 1, Space);
        var c := RunEnd(s, b, Token);
        if c == b then None
        else
          var d := RunEnd(s, c, Space);
          if d == c || !("STYPE" <= s[d..]) then None
          else
            var e := RunEnd(s, d + 5, Space);
            if e == |s| || s[e] != '=' then None
            else
              var f := RunEnd(s, e + 1, Space);
              var g := RunEnd(s, f, Token);
              if g == f then None else Some(Hit(g, s[..c] + ", " + s[d..g]))
  }

  /** The match of `p` at the start of `s`, where `prev` is the character
      of the original string just before `s`. */
  function Find(p: Pattern, prev: Option<char>, s: string): (r: Option<Hit>)
    ensures r.Some? ==> 0 < r.value.len <= |s|
  {
    match p
    case NewlineRun =>
      var j := RunEnd(s, 0, Newline);
      if j == 0 then None else Some(Hit(j, "\n"))
    case LineIndent =>
      var j := RunEnd(s, 0, Space);
      if (prev.None? || prev.value == '\n') && j > 0 then Some(Hit(j, "")) else None
    case CommaClause(key) =>
      if s != [] && s[0] == ',' then
        match KeyedEnd(s, RunEnd(s, 1, Space), key)
        case Some(e) => Some(Hit(e, ""))
        case None => None
      else None
    case BoundaryClause =>
      if WordBoundary(prev, s) then
        match ClauseAlternatives(s, ClauseKeys)
        case Some(e) => Some(Hit(e, ""))
        case None => None
      else None
    case SfuncStype => SfuncStypeFind(s)
    case CommaParen =>
      if s != [] && s[0] == ',' then
        var j := RunEnd(s, 1, Space);
        if j < |s| && s[j] == ')' then Some(Hit(j + 1, ")")) else None
      else None
    case DoubleSemicolonEol =>
      if |s| >= 2 && s[0] == ';' && s[1] == ';' && (|s| == 2 || s[2] == '\n') then Some(Hit(2, ";")) else None
    case SpaceRun =>
      var j := RunEnd(s, 0, Space);
      if j >= 2 then Some(Hit(j, " ")) else None
    case InfoClause(key) =>
      var lit := ", " + key + " =";
      if lit <= s then Some(Hit(RunEnd(s, RunEnd(s, |lit|, Space), WordChar), "")) else None
  }

  /** `s.gsub(pattern, replacement)`, scanning from the start of `s`. */
  function GSub(p: Pattern, prev: Option<char>, s: string): string
    decreases |s|
  {
    if s == [] then []
    else match Find(p, prev, s)
      case None => [s[0]] + GSub(p, Some(s[0]), s[1..])
      case Some(h) => h.replacement + GSub(p, Some(s[h.len - 1]), s[h.len..])
  }

  /** The context `GSub` sees at position `i` of `s`. */
  function Before(prev: Option<char>, s: string, i: nat): Option<char>
    requires i <= |s|
  {
    if i == 0 then prev else Some(s[i - 1])
  }

  /** No match starts at position `i` of `s`. */
  predicate NoMatchAt(p: Pattern, prev: Option<char>, s: string, i: nat)
    requires i <= |s|
  {
    Find(p, Before(prev, s, i), s[i..]).None?
  }

  /** No match starts at any of the first `n` positions of `s`. */
  predicate Quiet(p: Pattern, prev: Option<char>, s: string, n: nat)
    requires n <= |s|
  {
    forall i :: 0 <= i < n ==> NoMatchAt(p, prev, s, i)
  }

  /** Where nothing matches at the front of a quiet stretch, `GSub` copies
      its first character. */
  lemma QuietFirst(p: Pattern, prev: Option<char>, x: string, y: string)
    requires x != [] && Quiet(p, prev, x + y, |x|)
    ensures GSub(p, prev, x + y) == [x[0]] + GSub(p, Some(x[0]), x[1..] + y)
  {
    var s := x + y;
    assert NoMatchAt(p, prev, s, 0);
    assert s[0..] == s;
    assert s[1..] == x[1..] + y;
  }

  /** Dropping the first character of a quiet stretch leaves a quiet stretch. */
  lemma QuietTail(p: Pattern, prev: Option<char>, x: string, y: string)
    requires x != [] && Quiet(p, prev, x + y, |x|)
    ensures Quiet(p, Some(x[0]), x[1..] + y, |x| - 1)
  {
    var s := x + y;
    forall i | 0 <= i < |x| - 1
      ensures NoMatchAt(p, Some(x[0]), x[1..] + y, i)
    {
      assert (x[1..] + y)[i..] == s[i + 1..];
      assert Before(Some(x[0]), x[1..] + y, i) == Before(prev, s, i + 1);
      assert NoMatchAt(p, prev, s, i + 1);
    }
  }

  /** The context at the end of `x` does not depend on where `x` starts being read. */
  lemma BeforeShift(prev: Option<char>, x: string, y: string)
    requires x != []
    ensures Before(Some(x[0]), x[1..] + y, |x| - 1) == Before(prev, x + y, |x|)
  {
  }

  /** The first character, then the rest of `x`, then `g`, is `x` then `g`. */
  lemma ConsGlue(x: string, whole: string, rest: string, g: string)
    requires x != [] && whole == [x[0]] + rest && rest == x[1..] + g
    ensures whole == x + g
  {
    assert [x[0]] + (x[1..] + g) == x + g;
  }

  /** A prefix where nothing matches is copied unchanged. */
  lemma {:induction false} QuietPrefix(p: Pattern, prev: Option<char>, x: string, y: string)
    requires Quiet(p, prev, x + y, |x|)
    ensures GSub(p, prev, x + y) == x + GSub(p, Before(prev, x + y, |x|), y)
    decreases |x|
  {
    if x == [] {
      assert x + y == y;
    } else {
      QuietFirst(p, prev, x, y);
      QuietTail(p, prev, x, y);
      QuietPrefix(p, Some(x[0]), x[1..], y);
      BeforeShift(prev, x, y);
      ConsGlue(x, GSub(p, prev, x + y), GSub(p, Some(x[0]), x[1..] + y), GSub(p, Before(prev, x + y, |x|), y));
    }
  }

  /** A string where nothing matches is left unchanged. */
  lemma QuietWhole(p: Pattern, prev: Option<char>, s: string)
    requires Quiet(p, prev, s, |s|)
    ensures GSub(p, prev, s) == s
  {
    assert s + [] == s;
    QuietPrefix(p, prev, s, []);
  }

  /** The patterns that can only match at a comma. */
  predicate CommaLed(p: Pattern) {
    p.CommaClause? || p.CommaParen? || p.InfoClause?
  }

  /** A comma-led pattern leaves comma-free text alone. */
  lemma CommaFreeUnchanged(p: Pattern, prev: Option<char>, s: string)
    requires CommaLed(p)
    requires ',' !in s
    ensures GSub(p, prev, s) == s
  {
    forall i | 0 <= i < |s|
      ensures Find(p, Before(prev, s, i), s[i..]).None?
    {
      assert s[i..][0] == s[i];
    }
    QuietWhole(p, prev, s);
  }

  /** Patterns whose matches and replacements are whitespace only. */
  predicate Blank(p: Pattern) {
    p.NewlineRun? || p.LineIndent? || p.SpaceRun?
  }

  /** A blank pattern changes only whitespace: what `strip` would keep is kept, in order. */
  lemma {:induction false} BlankKeepsVisible(p: Pattern, prev: Option<char>, s: string)
    requires Blank(p)
    ensures Visible(GSub(p, prev, s)) == Visible(s)
    decreases |s|
  {
    if s != [] {
      match Find(p, prev, s)
      case None =>
        assert s == [s[0]] + s[1..];
        VisibleAppend([s[0]], GSub(p, Some(s[0]), s[1..]));
        VisibleAppend([s[0]], s[1..]);
        BlankKeepsVisible(p, Some(s[0]), s[1..]);
      case Some(h) =>
        var n := h.len;
        assert s == s[..n] + s[n..];
        VisibleAppend(s[..n], s[n..]);
        VisibleOfBlank(s[..n]);
        VisibleOfBlank(h.replacement);
        VisibleAppend(h.replacement, GSub(p, Some(s[n - 1]), s[n..]));
        BlankKeepsVisible(p, Some(s[n - 1]), s[n..]);
    }
  }

  /** Successive `gsub` calls, each on the whole result of the previous one. */
  function Rewrite(ps: seq<Pattern>, s: string): string
    decreases |ps|
  {
    if ps == [] then s else Rewrite(ps[1..], GSub(ps[0], None, s))
  }

  /** Comma-led passes leave comma-free text alone. */
  lemma {:induction false} RewriteCommaFree(ps: seq<Pattern>, s: string)
    requires forall i :: 0 <= i < |ps| ==> CommaLed(ps[i])
    requires ',' !in s
    ensures Rewrite(ps, s) == s
    decreases |ps|
  {
    if ps != [] {
      CommaFreeUnchanged(ps[0], None, s);
      RewriteCommaFree(ps[1..], s);
    }
  }

  /** Running two lists of passes one after the other is running their concatenation. */
  lemma {:induction false} RewriteAppend(ps: seq<Pattern>, qs: seq<Pattern>, s: string)
    ensures Rewrite(ps + qs, s) == Rewrite(qs, Rewrite(ps, s))
    decreases |ps|
  {
    if ps == [] {
      assert ps + qs == qs;
    } else {
      assert (ps + qs)[1..] == ps[1..] + qs;
      RewriteAppend(ps[1..], qs, GSub(ps[0], None, s));
    }
  }
}

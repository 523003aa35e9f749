/** `PostgresDetailsExtractor#sanitize_aggregate_definition`: the chain of
    rewrites applied to an aggregate's recorded definition before it is
    written to `aggregates.sql`, and what that chain makes of the text the
    schema-info assembler produces. */
module AggregateDetails {
  import opened Text
  import opened Gsub
  import opened SchemaInfo

  // ---------------------------------------------------------------------
  // The sanitiser
  // ---------------------------------------------------------------------

  /** The six comma-led removals, in the order they are chained. */
  const CommaPasses: seq<Pattern> := [
    CommaClause("FINALFUNC"), CommaClause("FINALFUNC_MODIFY"), CommaClause("MFINALFUNC_MODIFY"),
    CommaClause("COMBINEFUNC"), CommaClause("SERIALFUNC"), CommaClause("DESERIALFUNC")]

  /** No two whitespace characters are adjacent. */
  predicate SingleSpaced(s: string) {
    forall i :: 0 <= i < |s| - 1 ==> !IsSpace(s[i]) || !IsSpace(s[i + 1])
  }

  /** The passes after the comma-led ones, in source order. */
  const TailPasses: seq<Pattern> := [BoundaryClause, SfuncStype, CommaParen, DoubleSemicolonEol, SpaceRun]

  /** Every rewrite of the sanitiser, in source order. */
  const SanitizePasses: seq<Pattern> := CommaPasses + TailPasses

  /** The rewrites in source order, then `strip`. */
  function DetailsSanitize(sql: string): string {
    Strip(Rewrite(SanitizePasses, sql))
  }

  /** The sanitiser, pass by pass. */
  lemma DetailsSanitizeSteps(sql: string)
    ensures DetailsSanitize(sql)
      == Strip(GSub(SpaceRun, None, GSub(DoubleSemicolonEol, None, GSub(CommaParen, None,
           GSub(SfuncStype, None, GSub(BoundaryClause, None, Rewrite(CommaPasses, sql)))))))
  {
    RewriteAppend(CommaPasses, TailPasses, sql);
    var r0 := Rewrite(CommaPasses, sql);
    var r1 := GSub(BoundaryClause, None, r0);
    var r2 := GSub(SfuncStype, None, r1);
    var r3 := GSub(CommaParen, None, r2);
    var r4 := GSub(DoubleSemicolonEol, None, r3);
    var r5 := GSub(SpaceRun, None, r4);
    assert Rewrite(TailPasses, r0) == Rewrite(TailPasses[1..], r1);
    assert Rewrite(TailPasses[1..], r1) == Rewrite(TailPasses[2..], r2);
    assert Rewrite(TailPasses[2..], r2) == Rewrite(TailPasses[3..], r3);
    assert Rewrite(TailPasses[3..], r3) == Rewrite(TailPasses[4..], r4);
    assert Rewrite(TailPasses[4..], r4) == Rewrite(TailPasses[5..], r5);
    assert TailPasses[5..] == [];
  }

  /** Whatever the input, the sanitised text has no two adjacent whitespace
      characters and no whitespace at either end. */
  lemma DetailsSanitizeShape(sql: string)
    ensures var r := DetailsSanitize(sql);
      SingleSpaced(r) && (r == [] || (!IsStripSpace(r[0]) && !IsStripSpace(r[|r| - 1])))
  {
    DetailsSanitizeLastPass(sql);
    var t := Rewrite(SanitizePasses[..10], sql);
    SpaceRunSingleSpaced(None, t);
    StripSingleSpaced(GSub(SpaceRun, None, t));
  }

  /** The last rewrite of the sanitiser is the squeeze of whitespace runs. */
  lemma DetailsSanitizeLastPass(sql: string)
    ensures DetailsSanitize(sql) == Strip(GSub(SpaceRun, None, Rewrite(SanitizePasses[..10], sql)))
  {
    var t := Rewrite(SanitizePasses[..10], sql);
    assert SanitizePasses == SanitizePasses[..10] + [SpaceRun];
    RewriteAppend(SanitizePasses[..10], [SpaceRun], sql);
    assert Rewrite([SpaceRun], t) == Rewrite([], GSub(SpaceRun, None, t));
  }

  /** Stripping keeps text single-spaced. */
  lemma StripSingleSpaced(s: string)
    requires SingleSpaced(s)
    ensures SingleSpaced(Strip(s))
  {
    StripIsSlice(s);
    SingleSpacedSlice(s, |s| - |TrimStart(s)|, |Strip(s)|);
  }

  lemma SingleSpacedSlice(s: string, k: nat, n: nat)
    requires k + n <= |s| && SingleSpaced(s)
    ensures SingleSpaced(s[k..k + n])
  {
    var r := s[k..k + n];
    forall i | 0 <= i < |r| - 1 ensures !IsSpace(r[i]) || !IsSpace(r[i + 1]) {
      assert r[i] == s[k + i] && r[i + 1] == s[k + i + 1];
    }
  }

  /** Prepending one character keeps single spacing when it is not a
      whitespace character in front of another one. */
  lemma SingleSpacedCons(c: char, r: string)
    requires SingleSpaced(r)
    requires IsSpace(c) ==> r == [] || !IsSpace(r[0])
    ensures SingleSpaced([c] + r)
  {
    var s := [c] + r;
    forall i | 0 <= i < |s| - 1 ensures !IsSpace(s[i]) || !IsSpace(s[i + 1]) {
      if i > 0 {
        assert s[i] == r[i - 1] && s[i + 1] == r[i];
      }
    }
  }

  /** `gsub(/\s{2,}/, ' ')` leaves no two whitespace characters side by side. */
  lemma {:induction false} SpaceRunSingleSpaced(prev: Option<char>, s: string)
    ensures var r := GSub(SpaceRun, prev, s);
      && SingleSpaced(r) && (r == [] <==> s == [])
      && (s != [] ==> (IsSpace(r[0]) <==> IsSpace(s[0])))
    decreases |s|
  {
    if s != [] {
      var j := RunEnd(s, 0, Space);
      if j >= 2 {
        var rest := GSub(SpaceRun, Some(s[j - 1]), s[j..]);
        SpaceRunSingleSpaced(Some(s[j - 1]), s[j..]);
        assert s[j..] != [] ==> s[j..][0] == s[j];
        SingleSpacedCons(' ', rest);
      } else {
        var rest := GSub(SpaceRun, Some(s[0]), s[1..]);
        SpaceRunSingleSpaced(Some(s[0]), s[1..]);
        if IsSpace(s[0]) {
          assert j == 1;
          assert s[1..] != [] ==> s[1..][0] == s[1];
        }
        SingleSpacedCons(s[0], rest);
      }
    }
  }

  // ---------------------------------------------------------------------
  // Where a pattern cannot match
  // ---------------------------------------------------------------------

  /** A greedy run that starts after a stretch of its own class. */
  lemma {:induction false} RunEndShift(x: string, y: string, i: nat, k: CharClass)
    requires i <= |y|
    ensures RunEnd(x + y, |x| + i, k) == |x| + RunEnd(y, i, k)
    decreases |y| - i
  {
    if i < |y| {
      assert (x + y)[|x| + i] == y[i];
      RunEndShift(x, y, i + 1, k);
    }
  }

  /** The run of class `k` from `p` ends exactly at `q`. */
  lemma {:induction false} RunEndAt(s: string, p: nat, q: nat, k: CharClass)
    requires p <= q <= |s|
    requires forall m :: p <= m < q ==> InClass(k, s[m])
    requires q == |s| || !InClass(k, s[q])
    ensures RunEnd(s, p, k) == q
    decreases q - p
  {
    if p < q {
      RunEndAt(s, p + 1, q, k);
    }
  }

  /** A stretch no key can end inside with `=` in reach: it holds no `=`
      and does not end in whitespace. */
  predicate SafeSegment(w: string) {
    w != [] && '=' !in w && !IsSpace(w[|w| - 1])
  }

  /** What may follow such a stretch: nothing, or a non-word character
      whose first non-whitespace successor is not `=`. */
  predicate NoAssignAhead(rest: string) {
    rest == [] || (!IsWord(rest[0]) && var j := RunEnd(rest, 0, Space); j == |rest| || rest[j] != '=')
  }

  /** A word-only prefix of `w + rest` lies inside `w`. */
  lemma WordPrefixInside(w: string, rest: string, k: string)
    requires SafeSegment(w) && NoAssignAhead(rest)
    requires k <= w + rest && forall m :: 0 <= m < |k| ==> IsWord(k[m])
    ensures |k| <= |w|
  {
    var t := w + rest;
    assert forall m :: 0 <= m < |k| ==> k[m] == t[m];
    if rest != [] {
      assert !IsWord(t[|w|]);
    }
  }

  /** From anywhere in a safe stretch, skipping whitespace does not land on `=`. */
  lemma NoEqAfter(w: string, rest: string, m: nat)
    requires SafeSegment(w) && NoAssignAhead(rest) && m <= |w|
    ensures var t := w + rest; var j := RunEnd(t, m, Space); j == |t| || t[j] != '='
  {
    var t := w + rest;
    var j := RunEnd(t, m, Space);
    if m < |w| {
      assert !IsSpace(t[|w| - 1]);
      assert t[j] == w[j];
    } else {
      RunEndShift(w, rest, 0, Space);
      if j < |t| {
        assert t[j] == rest[j - |w|];
      }
    }
  }

  /** The alternatives of the dangling-clause pattern: every key is a nonempty word. */
  lemma ClauseKeysAreWords()
    ensures forall n :: 0 <= n < |ClauseKeys| ==>
      ClauseKeys[n] != [] && forall m :: 0 <= m < |ClauseKeys[n]| ==> IsWord(ClauseKeys[n][m])
  {
  }

  /** No alternative of `keys` matches at the start of a safe stretch. */
  lemma {:induction false} SegmentNoAlternative(w: string, rest: string, keys: seq<string>)
    requires SafeSegment(w) && NoAssignAhead(rest)
    requires forall n :: 0 <= n < |keys| ==> forall m :: 0 <= m < |keys[n]| ==> IsWord(keys[n][m])
    ensures ClauseAlternatives(w + rest, keys).None?
    decreases |keys|
  {
    if keys != [] {
      var t := w + rest;
      if keys[0] <= t[0..] {
        assert t[0..] == t;
        WordPrefixInside(w, rest, keys[0]);
        NoEqAfter(w, rest, |keys[0]|);
      }
      SegmentNoAlternative(w, rest, keys[1..]);
    }
  }

  /** Neither the dangling-clause pattern nor the SFUNC/STYPE pattern
      matches at the start of a safe stretch. */
  lemma SegmentNoMatch(p: Pattern, prev: Option<char>, w: string, rest: string)
    requires p == BoundaryClause || p == SfuncStype
    requires SafeSegment(w) && NoAssignAhead(rest)
    ensures Find(p, prev, w + rest).None?
  {
    var t := w + rest;
    if p == BoundaryClause {
      ClauseKeysAreWords();
      SegmentNoAlternative(w, rest, ClauseKeys);
    } else if "SFUNC" <= t {
      WordPrefixInside(w, rest, "SFUNC");
      NoEqAfter(w, rest, 5);
    }
  }

  /** Nothing matches inside a safe stretch. */
  lemma SegmentQuiet(p: Pattern, prev: Option<char>, w: string, rest: string)
    requires p == BoundaryClause || p == SfuncStype
    requires SafeSegment(w) && NoAssignAhead(rest)
    ensures Quiet(p, prev, w + rest, |w|)
  {
    var t := w + rest;
    forall i | 0 <= i < |w| ensures Find(p, Before(prev, t, i), t[i..]).None? {
      assert t[i..] == w[i..] + rest;
      assert w[i..][|w[i..]| - 1] == w[|w| - 1];
      SegmentNoMatch(p, Before(prev, t, i), w[i..], rest);
    }
  }

  /** The two keyword patterns start with a word character. */
  lemma NonWordQuiet(p: Pattern, prev: Option<char>, x: string, y: string)
    requires p == BoundaryClause || p == SfuncStype
    requires forall i :: 0 <= i < |x| ==> !IsWord(x[i])
    ensures Quiet(p, prev, x + y, |x|)
  {
    var t := x + y;
    forall i | 0 <= i < |x| ensures Find(p, Before(prev, t, i), t[i..]).None? {
      var s := t[i..];
      assert s[0] == x[i];
      if p == BoundaryClause {
        NonWordNoClause(Before(prev, t, i), s);
      }
    }
  }

  /** The dangling-clause pattern needs a word character where it starts. */
  lemma NonWordNoClause(prev: Option<char>, s: string)
    requires s != [] && !IsWord(s[0])
    ensures Find(BoundaryClause, prev, s).None?
  {
    ClauseKeysAreWords();
    var keys := ClauseKeys;
    forall n | 0 <= n < |keys| ensures !(keys[n] <= s[0..]) {
      assert s[0..] == s;
      assert IsWord(keys[n][0]);
    }
    AlternativesAbsent(s, keys);
  }

  /** No alternative is a prefix, so none matches. */
  lemma {:induction false} AlternativesAbsent(s: string, keys: seq<string>)
    requires forall n :: 0 <= n < |keys| ==> !(keys[n] <= s[0..])
    ensures ClauseAlternatives(s, keys).None?
    decreases |keys|
  {
    if keys != [] {
      AlternativesAbsent(s, keys[1..]);
    }
  }

  /** The SFUNC/STYPE pattern needs an `S` where it starts. */
  lemma NoSQuiet(prev: Option<char>, x: string, y: string)
    requires 'S' !in x
    ensures Quiet(SfuncStype, prev, x + y, |x|)
  {
    var t := x + y;
    forall i | 0 <= i < |x| ensures Find(SfuncStype, Before(prev, t, i), t[i..]).None? {
      assert t[i..][0] == x[i];
    }
  }

  /** The comma-led patterns need a `,` where they start. */
  lemma CommaFreeQuiet(p: Pattern, prev: Option<char>, x: string, y: string)
    requires CommaLed(p) && ',' !in x
    ensures Quiet(p, prev, x + y, |x|)
  {
    var t := x + y;
    forall i | 0 <= i < |x| ensures Find(p, Before(prev, t, i), t[i..]).None? {
      assert t[i..][0] == x[i];
    }
  }

  /** `;;$` needs a `;` where it starts. */
  lemma SemicolonFreeQuiet(prev: Option<char>, x: string, y: string)
    requires ';' !in x
    ensures Quiet(DoubleSemicolonEol, prev, x + y, |x|)
  {
    var t := x + y;
    forall i | 0 <= i < |x| ensures Find(DoubleSemicolonEol, Before(prev, t, i), t[i..]).None? {
      assert t[i..][0] == x[i];
    }
  }

  /** `\s{2,}` finds nothing in a single-spaced stretch that ends in a non-space. */
  lemma SingleSpacedQuiet(prev: Option<char>, x: string, y: string)
    requires SingleSpaced(x) && x != [] && !IsSpace(x[|x| - 1])
    ensures Quiet(SpaceRun, prev, x + y, |x|)
  {
    var t := x + y;
    forall i | 0 <= i < |x| ensures Find(SpaceRun, Before(prev, t, i), t[i..]).None? {
      var s := t[i..];
      assert s[0] == x[i];
      if IsSpace(x[i]) {
        assert s[1] == x[i + 1];
        assert RunEnd(s, 1, Space) == 1;
      }
    }
  }

  /** A whitespace run of two or more becomes one space. */
  lemma SpaceRunCollapse(prev: Option<char>, w: string, y: string)
    requires |w| >= 2 && forall i :: 0 <= i < |w| ==> IsSpace(w[i])
    requires y == [] || !IsSpace(y[0])
    ensures GSub(SpaceRun, prev, w + y) == " " + GSub(SpaceRun, Some(w[|w| - 1]), y)
  {
    var t := w + y;
    RunEndAt(t, 0, |w|, Space);
    assert t[|w|..] == y;
  }

  // ---------------------------------------------------------------------
  // Steps of a scan, for any pattern
  // ---------------------------------------------------------------------

  lemma Assoc(a: string, b: string, c: string)
    ensures a + (b + c) == (a + b) + c
  {
  }

  /** A quiet nonempty prefix is copied, and the scan goes on after its last character. */
  lemma QuietStep(p: Pattern, prev: Option<char>, x: string, y: string)
    requires x != [] && Quiet(p, prev, x + y, |x|)
    ensures GSub(p, prev, x + y) == x + GSub(p, Some(x[|x| - 1]), y)
  {
    QuietPrefix(p, prev, x, y);
  }

  /** A match spanning exactly `x` is replaced, and the scan goes on after it. */
  lemma MatchStep(p: Pattern, prev: Option<char>, x: string, y: string, r: string)
    requires x != [] && Find(p, prev, x + y) == Some(Hit(|x|, r))
    ensures GSub(p, prev, x + y) == r + GSub(p, Some(x[|x| - 1]), y)
  {
    var t := x + y;
    assert t[|x|..] == y && t[|x| - 1] == x[|x| - 1];
  }

  // ---------------------------------------------------------------------
  // The assembled text, one part per line
  // ---------------------------------------------------------------------

  /** The parts after the first, each behind the separator. */
  function Lines(ps: seq<string>): string
    decreases |ps|
  {
    if ps == [] then [] else (PartSeparator + ps[0]) + Lines(ps[1..])
  }

  /** Lines start with a line break. */
  lemma LinesFirst(ps: seq<string>)
    requires ps != []
    ensures Lines(ps) != [] && Lines(ps)[0] == '\n'
  {
  }

  /** `join("\n  ")` is the first part followed by the others' lines. */
  lemma {:induction false} JoinIsLines(parts: seq<string>)
    requires parts != []
    ensures Join(parts, PartSeparator) == parts[0] + Lines(parts[1..])
    decreases |parts|
  {
    if |parts| == 1 {
      assert parts[0] + [] == parts[0];
    } else {
      JoinIsLines(parts[1..]);
      assert parts[1..][0] == parts[1] && parts[1..][1..] == parts[2..];
      var tail := Lines(parts[2..]);
      assert parts[0] + PartSeparator + (parts[1] + tail) == parts[0] + ((PartSeparator + parts[1]) + tail);
    }
  }

  lemma {:induction false} LinesAppend(ps: seq<string>, qs: seq<string>)
    ensures Lines(ps + qs) == Lines(ps) + Lines(qs)
    decreases |ps|
  {
    if ps == [] {
      assert ps + qs == qs;
    } else {
      assert (ps + qs)[1..] == ps[1..] + qs;
      LinesAppend(ps[1..], qs);
    }
  }

  /** A character absent from every part and from the separator is absent from the lines. */
  lemma {:induction false} LinesExclude(ps: seq<string>, c: char)
    requires c != '\n' && c != ' '
    requires forall i :: 0 <= i < |ps| ==> c !in ps[i]
    ensures c !in Lines(ps)
    decreases |ps|
  {
    if ps != [] {
      LinesExclude(ps[1..], c);
    }
  }

  /** A part that does not start with whitespace or `=`. */
  predicate NoLeadingSpaceOrEquals(p: string) {
    p == [] || (!IsSpace(p[0]) && p[0] != '=')
  }

  /** A run that starts inside a stretch of its class ends where the stretch's run ends. */
  lemma {:induction false} RunEndSkip(s: string, i: nat, j: nat, k: CharClass)
    requires i <= j <= |s|
    requires forall m :: i <= m < j ==> InClass(k, s[m])
    ensures RunEnd(s, i, k) == RunEnd(s, j, k)
    decreases j - i
  {
    if i < j {
      RunEndSkip(s, i + 1, j, k);
    }
  }

  /** Separator-led lines of parts that start with neither whitespace nor `=`
      satisfy `NoAssignAhead`. */
  lemma {:induction false} LinesNoAssignAhead(ps: seq<string>)
    requires forall i :: 0 <= i < |ps| ==> NoLeadingSpaceOrEquals(ps[i])
    ensures NoAssignAhead(Lines(ps))
    decreases |ps|
  {
    if ps != [] {
      var rest := Lines(ps[1..]);
      var x := PartSeparator + ps[0];
      var l := x + rest;
      if ps[0] == [] {
        LinesNoAssignAhead(ps[1..]);
        assert x == PartSeparator;
        RunEndShift(x, rest, 0, Space);
        RunEndSkip(l, 0, 3, Space);
        var j := RunEnd(l, 0, Space);
        if j < |l| {
          assert l[j] == rest[j - 3];
        }
      } else {
        assert l[3] == ps[0][0];
        RunEndAt(l, 0, 3, Space);
      }
    }
  }

  /** A field value the exact-output theorem covers: no whitespace and none
      of the characters the rewrites key on. */
  predicate Plain(v: string) {
    forall i :: 0 <= i < |v| ==> !IsSpace(v[i]) && v[i] != ',' && v[i] != ')' && v[i] != ';' && v[i] != '='
  }

  lemma PlainSafe(v: string)
    requires Plain(v) && v != []
    ensures SafeSegment(v)
  {
    assert !IsSpace(v[|v| - 1]);
  }

  /** One line of the assembled text after the header. */
  datatype Line =
    | Drop(key: string, value: string)   // a clause the dangling-clause pass removes
    | Keep(key: string, value: string)   // SFUNC, STYPE or INITCOND
    | Closing                            // `);`

  function LineText(l: Line): string {
    match l
    case Drop(k, v) => ClauseText(k, v)
    case Keep(k, v) => ClauseText(k, v)
    case Closing => Close
  }

  function Texts(ls: seq<Line>): seq<string> {
    seq(|ls|, i requires 0 <= i < |ls| => LineText(ls[i]))
  }

  /** What the dangling-clause pass leaves of the lines, one string per
      line that keeps its line break.  A kept line keeps its text; a
      removable clause loses its text; a removable clause without a value
      (the text a NULL field gives) also loses the line break after it and
      the next line, because the `\s*` after its `=` runs on into that
      line: `Swallowed` says what then remains. */
  function Dangling(ls: seq<Line>): seq<string>
    decreases |ls|, 1
  {
    if ls == [] then []
    else if !ls[0].Drop? then [LineText(ls[0])] + Dangling(ls[1..])
    else if ls[0].value != [] || |ls| == 1 then [""] + Dangling(ls[1..])
    else Swallowed(ls[1..])
  }

  /** The lines after an empty removable clause: the match takes the whole
      text of a clause line (up to its line end), but stops in front of the
      `)` of the closing line. */
  function Swallowed(ls: seq<Line>): seq<string>
    requires ls != []
    decreases |ls|, 0
  {
    (if ls[0].Closing? then [Close] else [""]) + Dangling(ls[1..])
  }

  predicate KeptKey(k: string) {
    k == "SFUNC" || k == "STYPE" || k == "INITCOND"
  }

  /** A line the theorem covers: the values are plain; a removable clause
      may have an empty value. */
  predicate WellFormed(l: Line) {
    match l
    case Drop(k, v) => k in ClauseKeys && Plain(v)
    case Keep(k, v) => KeptKey(k) && Plain(v) && v != []
    case Closing => true
  }

  lemma WellFormedNoLeadingSpace(l: Line)
    requires WellFormed(l)
    ensures NoLeadingSpaceOrEquals(LineText(l))
  {
    if !l.Closing? {
      assert LineText(l)[0] == l.key[0];
      if l.Drop? {
        ClauseKeysAreWords();
      }
      assert IsWord(l.key[0]);
    }
  }

  lemma LinesOfTextsNoLeadingSpace(ls: seq<Line>)
    requires forall i :: 0 <= i < |ls| ==> WellFormed(ls[i])
    ensures NoAssignAhead(Lines(Texts(ls)))
  {
    forall i | 0 <= i < |ls| ensures NoLeadingSpaceOrEquals(Texts(ls)[i]) {
      WellFormedNoLeadingSpace(ls[i]);
    }
    LinesNoAssignAhead(Texts(ls));
  }

  /** Every character of a clause line is one `[^,\)\n]` accepts, and the
      line starts with a letter. */
  lemma ClauseLineValue(l: Line)
    requires WellFormed(l) && !l.Closing?
    ensures var t := LineText(l);
      && t != [] && !IsSpace(t[0])
      && forall m :: 0 <= m < |t| ==> InClass(ClauseValue, t[m])
  {
    var t := LineText(l);
    var k := l.key;
    if l.Drop? {
      ClauseKeysAreWords();
    }
    assert forall m :: 0 <= m < |k| ==> IsWord(k[m]);
    forall m | 0 <= m < |t| ensures InClass(ClauseValue, t[m]) {
      if m < |k| {
        assert t[m] == k[m];
      } else if m >= |k| + 3 {
        assert t[m] == l.value[m - |k| - 3];
      }
    }
    assert t[0] == k[0];
  }

  // ---------------------------------------------------------------------
  // The dangling-clause pass, line by line
  // ---------------------------------------------------------------------

  /** Alternatives that do not match are passed over. */
  lemma {:induction false} AlternativesSkip(t: string, keys: seq<string>, j: nat)
    requires j <= |keys|
    requires forall m :: 0 <= m < j ==> KeyedEnd(t, 0, keys[m]).None?
    ensures ClauseAlternatives(t, keys) == ClauseAlternatives(t, keys[j..])
    decreases j
  {
    if j > 0 {
      assert keys[1..][j - 1..] == keys[j..];
      AlternativesSkip(t, keys[1..], j - 1);
    }
  }

  /** `KEY = value` with a plain value, up to the end of its line. */
  lemma KeyedClause(k: string, v: string, rest: string)
    requires k != [] && Plain(v) && v != []
    requires rest == [] || rest[0] == '\n'
    ensures KeyedEnd(ClauseText(k, v) + rest, 0, k) == Some(|k| + 3 + |v|)
  {
    ClauseLayout(k, v, rest);
    KeyedLaidOut(ClauseText(k, v) + rest, k, v, rest);
  }

  lemma KeyedLaidOut(t: string, k: string, v: string, rest: string)
    requires Plain(v) && v != [] && (rest == [] || rest[0] == '\n')
    requires var n := |k|;
      |t| == n + 3 + |v| + |rest| && t[..n] == k && t[n] == ' ' && t[n + 1] == '=' && t[n + 2] == ' '
      && t[n + 3] == v[0] && t[n + 3..n + 3 + |v|] == v && t[n + 3 + |v|..] == rest
    ensures KeyedEnd(t, 0, k) == Some(|k| + 3 + |v|)
  {
    var n := |k|;
    RunEndAt(t, n, n + 1, Space);
    RunEndAt(t, n + 2, n + 3, Space);
    ValueRunEnd(t, n + 3, v, rest);
    EqValueEndAt(t, n, n + 1, n + 3 + |v|);
    KeyedEndAt(t, k, n + 3 + |v|);
  }

  lemma EqValueEndAt(s: string, i: nat, j: nat, e: nat)
    requires i <= j < |s| && RunEnd(s, i, Space) == j && s[j] == '='
    requires RunEnd(s, RunEnd(s, j + 1, Space), ClauseValue) == e
    ensures EqValueEnd(s, i) == Some(e)
  {
  }

  lemma KeyedEndAt(s: string, key: string, e: nat)
    requires |key| <= |s| && s[..|key|] == key && EqValueEnd(s, |key|) == Some(e)
    ensures KeyedEnd(s, 0, key) == Some(e)
  {
    assert s[0..] == s;
  }

  /** Where the pieces of `KEY = value` and what follows sit. */
  lemma ClauseLayout(k: string, v: string, rest: string)
    requires v != []
    ensures var t := ClauseText(k, v) + rest; var n := |k|;
      |t| == n + 3 + |v| + |rest| && t[..n] == k && t[n] == ' ' && t[n + 1] == '=' && t[n + 2] == ' '
      && t[n + 3] == v[0] && t[n + 3..n + 3 + |v|] == v && t[n + 3 + |v|..] == rest
  {
  }

  /** A plain value is one run of value characters, ended by a newline or the end. */
  lemma ValueRunEnd(t: string, i: nat, v: string, rest: string)
    requires i + |v| <= |t| && t[i..i + |v|] == v && t[i + |v|..] == rest
    requires Plain(v) && (rest == [] || rest[0] == '\n')
    ensures RunEnd(t, i, ClauseValue) == i + |v|
  {
    forall m | i <= m < i + |v| ensures InClass(ClauseValue, t[m]) {
      assert t[m] == t[i..i + |v|][m - i];
    }
    if rest != [] {
      assert t[i + |v|] == rest[0];
    }
    RunEndAt(t, i, i + |v|, ClauseValue);
  }

  /** At a clause key, the alternation settles on that key: earlier keys
      start with another letter, except FINALFUNC in front of
      FINALFUNC_MODIFY, which fails at the `_`. */
  lemma FirstAlternative(j: nat, t: string)
    requires j < |ClauseKeys| && ClauseKeys[j] <= t && KeyedEnd(t, 0, ClauseKeys[j]).Some?
    ensures ClauseAlternatives(t, ClauseKeys) == KeyedEnd(t, 0, ClauseKeys[j])
  {
    var k := ClauseKeys[j];
    assert t[0] == k[0];
    forall m | 0 <= m < j ensures KeyedEnd(t, 0, ClauseKeys[m]).None? {
      if m == 0 && j == 1 {
        assert t[9] == k[9] == '_';
        assert RunEnd(t, 9, Space) == 9;
      } else {
        assert ClauseKeys[m][0] != k[0];
      }
    }
    AlternativesSkip(t, ClauseKeys, j);
    assert ClauseKeys[j..][0] == k;
  }

  /** A removable clause with a plain, nonempty value is matched up to the end of its line. */
  lemma ClauseMatch(j: nat, v: string, rest: string)
    requires j < |ClauseKeys| && Plain(v) && v != []
    requires rest == [] || rest[0] == '\n'
    ensures var k := ClauseKeys[j];
      Find(BoundaryClause, Some(' '), ClauseText(k, v) + rest) == Some(Hit(|k| + 3 + |v|, ""))
  {
    var k := ClauseKeys[j];
    var t := ClauseText(k, v) + rest;
    ClauseLayout(k, v, rest);
    KeyedClause(k, v, rest);
    ClauseMatchAt(j, t, |k| + 3 + |v|);
  }

  lemma ClauseMatchAt(j: nat, t: string, e: nat)
    requires j < |ClauseKeys| && |ClauseKeys[j]| <= |t| && t[..|ClauseKeys[j]|] == ClauseKeys[j]
    requires KeyedEnd(t, 0, ClauseKeys[j]) == Some(e)
    ensures Find(BoundaryClause, Some(' '), t) == Some(Hit(e, ""))
  {
    var k := ClauseKeys[j];
    KeyStartsWithWord(j);
    assert t[0] == t[..|k|][0];
    FirstAlternative(j, t);
    BoundaryFind(Some(' '), t, e);
  }

  lemma KeyStartsWithWord(j: nat)
    requires j < |ClauseKeys|
    ensures ClauseKeys[j] != [] && IsWord(ClauseKeys[j][0])
  {
    ClauseKeysAreWords();
  }

  /** A match of the dangling-clause pattern: a word boundary, then an alternative. */
  lemma BoundaryFind(prev: Option<char>, s: string, e: nat)
    requires WordBoundary(prev, s) && ClauseAlternatives(s, ClauseKeys) == Some(e)
    ensures Find(BoundaryClause, prev, s) == Some(Hit(e, ""))
  {
  }

  /** The separator in front of a line is quiet and ends in a space. */
  lemma SeparatorStep(p: Pattern, prev: Option<char>, y: string)
    requires p == BoundaryClause || p == SfuncStype
    ensures GSub(p, prev, PartSeparator + y) == PartSeparator + GSub(p, Some(' '), y)
  {
    NonWordQuiet(p, prev, PartSeparator, y);
    QuietStep(p, prev, PartSeparator, y);
  }

  /** A removable clause line loses everything after its separator. */
  lemma DropLine(prev: Option<char>, j: nat, v: string, rest: string)
    requires j < |ClauseKeys| && Plain(v) && v != []
    requires rest == [] || rest[0] == '\n'
    ensures GSub(BoundaryClause, prev, (PartSeparator + ClauseText(ClauseKeys[j], v)) + rest)
         == PartSeparator + GSub(BoundaryClause, Some(v[|v| - 1]), rest)
  {
    var c := ClauseText(ClauseKeys[j], v);
    Assoc(PartSeparator, c, rest);
    SeparatorStep(BoundaryClause, prev, c + rest);
    ClauseMatch(j, v, rest);
    ClauseTextLast(ClauseKeys[j], v);
    MatchStep(BoundaryClause, Some(' '), c, rest, "");
  }

  lemma ClauseTextLast(k: string, v: string)
    requires v != []
    ensures var c := ClauseText(k, v); |c| == |k| + 3 + |v| && c[|c| - 1] == v[|v| - 1]
  {
  }

  /** The first letters of the kept keys start no removable key. */
  lemma KeptHeadNoKey(k: string, s: string)
    requires KeptKey(k) && |s| >= 2 && s[0] == k[0] && s[1] == k[1]
    ensures Find(BoundaryClause, Some(' '), s).None?
  {
    forall n | 0 <= n < |ClauseKeys| ensures !(ClauseKeys[n] <= s[0..]) {
      assert s[0..][0] == s[0] && s[0..][1] == s[1];
    }
    AlternativesAbsent(s, ClauseKeys);
  }

  /** Inside a word there is no `\b`. */
  lemma InsideWordNoMatch(c: char, s: string)
    requires IsWord(c) && s != [] && IsWord(s[0])
    ensures Find(BoundaryClause, Some(c), s).None?
  {
  }

  /** A kept key, its ` = `, and nothing for the dangling-clause pass. */
  lemma KeyHeadQuiet(k: string, y: string)
    requires KeptKey(k)
    ensures Quiet(BoundaryClause, Some(' '), (k + " = ") + y, |k| + 3)
  {
    var t := (k + " = ") + y;
    forall i | 0 <= i < |k| + 3 ensures NoMatchAt(BoundaryClause, Some(' '), t, i) {
      if i == 0 {
        KeyHeadStart(k, t);
      } else if i < |k| {
        KeyHeadInside(k, t, i);
      } else {
        assert t[i] == (k + " = ")[i];
        KeyHeadEquals(k, t, i);
      }
    }
  }

  lemma KeyHeadStart(k: string, t: string)
    requires KeptKey(k) && k <= t
    ensures NoMatchAt(BoundaryClause, Some(' '), t, 0)
  {
    assert t[0..] == t && t[1] == k[1];
    KeptHeadNoKey(k, t);
  }

  lemma KeyHeadInside(k: string, t: string, i: nat)
    requires KeptKey(k) && k <= t && 0 < i < |k|
    ensures NoMatchAt(BoundaryClause, Some(' '), t, i)
  {
    assert t[i..][0] == t[i] == k[i] && Before(Some(' '), t, i) == Some(k[i - 1]);
    InsideWordNoMatch(k[i - 1], t[i..]);
  }

  lemma KeyHeadEquals(k: string, t: string, i: nat)
    requires |k| <= i < |t| && !IsWord(t[i])
    ensures NoMatchAt(BoundaryClause, Some(' '), t, i)
  {
    assert t[i..][0] == t[i];
    NonWordNoClause(Before(Some(' '), t, i), t[i..]);
  }

  /** A kept clause line passes through unchanged. */
  lemma KeepLine(prev: Option<char>, k: string, v: string, rest: string)
    requires KeptKey(k) && Plain(v) && v != [] && NoAssignAhead(rest)
    ensures GSub(BoundaryClause, prev, (PartSeparator + ClauseText(k, v)) + rest)
         == (PartSeparator + ClauseText(k, v)) + GSub(BoundaryClause, Some(v[|v| - 1]), rest)
  {
    var head := k + " = ";
    var c := ClauseText(k, v);
    Assoc(PartSeparator, c, rest);
    SeparatorStep(BoundaryClause, prev, c + rest);
    Assoc(head, v, rest);
    KeyHeadQuiet(k, v + rest);
    QuietStep(BoundaryClause, Some(' '), head, v + rest);
    PlainSafe(v);
    SegmentQuiet(BoundaryClause, Some(' '), v, rest);
    QuietStep(BoundaryClause, Some(' '), v, rest);
    var g := GSub(BoundaryClause, Some(v[|v| - 1]), rest);
    Assoc(head, v, g);
    Assoc(PartSeparator, c, g);
  }

  /** The closing line passes through unchanged. */
  lemma ClosingLine(prev: Option<char>, rest: string)
    ensures GSub(BoundaryClause, prev, (PartSeparator + Close) + rest)
         == (PartSeparator + Close) + GSub(BoundaryClause, Some(';'), rest)
  {
    var x := PartSeparator + Close;
    NonWordQuiet(BoundaryClause, prev, x, rest);
    QuietStep(BoundaryClause, prev, x, rest);
  }

  /** What may follow `KEY = ` with no value: blanks `g`, then clause
      characters `u`, then `z`, which ends both runs. */
  predicate SwallowLayout(g: string, u: string, z: string) {
    && (forall m :: 0 <= m < |g| ==> IsSpace(g[m]))
    && (forall m :: 0 <= m < |u| ==> InClass(ClauseValue, u[m]))
    && (u != [] ==> !IsSpace(u[0]))
    && (u == [] ==> z == [] || !IsSpace(z[0]))
    && (z == [] || !InClass(ClauseValue, z[0]))
  }

  /** `KEY = ` with no value: the `\s*` after `=` runs over the blanks `g`,
      and the value run takes the clause characters `u` up to `z`. */
  lemma EmptyKeyedEnd(k: string, g: string, u: string, z: string)
    requires SwallowLayout(g, u, z)
    ensures KeyedEnd(ClauseText(k, []) + ((g + u) + z), 0, k) == Some(|k| + 3 + |g| + |u|)
  {
    var c := ClauseText(k, []);
    var w := (g + u) + z;
    EmptyClauseLayout(k, w);
    BlankThenValue(g, u, z);
    RunEndShift(c, w, 0, Space);
    RunEndShift(c, w, |g|, ClauseValue);
    KeyedEndEmpty(c + w, k, |k| + 3 + |g|, |k| + 3 + |g| + |u|);
  }

  /** Where the pieces of `KEY = ` and what follows sit. */
  lemma EmptyClauseLayout(k: string, w: string)
    ensures var t := ClauseText(k, []) + w; var n := |k|;
      |ClauseText(k, [])| == n + 3 && |t| == n + 3 + |w| && t[..n] == k
      && t[n] == ' ' && t[n + 1] == '=' && t[n + 2] == ' '
  {
  }

  /** The keyed pattern over `KEY = `, then blanks up to `a`, then a value up to `b`. */
  lemma KeyedEndEmpty(t: string, k: string, a: nat, b: nat)
    requires |k| + 3 <= |t| && t[..|k|] == k
    requires t[|k|] == ' ' && t[|k| + 1] == '=' && t[|k| + 2] == ' '
    requires |k| + 3 <= a <= |t| && RunEnd(t, |k| + 3, Space) == a && RunEnd(t, a, ClauseValue) == b
    ensures KeyedEnd(t, 0, k) == Some(b)
  {
    var n := |k|;
    RunEndAt(t, n, n + 1, Space);
    assert RunEnd(t, n + 2, Space) == RunEnd(t, n + 3, Space);
    EqValueEndAt(t, n, n + 1, b);
    KeyedEndAt(t, k, b);
  }

  /** Blanks, then clause characters, then a character that ends both runs. */
  lemma BlankThenValue(g: string, u: string, z: string)
    requires SwallowLayout(g, u, z)
    ensures var w := (g + u) + z;
      RunEnd(w, 0, Space) == |g| && RunEnd(w, |g|, ClauseValue) == |g| + |u|
  {
    var r := u + z;
    Assoc(g, u, z);
    if u != [] {
      assert r[0] == u[0];
    }
    StretchThen(g, r, Space);
    ValueThen(u, z);
    RunEndShift(g, r, 0, ClauseValue);
  }

  /** A run over a whole stretch of its class stops where the stretch does. */
  lemma StretchThen(x: string, r: string, k: CharClass)
    requires forall m :: 0 <= m < |x| ==> InClass(k, x[m])
    requires r == [] || !InClass(k, r[0])
    ensures RunEnd(x + r, 0, k) == |x|
  {
    RunEndShift(x, r, 0, k);
    forall m | 0 <= m < |x| ensures InClass(k, (x + r)[m]) {
      assert (x + r)[m] == x[m];
    }
    RunEndSkip(x + r, 0, |x|, k);
  }

  lemma ValueThen(u: string, z: string)
    requires forall m :: 0 <= m < |u| ==> InClass(ClauseValue, u[m])
    requires z == [] || !InClass(ClauseValue, z[0])
    ensures RunEnd(u + z, 0, ClauseValue) == |u|
  {
    StretchThen(u, z, ClauseValue);
  }

  /** The dangling-clause pattern at an empty removable clause. */
  lemma EmptyClauseFind(j: nat, g: string, u: string, z: string)
    requires j < |ClauseKeys| && SwallowLayout(g, u, z)
    ensures var x := (ClauseText(ClauseKeys[j], []) + g) + u;
      Find(BoundaryClause, Some(' '), x + z) == Some(Hit(|x|, ""))
  {
    var k := ClauseKeys[j];
    var c := ClauseText(k, []);
    var t := c + ((g + u) + z);
    EmptyKeyedEnd(k, g, u, z);
    assert t[..|k|] == k;
    ClauseMatchAt(j, t, |k| + 3 + |g| + |u|);
    AssocFour(c, g, u, z);
  }

  lemma AssocFour(c: string, g: string, u: string, z: string)
    ensures c + ((g + u) + z) == ((c + g) + u) + z
  {
  }

  /** A removable clause line without a value is removed together with
      the blanks `g` and clause characters `u` after it. */
  lemma EmptyDropLine(prev: Option<char>, j: nat, g: string, u: string, z: string)
    requires j < |ClauseKeys| && SwallowLayout(g, u, z)
    ensures var x := (ClauseText(ClauseKeys[j], []) + g) + u;
      GSub(BoundaryClause, prev, (PartSeparator + ClauseText(ClauseKeys[j], [])) + ((g + u) + z))
        == PartSeparator + GSub(BoundaryClause, Some(x[|x| - 1]), z)
  {
    var c := ClauseText(ClauseKeys[j], []);
    AssocFour(c, g, u, z);
    EmptyClauseFind(j, g, u, z);
    SeparatedMatch(prev, c, (g + u) + z, (c + g) + u, z);
  }

  /** A separator, then a match of the dangling-clause pattern covering `x`. */
  lemma SeparatedMatch(prev: Option<char>, c: string, y: string, x: string, z: string)
    requires c + y == x + z && x != []
    requires Find(BoundaryClause, Some(' '), x + z) == Some(Hit(|x|, ""))
    ensures GSub(BoundaryClause, prev, (PartSeparator + c) + y)
         == PartSeparator + GSub(BoundaryClause, Some(x[|x| - 1]), z)
  {
    var t := c + y;
    Assoc(PartSeparator, c, y);
    SeparatorStep(BoundaryClause, prev, t);
    MatchStep(BoundaryClause, Some(' '), x, z, "");
    assert GSub(BoundaryClause, Some(' '), t) == GSub(BoundaryClause, Some(x[|x| - 1]), z);
  }

  /** An empty removable clause as the last line. */
  lemma EmptyDropLast(prev: Option<char>, j: nat)
    requires j < |ClauseKeys|
    ensures GSub(BoundaryClause, prev, (PartSeparator + ClauseText(ClauseKeys[j], [])) + []) == PartSeparator + []
  {
    var e: string := [];
    EmptyDropLine(prev, j, e, e, e);
    assert (e + e) + e == e;
  }

  /** An empty removable clause in front of the closing line: only the
      line break between them goes. */
  lemma EmptyDropClosing(prev: Option<char>, j: nat, rest: string)
    requires j < |ClauseKeys|
    ensures GSub(BoundaryClause, prev, (PartSeparator + ClauseText(ClauseKeys[j], [])) + ((PartSeparator + Close) + rest))
      == (PartSeparator + Close) + GSub(BoundaryClause, Some(';'), rest)
  {
    var z := Close + rest;
    var x := (ClauseText(ClauseKeys[j], []) + PartSeparator) + [];
    ClosingLayout(rest);
    EmptyDropLine(prev, j, PartSeparator, [], z);
    assert x[|x| - 1] == ' ';
    ClosingQuiet(rest);
    Assoc(PartSeparator, Close, GSub(BoundaryClause, Some(';'), rest));
  }

  /** The closing line ends the runs of an empty clause before it. */
  lemma ClosingLayout(rest: string)
    ensures SwallowLayout(PartSeparator, [], Close + rest)
    ensures (PartSeparator + Close) + rest == (PartSeparator + []) + (Close + rest)
  {
    assert (Close + rest)[0] == ')';
  }

  /** The dangling-clause pass copies the closing line. */
  lemma ClosingQuiet(rest: string)
    ensures GSub(BoundaryClause, Some(' '), Close + rest) == Close + GSub(BoundaryClause, Some(';'), rest)
  {
    NonWordQuiet(BoundaryClause, Some(' '), Close, rest);
    QuietStep(BoundaryClause, Some(' '), Close, rest);
  }

  /** An empty removable clause in front of a clause line: both lines go,
      and their two line breaks become one. */
  lemma EmptyDropClause(prev: Option<char>, j: nat, l: Line, rest: string)
    requires j < |ClauseKeys| && WellFormed(l) && !l.Closing?
    requires rest == [] || rest[0] == '\n'
    ensures var t := LineText(l);
      GSub(BoundaryClause, prev, (PartSeparator + ClauseText(ClauseKeys[j], [])) + ((PartSeparator + t) + rest))
        == PartSeparator + GSub(BoundaryClause, Some(t[|t| - 1]), rest)
  {
    var t := LineText(l);
    ClauseLineValue(l);
    var x := (ClauseText(ClauseKeys[j], []) + PartSeparator) + t;
    EmptyDropLine(prev, j, PartSeparator, t, rest);
    assert x[|x| - 1] == t[|t| - 1];
  }

  /** The dangling-clause pass removes the removable clause lines, and
      with each one that has no value also the line after it. */
  lemma {:induction false} DanglingPassLines(prev: Option<char>, ls: seq<Line>)
    requires forall i :: 0 <= i < |ls| ==> WellFormed(ls[i])
    ensures GSub(BoundaryClause, prev, Lines(Texts(ls))) == Lines(Dangling(ls))
    decreases |ls|, 1
  {
    if ls != [] {
      var l := ls[0];
      assert Texts(ls)[1..] == Texts(ls[1..]) && Texts(ls)[0] == LineText(l);
      var rest := Lines(Texts(ls[1..]));
      if l.Drop? && l.value == [] && |ls| > 1 {
        DanglingSwallow(prev, ls);
      } else {
        LinesOfTextsNoLeadingSpace(ls[1..]);
        match l
        case Drop(k, v) =>
          var j :| 0 <= j < |ClauseKeys| && ClauseKeys[j] == k;
          if v == [] {
            EmptyDropLast(prev, j);
            assert Lines(Dangling(ls)) == (PartSeparator + "") + [];
          } else {
            DropLine(prev, j, v, rest);
            DanglingPassLines(Some(v[|v| - 1]), ls[1..]);
            assert PartSeparator + [] == PartSeparator;
          }
        case Keep(k, v) =>
          KeepLine(prev, k, v, rest);
          DanglingPassLines(Some(v[|v| - 1]), ls[1..]);
        case Closing =>
          ClosingLine(prev, rest);
          DanglingPassLines(Some(';'), ls[1..]);
      }
    }
  }

  /** The step of `DanglingPassLines` at an empty removable clause with a line after it. */
  lemma {:induction false} DanglingSwallow(prev: Option<char>, ls: seq<Line>)
    requires forall i :: 0 <= i < |ls| ==> WellFormed(ls[i])
    requires |ls| > 1 && ls[0].Drop? && ls[0].value == []
    ensures GSub(BoundaryClause, prev, Lines(Texts(ls))) == Lines(Dangling(ls))
    decreases |ls|, 0
  {
    var j :| 0 <= j < |ClauseKeys| && ClauseKeys[j] == ls[0].key;
    var n := ls[1];
    var rest := Lines(Texts(ls[2..]));
    assert ls[1..][1..] == ls[2..];
    assert Texts(ls)[1..][1..] == Texts(ls[2..]) && Texts(ls)[1] == LineText(n);
    assert Lines(Texts(ls)) == (PartSeparator + ClauseText(ClauseKeys[j], [])) + ((PartSeparator + LineText(n)) + rest);
    if |ls| > 2 {
      LinesFirst(Texts(ls[2..]));
    }
    if n.Closing? {
      EmptyDropClosing(prev, j, rest);
      DanglingPassLines(Some(';'), ls[2..]);
    } else {
      var t := LineText(n);
      EmptyDropClause(prev, j, n, rest);
      DanglingPassLines(Some(t[|t| - 1]), ls[2..]);
      assert PartSeparator + [] == PartSeparator;
    }
  }
}

/** What `aggregates.sql` receives for an aggregate whose fields are plain
    names, NULL function fields included: the text `SchemaInfo.Aggregates`
    records for the row, run through `AggregateDetails.DetailsSanitize`, is
    the one-line statement `CREATE OR REPLACE AGGREGATE public.name (args)
    ( SFUNC = f, STYPE = t [INITCOND = 'v'] );`, where INITCOND survives
    only when no empty function clause swallows it.  Each rewrite is
    followed line by line over the assembled text. */
module AggregateOutput {
  import opened Text
  import opened Gsub
  import opened SchemaInfo
  import opened AggregateDetails

  // ---------------------------------------------------------------------
  // The rows the theorem covers and the statement they produce
  // ---------------------------------------------------------------------

  /** Every field that reaches the text is plain; the transition function
      and the state type are nonempty (the catalog never leaves them NULL).
      A function field may be NULL, which gives a clause without a value. */
  predicate CleanRow(row: AggregateRow) {
    && Plain(row.name) && Plain(row.argumentTypes)
    && Plain(row.transitionFunction) && row.transitionFunction != []
    && Plain(row.stateType) && row.stateType != []
    && (forall j :: 0 <= j < 6 && Included(row, j) ==> Plain(Value(row, j)))
    && (row.initialValue.Some? ==> Plain(row.initialValue.value))
  }

  /** The one-line statement: the function clauses are gone, SFUNC and
      STYPE are joined by a comma, INITCOND stays when it is not swallowed,
      single spaces throughout:
      `CREATE OR REPLACE AGGREGATE public.n (a) ( SFUNC = f, STYPE = t INITCOND = 'v' );`. */
  function CleanDefinition(row: AggregateRow): string {
    Header(row) + " " + ClauseText("SFUNC", row.transitionFunction) + ", " + ClauseText("STYPE", row.stateType)
    + (if InitcondKept(row) then " " + ClauseText("INITCOND", "'" + row.initialValue.value + "'") else "")
    + " " + Close
  }

  // ---------------------------------------------------------------------
  // The assembled parts as lines
  // ---------------------------------------------------------------------

  /** Optional clause `j` as a line: the six function clauses are removed
      by the dangling-clause pass, INITCOND is kept. */
  function OptLine(row: AggregateRow, j: nat): Line
    requires j < OptionalCount
  {
    if j < 6 then Drop(Key(j), Value(row, j)) else Keep(Key(j), Value(row, j))
  }

  /** The lines of the included clauses among the first `n`. */
  function OptLines(row: AggregateRow, n: nat): seq<Line>
    requires n <= OptionalCount
  {
    if n == 0 then []
    else OptLines(row, n - 1) + (if Included(row, n - 1) then [OptLine(row, n - 1)] else [])
  }

  function FixedLines(row: AggregateRow): seq<Line> {
    [Keep("SFUNC", row.transitionFunction), Keep("STYPE", row.stateType)]
  }

  function RowLines(row: AggregateRow): seq<Line> {
    FixedLines(row) + OptLines(row, OptionalCount) + [Closing]
  }

  lemma TextsAppend(a: seq<Line>, b: seq<Line>)
    ensures Texts(a + b) == Texts(a) + Texts(b)
  {
  }

  lemma OptLineText(row: AggregateRow, j: nat)
    requires j < OptionalCount
    ensures LineText(OptLine(row, j)) == PartText(row, j)
  {
    TextIsClause(row, j);
  }

  /** The assembler's list is the header followed by the lines' texts. */
  lemma {:induction false} AssembledLines(row: AggregateRow, n: nat)
    requires n <= OptionalCount
    ensures Assembled(row, n) == [Header(row)] + Texts(FixedLines(row) + OptLines(row, n))
    decreases n
  {
    if n == 0 {
      AssembledLinesNone(row);
    } else {
      AssembledLines(row, n - 1);
      AssembledLinesStep(row, n);
    }
  }

  lemma AssembledLinesNone(row: AggregateRow)
    ensures Assembled(row, 0) == [Header(row)] + Texts(FixedLines(row) + OptLines(row, 0))
  {
    assert FixedLines(row) + [] == FixedLines(row);
    assert ClauseText("SFUNC", row.transitionFunction) == "SFUNC = " + row.transitionFunction;
    assert ClauseText("STYPE", row.stateType) == "STYPE = " + row.stateType;
  }

  lemma AssembledLinesStep(row: AggregateRow, n: nat)
    requires 0 < n <= OptionalCount
    requires Assembled(row, n - 1) == [Header(row)] + Texts(FixedLines(row) + OptLines(row, n - 1))
    ensures Assembled(row, n) == [Header(row)] + Texts(FixedLines(row) + OptLines(row, n))
  {
    var extra := if Included(row, n - 1) then [OptLine(row, n - 1)] else [];
    assert FixedLines(row) + OptLines(row, n) == (FixedLines(row) + OptLines(row, n - 1)) + extra;
    TextsAppend(FixedLines(row) + OptLines(row, n - 1), extra);
    OptLineText(row, n - 1);
  }

  lemma PartsAsLines(row: AggregateRow)
    ensures AggregateParts(row) == [Header(row)] + Texts(RowLines(row))
  {
    AssembledLines(row, OptionalCount);
    TextsAppend(FixedLines(row) + OptLines(row, OptionalCount), [Closing]);
  }

  lemma PlainQuoted(v: string)
    requires Plain(v)
    ensures Plain("'" + v + "'")
  {
  }

  lemma {:induction false} OptLinesWellFormed(row: AggregateRow, n: nat)
    requires n <= OptionalCount && CleanRow(row)
    ensures forall i :: 0 <= i < |OptLines(row, n)| ==> WellFormed(OptLines(row, n)[i])
    decreases n
  {
    if n > 0 {
      OptLinesWellFormed(row, n - 1);
      var j := n - 1;
      if Included(row, j) {
        if j < 6 {
          assert Key(j) == ClauseKeys[j];
          assert Plain(Value(row, j));
        } else {
          PlainQuoted(row.initialValue.value);
        }
        assert WellFormed(OptLine(row, j));
      }
    }
  }

  lemma RowLinesWellFormed(row: AggregateRow)
    requires CleanRow(row)
    ensures forall i :: 0 <= i < |RowLines(row)| ==> WellFormed(RowLines(row)[i])
  {
    OptLinesWellFormed(row, OptionalCount);
  }

  /** `m` removed lines. */
  function Blanks(m: nat): seq<string> {
    seq(m, i => "")
  }

  // ---------------------------------------------------------------------
  // Which lines the dangling-clause pass leaves
  // ---------------------------------------------------------------------

  /** Whether the removable lines `ds` end with an empty clause that has
      not swallowed a line yet, so that it swallows the line after them. */
  function Pending(ds: seq<Line>): bool
    decreases |ds|
  {
    if ds == [] then false
    else if ds[0].Drop? && ds[0].value == [] then |ds| == 1 || Pending(ds[2..])
    else Pending(ds[1..])
  }

  /** How many line breaks of `ds` remain once they are removed (an empty
      clause and the line it swallows leave one; a pending clause none yet). */
  function DropBlanks(ds: seq<Line>): nat
    decreases |ds|
  {
    if ds == [] then 0
    else if ds[0].Drop? && ds[0].value == [] then (if |ds| == 1 then 0 else 1 + DropBlanks(ds[2..]))
    else 1 + DropBlanks(ds[1..])
  }

  /** INITCOND reaches the output: the row has an initial value and no
      empty function clause is left over to swallow its line. */
  predicate InitcondKept(row: AggregateRow) {
    row.initialValue.Some? && !Pending(OptLines(row, 6))
  }

  /** The line breaks left between the STYPE line and the last lines. */
  function GapCount(row: AggregateRow): nat {
    DropBlanks(OptLines(row, 6)) + (if Pending(OptLines(row, 6)) && row.initialValue.Some? then 1 else 0)
  }

  /** The INITCOND line's text, if it survives. */
  function InitParts(row: AggregateRow): seq<string> {
    if InitcondKept(row) then [ClauseText("INITCOND", "'" + row.initialValue.value + "'")] else []
  }

  lemma BlanksCons(m: nat)
    ensures Blanks(m + 1) == [""] + Blanks(m) && Blanks(m + 1) == Blanks(m) + [""]
  {
  }

  /** The dangling-clause pass over removable lines and what follows them:
      their line breaks, then the next lines, the first of them swallowed
      when an empty clause is pending. */
  lemma {:induction false} DropsThenTail(ds: seq<Line>, tail: seq<Line>)
    requires forall i :: 0 <= i < |ds| ==> ds[i].Drop?
    requires tail != [] && !tail[0].Drop?
    ensures Dangling(ds + tail)
         == Blanks(DropBlanks(ds)) + (if Pending(ds) then Swallowed(tail) else Dangling(tail))
    decreases |ds|
  {
    if ds == [] {
      assert ds + tail == tail;
    } else {
      var s := ds + tail;
      assert s[0] == ds[0];
      if ds[0].value == [] && |ds| == 1 {
        assert s[1..] == tail;
      } else if ds[0].value == [] {
        assert s[1..][0] == ds[1] && s[1..][1..] == ds[2..] + tail;
        DropsThenTail(ds[2..], tail);
        BlanksCons(DropBlanks(ds[2..]));
      } else {
        assert s[1..] == ds[1..] + tail;
        DropsThenTail(ds[1..], tail);
        BlanksCons(DropBlanks(ds[1..]));
      }
    }
  }

  /** The first six optional lines are removable ones. */
  lemma {:induction false} OptLinesDrop(row: AggregateRow, n: nat)
    requires n <= 6
    ensures forall i :: 0 <= i < |OptLines(row, n)| ==> OptLines(row, n)[i].Drop?
    decreases n
  {
    if n > 0 {
      OptLinesDrop(row, n - 1);
    }
  }

  /** The closing lines after the removable ones: INITCOND if the row has
      one and no pending empty clause swallows it, then `);`. */
  lemma TailSurvivors(row: AggregateRow)
    ensures var extra := if Included(row, 6) then [OptLine(row, 6)] else [];
      var m := DropBlanks(OptLines(row, 6));
      Blanks(m) + (if Pending(OptLines(row, 6)) then Swallowed(extra + [Closing]) else Dangling(extra + [Closing]))
        == Blanks(GapCount(row)) + InitParts(row) + [Close]
  {
    var m := DropBlanks(OptLines(row, 6));
    var last: seq<Line> := [Closing];
    assert last[1..] == [];
    assert Dangling(last) == [Close] && Swallowed(last) == [Close];
    if Included(row, 6) {
      var l := OptLine(row, 6);
      var t := [l] + last;
      assert t[0] == l && t[1..] == last;
      assert LineText(l) == ClauseText("INITCOND", "'" + row.initialValue.value + "'");
      assert Dangling(t) == [LineText(l)] + [Close];
      assert Swallowed(t) == [""] + [Close];
      BlanksCons(m);
    } else {
      assert [] + last == last;
    }
  }

  /** After the dangling-clause pass: SFUNC and STYPE, the line breaks of
      the removed clauses, INITCOND unless it was swallowed, and `);`. */
  lemma RowSurvivors(row: AggregateRow)
    ensures Dangling(RowLines(row))
         == [ClauseText("SFUNC", row.transitionFunction), ClauseText("STYPE", row.stateType)]
            + Blanks(GapCount(row)) + InitParts(row) + [Close]
  {
    var ds := OptLines(row, 6);
    var extra := if Included(row, 6) then [OptLine(row, 6)] else [];
    var rest := ds + (extra + [Closing]);
    var ls := RowLines(row);
    assert ls == FixedLines(row) + rest;
    assert ls[1..] == [Keep("STYPE", row.stateType)] + rest && ls[1..][1..] == rest;
    OptLinesDrop(row, 6);
    DropsThenTail(ds, extra + [Closing]);
    TailSurvivors(row);
  }

  /** The lines of removed clauses are whitespace only. */
  lemma {:induction false} BlankLinesSpace(m: nat)
    ensures forall i :: 0 <= i < |Lines(Blanks(m))| ==> IsSpace(Lines(Blanks(m))[i])
    decreases m
  {
    if m > 0 {
      assert Blanks(m)[1..] == Blanks(m - 1);
      BlankLinesSpace(m - 1);
      assert PartSeparator + Blanks(m)[0] == PartSeparator;
    }
  }

  // ---------------------------------------------------------------------
  // The text between the passes
  // ---------------------------------------------------------------------

  function SfuncText(row: AggregateRow): string {
    ClauseText("SFUNC", row.transitionFunction)
  }

  function StypeText(row: AggregateRow): string {
    ClauseText("STYPE", row.stateType)
  }

  function InitText(row: AggregateRow): string
    requires row.initialValue.Some?
  {
    ClauseText("INITCOND", "'" + row.initialValue.value + "'")
  }

  /** The lines of the removed clauses. */
  function Gap(row: AggregateRow): string {
    Lines(Blanks(GapCount(row)))
  }

  /** Everything after the STYPE line. */
  function Rest(row: AggregateRow): string {
    Gap(row) + Lines(InitParts(row) + [Close])
  }

  /** After the dangling-clause pass. */
  function AfterDangling(row: AggregateRow): string {
    Header(row) + ((PartSeparator + SfuncText(row)) + ((PartSeparator + StypeText(row)) + Rest(row)))
  }

  /** The joined SFUNC and STYPE clauses. */
  function Joined(row: AggregateRow): string {
    SfuncText(row) + ", " + StypeText(row)
  }

  /** After the SFUNC/STYPE pass, and unchanged by the next two. */
  function AfterJoin(row: AggregateRow): string {
    Header(row) + (PartSeparator + (Joined(row) + Rest(row)))
  }

  /** What follows the joined clauses once the whitespace is squeezed. */
  function SqueezedTail(row: AggregateRow): string {
    if InitcondKept(row) then InitText(row) + (" " + Close) else Close
  }

  /** After the whitespace pass. */
  function Squeezed(row: AggregateRow): string {
    Header(row) + (" " + (Joined(row) + (" " + SqueezedTail(row))))
  }

  lemma AssembledText(row: AggregateRow)
    ensures Join(AggregateParts(row), PartSeparator) == Header(row) + Lines(Texts(RowLines(row)))
  {
    PartsAsLines(row);
    JoinIsLines(AggregateParts(row));
    assert AggregateParts(row)[1..] == Texts(RowLines(row));
  }

  lemma LinesPair(a: string, b: string)
    ensures Lines([a, b]) == (PartSeparator + a) + ((PartSeparator + b) + [])
  {
    assert [a, b][1..] == [b] && [a, b][1..][1..] == [];
    assert Lines([b]) == (PartSeparator + b) + Lines([]);
  }

  lemma AssocTail(x: string, y: string, g: string, c: string)
    ensures (x + (y + [])) + g + c == x + (y + (g + c))
  {
  }

  lemma SurvivorText(row: AggregateRow)
    ensures Header(row) + Lines(Dangling(RowLines(row))) == AfterDangling(row)
  {
    RowSurvivors(row);
    var two := [SfuncText(row), StypeText(row)];
    var b := Blanks(GapCount(row));
    var c := InitParts(row) + [Close];
    assert two + b + InitParts(row) + [Close] == (two + b) + c;
    LinesAppend(two + b, c);
    LinesAppend(two, b);
    LinesPair(SfuncText(row), StypeText(row));
    AssocTail(PartSeparator + SfuncText(row), PartSeparator + StypeText(row), Lines(b), Lines(c));
  }

  // ---------------------------------------------------------------------
  // Shape facts, free of any scan
  // ---------------------------------------------------------------------

  /** Nonempty and not ending in whitespace. */
  predicate EndsSolid(s: string) {
    s != [] && !IsSpace(s[|s| - 1])
  }

  lemma Glue(a: string, b: string)
    requires SingleSpaced(a) && SingleSpaced(b)
    requires EndsSolid(a) || b == [] || !IsSpace(b[0])
    ensures SingleSpaced(a + b)
    ensures EndsSolid(b) ==> EndsSolid(a + b)
    ensures b == [] && EndsSolid(a) ==> EndsSolid(a + b)
  {
    var s := a + b;
    forall i | 0 <= i < |s| - 1 ensures !IsSpace(s[i]) || !IsSpace(s[i + 1]) {
      if i + 1 < |a| {
        assert s[i] == a[i] && s[i + 1] == a[i + 1];
      } else if i >= |a| {
        assert s[i] == b[i - |a|] && s[i + 1] == b[i + 1 - |a|];
      } else {
        assert s[i] == a[|a| - 1] && s[i + 1] == b[0];
      }
    }
    if b != [] {
      assert s[|s| - 1] == b[|b| - 1];
    }
  }

  lemma PlainSpaced(v: string)
    requires Plain(v)
    ensures SingleSpaced(v) && (v == [] || EndsSolid(v))
  {
  }

  /** A clause with a space-free key and a plain value. */
  lemma ClauseSpaced(k: string, v: string)
    requires k != [] && (forall i :: 0 <= i < |k| ==> !IsSpace(k[i]))
    requires Plain(v) && v != []
    ensures SingleSpaced(ClauseText(k, v)) && EndsSolid(ClauseText(k, v))
    ensures ClauseText(k, v)[0] == k[0]
  {
    var c := ClauseText(k, v);
    var n := |k|;
    forall i | 0 <= i < |c| - 1 ensures !IsSpace(c[i]) || !IsSpace(c[i + 1]) {
      if i < n {
        assert c[i] == k[i];
      } else if i == n {
        assert c[i + 1] == '=';
      } else if i == n + 1 {
        assert c[i] == '=';
      } else {
        assert c[i + 1] == v[i + 1 - n - 3];
      }
    }
    assert c[|c| - 1] == v[|v| - 1];
  }

  /** The literal pieces of the header. */
  lemma HeaderOpening()
    ensures var l := "CREATE OR REPLACE AGGREGATE public.";
      SingleSpaced(l) && EndsSolid(l) && l[0] == 'C'
  {
    var a, b, c, d, e := "CREATE", " OR", " REPLACE", " AGGREGATE", " public.";
    OpeningWords();
    GlueFive(a, b, c, d, e);
    assert a + b + c + d + e == "CREATE OR REPLACE AGGREGATE public.";
  }

  /** The header's opening has no `=`, `,` or `;`. */
  lemma HeaderOpeningFree()
    ensures var l := "CREATE OR REPLACE AGGREGATE public.";
      '=' !in l && ',' !in l && ';' !in l
  {
    var l := "CREATE OR REPLACE AGGREGATE public.";
    assert '=' !in l;
    assert ',' !in l;
    assert ';' !in l;
  }

  lemma OpeningWords()
    ensures SingleSpaced("CREATE") && EndsSolid("CREATE") && SingleSpaced(" OR") && EndsSolid(" OR")
    ensures SingleSpaced(" REPLACE") && EndsSolid(" REPLACE") && SingleSpaced(" AGGREGATE") && EndsSolid(" AGGREGATE")
    ensures SingleSpaced(" public.") && EndsSolid(" public.")
  {
    SpacedWord("CREATE");
    SpacedWord(" OR");
    SpacedWord(" REPLACE");
    SpacedWord(" AGGREGATE");
    SpacedWord(" public.");
  }

  /** A word, perhaps behind one space, is single-spaced and ends in a non-space. */
  lemma SpacedWord(w: string)
    requires |w| >= 2 && forall i :: 1 <= i < |w| ==> !IsSpace(w[i])
    ensures SingleSpaced(w) && EndsSolid(w)
  {
  }

  /** Five single-spaced pieces, each ending in a non-space, glue into one. */
  lemma GlueFive(a: string, b: string, c: string, d: string, e: string)
    requires SingleSpaced(a) && SingleSpaced(b) && SingleSpaced(c) && SingleSpaced(d) && SingleSpaced(e)
    requires EndsSolid(a) && EndsSolid(b) && EndsSolid(c) && EndsSolid(d) && EndsSolid(e)
    ensures SingleSpaced(a + b + c + d + e) && EndsSolid(a + b + c + d + e)
    ensures (a + b + c + d + e)[0] == a[0]
  {
    Glue(a, b);
    Glue(a + b, c);
    Glue(a + b + c, d);
    Glue(a + b + c + d, e);
  }

  lemma HeaderParens()
    ensures SingleSpaced(" (") && EndsSolid(" (") && SingleSpaced(") (") && EndsSolid(") (")
  {
  }

  /** A literal, a plain field, a literal, a plain field, a literal. */
  lemma FiveGlue(p1: string, x: string, p2: string, y: string, p3: string)
    requires SingleSpaced(p1) && EndsSolid(p1) && SingleSpaced(p2) && EndsSolid(p2)
    requires SingleSpaced(p3) && EndsSolid(p3) && !IsSpace(p3[0])
    requires Plain(x) && Plain(y)
    ensures var h := p1 + x + p2 + y + p3;
      && SingleSpaced(h) && EndsSolid(h) && h[0] == p1[0] && h[|h| - 1] == p3[|p3| - 1]
  {
    PlainSpaced(x);
    PlainSpaced(y);
    Glue(p1, x);
    Glue(p1 + x, p2);
    Glue(p1 + x + p2, y);
    Glue(p1 + x + p2 + y, p3);
  }

  lemma HeaderShape(row: AggregateRow)
    requires Plain(row.name) && Plain(row.argumentTypes)
    ensures var h := Header(row);
      && SingleSpaced(h) && EndsSolid(h) && h[0] == 'C' && h[|h| - 1] == '('
      && '=' !in h && ',' !in h && ';' !in h
  {
    HeaderOpening();
    HeaderOpeningFree();
    HeaderParens();
    var l1 := "CREATE OR REPLACE AGGREGATE public.";
    FiveGlue(l1, row.name, " (", row.argumentTypes, ") (");
    assert '=' !in row.name && ',' !in row.name && ';' !in row.name;
    assert '=' !in row.argumentTypes && ',' !in row.argumentTypes && ';' !in row.argumentTypes;
  }

  lemma JoinedShape(row: AggregateRow)
    requires CleanRow(row)
    ensures var m := Joined(row);
      && SingleSpaced(m) && EndsSolid(m) && m[0] == 'S'
      && ',' !in SfuncText(row) && ',' !in StypeText(row) && StypeText(row)[0] == 'S'
      && ';' !in m
  {
    ClauseSpaced("SFUNC", row.transitionFunction);
    ClauseSpaced("STYPE", row.stateType);
    var sf := SfuncText(row);
    var st := StypeText(row);
    assert SingleSpaced(", ");
    Glue(sf, ", ");
    Glue(sf + ", ", st);
    assert Joined(row)[0] == sf[0];
    assert ',' !in row.transitionFunction && ';' !in row.transitionFunction;
    assert ',' !in row.stateType && ';' !in row.stateType;
  }

  lemma InitShape(row: AggregateRow)
    requires CleanRow(row) && row.initialValue.Some?
    ensures var t := InitText(row);
      && SingleSpaced(t) && EndsSolid(t) && t[0] == 'I'
      && 'S' !in "INITCOND = " && t == "INITCOND = " + ("'" + row.initialValue.value + "'")
      && ',' !in t && ';' !in t
  {
    PlainQuoted(row.initialValue.value);
    ClauseSpaced("INITCOND", "'" + row.initialValue.value + "'");
    assert ',' !in row.initialValue.value && ';' !in row.initialValue.value;
  }

  /** Lines ending with the closing part end with `\n  )` and `;`. */
  lemma LinesCloseTail(ps: seq<string>)
    ensures Lines(ps + [Close]) == Lines(ps) + ((PartSeparator + ")") + ";")
  {
    LinesAppend(ps, [Close]);
    assert Lines([Close]) == (PartSeparator + Close) + [];
    assert PartSeparator + Close == (PartSeparator + ")") + ";";
  }

  lemma SpaceFree(g: string)
    requires forall i :: 0 <= i < |g| ==> IsSpace(g[i])
    ensures ',' !in g && ';' !in g && 'S' !in g
  {
  }

  lemma RestSplit(row: AggregateRow)
    ensures Rest(row) == (Gap(row) + Lines(InitParts(row))) + (PartSeparator + ")") + ";"
  {
    LinesCloseTail(InitParts(row));
    Assoc(Gap(row), Lines(InitParts(row)), (PartSeparator + ")") + ";");
    Assoc(Gap(row) + Lines(InitParts(row)), PartSeparator + ")", ";");
  }

  lemma RestStart(row: AggregateRow)
    ensures Rest(row) != [] && Rest(row)[0] == '\n'
  {
    var b := Blanks(GapCount(row));
    LinesAppend(b, InitParts(row) + [Close]);
    LinesFirst(b + (InitParts(row) + [Close]));
  }

  lemma RestFree(row: AggregateRow)
    requires CleanRow(row)
    ensures ',' !in Gap(row) && ',' !in Lines(InitParts(row)) && ';' !in Gap(row) + Lines(InitParts(row))
  {
    BlankLinesSpace(GapCount(row));
    SpaceFree(Gap(row));
    if InitcondKept(row) {
      InitShape(row);
    }
    LinesExclude(InitParts(row), ',');
    LinesExclude(InitParts(row), ';');
  }

  /** The rest after the STYPE line starts with a line feed and holds no
      comma; its only semicolon is the last character. */
  lemma RestShape(row: AggregateRow)
    requires CleanRow(row)
    ensures var z := Rest(row);
      && z != [] && z[0] == '\n' && ',' !in z
      && z == (Gap(row) + Lines(InitParts(row))) + (PartSeparator + ")") + ";"
      && ';' !in Gap(row) + Lines(InitParts(row))
  {
    RestSplit(row);
    RestStart(row);
    RestFree(row);
  }

  // ---------------------------------------------------------------------
  // The passes
  // ---------------------------------------------------------------------

  /** After the separator comes a line that starts with neither whitespace nor `=`. */
  lemma SeparatorNoAssignAhead(y: string)
    requires y != [] && !IsSpace(y[0]) && y[0] != '='
    ensures NoAssignAhead(PartSeparator + y)
  {
    var t := PartSeparator + y;
    assert t[3] == y[0];
    RunEndAt(t, 0, 3, Space);
  }

  /** `\b(FINALFUNC|…)\s*=\s*[^,\)\n]*` removes the function clauses and
      leaves their line breaks; a clause without a value takes the line
      after it along, as `RowSurvivors` counts. */
  lemma PassDangling(row: AggregateRow)
    requires CleanRow(row)
    ensures GSub(BoundaryClause, None, Header(row) + Lines(Texts(RowLines(row)))) == AfterDangling(row)
  {
    var h := Header(row);
    var l := Lines(Texts(RowLines(row)));
    HeaderShape(row);
    RowLinesWellFormed(row);
    LinesOfTextsNoLeadingSpace(RowLines(row));
    SegmentQuiet(BoundaryClause, None, h, l);
    QuietStep(BoundaryClause, None, h, l);
    DanglingPassLines(Some(h[|h| - 1]), RowLines(row));
    SurvivorText(row);
  }

  /** The characters of a clause. */
  lemma ClauseChars(k: string, v: string)
    ensures var c := ClauseText(k, v);
      && |c| == |k| + 3 + |v| && c[..|k|] == k
      && c[|k|] == ' ' && c[|k| + 1] == '=' && c[|k| + 2] == ' '
      && forall m :: |k| + 3 <= m < |c| ==> c[m] == v[m - |k| - 3]
  {
  }

  /** The three runs of `KEY = value` inside `t` at `i`, as the SFUNC/STYPE pattern walks them. */
  lemma KeyValueRuns(t: string, i: nat, k: string, v: string, c: string)
    requires c == ClauseText(k, v) && Plain(v) && v != []
    requires i + |c| <= |t| && forall m :: 0 <= m < |c| ==> t[i + m] == c[m]
    requires i + |c| == |t| || IsSpace(t[i + |c|])
    ensures var n := i + |k|;
      && RunEnd(t, n, Space) == n + 1 && t[n + 1] == '='
      && RunEnd(t, n + 2, Space) == n + 3
      && RunEnd(t, n + 3, Token) == i + |c|
  {
    ClauseChars(k, v);
    var n := i + |k|;
    assert t[n] == c[|k|] && t[n + 1] == c[|k| + 1] && t[n + 2] == c[|k| + 2] && t[n + 3] == c[|k| + 3];
    RunEndAt(t, n, n + 1, Space);
    RunEndAt(t, n + 2, n + 3, Space);
    forall m | n + 3 <= m < i + |c| ensures InClass(Token, t[m]) {
      assert t[m] == c[m - i];
    }
    RunEndAt(t, n + 3, i + |c|, Token);
  }

  /** The SFUNC/STYPE matcher, given where each of its runs ends. */
  lemma SfuncStypeFindAt(t: string, c: nat, d: nat, g: nat)
    requires 8 < c < d && d + 8 < g <= |t|
    requires "SFUNC" <= t && RunEnd(t, 5, Space) == 6 && t[6] == '='
    requires RunEnd(t, 7, Space) == 8 && RunEnd(t, 8, Token) == c
    requires RunEnd(t, c, Space) == d && "STYPE" <= t[d..]
    requires RunEnd(t, d + 5, Space) == d + 6 && t[d + 6] == '='
    requires RunEnd(t, d + 7, Space) == d + 8 && RunEnd(t, d + 8, Token) == g
    ensures SfuncStypeFind(t) == Some(Hit(g, t[..c] + ", " + t[d..g]))
  {
  }

  /** Where the two clauses and the separator between them sit. */
  lemma PairLayout(sf: string, sty: string, z: string)
    ensures var t := (sf + (PartSeparator + sty)) + z; var n := |sf|;
      && (forall m :: 0 <= m < n ==> t[m] == sf[m])
      && (forall m :: 0 <= m < |sty| ==> t[n + 3 + m] == sty[m])
      && t[n] == '\n' && t[n + 1] == ' ' && t[n + 2] == ' '
      && t[..n] == sf && t[n + 3..n + 3 + |sty|] == sty
      && (z != [] ==> t[n + 3 + |sty|] == z[0])
  {
    var t := (sf + (PartSeparator + sty)) + z;
    assert t[..|sf|] == sf;
    assert t[|sf| + 3..|sf| + 3 + |sty|] == sty;
  }

  /** A clause whose characters sit in `t` at `i` puts its key there. */
  lemma KeyAt(t: string, i: nat, k: string, v: string, c: string)
    requires c == ClauseText(k, v)
    requires i + |c| <= |t| && forall m :: 0 <= m < |c| ==> t[i + m] == c[m]
    ensures k <= t[i..]
  {
    ClauseChars(k, v);
    assert forall m :: 0 <= m < |k| ==> t[i..][m] == c[m] == k[m];
  }

  /** The SFUNC half of the pair: key, `=`, and the value ending at the separator. */
  lemma SfuncHalf(tf: string, st: string, z: string)
    requires Plain(tf) && tf != []
    ensures var sf := ClauseText("SFUNC", tf);
      var t := (sf + (PartSeparator + ClauseText("STYPE", st))) + z; var n := |sf|;
      && 8 < n && n + 3 <= |t| && t[..n] == sf
      && "SFUNC" <= t && RunEnd(t, 5, Space) == 6 && t[6] == '='
      && RunEnd(t, 7, Space) == 8 && RunEnd(t, 8, Token) == n
      && RunEnd(t, n, Space) == n + 3
  {
    var sf := ClauseText("SFUNC", tf);
    var sty := ClauseText("STYPE", st);
    var t := (sf + (PartSeparator + sty)) + z;
    PairLayout(sf, sty, z);
    ClauseChars("STYPE", st);
    assert t[|sf| + 3] == sty[0] == 'S';
    SfuncRuns(t, tf, sf);
  }

  lemma SfuncRuns(t: string, tf: string, sf: string)
    requires sf == ClauseText("SFUNC", tf) && Plain(tf) && tf != []
    requires |sf| + 3 < |t| && forall m :: 0 <= m < |sf| ==> t[m] == sf[m]
    requires t[|sf|] == '\n' && t[|sf| + 1] == ' ' && t[|sf| + 2] == ' ' && t[|sf| + 3] == 'S'
    ensures var n := |sf|;
      && 8 < n && "SFUNC" <= t && RunEnd(t, 5, Space) == 6 && t[6] == '='
      && RunEnd(t, 7, Space) == 8 && RunEnd(t, 8, Token) == n
      && RunEnd(t, n, Space) == n + 3
  {
    var n := |sf|;
    KeyAt(t, 0, "SFUNC", tf, sf);
    assert t[0..] == t;
    KeyValueRuns(t, 0, "SFUNC", tf, sf);
    RunEndAt(t, n, n + 3, Space);
  }

  /** The STYPE half of the pair: key, `=`, and the value ending at the end of its line. */
  lemma StypeHalf(tf: string, st: string, z: string)
    requires Plain(st) && st != []
    requires z == [] || IsSpace(z[0])
    ensures var sf := ClauseText("SFUNC", tf); var sty := ClauseText("STYPE", st);
      var t := (sf + (PartSeparator + sty)) + z; var d := |sf| + 3;
      && d + 8 < d + |sty| <= |t| && t[d..d + |sty|] == sty
      && "STYPE" <= t[d..] && RunEnd(t, d + 5, Space) == d + 6 && t[d + 6] == '='
      && RunEnd(t, d + 7, Space) == d + 8 && RunEnd(t, d + 8, Token) == d + |sty|
  {
    var sf := ClauseText("SFUNC", tf);
    var sty := ClauseText("STYPE", st);
    var t := (sf + (PartSeparator + sty)) + z;
    var d := |sf| + 3;
    PairLayout(sf, sty, z);
    ClauseChars("STYPE", st);
    KeyAt(t, d, "STYPE", st, sty);
    KeyValueRuns(t, d, "STYPE", st, sty);
  }

  /** `(SFUNC\s*=\s*[^\s,]+)\s+(STYPE\s*=\s*[^\s,]+)` spans both lines and joins them with `, `. */
  lemma SfuncStypeMatch(prev: Option<char>, tf: string, st: string, z: string)
    requires Plain(tf) && tf != [] && Plain(st) && st != []
    requires z == [] || IsSpace(z[0])
    ensures var x := ClauseText("SFUNC", tf) + (PartSeparator + ClauseText("STYPE", st));
      Find(SfuncStype, prev, x + z) == Some(Hit(|x|, ClauseText("SFUNC", tf) + ", " + ClauseText("STYPE", st)))
  {
    var sf := ClauseText("SFUNC", tf);
    var sty := ClauseText("STYPE", st);
    var t := (sf + (PartSeparator + sty)) + z;
    SfuncHalf(tf, st, z);
    StypeHalf(tf, st, z);
    SfuncStypeFindAt(t, |sf|, |sf| + 3, |sf| + 3 + |sty|);
  }

  /** The SFUNC/STYPE pattern finds nothing after the STYPE line. */
  lemma RestQuiet(row: AggregateRow, prev: Option<char>)
    requires CleanRow(row)
    ensures GSub(SfuncStype, prev, Rest(row)) == Rest(row)
  {
    var g := Gap(row);
    BlankLinesSpace(GapCount(row));
    SpaceFree(g);
    RestGaps(row);
    var w := g + PartSeparator;
    if InitcondKept(row) {
      InitShape(row);
      var q := "'" + row.initialValue.value + "'";
      var tail := PartSeparator + Close;
      var pre := w + "INITCOND = ";
      RestInitSplit(w, q, tail);
      NoSQuiet(prev, pre, q + tail);
      QuietStep(SfuncStype, prev, pre, q + tail);
      PlainQuoted(row.initialValue.value);
      PlainSafe(q);
      SeparatorNoAssignAhead(Close);
      SegmentQuiet(SfuncStype, Some(' '), q, tail);
      QuietStep(SfuncStype, Some(' '), q, tail);
      NoSQuiet(Some('\''), tail, []);
      assert tail + [] == tail;
      QuietWhole(SfuncStype, Some('\''), tail);
    } else {
      NoSQuiet(prev, w + Close, []);
      assert (w + Close) + [] == w + Close;
      QuietWhole(SfuncStype, prev, w + Close);
    }
  }

  /** The rest after the STYPE line: the removed lines and one separator,
      then the INITCOND line and its separator if there is one, then `);`. */
  lemma RestGaps(row: AggregateRow)
    ensures InitcondKept(row) ==>
      Rest(row) == (Gap(row) + PartSeparator) + (InitText(row) + (PartSeparator + Close))
    ensures !InitcondKept(row) ==> Rest(row) == (Gap(row) + PartSeparator) + Close
  {
    var g := Gap(row);
    if InitcondKept(row) {
      LinesPair(InitText(row), Close);
      assert InitParts(row) + [Close] == [InitText(row), Close];
      var i := PartSeparator + InitText(row);
      assert g + (i + ((PartSeparator + Close) + [])) == (g + PartSeparator) + (InitText(row) + (PartSeparator + Close));
    } else {
      assert InitParts(row) + [Close] == [Close];
      assert Lines([Close]) == (PartSeparator + Close) + Lines([]);
      assert g + ((PartSeparator + Close) + []) == (g + PartSeparator) + Close;
    }
  }

  lemma RestInitSplit(w: string, q: string, tail: string)
    ensures w + (("INITCOND" + " = " + q) + tail) == (w + "INITCOND = ") + (q + tail)
  {
    assert "INITCOND" + " = " == "INITCOND = ";
  }

  /** `(SFUNC…)\s+(STYPE…)` joins the two clauses and changes nothing else. */
  lemma PassJoin(row: AggregateRow)
    requires CleanRow(row)
    ensures GSub(SfuncStype, None, AfterDangling(row)) == AfterJoin(row)
  {
    var sf := SfuncText(row);
    var y := sf + ((PartSeparator + StypeText(row)) + Rest(row));
    HeaderShape(row);
    Assoc(PartSeparator, sf, (PartSeparator + StypeText(row)) + Rest(row));
    ClauseChars("SFUNC", row.transitionFunction);
    assert y[0] == sf[0] == 'S';
    HeadThenSeparator(SfuncStype, Header(row), y);
    JoinBody(row);
  }

  /** A safe stretch, the separator, and a line that starts with a letter:
      the scan passes over the stretch and the separator. */
  lemma HeadThenSeparator(p: Pattern, h: string, y: string)
    requires p == BoundaryClause || p == SfuncStype
    requires SafeSegment(h) && y != [] && !IsSpace(y[0]) && y[0] != '='
    ensures GSub(p, None, h + (PartSeparator + y)) == h + (PartSeparator + GSub(p, Some(' '), y))
  {
    SeparatorNoAssignAhead(y);
    SegmentQuiet(p, None, h, PartSeparator + y);
    QuietStep(p, None, h, PartSeparator + y);
    SeparatorStep(p, Some(h[|h| - 1]), y);
  }

  /** The SFUNC and STYPE lines are joined; the rest passes through. */
  lemma JoinBody(row: AggregateRow)
    requires CleanRow(row)
    ensures var sf := SfuncText(row); var stl := PartSeparator + StypeText(row);
      GSub(SfuncStype, Some(' '), sf + (stl + Rest(row))) == Joined(row) + Rest(row)
  {
    var sf := SfuncText(row);
    var stl := PartSeparator + StypeText(row);
    var z := Rest(row);
    RestShape(row);
    Assoc(sf, stl, z);
    SfuncStypeMatch(Some(' '), row.transitionFunction, row.stateType, z);
    MatchStep(SfuncStype, Some(' '), sf + stl, z, Joined(row));
    RestQuiet(row, Some((sf + stl)[|sf + stl| - 1]));
  }

  /** Where the comma of the joined clauses sits. */
  lemma CommaSplit(h: string, s: string, sf: string, st: string, z: string)
    ensures h + (s + ((sf + ", " + st) + z)) == (h + (s + sf)) + (", " + (st + z))
  {
  }

  /** `,\s*\)` does not match at a comma followed by a space and a letter. */
  lemma CommaStep(prev: Option<char>, x: string, y: string)
    requires ',' !in x && ',' !in y && y != [] && !IsSpace(y[0]) && y[0] != ')'
    ensures GSub(CommaParen, prev, x + (", " + y)) == x + (", " + y)
  {
    var s := ", " + y;
    CommaFreeQuiet(CommaParen, prev, x, s);
    QuietPrefix(CommaParen, prev, x, s);
    assert s[1] == ' ' && s[2] == y[0];
    RunEndAt(s, 1, 2, Space);
    assert ',' !in s[1..];
    CommaFreeUnchanged(CommaParen, Some(','), s[1..]);
    assert [s[0]] + s[1..] == s;
  }

  /** `,\s*\)` changes nothing: the only comma is the one just inserted. */
  lemma PassCommaParen(row: AggregateRow)
    requires CleanRow(row)
    ensures GSub(CommaParen, None, AfterJoin(row)) == AfterJoin(row)
  {
    var h := Header(row);
    var sf := SfuncText(row);
    var st := StypeText(row);
    var z := Rest(row);
    HeaderShape(row);
    JoinedShape(row);
    RestShape(row);
    CommaSplit(h, PartSeparator, sf, st, z);
    assert (st + z)[0] == 'S';
    CommaStep(None, h + (PartSeparator + sf), st + z);
  }

  lemma SemicolonSplit(h: string, s: string, j: string, q: string)
    ensures h + (s + (j + (q + ";"))) == (h + (s + (j + q))) + ";"
  {
  }

  /** `;;$` needs two semicolons; only the last character is one. */
  lemma SemicolonStep(prev: Option<char>, x: string)
    requires ';' !in x
    ensures GSub(DoubleSemicolonEol, prev, x + ";") == x + ";"
  {
    SemicolonFreeQuiet(prev, x, ";");
    QuietPrefix(DoubleSemicolonEol, prev, x, ";");
  }

  /** `;;$` changes nothing. */
  lemma PassSemicolon(row: AggregateRow)
    requires CleanRow(row)
    ensures GSub(DoubleSemicolonEol, None, AfterJoin(row)) == AfterJoin(row)
  {
    var q := (Gap(row) + Lines(InitParts(row))) + (PartSeparator + ")");
    HeaderShape(row);
    JoinedShape(row);
    RestShape(row);
    SemicolonSplit(Header(row), PartSeparator, Joined(row), q);
    SemicolonStep(None, Header(row) + (PartSeparator + (Joined(row) + q)));
  }

  /** A single-spaced stretch, a whitespace run of two or more, and what follows. */
  lemma SpaceStep(prev: Option<char>, x: string, w: string, y: string)
    requires SingleSpaced(x) && EndsSolid(x)
    requires |w| >= 2 && forall i :: 0 <= i < |w| ==> IsSpace(w[i])
    requires y != [] && !IsSpace(y[0])
    ensures GSub(SpaceRun, prev, x + (w + y)) == x + (" " + GSub(SpaceRun, Some(w[|w| - 1]), y))
  {
    SingleSpacedQuiet(prev, x, w + y);
    QuietStep(SpaceRun, prev, x, w + y);
    SpaceRunCollapse(Some(x[|x| - 1]), w, y);
  }

  lemma CloseQuiet(prev: Option<char>)
    ensures GSub(SpaceRun, prev, Close) == Close
  {
    assert SingleSpaced(Close) && EndsSolid(Close);
    SingleSpacedQuiet(prev, Close, []);
    assert Close + [] == Close;
    QuietWhole(SpaceRun, prev, Close);
  }

  /** `\s{2,}` turns each line break and its indentation into one space. */
  lemma PassSqueeze(row: AggregateRow)
    requires CleanRow(row)
    ensures GSub(SpaceRun, None, AfterJoin(row)) == Squeezed(row)
  {
    var h := Header(row);
    var j := Joined(row);
    var g := Gap(row);
    var w := g + PartSeparator;
    HeaderShape(row);
    JoinedShape(row);
    RestGaps(row);
    BlankLinesSpace(GapCount(row));
    assert forall i :: 0 <= i < |w| ==> IsSpace(w[i]);
    var tail := if InitcondKept(row) then InitText(row) + (PartSeparator + Close) else Close;
    assert Rest(row) == w + tail;
    if InitcondKept(row) {
      InitShape(row);
    }
    assert tail[0] == 'I' || tail[0] == ')';
    assert (j + (w + tail))[0] == 'S';
    SpaceStep(None, h, PartSeparator, j + (w + tail));
    SpaceStep(Some(' '), j, w, tail);
    if InitcondKept(row) {
      SpaceStep(Some(' '), InitText(row), PartSeparator, Close);
    }
    CloseQuiet(Some(' '));
  }

  /** The squeezed text starts with `C` and ends with `;`, so `strip` keeps it. */
  lemma SqueezedStrip(row: AggregateRow)
    requires CleanRow(row)
    ensures Strip(Squeezed(row)) == Squeezed(row)
  {
    HeaderShape(row);
    var sq := Squeezed(row);
    var t := SqueezedTail(row);
    assert t[|t| - 1] == ';';
    assert sq[0] == 'C' && sq[|sq| - 1] == ';';
    StripTrimmed(sq);
  }

  lemma AssocInitcond(h: string, sp: string, sf: string, cm: string, st: string, i: string, c: string)
    ensures h + (sp + ((sf + cm + st) + (sp + (i + (sp + c))))) == h + sp + sf + cm + st + (sp + i) + sp + c
  {
  }

  lemma AssocNoInitcond(h: string, sp: string, sf: string, cm: string, st: string, c: string)
    ensures h + (sp + ((sf + cm + st) + (sp + c))) == h + sp + sf + cm + st + [] + sp + c
  {
  }

  lemma SqueezedIsClean(row: AggregateRow)
    ensures Squeezed(row) == CleanDefinition(row)
  {
    if InitcondKept(row) {
      AssocInitcond(Header(row), " ", SfuncText(row), ", ", StypeText(row), InitText(row), Close);
    } else {
      AssocNoInitcond(Header(row), " ", SfuncText(row), ", ", StypeText(row), Close);
    }
  }

  lemma CleanIsCommaFree(row: AggregateRow)
    requires CleanRow(row)
    ensures CommaFreeRow(row)
  {
    forall j | 0 <= j < 6 && Included(row, j) ensures ',' !in Value(row, j) {
    }
    assert Included(row, 1) ==> ',' !in Interp(row.finalfuncModify);
    assert Included(row, 2) ==> ',' !in Interp(row.mfinalfuncModify);
    assert Included(row, 0) ==> ',' !in Interp(row.finalFunction);
    assert Included(row, 3) ==> ',' !in Interp(row.combineFunction);
    assert Included(row, 4) ==> ',' !in Interp(row.serializeFunction);
    assert Included(row, 5) ==> ',' !in Interp(row.deserializeFunction);
  }

  /** The sanitiser, given what each of its steps yields. */
  lemma SanitizeChain(sql: string, b: string, c: string, e: string)
    requires Rewrite(CommaPasses, sql) == sql
    requires GSub(BoundaryClause, None, sql) == b && GSub(SfuncStype, None, b) == c
    requires GSub(CommaParen, None, c) == c && GSub(DoubleSemicolonEol, None, c) == c
    requires GSub(SpaceRun, None, c) == e && Strip(e) == e
    ensures DetailsSanitize(sql) == e
  {
    DetailsSanitizeSteps(sql);
  }

  /** The rewrites take the assembled text to the squeezed one. */
  lemma CleanPipeline(row: AggregateRow)
    requires CleanRow(row)
    ensures DetailsSanitize(Join(AggregateParts(row), PartSeparator)) == Squeezed(row)
  {
    var sql := Join(AggregateParts(row), PartSeparator);
    CleanIsCommaFree(row);
    AssembledText(row);
    JoinedCommaFree(row);
    RewriteCommaFree(CommaPasses, sql);
    PassDangling(row);
    PassJoin(row);
    PassCommaParen(row);
    PassSemicolon(row);
    PassSqueeze(row);
    SqueezedStrip(row);
    SanitizeChain(sql, AfterDangling(row), AfterJoin(row), Squeezed(row));
  }

  /** For a row of plain names, the details extractor writes the one-line
      statement: the rewrites remove every function clause, join SFUNC and
      STYPE with a comma, keep INITCOND unless an empty function clause
      swallows it (`InitcondKept`), and squeeze each line break to a single
      space.  No comma is put in front of INITCOND. */
  lemma CleanRowSanitized(row: AggregateRow)
    requires CleanRow(row)
    ensures DetailsSanitize(Definition(row)) == CleanDefinition(row)
  {
    CleanIsCommaFree(row);
    DefinitionIsJoinedParts(row);
    CleanPipeline(row);
    SqueezedIsClean(row);
  }
  // ---------------------------------------------------------------------
  // When INITCOND survives
  // ---------------------------------------------------------------------

  /** A clause without a value that swallows the line after it. */
  predicate EmptyDrop(l: Line) {
    l.Drop? && l.value == []
  }

  /** Whether the last removable clause is left pending depends on the first
      part only through whether it leaves one pending. */
  lemma {:induction false} PendAppend(a: seq<Line>, b: seq<Line>)
    ensures Pending(a + b) == if Pending(a) then b == [] || Pending(b[1..]) else Pending(b)
    decreases |a|
  {
    if a != [] {
      var s := a + b;
      assert s[0] == a[0];
      if EmptyDrop(a[0]) && |a| == 1 {
        if b != [] {
          assert s[2..] == b[1..];
        }
      } else if EmptyDrop(a[0]) {
        assert s[2..] == a[2..] + b;
        PendAppend(a[2..], b);
      } else {
        assert s[1..] == a[1..] + b;
        PendAppend(a[1..], b);
      }
    } else {
      assert a + b == b;
    }
  }

  /** Clauses that all have values leave nothing pending. */
  lemma {:induction false} ValuedNotPending(ds: seq<Line>)
    requires forall i :: 0 <= i < |ds| ==> !EmptyDrop(ds[i])
    ensures !Pending(ds)
    decreases |ds|
  {
    if ds != [] {
      assert !EmptyDrop(ds[0]);
      ValuedNotPending(ds[1..]);
    }
  }

  lemma {:induction false} OptLinesValued(row: AggregateRow, n: nat)
    requires n <= 6
    requires forall j :: 0 <= j < n && Included(row, j) ==> Value(row, j) != []
    ensures forall i :: 0 <= i < |OptLines(row, n)| ==> !EmptyDrop(OptLines(row, n)[i])
    decreases n
  {
    if n > 0 {
      OptLinesValued(row, n - 1);
      assert Included(row, n - 1) ==> OptLine(row, n - 1).value == Value(row, n - 1);
    }
  }

  /** When every included function clause has a value, INITCOND survives
      exactly when the row has an initial value. */
  lemma NamedFunctionsKeepInitcond(row: AggregateRow)
    requires forall j :: 0 <= j < 6 && Included(row, j) ==> Value(row, j) != []
    ensures InitcondKept(row) <==> row.initialValue.Some?
  {
    OptLinesValued(row, 6);
    ValuedNotPending(OptLines(row, 6));
  }

  /** Three unset functions add three clause lines, each without a value. */
  lemma UnsetTail(row: AggregateRow)
    requires row.combineFunction.None? && row.serializeFunction.None? && row.deserializeFunction.None?
    ensures OptLines(row, 6) == OptLines(row, 3) + [OptLine(row, 3), OptLine(row, 4), OptLine(row, 5)]
    ensures EmptyDrop(OptLine(row, 3)) && EmptyDrop(OptLine(row, 4)) && EmptyDrop(OptLine(row, 5))
  {
    assert Included(row, 3) && Included(row, 4) && Included(row, 5);
    assert OptLines(row, 4) == OptLines(row, 3) + [OptLine(row, 3)];
    assert OptLines(row, 5) == OptLines(row, 4) + [OptLine(row, 4)];
    assert OptLines(row, 6) == OptLines(row, 5) + [OptLine(row, 5)];
  }

  /** The common shape of a catalog row: the moving-final modifier is set,
      and no combine, serial or deserial function exists, so the subqueries
      give NULL for them. Their three empty clauses end the clause list, and
      the last of them swallows the INITCOND line: the initial value is lost,
      whatever it is. */
  lemma UnsetFunctionsSwallowInitcond(row: AggregateRow)
    requires CleanRow(row)
    requires row.mfinalfuncModify.Some? && row.mfinalfuncModify.value != []
    requires row.combineFunction.None? && row.serializeFunction.None? && row.deserializeFunction.None?
    ensures !InitcondKept(row)
    ensures DetailsSanitize(Definition(row))
         == Header(row) + " " + ClauseText("SFUNC", row.transitionFunction) + ", "
            + ClauseText("STYPE", row.stateType) + " " + Close
  {
    UnsetPending(row);
    CleanRowSanitized(row);
    SwallowedDefinition(row);
  }

  /** Without INITCOND the clean definition is the header, the joined
      SFUNC and STYPE, and the close. */
  lemma SwallowedDefinition(row: AggregateRow)
    requires !InitcondKept(row)
    ensures CleanDefinition(row)
         == Header(row) + " " + ClauseText("SFUNC", row.transitionFunction) + ", "
            + ClauseText("STYPE", row.stateType) + " " + Close
  {
    var j := Header(row) + " " + ClauseText("SFUNC", row.transitionFunction) + ", " + ClauseText("STYPE", row.stateType);
    assert j + "" == j;
  }

  lemma UnsetPending(row: AggregateRow)
    requires row.mfinalfuncModify.Some? && row.mfinalfuncModify.value != []
    requires row.combineFunction.None? && row.serializeFunction.None? && row.deserializeFunction.None?
    ensures Pending(OptLines(row, 6))
  {
    var a := OptLines(row, 3);
    var m := OptLine(row, 2);
    assert a == OptLines(row, 2) + [m];
    assert !EmptyDrop(m);
    PendAppend(OptLines(row, 2), [m]);
    var e := [OptLine(row, 3), OptLine(row, 4), OptLine(row, 5)];
    UnsetTail(row);
    PendAppend(a, e);
    assert e[1..][1..] == [OptLine(row, 5)];
  }
}

/** The SQL texts `PostgresDetailsExtractor` builds from catalog records:
    the function statement, and the `DO $$ … IF NOT EXISTS` guards for
    types and full-text-search configurations.  Heredocs are written out
    with their common indentation already removed, as `<<~` does. */
module Statements {
  import opened Text
  import opened Gsub
  import opened SchemaInfo

  // ---------------------------------------------------------------------
  // The function body
  // ---------------------------------------------------------------------

  /** `sub(/;+\z/, '')`: the first match of `;+\z` is the whole trailing run
      of semicolons, so the result is the text before that run. */
  function DropTrailingSemicolons(s: string): (r: string)
    ensures |r| <= |s| && r == s[..|r|]
    ensures forall i :: |r| <= i < |s| ==> s[i] == ';'
    ensures r == [] || r[|r| - 1] != ';'
    decreases |s|
  {
    if s != [] && s[|s| - 1] == ';' then DropTrailingSemicolons(s[..|s| - 1]) else s
  }

  /** `row.body.strip.sub(/;+\z/, '')`. */
  function TrimBody(body: string): (r: string)
    ensures r == [] || !IsStripSpace(r[0])
    ensures r == [] || r[|r| - 1] != ';'
    ensures var t := Strip(body); |r| <= |t| && r == t[..|r|] && forall i :: |r| <= i < |t| ==> t[i] == ';'
  {
    DropTrailingSemicolons(Strip(body))
  }

  /** Only the semicolons go: whitespace in front of them stays. */
  lemma TrimBodyKeepsSpaceBeforeSemicolons(s: string)
    requires s != [] && !IsStripSpace(s[0]) && s[|s| - 1] != ';'
    ensures TrimBody(s + " ;;") == s + " "
  {
    var t := s + " ;;";
    assert t[|t| - 1] == ';';
    StripTrimmed(t);
    assert t[..|t| - 1][..|t| - 2] == s + " ";
    assert DropTrailingSemicolons(t[..|t| - 2]) == s + " ";
  }

  // ---------------------------------------------------------------------
  // function_body.match?(/^\s*BEGIN/i)
  // ---------------------------------------------------------------------

  /** `^` in Ruby: the start of the text or just after a line feed. */
  predicate LineStartAt(s: string, p: nat)
    requires p <= |s|
  {
    p == 0 || s[p - 1] == '\n'
  }

  /** `BEGIN` in any case of its ASCII letters at position `q`. */
  predicate BeginAt(s: string, q: nat) {
    q + 5 <= |s|
    && Lower(s[q]) == 'b' && Lower(s[q + 1]) == 'e' && Lower(s[q + 2]) == 'g'
    && Lower(s[q + 3]) == 'i' && Lower(s[q + 4]) == 'n'
  }

  /** The regular-expression search: at some line start, the greedy `\s*`
      ends where `begin` (any case) starts. `\s` includes the line feed,
      and no word boundary is required after the keyword. */
  predicate StartsWithBegin(s: string) {
    exists p: nat | p <= |s| :: LineStartAt(s, p) && BeginAt(s, RunEnd(s, p, Space))
  }

  /** The line reading: some line, after whitespace of its own, begins with `begin`. */
  ghost predicate SomeLineBeginsWithBegin(s: string) {
    exists p: nat, q: nat | p <= q <= |s| ::
      LineStartAt(s, p) && (forall m :: p <= m < q ==> IsSpace(s[m]) && s[m] != '\n') && BeginAt(s, q)
  }

  /** The last line start at or before `q`. */
  function LastLineStart(s: string, q: nat): (r: nat)
    requires q <= |s|
    ensures r <= q && LineStartAt(s, r)
    ensures forall m :: r <= m < q ==> s[m] != '\n'
    ensures forall p: nat :: p <= q && LineStartAt(s, p) ==> p <= r
    decreases q
  {
    if q == 0 || s[q - 1] == '\n' then q else LastLineStart(s, q - 1)
  }

  lemma {:induction false} RunEndAt(s: string, p: nat, q: nat, k: CharClass)
    requires p <= q <= |s|
    requires forall m :: p <= m < q ==> InClass(k, s[m])
    requires q == |s| || !InClass(k, s[q])
    ensures RunEnd(s, p, k) == q
    decreases q - p
  {
    if p < q {
      RunEndAt(s, p + 1, q, k);
    }
  }

  /** The regex test and the line reading agree on every text. */
  lemma StartsWithBeginIff(s: string)
    ensures StartsWithBegin(s) <==> SomeLineBeginsWithBegin(s)
  {
    if StartsWithBegin(s) {
      BeginMatchIsLine(s);
    }
    if SomeLineBeginsWithBegin(s) {
      BeginLineIsMatch(s);
    }
  }

  lemma BeginMatchIsLine(s: string)
    requires StartsWithBegin(s)
    ensures SomeLineBeginsWithBegin(s)
  {
    var p: nat :| p <= |s| && LineStartAt(s, p) && BeginAt(s, RunEnd(s, p, Space));
    var q := RunEnd(s, p, Space);
    var p' := LastLineStart(s, q);
    assert p <= p';
    assert forall m :: p' <= m < q ==> IsSpace(s[m]) && s[m] != '\n';
  }

  lemma BeginLineIsMatch(s: string)
    requires SomeLineBeginsWithBegin(s)
    ensures StartsWithBegin(s)
  {
    var p: nat, q: nat :| p <= q <= |s| && LineStartAt(s, p)
      && (forall m :: p <= m < q ==> IsSpace(s[m]) && s[m] != '\n') && BeginAt(s, q);
    assert !IsSpace(s[q]);
    RunEndAt(s, p, q, Space);
  }

  /** A body that opens with `BEGIN` followed by anything (`BEGINNING`
      included) takes the first branch. */
  lemma BeginPrefixCounts(t: string)
    ensures StartsWithBegin("BEGIN" + t)
  {
    var s := "BEGIN" + t;
    assert RunEnd(s, 0, Space) == 0;
    assert LineStartAt(s, 0) && BeginAt(s, 0);
  }

  // ---------------------------------------------------------------------
  // extract_function_components
  // ---------------------------------------------------------------------

  /** The first line of both templates. */
  function CreateLine(f: FunctionRecord): string {
    "CREATE OR REPLACE FUNCTION " + f.name + "(" + f.arguments + ")\n"
  }

  /** The closing line of both templates. */
  function LanguageLine(language: string, volatility: string): string {
    "  $$ LANGUAGE " + language + " " + volatility + ";\n"
  }

  /** The statement text and the function name. A body that starts with
      `BEGIN` is kept as it is under the row's language; any other body is
      wrapped in `BEGIN … END;` and declared `plpgsql`. */
  function FunctionComponents(f: FunctionRecord): (string, string) {
    var functionBody := TrimBody(f.body);
    var wrap := !StartsWithBegin(functionBody);
    var head := CreateLine(f) + (if wrap then "    " else "  ");
    var returnsLine := "RETURNS " + f.returnType + " AS $$\n";
    var open := if wrap then "      BEGIN\n        " else "    ";
    var close := if wrap then "      END;\n" else "";
    var language := LanguageLine(if wrap then "plpgsql" else f.languageName, f.volatility);
    (head + returnsLine + open + (functionBody + ";\n") + close + language, f.name)
  }

  /** Both branches open with the `CREATE OR REPLACE FUNCTION` line and the
      `RETURNS` line and carry the trimmed body followed by exactly one `;`;
      the `BEGIN` branch ends with the row's language, the other wraps the
      body in `BEGIN … END;` and ends with `plpgsql`. */
  lemma FunctionComponentsShape(f: FunctionRecord)
    ensures var r := FunctionComponents(f);
      && r.1 == f.name
      && CreateLine(f) <= r.0
      && Contains(r.0, "RETURNS " + f.returnType + " AS $$\n")
      && var b := TrimBody(f.body);
      && Contains(r.0, b + ";\n") && (b == [] || b[|b| - 1] != ';')
      && (StartsWithBegin(b) ==> EndsWith(r.0, LanguageLine(f.languageName, f.volatility)))
      && (!StartsWithBegin(b) ==>
            Contains(r.0, "      BEGIN\n        " + (b + ";\n") + "      END;\n")
            && EndsWith(r.0, LanguageLine("plpgsql", f.volatility)))
  {
    var functionBody := TrimBody(f.body);
    var wrap := !StartsWithBegin(functionBody);
    var head := CreateLine(f) + (if wrap then "    " else "  ");
    var returnsLine := "RETURNS " + f.returnType + " AS $$\n";
    var open := if wrap then "      BEGIN\n        " else "    ";
    var close := if wrap then "      END;\n" else "";
    var language := LanguageLine(if wrap then "plpgsql" else f.languageName, f.volatility);
    Pieces6(head, returnsLine, open, functionBody + ";\n", close, language);
    assert CreateLine(f) <= head;
  }

  // ---------------------------------------------------------------------
  // extract_types_components
  // ---------------------------------------------------------------------

  /** A row of `fetch_enum_types`: the type name and its quoted labels. */
  datatype EnumType = EnumType(name: string, enumValues: string)

  /** The guard for one type. Enum rows carry no `attributes`, so the
      interpolation reads `nil` and the parentheses stay empty. */
  function TypeStatement(name: string, attributes: Option<string>): string {
    "DO $$\nBEGIN\n  IF NOT EXISTS (SELECT 1 FROM pg_type WHERE "
      + ("typname = '" + name + "'")
      + ") THEN\n    "
      + ("CREATE TYPE " + name + " AS (" + Interp(attributes) + ");")
      + "\n  END IF;\nEND\n$$;\n"
  }

  /** The type guard tests `typname` and creates the type with its
      attributes, inside `IF NOT EXISTS … END IF;`. */
  lemma TypeStatementShape(name: string, attributes: Option<string>)
    ensures var r := TypeStatement(name, attributes);
      && EndsWith(r, "\n  END IF;\nEND\n$$;\n")
      && Contains(r, "typname = '" + name + "'")
      && Contains(r, "CREATE TYPE " + name + " AS (" + Interp(attributes) + ");")
  {
    Pieces5("DO $$\nBEGIN\n  IF NOT EXISTS (SELECT 1 FROM pg_type WHERE ", "typname = '" + name + "'",
      ") THEN\n    ", "CREATE TYPE " + name + " AS (" + Interp(attributes) + ");", "\n  END IF;\nEND\n$$;\n");
  }

  /** `extract_types_components` on an enum row. */
  function EnumTypeStatement(e: EnumType): string {
    TypeStatement(e.name, None)
  }

  /** An enum's statement declares an empty composite and ignores the labels. */
  lemma EnumStatementShape(e: EnumType, values: string)
    ensures Contains(EnumTypeStatement(e), "CREATE TYPE " + e.name + " AS ();")
    ensures EnumTypeStatement(e) == EnumTypeStatement(EnumType(e.name, values))
  {
    TypeStatementShape(e.name, None);
    assert "CREATE TYPE " + e.name + " AS (" + Interp(None) + ");" == "CREATE TYPE " + e.name + " AS ();";
  }

  // ---------------------------------------------------------------------
  // create_fts_configurations: the statement text
  // ---------------------------------------------------------------------

  /** A row of `fts_configurations`. */
  datatype FtsConfiguration = FtsConfiguration(schema: string, name: string)

  /** The one-line guard for a full-text-search configuration. */
  function FtsStatement(name: string): string {
    "DO $$ BEGIN IF NOT EXISTS (SELECT 1 FROM pg_ts_config WHERE "
      + ("cfgname = '" + name + "'")
      + ") THEN "
      + ("CREATE TEXT SEARCH CONFIGURATION " + name + " (COPY = simple);")
      + " END IF; END $$;"
  }

  /** The configuration guard tests `cfgname` and copies the `simple`
      configuration, inside `IF NOT EXISTS … END IF;`. */
  lemma FtsStatementShape(name: string)
    ensures var r := FtsStatement(name);
      && EndsWith(r, " END IF; END $$;")
      && Contains(r, "cfgname = '" + name + "'")
      && Contains(r, "CREATE TEXT SEARCH CONFIGURATION " + name + " (COPY = simple);")
  {
    Pieces5("DO $$ BEGIN IF NOT EXISTS (SELECT 1 FROM pg_ts_config WHERE ", "cfgname = '" + name + "'",
      ") THEN ", "CREATE TEXT SEARCH CONFIGURATION " + name + " (COPY = simple);", " END IF; END $$;");
  }
}

/** `PostgresSchemaInfoExtractor`: the records built from catalog rows.
    The catalog queries themselves are database behaviour; a row arrives
    here as a datatype whose SQL NULLs are `None`. */
module SchemaInfo {
  import opened Text
  import opened Gsub

  // ---------------------------------------------------------------------
  // pg_functions
  // ---------------------------------------------------------------------

  /** The catalog values one `pg_functions` row is computed from. */
  datatype ProcRow = ProcRow(
    proname: string,
    arguments: string,
    returnType: string,
    prosrc: Option<string>,
    provolatile: Option<char>,
    languageName: string)

  /** The record handed to the details extractor. */
  datatype FunctionRecord = FunctionRecord(
    name: string,
    arguments: string,
    returnType: string,
    body: string,
    volatility: string,
    languageName: string)

  const InvalidBody: string := "Invalid Function Body"
  const Volatilities: set<string> := {"IMMUTABLE", "STABLE", "VOLATILE", "UNKNOWN"}

  /** The `CASE provolatile` of the query. */
  function VolatilityName(v: Option<char>): (r: string)
    ensures r in Volatilities
    ensures r == "IMMUTABLE" <==> v == Some('i')
    ensures r == "STABLE" <==> v == Some('s')
    ensures r == "VOLATILE" <==> v == Some('v')
    ensures r == "UNKNOWN" <==> !(v == Some('i') || v == Some('s') || v == Some('v'))
  {
    match v
    case Some('i') => "IMMUTABLE"
    case Some('s') => "STABLE"
    case Some('v') => "VOLATILE"
    case _ => "UNKNOWN"
  }

  /** One row of `pg_functions`: the two CASE columns and the copied ones. */
  function FunctionRecordOf(row: ProcRow): (r: FunctionRecord)
    ensures r.name == row.proname && r.arguments == row.arguments
    ensures r.returnType == row.returnType && r.languageName == row.languageName
    ensures row.prosrc.Some? ==> r.body == row.prosrc.value
    ensures row.prosrc.None? ==> r.body == InvalidBody
    ensures r.volatility in Volatilities
    ensures row.provolatile == Some('i') ==> r.volatility == "IMMUTABLE"
    ensures row.provolatile == Some('s') ==> r.volatility == "STABLE"
    ensures row.provolatile == Some('v') ==> r.volatility == "VOLATILE"
    ensures r.volatility == "UNKNOWN" <==> !(row.provolatile == Some('i') || row.provolatile == Some('s') || row.provolatile == Some('v'))
  {
    FunctionRecord(
      row.proname,
      row.arguments,
      row.returnType,
      if row.prosrc.Some? then row.prosrc.value else InvalidBody,
      VolatilityName(row.provolatile),
      row.languageName)
  }

  /** `pg_functions`: the rows mapped one to one, in query order. */
  function PgFunctions(rows: seq<ProcRow>): (r: seq<FunctionRecord>)
    ensures |r| == |rows|
    ensures forall i :: 0 <= i < |rows| ==> r[i].name == rows[i].proname && r[i].volatility in Volatilities
    decreases |rows|
  {
    if rows == [] then [] else [FunctionRecordOf(rows[0])] + PgFunctions(rows[1..])
  }

  /** Every record of `pg_functions` has a body: NULL sources never reach the builder. */
  lemma {:induction false} PgFunctionsBodies(rows: seq<ProcRow>)
    ensures forall i :: 0 <= i < |rows| ==>
      PgFunctions(rows)[i] == FunctionRecordOf(rows[i])
    decreases |rows|
  {
    if rows != [] {
      PgFunctionsBodies(rows[1..]);
      forall i | 0 < i < |rows| ensures PgFunctions(rows)[i] == FunctionRecordOf(rows[i]) {
        assert rows[1..][i - 1] == rows[i];
      }
    }
  }

  // ---------------------------------------------------------------------
  // aggregates
  // ---------------------------------------------------------------------

  /** One row of the aggregate query; NULL columns are `None`. */
  datatype AggregateRow = AggregateRow(
    name: string,
    argumentTypes: string,
    stateType: string,
    transitionFunction: string,
    finalFunction: Option<string>,
    combineFunction: Option<string>,
    serializeFunction: Option<string>,
    deserializeFunction: Option<string>,
    initialValue: Option<string>,
    finalfuncModify: Option<string>,
    mfinalfuncModify: Option<string>)

  /** Ruby string interpolation: `nil` becomes the empty string. */
  function Interp(v: Option<string>): string {
    if v.Some? then v.value else ""
  }

  /** The marker that excludes a function clause. */
  const AbsentMarker: string := "-"

  /** The number of optional clauses. */
  const OptionalCount: nat := 7

  /** The key of optional clause `j`, in the order the clauses are appended. */
  function Key(j: nat): (k: string)
    requires j < OptionalCount
    ensures ' ' !in k && |k| >= 8 && k[1] != 'R'
  {
    if j == 0 then "FINALFUNC"
    else if j == 1 then "FINALFUNC_MODIFY"
    else if j == 2 then "MFINALFUNC_MODIFY"
    else if j == 3 then "COMBINEFUNC"
    else if j == 4 then "SERIALFUNC"
    else if j == 5 then "DESERIALFUNC"
    else "INITCOND"
  }

  /** The condition under which optional clause `j` is appended: the four
      function clauses unless their field is `"-"`, the other three when
      their field is truthy (not nil). */
  predicate Included(row: AggregateRow, j: nat)
    requires j < OptionalCount
  {
    if j == 0 then row.finalFunction != Some(AbsentMarker)
    else if j == 1 then row.finalfuncModify.Some?
    else if j == 2 then row.mfinalfuncModify.Some?
    else if j == 3 then row.combineFunction != Some(AbsentMarker)
    else if j == 4 then row.serializeFunction != Some(AbsentMarker)
    else if j == 5 then row.deserializeFunction != Some(AbsentMarker)
    else row.initialValue.Some?
  }

  /** The value text of optional clause `j`; INITCOND is single-quoted. */
  function Value(row: AggregateRow, j: nat): string
    requires j < OptionalCount
  {
    if j == 0 then Interp(row.finalFunction)
    else if j == 1 then Interp(row.finalfuncModify)
    else if j == 2 then Interp(row.mfinalfuncModify)
    else if j == 3 then Interp(row.combineFunction)
    else if j == 4 then Interp(row.serializeFunction)
    else if j == 5 then Interp(row.deserializeFunction)
    else "'" + Interp(row.initialValue) + "'"
  }

  /** The text of a clause. */
  function ClauseText(key: string, value: string): string {
    key + " = " + value
  }

  /** The text of optional clause `j`, as the assembler writes it. */
  function PartText(row: AggregateRow, j: nat): string
    requires j < OptionalCount
  {
    if j == 0 then "FINALFUNC = " + Interp(row.finalFunction)
    else if j == 1 then "FINALFUNC_MODIFY = " + Interp(row.finalfuncModify)
    else if j == 2 then "MFINALFUNC_MODIFY = " + Interp(row.mfinalfuncModify)
    else if j == 3 then "COMBINEFUNC = " + Interp(row.combineFunction)
    else if j == 4 then "SERIALFUNC = " + Interp(row.serializeFunction)
    else if j == 5 then "DESERIALFUNC = " + Interp(row.deserializeFunction)
    else "INITCOND = '" + Interp(row.initialValue) + "'"
  }

  /** Every optional clause reads `KEY = value`. */
  lemma TextIsClause(row: AggregateRow, j: nat)
    requires j < OptionalCount
    ensures PartText(row, j) == ClauseText(Key(j), Value(row, j))
  {
    if j < 3 {
      FirstClausesRead(row, j);
    } else {
      LastClausesRead(row, j);
    }
  }

  lemma FirstClausesRead(row: AggregateRow, j: nat)
    requires j < 3
    ensures PartText(row, j) == ClauseText(Key(j), Value(row, j))
  {
    if j == 0 {
      assert ClauseText(Key(j), Value(row, j)) == "FINALFUNC = " + Interp(row.finalFunction);
    } else if j == 1 {
      assert ClauseText(Key(j), Value(row, j)) == "FINALFUNC_MODIFY = " + Interp(row.finalfuncModify);
    } else {
      assert ClauseText(Key(j), Value(row, j)) == "MFINALFUNC_MODIFY = " + Interp(row.mfinalfuncModify);
    }
  }

  lemma LastClausesRead(row: AggregateRow, j: nat)
    requires 3 <= j < OptionalCount
    ensures PartText(row, j) == ClauseText(Key(j), Value(row, j))
  {
    if j == 3 {
      assert ClauseText(Key(j), Value(row, j)) == "COMBINEFUNC = " + Interp(row.combineFunction);
    } else if j == 4 {
      assert ClauseText(Key(j), Value(row, j)) == "SERIALFUNC = " + Interp(row.serializeFunction);
    } else if j == 5 {
      assert ClauseText(Key(j), Value(row, j)) == "DESERIALFUNC = " + Interp(row.deserializeFunction);
    } else {
      assert ClauseText(Key(j), Value(row, j)) == "INITCOND = '" + Interp(row.initialValue) + "'";
    }
  }

  /** What optional clause `j` contributes: its text, or nothing. */
  function Emit(row: AggregateRow, j: nat): seq<string>
    requires j < OptionalCount
  {
    if Included(row, j) then [PartText(row, j)] else []
  }

  /** How many of the first `n` optional clauses are included. */
  function IncludedBefore(row: AggregateRow, n: nat): (c: nat)
    requires n <= OptionalCount
    ensures c <= n
  {
    if n == 0 then 0 else IncludedBefore(row, n - 1) + (if Included(row, n - 1) then 1 else 0)
  }

  function Header(row: AggregateRow): string {
    "CREATE OR REPLACE AGGREGATE public." + row.name + " (" + row.argumentTypes + ") ("
  }

  /** The closing part. */
  const Close: string := ");"

  /** The three parts every aggregate starts with. */
  function FixedParts(row: AggregateRow): seq<string> {
    [Header(row), "SFUNC = " + row.transitionFunction, "STYPE = " + row.stateType]
  }

  /** The parts after the first `n` optional clauses have been considered. */
  function Assembled(row: AggregateRow, n: nat): seq<string>
    requires n <= OptionalCount
  {
    if n == 0 then FixedParts(row)
    else if Included(row, n - 1) then Assembled(row, n - 1) + [PartText(row, n - 1)]
    else Assembled(row, n - 1)
  }

  /** The list of parts the assembler builds for a row. */
  function AggregateParts(row: AggregateRow): seq<string> {
    Assembled(row, OptionalCount) + [Close]
  }

  /** The separator of `sql_parts.join`. */
  const PartSeparator: string := "\n  "

  /** Clause assembly: the successive conditional appends of the `aggregates` block. */
  method AssembleParts(row: AggregateRow) returns (sqlParts: seq<string>)
    ensures sqlParts == AggregateParts(row)
  {
    sqlParts := [];
    sqlParts := sqlParts + ["CREATE OR REPLACE AGGREGATE public." + row.name + " (" + row.argumentTypes + ") ("];
    sqlParts := sqlParts + ["SFUNC = " + row.transitionFunction];
    sqlParts := sqlParts + ["STYPE = " + row.stateType];
    assert sqlParts == Assembled(row, 0);
    if row.finalFunction != Some("-") {
      sqlParts := sqlParts + ["FINALFUNC = " + Interp(row.finalFunction)];
    }
    assert sqlParts == Assembled(row, 1);
    if row.finalfuncModify.Some? {
      sqlParts := sqlParts + ["FINALFUNC_MODIFY = " + Interp(row.finalfuncModify)];
    }
    assert sqlParts == Assembled(row, 2);
    if row.mfinalfuncModify.Some? {
      sqlParts := sqlParts + ["MFINALFUNC_MODIFY = " + Interp(row.mfinalfuncModify)];
    }
    assert sqlParts == Assembled(row, 3);
    if row.combineFunction != Some("-") {
      sqlParts := sqlParts + ["COMBINEFUNC = " + Interp(row.combineFunction)];
    }
    assert sqlParts == Assembled(row, 4);
    if row.serializeFunction != Some("-") {
      sqlParts := sqlParts + ["SERIALFUNC = " + Interp(row.serializeFunction)];
    }
    assert sqlParts == Assembled(row, 5);
    if row.deserializeFunction != Some("-") {
      sqlParts := sqlParts + ["DESERIALFUNC = " + Interp(row.deserializeFunction)];
    }
    assert sqlParts == Assembled(row, 6);
    if row.initialValue.Some? {
      sqlParts := sqlParts + ["INITCOND = '" + Interp(row.initialValue) + "'"];
    }
    assert sqlParts == Assembled(row, 7);
    sqlParts := sqlParts + [");"];
  }

  /** The assembled list grows only at its end, one included clause at a time. */
  lemma {:induction false} AssembledGrows(row: AggregateRow, n: nat, m: nat)
    requires n <= m <= OptionalCount
    ensures |Assembled(row, m)| == 3 + IncludedBefore(row, m)
    ensures |Assembled(row, n)| <= |Assembled(row, m)|
    ensures Assembled(row, m)[..|Assembled(row, n)|] == Assembled(row, n)
    decreases m
  {
    if m == 0 {
    } else if n == m {
      AssembledGrows(row, m - 1, m - 1);
    } else {
      AssembledGrows(row, n, m - 1);
    }
  }

  /** Each part past the fixed three is the text of an included clause. */
  lemma {:induction false} AssembledMember(row: AggregateRow, n: nat, i: nat)
    requires n <= OptionalCount && i < |Assembled(row, n)|
    ensures i < 3 ==> Assembled(row, n)[i] == FixedParts(row)[i]
    ensures i >= 3 ==> exists j :: 0 <= j < n && Included(row, j) && Assembled(row, n)[i] == PartText(row, j)
    decreases n
  {
    if n > 0 {
      var prev := Assembled(row, n - 1);
      if i < |prev| {
        AssembledMember(row, n - 1, i);
        assert Assembled(row, n)[i] == prev[i];
      } else {
        AssembledGrows(row, 0, n - 1);
        assert Included(row, n - 1) && Assembled(row, n)[i] == PartText(row, n - 1);
      }
    }
  }

  /** The keys are pairwise distinct. */
  lemma KeysDistinct(i: nat, j: nat)
    requires i < OptionalCount && j < OptionalCount && i != j
    ensures Key(i) != Key(j)
  {
    assert |Key(i)| != |Key(j)|;
  }

  /** `k1 = ` cannot begin a clause with another space-free key. */
  lemma {:induction false} OtherKeyNoPrefix(k1: string, k2: string, v: string)
    requires ' ' !in k1 && ' ' !in k2 && k1 != k2
    ensures !(k1 + " = " <= k2 + " = " + v)
  {
    var a, b := k1 + " = ", k2 + " = " + v;
    if |k1| < |k2| {
      assert a[|k1|] != b[|k1|];
    } else if |k1| > |k2| {
      assert a[|k2|] != b[|k2|];
    } else {
      var i :| 0 <= i < |k1| && k1[i] != k2[i];
      assert a[i] != b[i];
    }
  }

  /** Some part of `parts` is a `key = …` clause. */
  predicate HasClause(parts: seq<string>, key: string) {
    exists i | 0 <= i < |parts| :: key + " = " <= parts[i]
  }

  /** An optional key begins none of the three fixed parts. */
  lemma KeyNotFixed(row: AggregateRow, j: nat, i: nat)
    requires j < OptionalCount && i < 3
    ensures !(Key(j) + " = " <= FixedParts(row)[i])
  {
    var a := Key(j) + " = ";
    if i == 0 {
      assert a[1] != Header(row)[1];
    } else if i == 1 {
      assert "SFUNC = " + row.transitionFunction == "SFUNC" + " = " + row.transitionFunction;
      OtherKeyNoPrefix(Key(j), "SFUNC", row.transitionFunction);
    } else {
      assert "STYPE = " + row.stateType == "STYPE" + " = " + row.stateType;
      OtherKeyNoPrefix(Key(j), "STYPE", row.stateType);
    }
  }

  /** No part is a clause of an optional key whose condition fails. */
  lemma NoClauseAt(row: AggregateRow, j: nat, i: nat)
    requires j < OptionalCount && !Included(row, j)
    requires i < |AggregateParts(row)|
    ensures !(Key(j) + " = " <= AggregateParts(row)[i])
  {
    var parts := AggregateParts(row);
    var body := Assembled(row, OptionalCount);
    if i == |parts| - 1 {
      assert parts[i] == Close;
    } else {
      assert parts[i] == body[i];
      AssembledMember(row, OptionalCount, i);
      if i < 3 {
        KeyNotFixed(row, j, i);
      } else {
        var j' :| 0 <= j' < OptionalCount && Included(row, j') && body[i] == PartText(row, j');
        KeysDistinct(j, j');
        TextIsClause(row, j');
        OtherKeyNoPrefix(Key(j), Key(j'), Value(row, j'));
      }
    }
  }

  /** Optional clause `j` is among the parts exactly when its condition holds. */
  lemma ClauseIncludedIff(row: AggregateRow, j: nat)
    requires j < OptionalCount
    ensures HasClause(AggregateParts(row), Key(j)) <==> Included(row, j)
  {
    var parts := AggregateParts(row);
    var body := Assembled(row, OptionalCount);
    if Included(row, j) {
      TextIsClause(row, j);
      AssembledGrows(row, j + 1, OptionalCount);
      AssembledGrows(row, 0, j);
      var i := |Assembled(row, j)|;
      assert Assembled(row, j + 1)[i] == PartText(row, j);
      assert parts[i] == body[i] == PartText(row, j);
    } else {
      forall i | 0 <= i < |parts| ensures !(Key(j) + " = " <= parts[i]) {
        NoClauseAt(row, j, i);
      }
    }
  }

  /** The fixed frame of every assembled list: the header, SFUNC and STYPE
      come first and `);` last, around the included optional clauses. */
  lemma PartsFrame(row: AggregateRow)
    ensures var parts := AggregateParts(row);
      && |parts| == 4 + IncludedBefore(row, OptionalCount)
      && parts[0] == "CREATE OR REPLACE AGGREGATE public." + row.name + " (" + row.argumentTypes + ") ("
      && parts[1] == "SFUNC = " + row.transitionFunction
      && parts[2] == "STYPE = " + row.stateType
      && parts[|parts| - 1] == ");"
  {
    var parts := AggregateParts(row);
    var body := Assembled(row, OptionalCount);
    AssembledGrows(row, 0, OptionalCount);
    assert parts[0] == body[0] && parts[1] == body[1] && parts[2] == body[2];
  }

  /** Included clause `j` sits right after the three fixed parts and the
      included clauses that precede it, so clauses keep their append order. */
  lemma ClausePlace(row: AggregateRow, j: nat)
    requires j < OptionalCount && Included(row, j)
    ensures var parts := AggregateParts(row);
      3 + IncludedBefore(row, j) < |parts| - 1 && parts[3 + IncludedBefore(row, j)] == PartText(row, j)
  {
    var parts := AggregateParts(row);
    AssembledGrows(row, j + 1, OptionalCount);
    AssembledGrows(row, 0, j);
    var i := |Assembled(row, j)|;
    assert Assembled(row, j + 1)[i] == PartText(row, j);
    assert parts[i] == Assembled(row, OptionalCount)[i];
  }

  /** Inclusion of every optional clause, in the terms of the row: the
      function clauses unless the field is `"-"` (a NULL field is
      therefore included, with an empty value), the modifiers and
      INITCOND when the field is not NULL, INITCOND single-quoted. */
  lemma OptionalClauses(row: AggregateRow)
    ensures var parts := AggregateParts(row);
      && (HasClause(parts, "FINALFUNC") <==> row.finalFunction != Some("-"))
      && (HasClause(parts, "FINALFUNC_MODIFY") <==> row.finalfuncModify.Some?)
      && (HasClause(parts, "MFINALFUNC_MODIFY") <==> row.mfinalfuncModify.Some?)
      && (HasClause(parts, "COMBINEFUNC") <==> row.combineFunction != Some("-"))
      && (HasClause(parts, "SERIALFUNC") <==> row.serializeFunction != Some("-"))
      && (HasClause(parts, "DESERIALFUNC") <==> row.deserializeFunction != Some("-"))
      && (HasClause(parts, "INITCOND") <==> row.initialValue.Some?)
  {
    var parts := AggregateParts(row);
    ClauseIncludedIff(row, 0);
    ClauseIncludedIff(row, 1);
    ClauseIncludedIff(row, 2);
    ClauseIncludedIff(row, 3);
    ClauseIncludedIff(row, 4);
    ClauseIncludedIff(row, 5);
    ClauseIncludedIff(row, 6);
  }

  /** A NULL final function still yields a `FINALFUNC = ` part with nothing
      after the `=`; an initial value is written single-quoted. */
  lemma NullFinalAndInitcond(row: AggregateRow)
    ensures row.finalFunction.None? ==> "FINALFUNC = " in AggregateParts(row)
    ensures row.initialValue.Some? ==> "INITCOND = '" + row.initialValue.value + "'" in AggregateParts(row)
  {
    var parts := AggregateParts(row);
    if row.finalFunction.None? {
      ClausePlace(row, 0);
      assert parts[3 + IncludedBefore(row, 0)] == "FINALFUNC = ";
    }
    if row.initialValue.Some? {
      ClausePlace(row, 6);
      var i := 3 + IncludedBefore(row, 6);
      assert parts[i] == PartText(row, 6) == "INITCOND = '" + row.initialValue.value + "'";
    }
  }

  // ---------------------------------------------------------------------
  // sanitize_aggregate_definition
  // ---------------------------------------------------------------------

  /** The rewrites of the schema-info `sanitize_aggregate_definition`, in
      order: the six `, KEY =\s*\w*` removals, then `,\s*\)` to `)`. */
  const InfoPasses: seq<Pattern> := [
    InfoClause("FINALFUNC"), InfoClause("FINALFUNC_MODIFY"), InfoClause("MFINALFUNC_MODIFY"),
    InfoClause("COMBINEFUNC"), InfoClause("SERIALFUNC"), InfoClause("DESERIALFUNC"), CommaParen]

  /** `sanitize_aggregate_definition` of the schema-info extractor: the
      rewrites, then `strip`. */
  function InfoSanitize(sql: string): string {
    Strip(Rewrite(InfoPasses, sql))
  }

  /** Every removal needs a comma: on comma-free text the sanitiser is `strip`. */
  lemma InfoSanitizeCommaFree(sql: string)
    requires ',' !in sql
    ensures InfoSanitize(sql) == Strip(sql)
  {
    RewriteCommaFree(InfoPasses, sql);
  }

  /** The definition recorded for a row. */
  function Definition(row: AggregateRow): string {
    InfoSanitize(Join(AggregateParts(row), PartSeparator))
  }

  /** No field of the row holds a comma. */
  predicate CommaFreeRow(row: AggregateRow) {
    && ',' !in row.name && ',' !in row.argumentTypes && ',' !in row.stateType && ',' !in row.transitionFunction
    && ',' !in Interp(row.finalFunction) && ',' !in Interp(row.combineFunction)
    && ',' !in Interp(row.serializeFunction) && ',' !in Interp(row.deserializeFunction)
    && ',' !in Interp(row.initialValue) && ',' !in Interp(row.finalfuncModify) && ',' !in Interp(row.mfinalfuncModify)
  }

  lemma PartTextCommaFree(row: AggregateRow, j: nat)
    requires CommaFreeRow(row) && j < OptionalCount
    ensures ',' !in PartText(row, j)
  {
    if j == 0 {
      assert PartText(row, j) == "FINALFUNC = " + Interp(row.finalFunction);
    } else if j == 1 {
      assert PartText(row, j) == "FINALFUNC_MODIFY = " + Interp(row.finalfuncModify);
    } else if j == 2 {
      assert PartText(row, j) == "MFINALFUNC_MODIFY = " + Interp(row.mfinalfuncModify);
    } else if j == 3 {
      assert PartText(row, j) == "COMBINEFUNC = " + Interp(row.combineFunction);
    } else if j == 4 {
      assert PartText(row, j) == "SERIALFUNC = " + Interp(row.serializeFunction);
    } else if j == 5 {
      assert PartText(row, j) == "DESERIALFUNC = " + Interp(row.deserializeFunction);
    } else {
      assert PartText(row, j) == "INITCOND = '" + Interp(row.initialValue) + "'";
    }
  }

  lemma CommaFreeParts(row: AggregateRow, i: nat)
    requires CommaFreeRow(row) && i < |AggregateParts(row)|
    ensures ',' !in AggregateParts(row)[i]
  {
    var parts := AggregateParts(row);
    var body := Assembled(row, OptionalCount);
    if i < |body| {
      assert parts[i] == body[i];
      AssembledCommaFree(row, i);
    } else {
      assert parts[i] == ");";
    }
  }

  lemma AssembledCommaFree(row: AggregateRow, i: nat)
    requires CommaFreeRow(row) && i < |Assembled(row, OptionalCount)|
    ensures ',' !in Assembled(row, OptionalCount)[i]
  {
    var body := Assembled(row, OptionalCount);
    AssembledMember(row, OptionalCount, i);
    if i >= 3 {
      var j :| 0 <= j < OptionalCount && Included(row, j) && body[i] == PartText(row, j);
      PartTextCommaFree(row, j);
    } else {
      FixedCommaFree(row, i);
    }
  }

  lemma FixedCommaFree(row: AggregateRow, i: nat)
    requires CommaFreeRow(row) && i < 3
    ensures ',' !in FixedParts(row)[i]
  {
  }

  /** The joined text of a comma-free row holds no comma. */
  lemma JoinedCommaFree(row: AggregateRow)
    requires CommaFreeRow(row)
    ensures ',' !in Join(AggregateParts(row), PartSeparator)
  {
    var parts := AggregateParts(row);
    forall i | 0 <= i < |parts| ensures ',' !in parts[i] {
      CommaFreeParts(row, i);
    }
    JoinExcludes(parts, PartSeparator, ',');
  }

  /** The joined text starts with `C` and ends with `;`, so `strip` keeps it whole. */
  lemma JoinedTrimmed(row: AggregateRow)
    ensures var sql := Join(AggregateParts(row), PartSeparator); Strip(sql) == sql
  {
    var parts := AggregateParts(row);
    PartsFrame(row);
    assert parts[0][0] == 'C' && parts[|parts| - 1][1] == ';';
    JoinEnds(parts, PartSeparator);
    StripTrimmed(Join(parts, PartSeparator));
  }

  /** When no field holds a comma, the clause removals never fire: the
      recorded definition is the joined parts, which `strip` leaves alone. */
  lemma DefinitionIsJoinedParts(row: AggregateRow)
    requires CommaFreeRow(row)
    ensures Definition(row) == Join(AggregateParts(row), PartSeparator)
  {
    JoinedCommaFree(row);
    JoinedTrimmed(row);
    InfoSanitizeCommaFree(Join(AggregateParts(row), PartSeparator));
  }

  /** The record of one aggregate. */
  datatype AggregateRecord = AggregateRecord(name: string, definition: string)

  /** The block `aggregates` maps over the rows: assemble, join, sanitise. */
  method AggregateRecordOf(row: AggregateRow) returns (record: AggregateRecord)
    ensures record == AggregateRecord(row.name, Definition(row))
  {
    var sqlParts := AssembleParts(row);
    var createAggregateSql := Join(sqlParts, "\n  ");
    var sanitizedSql := InfoSanitize(createAggregateSql);
    record := AggregateRecord(row.name, sanitizedSql);
  }

  /** `aggregates`: the rows mapped one to one, in query order. */
  function Aggregates(rows: seq<AggregateRow>): (r: seq<AggregateRecord>)
    ensures |r| == |rows|
    ensures forall i :: 0 <= i < |rows| ==> r[i].name == rows[i].name
  {
    seq(|rows|, i requires 0 <= i < |rows| => AggregateRecord(rows[i].name, Definition(rows[i])))
  }

  /** For rows without commas, every recorded definition is the joined clause list. */
  lemma AggregatesOfCommaFreeRows(rows: seq<AggregateRow>)
    requires forall i :: 0 <= i < |rows| ==> CommaFreeRow(rows[i])
    ensures forall i :: 0 <= i < |rows| ==>
      Aggregates(rows)[i].definition == Join(AggregateParts(rows[i]), PartSeparator)
  {
    forall i | 0 <= i < |rows|
      ensures Aggregates(rows)[i].definition == Join(AggregateParts(rows[i]), PartSeparator)
    {
      DefinitionIsJoinedParts(rows[i]);
    }
  }
}

# fix-db-schema-conflicts: the artifact pipeline in Dafny

This project models the part of `fix-db-schema-conflicts` that turns
Postgres catalog rows into idempotent SQL artifacts, and proves what that
pipeline promises. It covers three pieces of the gem:

- `PostgresSchemaInfoExtractor`. It maps `pg_functions` rows to function
  records, with the volatility CASE and the NULL-body sentinel. It
  assembles the `CREATE OR REPLACE AGGREGATE` clause list from an aggregate
  row, applying the `"-"` absent-marker and truthiness rules. It also has its
  own `sanitize_aggregate_definition`.
- `PostgresDetailsExtractor`.
  - It builds the function statement: it trims the body, runs the `BEGIN`
    test and picks a branch.
  - It builds the `DO $$ … IF NOT EXISTS` guards for types and full-text
    search configurations.
  - It runs its own aggregate sanitiser.
  - It applies the shared formatting passes: collapse newlines, unindent,
    `strip`, then a line break in front of each keyword.
  - It writes the artifacts to `db/others/*.sql` and `db/functions/*.sql`.
  - It puts the loader lines on the schema dump stream.
- `TriggersOperations`. It writes the `execute <<-SQL` block of each
  table's triggers and appends them to `db/triggers/<table>.sql`. It also
  wipes `app/triggers` once per instance.

Modules and files:

| file | module | what it holds |
|---|---|---|
| `text.dfy` | `Text` | Ruby's `\s`, `\w` and `strip`, joins, and the "visible characters" used to state that a pass only touches whitespace |
| `gsub.dfy` | `Gsub` | `String#gsub` for the exact patterns the gem uses: one character-level matcher per pattern, and a left-to-right scan that resumes after each match |
| `formatting.dfy` | `Formatting` | the normaliser and the keyword line-break pass |
| `statements.dfy` | `Statements` | the function, type and FTS statement builders, and the `BEGIN` test |
| `schema_info.dfy` | `SchemaInfo` | function records, aggregate clause assembly, and the schema-info sanitiser |
| `aggregate_details.dfy` | `AggregateDetails` | the details-extractor sanitiser, and how each of its rewrites acts on assembled text |
| `aggregate_output.dfy` | `AggregateOutput` | the end-to-end theorem about what `aggregates.sql` receives for a row of plain names |
| `store.dfy` | `Store` | the file map, the directory set and the stream, as classes whose methods change them |
| `details_extractor.dfy` | `DetailsExtractor` | the `PostgresDetailsExtractor` class |
| `triggers.dfy` | `Triggers` | the `TriggersOperations` class |

Where the aggregate sanitiser's stated intent and its code differ, the
model follows the code:

- **Empty clauses.** The sanitiser is meant to drop empty function clauses
  and keep INITCOND. The catalog subqueries give NULL for a missing
  function, so the `"-"` test never excludes a clause. The row then carries
  `FINALFUNC = ` with nothing after it. The `\s*` after `=` in the
  dangling-clause pattern crosses the line break, so the match also takes
  the next line. When that line is INITCOND, the initial value is lost.
  `AggregateOutput.UnsetFunctionsSwallowInitcond` proves this for the
  common catalog row. `AggregateOutput.InitcondKept` says exactly when
  INITCOND survives.
- **Commas.** Only SFUNC and STYPE are joined by a comma. A surviving
  INITCOND follows STYPE without one, as `AggregateOutput.CleanRowSanitized`
  states.

Modelling choices:

- **Files.** Files are a `map<string, string>` from a path relative to the
  application root to the file's contents. Directories are a `set<string>`.
- **Stream.** The schema dump stream is a `seq<string>` with one element per
  `puts`.
- **Query results.** Each connection query result is given as a value: the
  lists passed to the `PostgresDetailsExtractor` constructor, and a function
  from table name to trigger rows passed to the `TriggersOperations`
  constructor.
- **SQL NULL.** A NULL column is `None`.
- **Regular expressions.**
  - `\s` is space, tab, line feed, vertical tab, form feed and carriage
    return.
  - `\w` is `[A-Za-z0-9_]`.
  - `/i` folds ASCII letters only.
  - `strip` also removes NUL.
- **One function per match.** Each `gsub` pattern has its own `Find` case.
  That case returns the match a backtracking engine settles on at one
  position. `GSub` judges `^` and `\b` against the original text, as Ruby
  does.

## Model

The paths below are relative to the gem's root.

| member | source | states |
|---|---|---|
| Text.TrimStart | lib/fix_db_schema_conflicts/postgres_details_extractor.rb:89 | the left half of `strip`: the result is no longer than the input, does not start with strip-space, and everything dropped was strip-space |
| Text.TrimStartSuffix | lib/fix_db_schema_conflicts/postgres_details_extractor.rb:89 | what the left trim keeps is a suffix of its input |
| Text.TrimEnd | lib/fix_db_schema_conflicts/postgres_details_extractor.rb:89 | the right half of `strip`: the result is a prefix of the input, does not end in strip-space, and everything dropped was strip-space |
| Text.Strip | lib/fix_db_schema_conflicts/postgres_details_extractor.rb:134 | `strip` leaves no strip-space at either end and keeps every other character, in order |
| Text.StripIsSlice | lib/fix_db_schema_conflicts/postgres_details_extractor.rb:202 | `strip` returns a contiguous slice of its input |
| Text.StripTrimmed | lib/fix_db_schema_conflicts/postgres_details_extractor.rb:202 | `strip` leaves alone a text with no strip-space at either end |
| Text.VisibleLast | lib/fix_db_schema_conflicts/postgres_details_extractor.rb:134 | a text ending in a non-strip-space character has that character as its last visible one |
| Text.JoinEnds | lib/fix_db_schema_conflicts/postgres_schema_info_extractor.rb:132 | `join` starts like its first part and ends like its last |
| Text.JoinExcludes | lib/fix_db_schema_conflicts/postgres_schema_info_extractor.rb:132 | a character that is in no part and not in the separator is not in the join |
| Gsub.RunEnd | lib/fix_db_schema_conflicts/postgres_details_extractor.rb:132 | a greedy repetition ends at the first character outside its class, and everything it spans is in the class |
| Gsub.Find | lib/fix_db_schema_conflicts/postgres_details_extractor.rb:179-199 | the match of one pattern at one position, with the context character before it; a match is nonempty and within the text |
| Gsub.GSub | lib/fix_db_schema_conflicts/postgres_details_extractor.rb:179-199 | `String#gsub`: scan left to right, replace each match, resume after it; QuietPrefix, QuietWhole and the per-pass lemmas state what it gives |
| Gsub.QuietPrefix | lib/fix_db_schema_conflicts/postgres_details_extractor.rb:179-199 | `gsub` copies a prefix where no match starts, then carries on with the right context |
| Gsub.QuietWhole | lib/fix_db_schema_conflicts/postgres_details_extractor.rb:179-199 | `gsub` leaves a text where no match starts unchanged |
| Gsub.CommaFreeUnchanged | lib/fix_db_schema_conflicts/postgres_schema_info_extractor.rb:143-151 | each comma-led pattern leaves comma-free text unchanged |
| Gsub.RewriteCommaFree | lib/fix_db_schema_conflicts/postgres_schema_info_extractor.rb:143-151 | a chain of comma-led rewrites leaves comma-free text unchanged |
| Gsub.BlankKeepsVisible | lib/fix_db_schema_conflicts/postgres_details_extractor.rb:132-133 | a pattern that matches and writes only whitespace keeps every other character, in order |
| Gsub.RewriteAppend | lib/fix_db_schema_conflicts/postgres_details_extractor.rb:179-199 | chaining two lists of rewrites is the same as running their concatenation |
| Formatting.Squeeze | lib/fix_db_schema_conflicts/postgres_details_extractor.rb:132 | reference for newline collapsing: no two newlines in a row, empty exactly when the input is, and the first character is kept |
| Formatting.CollapseIsSqueeze | lib/fix_db_schema_conflicts/postgres_details_extractor.rb:132 | `gsub(/\n+/, "\n")` equals the reference on every text and in every context |
| Formatting.CollapseNewlinesSpec | lib/fix_db_schema_conflicts/postgres_details_extractor.rb:132 | after collapsing there is no blank line, and the non-whitespace characters are unchanged |
| Formatting.IndentRemoved | lib/fix_db_schema_conflicts/postgres_details_extractor.rb:133 | after `gsub(/^\s+/m, '')` no line after the first starts with whitespace, the text does not start with whitespace at a line start, and a non-blank first character is kept |
| Formatting.StripIndentSpec | lib/fix_db_schema_conflicts/postgres_details_extractor.rb:133 | the unindented text has no indented line, does not start with whitespace, and keeps every non-whitespace character in order |
| Formatting.Normalise | lib/fix_db_schema_conflicts/postgres_details_extractor.rb:132-134 | the collapse, unindent and `strip` passes; NormaliseSteps and NormaliseShape state what they give |
| Formatting.NormaliseSteps | lib/fix_db_schema_conflicts/postgres_details_extractor.rb:132-134 | the normaliser is the collapse, then the unindent, then `strip` |
| Formatting.NormaliseShape | lib/fix_db_schema_conflicts/postgres_details_extractor.rb:132-134 | normalised text has no blank line, no indented line, no whitespace at either end, and every visible character of the input in order |
| Formatting.BreakCountMono | lib/fix_db_schema_conflicts/postgres_details_extractor.rb:135 | the number of inserted breaks grows with the position, by at most one per character |
| Formatting.BreaksLength | lib/fix_db_schema_conflicts/postgres_details_extractor.rb:135 | the keyword pass lengthens the text by exactly one character per break |
| Formatting.InsertBreaks | lib/fix_db_schema_conflicts/postgres_details_extractor.rb:135 | the keyword lookahead pass; InsertBreaksSpec states what it gives |
| Formatting.InsertBreaksSpec | lib/fix_db_schema_conflicts/postgres_details_extractor.rb:135 | the keyword pass only inserts: each input character keeps its order, shifted by the breaks before it, and a newline sits in front of each word-boundary keyword |
| Formatting.InsertBreaksChar | lib/fix_db_schema_conflicts/postgres_details_extractor.rb:135 | where one input character lands in the output of the keyword pass |
| Formatting.InsertBreaksNewline | lib/fix_db_schema_conflicts/postgres_details_extractor.rb:135 | a newline sits just in front of each keyword the lookahead finds |
| Formatting.InsertBreaksLast | lib/fix_db_schema_conflicts/postgres_details_extractor.rb:135 | the keyword pass keeps the last character in last place |
| Statements.DropTrailingSemicolons | lib/fix_db_schema_conflicts/postgres_details_extractor.rb:89 | `sub(/;+\z/, '')` returns a prefix that does not end in `;`, and everything removed was `;` |
| Statements.TrimBody | lib/fix_db_schema_conflicts/postgres_details_extractor.rb:89 | the trimmed body does not start with strip-space, does not end in `;`, and is the stripped body minus its trailing semicolons |
| Statements.TrimBodyKeepsSpaceBeforeSemicolons | lib/fix_db_schema_conflicts/postgres_details_extractor.rb:89 | whitespace in front of the trailing semicolons stays |
| Statements.LastLineStart | lib/fix_db_schema_conflicts/postgres_details_extractor.rb:92 | the last line start at or before a position, with no line feed between them |
| Statements.StartsWithBeginIff | lib/fix_db_schema_conflicts/postgres_details_extractor.rb:92-94 | the `^\s*BEGIN` search succeeds exactly when some line, after whitespace of its own, begins with `begin` in any case |
| Statements.BeginMatchIsLine | lib/fix_db_schema_conflicts/postgres_details_extractor.rb:92 | a regex match gives such a line |
| Statements.BeginLineIsMatch | lib/fix_db_schema_conflicts/postgres_details_extractor.rb:92 | such a line gives a regex match |
| Statements.BeginPrefixCounts | lib/fix_db_schema_conflicts/postgres_details_extractor.rb:92 | no word boundary is required after the keyword: `BEGINNING` takes the `BEGIN` branch |
| Statements.StartsWithBegin | lib/fix_db_schema_conflicts/postgres_details_extractor.rb:92 | the `^\s*BEGIN`/i search as a predicate; StartsWithBeginIff states what it means |
| Statements.FunctionComponents | lib/fix_db_schema_conflicts/postgres_details_extractor.rb:81-112 | the statement text and the name, built by the two branches; FunctionComponentsShape states their shape |
| Statements.FunctionComponentsShape | lib/fix_db_schema_conflicts/postgres_details_extractor.rb:94-111 | both branches open with the `CREATE OR REPLACE FUNCTION` and `RETURNS` lines and carry the body with exactly one `;`; the `BEGIN` branch ends with the row's language; the other wraps the body in `BEGIN … END;` and ends with `plpgsql`; the name is returned unchanged |
| Statements.TypeStatement | lib/fix_db_schema_conflicts/postgres_details_extractor.rb:114-124 | the `DO $$ … IF NOT EXISTS` guard for a type; TypeStatementShape states its shape |
| Statements.TypeStatementShape | lib/fix_db_schema_conflicts/postgres_details_extractor.rb:114-124 | the type guard tests `typname = '<name>'`, holds `CREATE TYPE <name> AS (<attributes>);` and closes with `END IF; END $$;` |
| Statements.EnumTypeStatement | lib/fix_db_schema_conflicts/postgres_details_extractor.rb:114-124 | the guard for an enum row, which has no `attributes`; EnumStatementShape states its shape |
| Statements.EnumStatementShape | lib/fix_db_schema_conflicts/postgres_details_extractor.rb:119 | an enum row gets `AS ()`, and its labels do not affect the statement |
| Statements.FtsStatement | lib/fix_db_schema_conflicts/postgres_details_extractor.rb:66-70 | the one-line guard for a full-text-search configuration; FtsStatementShape states its shape |
| Statements.FtsStatementShape | lib/fix_db_schema_conflicts/postgres_details_extractor.rb:66-70 | the FTS guard tests `cfgname = '<name>'`, holds `CREATE TEXT SEARCH CONFIGURATION <name> (COPY = simple);` and closes with `END IF; END $$;` |
| SchemaInfo.VolatilityName | lib/fix_db_schema_conflicts/postgres_schema_info_extractor.rb:22-27 | `i`, `s` and `v` give IMMUTABLE, STABLE and VOLATILE, and every other code (NULL included) gives UNKNOWN, each as an if-and-only-if |
| SchemaInfo.FunctionRecordOf | lib/fix_db_schema_conflicts/postgres_schema_info_extractor.rb:38-46 | name, arguments, return type and language are copied; a NULL source becomes `Invalid Function Body`; `i`, `s` and `v` give `IMMUTABLE`, `STABLE` and `VOLATILE`, and any other code, NULL included, gives `UNKNOWN` |
| SchemaInfo.PgFunctions | lib/fix_db_schema_conflicts/postgres_schema_info_extractor.rb:38-47 | one record per row, in row order, with the row's name |
| SchemaInfo.PgFunctionsBodies | lib/fix_db_schema_conflicts/postgres_schema_info_extractor.rb:38-47 | record `i` is the mapping of row `i` |
| SchemaInfo.TextIsClause | lib/fix_db_schema_conflicts/postgres_schema_info_extractor.rb:120-126 | each optional part reads `KEY = value` |
| SchemaInfo.AssembleParts | lib/fix_db_schema_conflicts/postgres_schema_info_extractor.rb:114-129 | the successive conditional appends build the clause list of the row |
| SchemaInfo.AssembledGrows | lib/fix_db_schema_conflicts/postgres_schema_info_extractor.rb:114-129 | the list only grows at its end, by one part per included clause |
| SchemaInfo.AssembledMember | lib/fix_db_schema_conflicts/postgres_schema_info_extractor.rb:119-126 | each part after the fixed three is the text of an included clause |
| SchemaInfo.KeysDistinct | lib/fix_db_schema_conflicts/postgres_schema_info_extractor.rb:120-126 | the seven optional keys are pairwise distinct |
| SchemaInfo.KeyNotFixed | lib/fix_db_schema_conflicts/postgres_schema_info_extractor.rb:115-117 | no optional key starts one of the fixed parts |
| SchemaInfo.NoClauseAt | lib/fix_db_schema_conflicts/postgres_schema_info_extractor.rb:120-126 | a clause whose condition fails appears in no part |
| SchemaInfo.ClauseIncludedIff | lib/fix_db_schema_conflicts/postgres_schema_info_extractor.rb:120-126 | an optional clause is among the parts exactly when its condition holds |
| SchemaInfo.PartsFrame | lib/fix_db_schema_conflicts/postgres_schema_info_extractor.rb:115-129 | the header `CREATE OR REPLACE AGGREGATE public.<name> (<args>) (` comes first, then SFUNC, then STYPE, and `);` comes last; the count is 4 plus the number of included clauses |
| SchemaInfo.ClausePlace | lib/fix_db_schema_conflicts/postgres_schema_info_extractor.rb:119-126 | an included clause sits after the fixed three and after the included clauses before it, so the append order is kept |
| SchemaInfo.OptionalClauses | lib/fix_db_schema_conflicts/postgres_schema_info_extractor.rb:120-126 | the four function clauses are present iff the field is not `"-"`; the two modifiers and INITCOND are present iff the field is not NULL |
| SchemaInfo.NullFinalAndInitcond | lib/fix_db_schema_conflicts/postgres_schema_info_extractor.rb:120-126 | a NULL final function still yields `FINALFUNC = `; INITCOND is single-quoted |
| SchemaInfo.InfoSanitize | lib/fix_db_schema_conflicts/postgres_schema_info_extractor.rb:141-153 | the schema-info sanitiser: the six `, KEY =\s*\w*` removals, `,\s*\)`, then `strip`; InfoSanitizeCommaFree states what it gives |
| SchemaInfo.InfoSanitizeCommaFree | lib/fix_db_schema_conflicts/postgres_schema_info_extractor.rb:141-153 | on comma-free text the schema-info sanitiser is just `strip` |
| SchemaInfo.CommaFreeParts | lib/fix_db_schema_conflicts/postgres_schema_info_extractor.rb:114-129 | no part of a row without commas holds a comma |
| SchemaInfo.JoinedCommaFree | lib/fix_db_schema_conflicts/postgres_schema_info_extractor.rb:132 | the joined text of such a row holds no comma, so clauses are not comma-separated |
| SchemaInfo.JoinedTrimmed | lib/fix_db_schema_conflicts/postgres_schema_info_extractor.rb:132 | the joined text starts with `C` and ends with `;`, so `strip` keeps it whole |
| SchemaInfo.DefinitionIsJoinedParts | lib/fix_db_schema_conflicts/postgres_schema_info_extractor.rb:132-135 | for a comma-free row the sanitised definition is exactly the joined parts |
| SchemaInfo.AggregateParts | lib/fix_db_schema_conflicts/postgres_schema_info_extractor.rb:114-129 | the clause list of a row and `);`; PartsFrame, ClausePlace and OptionalClauses state its shape |
| SchemaInfo.Definition | lib/fix_db_schema_conflicts/postgres_schema_info_extractor.rb:132-135 | the joined, sanitised clause list; DefinitionIsJoinedParts states it for comma-free rows |
| SchemaInfo.AggregateRecordOf | lib/fix_db_schema_conflicts/postgres_schema_info_extractor.rb:113-138 | the record holds the row's name and its assembled, joined, sanitised definition |
| SchemaInfo.Aggregates | lib/fix_db_schema_conflicts/postgres_schema_info_extractor.rb:113-138 | one record per row, in row order, with the row's name |
| SchemaInfo.AggregatesOfCommaFreeRows | lib/fix_db_schema_conflicts/postgres_schema_info_extractor.rb:113-138 | for comma-free rows, every recorded definition is the joined clause list |
| AggregateDetails.DetailsSanitize | lib/fix_db_schema_conflicts/postgres_details_extractor.rb:177-203 | the details sanitiser: its rewrites in order, then `strip`; DetailsSanitizeSteps, DetailsSanitizeShape and CleanRowSanitized state what it gives |
| AggregateDetails.DetailsSanitizeSteps | lib/fix_db_schema_conflicts/postgres_details_extractor.rb:177-203 | the sanitiser is the six comma-led removals, the dangling-clause removal, the SFUNC/STYPE join, `,\s*\)`, `;;$`, `\s{2,}` and `strip`, in that order |
| AggregateDetails.DetailsSanitizeShape | lib/fix_db_schema_conflicts/postgres_details_extractor.rb:177-203 | whatever the input, the output has no two adjacent whitespace characters and no whitespace at either end |
| AggregateDetails.DetailsSanitizeLastPass | lib/fix_db_schema_conflicts/postgres_details_extractor.rb:199-202 | the sanitiser ends with the whitespace squeeze and `strip` |
| AggregateDetails.StripSingleSpaced | lib/fix_db_schema_conflicts/postgres_details_extractor.rb:202 | `strip` keeps text single-spaced |
| AggregateDetails.SpaceRunSingleSpaced | lib/fix_db_schema_conflicts/postgres_details_extractor.rb:199 | after `gsub(/\s{2,}/, ' ')` no two whitespace characters are adjacent; the text is empty iff the input was, and starts with whitespace iff the input did |
| AggregateDetails.SpaceRunCollapse | lib/fix_db_schema_conflicts/postgres_details_extractor.rb:199 | a whitespace run of two or more becomes one space |
| AggregateDetails.SegmentNoMatch | lib/fix_db_schema_conflicts/postgres_details_extractor.rb:187-190 | neither keyword pattern matches at the start of a stretch with no `=` |
| AggregateDetails.NonWordNoClause | lib/fix_db_schema_conflicts/postgres_details_extractor.rb:187 | the dangling-clause pattern needs a word character where it starts |
| AggregateDetails.NoSQuiet | lib/fix_db_schema_conflicts/postgres_details_extractor.rb:190 | the SFUNC/STYPE pattern needs an `S` where it starts |
| AggregateDetails.CommaFreeQuiet | lib/fix_db_schema_conflicts/postgres_details_extractor.rb:179-184 | the comma-led removals need a `,` where they start |
| AggregateDetails.SemicolonFreeQuiet | lib/fix_db_schema_conflicts/postgres_details_extractor.rb:196 | `;;$` needs a `;` where it starts |
| AggregateDetails.SingleSpacedQuiet | lib/fix_db_schema_conflicts/postgres_details_extractor.rb:199 | `\s{2,}` finds nothing in single-spaced text |
| AggregateDetails.JoinIsLines | lib/fix_db_schema_conflicts/postgres_schema_info_extractor.rb:132 | `join("\n  ")` is the first part followed by each later part on its own indented line |
| AggregateDetails.FirstAlternative | lib/fix_db_schema_conflicts/postgres_details_extractor.rb:187 | at a clause key the alternation settles on that key; FINALFUNC in front of FINALFUNC_MODIFY fails at the `_` |
| AggregateDetails.ClauseMatch | lib/fix_db_schema_conflicts/postgres_details_extractor.rb:187 | a removable clause with a plain value is matched up to the end of its line and replaced by nothing |
| AggregateDetails.DropLine | lib/fix_db_schema_conflicts/postgres_details_extractor.rb:187 | a removable clause line loses everything after its line break and indentation |
| AggregateDetails.KeepLine | lib/fix_db_schema_conflicts/postgres_details_extractor.rb:187 | SFUNC, STYPE and INITCOND lines pass through unchanged |
| AggregateDetails.ClosingLine | lib/fix_db_schema_conflicts/postgres_details_extractor.rb:187 | the closing `);` line passes through unchanged |
| AggregateDetails.EmptyKeyedEnd | lib/fix_db_schema_conflicts/postgres_details_extractor.rb:187 | at `KEY = ` with no value, the `\s*` after `=` runs over the following blanks, line breaks included, and the value run then takes the clause characters after them |
| AggregateDetails.EmptyDropLine | lib/fix_db_schema_conflicts/postgres_details_extractor.rb:187 | a removable clause line with no value is removed together with the line break and indentation after it and the clause characters that follow |
| AggregateDetails.EmptyDropClosing | lib/fix_db_schema_conflicts/postgres_details_extractor.rb:187 | an empty removable clause just before `);` loses its text and the line break in front of `);`; the `);` stays |
| AggregateDetails.EmptyDropClause | lib/fix_db_schema_conflicts/postgres_details_extractor.rb:187 | an empty removable clause in front of another clause line removes both lines and one of their two line breaks |
| AggregateDetails.DanglingPassLines | lib/fix_db_schema_conflicts/postgres_details_extractor.rb:187 | on lines with plain clause values (kept lines nonempty), the pass gives the line-level reference `Dangling`: a removable clause loses its text and keeps its line break; one with no value also takes the next line break and the next line, of which only a `);` survives |
| AggregateOutput.AssembledLines | lib/fix_db_schema_conflicts/postgres_schema_info_extractor.rb:114-129 | the assembled list is the header followed by the texts of the row's lines |
| AggregateOutput.PartsAsLines | lib/fix_db_schema_conflicts/postgres_schema_info_extractor.rb:114-129 | the same for the complete list |
| AggregateOutput.AssembledText | lib/fix_db_schema_conflicts/postgres_schema_info_extractor.rb:132 | the joined text is the header followed by one indented line per later part |
| AggregateOutput.PendAppend | lib/fix_db_schema_conflicts/postgres_details_extractor.rb:187 | over two stretches of clause lines, whether an empty clause is left pending at the end depends on the first stretch only through whether it leaves one pending |
| AggregateOutput.DropsThenTail | lib/fix_db_schema_conflicts/postgres_details_extractor.rb:187 | a run of removable clauses before a kept line leaves one empty line per removed clause (an empty clause and the line it swallows leave one), then the kept line, or what is left of it when the run's last empty clause swallows it |
| AggregateOutput.TailSurvivors | lib/fix_db_schema_conflicts/postgres_details_extractor.rb:187 | after the removable clauses come INITCOND, when the row has one and no pending empty clause swallows it, and `);` |
| AggregateOutput.RowSurvivors | lib/fix_db_schema_conflicts/postgres_details_extractor.rb:187 | for every row, NULL function fields included, the pass leaves the SFUNC and STYPE lines, one empty line per removed clause or swallowed pair, INITCOND exactly when it is not swallowed, and `);` |
| AggregateOutput.NamedFunctionsKeepInitcond | lib/fix_db_schema_conflicts/postgres_schema_info_extractor.rb:120-126 | when every included function clause has a value, INITCOND survives exactly when the row has an initial value |
| AggregateOutput.UnsetFunctionsSwallowInitcond | lib/fix_db_schema_conflicts/postgres_details_extractor.rb:187 | a row with the moving-final modifier set and NULL combine, serial and deserial functions (the usual catalog row) loses its INITCOND: the statement written is `CREATE OR REPLACE AGGREGATE public.n (a) ( SFUNC = f, STYPE = t );` whatever the initial value |
| AggregateOutput.HeaderShape | lib/fix_db_schema_conflicts/postgres_schema_info_extractor.rb:115 | the header is single-spaced, starts with `C`, ends with `(`, and holds no `=`, `,` or `;` |
| AggregateOutput.JoinedShape | lib/fix_db_schema_conflicts/postgres_details_extractor.rb:190 | the joined SFUNC/STYPE text is single-spaced, starts with `S` and holds no `;` |
| AggregateOutput.RestShape | lib/fix_db_schema_conflicts/postgres_schema_info_extractor.rb:126-129 | what follows the STYPE line starts with a line feed, holds no comma, and its only `;` is the last character |
| AggregateOutput.PassDangling | lib/fix_db_schema_conflicts/postgres_details_extractor.rb:187 | for a row of plain names, NULL function fields included, the pass over the assembled text removes every function clause, leaves the header, SFUNC, STYPE, the remaining line breaks, INITCOND exactly when it is not swallowed, and `);` |
| AggregateOutput.SfuncStypeMatch | lib/fix_db_schema_conflicts/postgres_details_extractor.rb:190 | the SFUNC/STYPE pattern spans both lines and rejoins the captures with `, ` |
| AggregateOutput.RestQuiet | lib/fix_db_schema_conflicts/postgres_details_extractor.rb:190 | the SFUNC/STYPE pattern finds nothing after the STYPE line |
| AggregateOutput.PassJoin | lib/fix_db_schema_conflicts/postgres_details_extractor.rb:190 | the join pass turns `SFUNC = f <ws> STYPE = t` into `SFUNC = f, STYPE = t` and changes nothing else |
| AggregateOutput.PassCommaParen | lib/fix_db_schema_conflicts/postgres_details_extractor.rb:193 | `,\s*\)` changes nothing on that text |
| AggregateOutput.PassSemicolon | lib/fix_db_schema_conflicts/postgres_details_extractor.rb:196 | `;;$` changes nothing on that text |
| AggregateOutput.PassSqueeze | lib/fix_db_schema_conflicts/postgres_details_extractor.rb:199 | `\s{2,}` turns each line break and its indentation into one space |
| AggregateOutput.SqueezedStrip | lib/fix_db_schema_conflicts/postgres_details_extractor.rb:202 | the final `strip` keeps the squeezed text whole |
| AggregateOutput.SqueezedIsClean | lib/fix_db_schema_conflicts/postgres_details_extractor.rb:199-202 | the squeezed text is the one-line statement |
| AggregateOutput.CleanIsCommaFree | lib/fix_db_schema_conflicts/postgres_schema_info_extractor.rb:120-126 | a row of plain names holds no comma in any included field |
| AggregateOutput.SanitizeChain | lib/fix_db_schema_conflicts/postgres_details_extractor.rb:177-203 | the sanitiser's output, given what each rewrite yields |
| AggregateOutput.CleanPipeline | lib/fix_db_schema_conflicts/postgres_details_extractor.rb:177-203 | the rewrites take the assembled text of a plain row to the squeezed text |
| AggregateOutput.CleanRowSanitized | lib/fix_db_schema_conflicts/postgres_details_extractor.rb:177-203 | for a row of plain names, NULL function fields included, the details sanitiser turns the recorded definition into `CREATE OR REPLACE AGGREGATE public.n (a) ( SFUNC = f, STYPE = t [INITCOND = 'v'] );`: every function clause is gone, SFUNC and STYPE are comma-joined, INITCOND appears exactly when no empty function clause swallows it, and no comma precedes it |
| Store.ChunkPrefix | lib/fix_db_schema_conflicts/postgres_details_extractor.rb:136-138 | a write is the formatted text, then `;`, then the two newlines of the two bare `puts` |
| Store.WrittenAppend | lib/fix_db_schema_conflicts/postgres_details_extractor.rb:41-43 | two runs of appends write their texts one after the other |
| Store.WrittenPrefix | lib/fix_db_schema_conflicts/postgres_details_extractor.rb:41-43 | what the first writes leave is a prefix of what all of them leave |
| Store.TruncateThenAppend | lib/fix_db_schema_conflicts/postgres_details_extractor.rb:130-131 | emptying a file and then appending leaves just what was appended |
| Store.AppendStep | lib/fix_db_schema_conflicts/postgres_details_extractor.rb:41-43 | one more append extends the run of appends by one item |
| Store.WipeFiles | lib/fix_db_schema_conflicts/triggers_operations.rb:27 | the files left are exactly those outside the wiped entries, with their contents |
| Store.WipeDirs | lib/fix_db_schema_conflicts/triggers_operations.rb:27 | the directories left are exactly those outside the wiped entries |
| Store.WipeIdempotent | lib/fix_db_schema_conflicts/triggers_operations.rb:27 | wiping twice is wiping once |
| Store.WipeSparesOutside | lib/fix_db_schema_conflicts/triggers_operations.rb:27 | a path outside the wiped directory keeps its presence and contents |
| Store.WipeKeepsDotEntries | lib/fix_db_schema_conflicts/triggers_operations.rb:27 | the glob skips dot entries, so they and the directory itself survive |
| Store.PutThree | lib/fix_db_schema_conflicts/postgres_details_extractor.rb:33-35 | three `puts` in a row add those three lines in order |
| Store.PutSix | lib/fix_db_schema_conflicts/postgres_details_extractor.rb:55-60 | six `puts` in a row add those six lines in order |
| Store.FileSystem.MkdirP | lib/fix_db_schema_conflicts/postgres_details_extractor.rb:129 | `mkdir_p` adds the directory and changes no file |
| Store.FileSystem.Truncate | lib/fix_db_schema_conflicts/postgres_details_extractor.rb:130 | `File.open(path, "w") {}` leaves the file existing and empty |
| Store.FileSystem.Append | lib/fix_db_schema_conflicts/postgres_details_extractor.rb:131-136 | an append keeps the old contents as a prefix and adds the text |
| Store.FileSystem.AppendEach | lib/fix_db_schema_conflicts/postgres_details_extractor.rb:41-43 | appending each item in order adds their chunks in order, and nothing at all for no item |
| Store.FileSystem.RewriteEach | lib/fix_db_schema_conflicts/postgres_details_extractor.rb:50-53 | rewriting each item's own file in order leaves each file with its last write |
| Store.FileSystem.RemoveEntries | lib/fix_db_schema_conflicts/triggers_operations.rb:27 | `rm_rf` of the glob leaves the wiped files and directories |
| Store.Stream.Puts | lib/fix_db_schema_conflicts/postgres_details_extractor.rb:33 | `puts` adds one line at the end of the stream |
| DetailsExtractor.TypeText | lib/fix_db_schema_conflicts/postgres_details_extractor.rb:142-153 | what `types_in_file` appends: normalised, broken before the statement keywords, then `;` and two newlines; TypesInFile states the write |
| DetailsExtractor.FtsText | lib/fix_db_schema_conflicts/postgres_details_extractor.rb:155-164 | what `extract_fts_configurations` appends: stripped, broken before the statement keywords, then `;` and two newlines; ExtractFtsConfigurations states the write |
| DetailsExtractor.AggregateText | lib/fix_db_schema_conflicts/postgres_details_extractor.rb:166-175 | what `aggregates_in_file` appends: sanitised, broken before the statement keywords, then `;` and two newlines; AggregatesInFile states the write |
| DetailsExtractor.FunctionText | lib/fix_db_schema_conflicts/postgres_details_extractor.rb:126-140 | what `functions_in_file` writes: normalised, broken before the function keywords, then `;` and two newlines; FunctionChunkDoubleSemicolon states its end |
| DetailsExtractor.FunctionFileInjective | lib/fix_db_schema_conflicts/postgres_details_extractor.rb:127-128 | two functions share a file exactly when they share a name |
| DetailsExtractor.FunctionFileNotShared | lib/fix_db_schema_conflicts/postgres_details_extractor.rb:127-128 | no function file is `types.sql`, `fts.sql` or `aggregates.sql` |
| DetailsExtractor.FunctionFileLastWins | lib/fix_db_schema_conflicts/postgres_details_extractor.rb:50-53 | a function's file holds the chunk of the last record with its name, and that chunk alone |
| DetailsExtractor.FunctionFilesFrame | lib/fix_db_schema_conflicts/postgres_details_extractor.rb:50-53 | a path that is no record's file keeps its presence and contents |
| DetailsExtractor.FunctionFilesKeepShared | lib/fix_db_schema_conflicts/postgres_details_extractor.rb:50-53 | writing the functions leaves the three shared files as they were |
| DetailsExtractor.StatementEndsWithSemicolon | lib/fix_db_schema_conflicts/postgres_details_extractor.rb:99 | the function statement ends with `;` and a line feed in both branches |
| DetailsExtractor.NormaliseKeepsSemicolon | lib/fix_db_schema_conflicts/postgres_details_extractor.rb:132-134 | a text ending in `;` and a line feed still ends in `;` after normalising |
| DetailsExtractor.ChunkDoubleSemicolon | lib/fix_db_schema_conflicts/postgres_details_extractor.rb:136-138 | writing a text that ends in `;` leaves `;;` and two newlines at the end |
| DetailsExtractor.FunctionChunkDoubleSemicolon | lib/fix_db_schema_conflicts/postgres_details_extractor.rb:99-136 | every function file ends with `;;` and two newlines |
| DetailsExtractor.PostgresDetailsExtractor.constructor | lib/fix_db_schema_conflicts/postgres_details_extractor.rb:5-19 | keeps the query results, makes sure `db/others` exists, and leaves `types.sql`, `fts.sql` and `aggregates.sql` empty with every other file untouched |
| DetailsExtractor.PostgresDetailsExtractor.CreateTypes | lib/fix_db_schema_conflicts/postgres_details_extractor.rb:21-36 | one chunk per enum type, in order, is appended to `types.sql`; exactly the three loader lines are put, even without types |
| DetailsExtractor.PostgresDetailsExtractor.CreateAggregates | lib/fix_db_schema_conflicts/postgres_details_extractor.rb:38-47 | with no aggregates nothing changes; otherwise one sanitised chunk per aggregate is appended to `aggregates.sql`, and three loader lines are put |
| DetailsExtractor.PostgresDetailsExtractor.CreateFunctions | lib/fix_db_schema_conflicts/postgres_details_extractor.rb:49-61 | each record rewrites the file of its name; exactly the six loader lines are put, even without functions |
| DetailsExtractor.PostgresDetailsExtractor.CreateFtsConfigurations | lib/fix_db_schema_conflicts/postgres_details_extractor.rb:63-77 | with no configurations nothing changes; otherwise one guard per configuration is appended to `fts.sql`, and three loader lines are put |
| DetailsExtractor.PostgresDetailsExtractor.FunctionsInFile | lib/fix_db_schema_conflicts/postgres_details_extractor.rb:126-140 | the function's file holds exactly the formatted statement and `db/functions` exists |
| DetailsExtractor.PostgresDetailsExtractor.TypesInFile | lib/fix_db_schema_conflicts/postgres_details_extractor.rb:142-153 | the formatted type statement is appended to `types.sql` |
| DetailsExtractor.PostgresDetailsExtractor.ExtractFtsConfigurations | lib/fix_db_schema_conflicts/postgres_details_extractor.rb:155-164 | the stripped, formatted guard is appended to `fts.sql` |
| DetailsExtractor.PostgresDetailsExtractor.AggregatesInFile | lib/fix_db_schema_conflicts/postgres_details_extractor.rb:166-175 | the sanitised, formatted definition is appended to `aggregates.sql` |
| Triggers.Block | lib/fix_db_schema_conflicts/triggers_operations.rb:13-20 | the stream lines of one table; BlockShape states their shape |
| Triggers.BlockShape | lib/fix_db_schema_conflicts/triggers_operations.rb:13-20 | no trigger gives no line; n triggers give n + 2 lines: `  execute <<-SQL`, each raw definition with ` ;` in order, then `  SQL` |
| Triggers.EchoesStep | lib/fix_db_schema_conflicts/triggers_operations.rb:15-16 | each trigger adds its echo line after the earlier ones |
| Triggers.BlockLines | lib/fix_db_schema_conflicts/triggers_operations.rb:14-19 | the lines put for a table with triggers make up its block |
| Triggers.TriggerText | lib/fix_db_schema_conflicts/triggers_operations.rb:38-46 | what `add_triggers_in_file` appends for one definition; TriggerTextSpec states it |
| Triggers.TriggerTextSpec | lib/fix_db_schema_conflicts/triggers_operations.rb:39-45 | a trigger chunk is the normalised definition with line breaks only inserted before the trigger keywords, then `;` and two newlines |
| Triggers.ChunkOfBreaks | lib/fix_db_schema_conflicts/triggers_operations.rb:42-45 | the same for any text and keyword list |
| Triggers.NoFitWithoutFirstLetter | lib/fix_db_schema_conflicts/triggers_operations.rb:42 | no keyword fits where no keyword's first letter is |
| Triggers.TriggerBreakLetters | lib/fix_db_schema_conflicts/triggers_operations.rb:42 | breaks go only in front of `A`, `F`, `W` or `E`; `BEFORE` gets none |
| Triggers.TriggerFileInjective | lib/fix_db_schema_conflicts/triggers_operations.rb:34-36 | two tables share a trigger file exactly when they share a name |
| Triggers.ResetSparesTriggerFiles | lib/fix_db_schema_conflicts/triggers_operations.rb:26-27 | the reset wipes `app/triggers`, so every `db/triggers` file and the directory itself survive it unchanged |
| Triggers.TriggerStep | lib/fix_db_schema_conflicts/triggers_operations.rb:17 | one more trigger appended extends the table's file by its chunk |
| Triggers.AppendedPrefix | lib/fix_db_schema_conflicts/triggers_operations.rb:38 | after the appends the table's file exists and its old contents are a prefix of the new ones |
| Triggers.TriggersOperations.constructor | lib/fix_db_schema_conflicts/triggers_operations.rb:6-9 | keeps the connection and starts with the reset not done |
| Triggers.TriggersOperations.TriggersCreation | lib/fix_db_schema_conflicts/triggers_operations.rb:11-21 | with no triggers neither stream nor files change; otherwise the block is put and each trigger's chunk is appended, in order, to the table's file, whose old contents stay in front |
| Triggers.TriggersOperations.EachTrigger | lib/fix_db_schema_conflicts/triggers_operations.rb:15-18 | for each trigger, in order, its echo line is put and its chunk appended to the table's file, whose old contents stay in front |
| Triggers.TriggersOperations.ResetTriggersFolder | lib/fix_db_schema_conflicts/triggers_operations.rb:23-29 | the first call wipes `app/triggers`; later calls change nothing; afterwards the flag is set |
| Triggers.TriggersOperations.AddTriggersInFile | lib/fix_db_schema_conflicts/triggers_operations.rb:33-47 | `db/triggers` exists and the table's file gains the trigger chunk after its old contents, created empty first if it was missing; nothing is truncated |

## Left out

- **Catalog queries.** The SQL text of the queries and `@connection.execute` are left out. The `wizville` filter, `string_agg` / `quote_literal` and `ORDER BY` are database behaviour. Rows are values given to the model, and trigger rows come from a function given to the constructor.
- **`fetch_enum_types` and `fts_configurations`.** These only rename query columns. Their rows are the `EnumType` and `FtsConfiguration` datatypes.
- **Files.** The real filesystem, `Rails.root`, I/O failures and file permissions are left out. Paths are relative to the application root.
- **Loader lines.** What the loader lines do when the schema is loaded (`File.read`, `execute`, `.sort`) is left out. Only their text is modelled.
- **Schema dumper.** `lib/fix_db_schema_conflicts/schema_dumper.rb` is not part of this model. It is library glue around `ActiveRecord::SchemaDumper`.
- **Composite types.** The composite-type loop in `create_types` is dead code, because `@pg_composite_types` is never assigned. It is left out.
- **`all_aggregates`.** The connection method the constructor calls is external. Its result is the `aggregates` list given to the constructor.
- **Non-ASCII text.** `\s`, `\w`, `\b` and `/i` are modelled on ASCII only. Non-ASCII letters count as non-word characters.
- **`present?`.** `present?` is `!blank?`, and `Pathname#empty?` makes an empty `app/triggers` blank, so the source skips `rm_rf` on an empty directory. On a missing directory `Pathname#empty?` is false, so the source calls `rm_rf` with an empty glob, which removes nothing. The model runs the wipe in both cases, with the same outcome.
- **`/m` flag.** The `/m` flag of `^\s+` has no effect on that pattern, because the pattern has no `.`.
- **`*args`.** The extra `*args` of `triggers_creation` are ignored by the source and absent from the model.
- **Stream lines.** `stream.puts` is one stream element per call. A line that itself holds a newline is not split.
- AggregateOutput.CleanRowSanitized: the exact output is proved for rows whose fields are plain: no whitespace, `,`, `)`, `;` or `=`. NULL function fields are covered. Each excluded character is one a rewrite keys on. A `,` can start a comma-led removal or `,\s*\)`. Whitespace moves where the `[^\s,]+` captures of the SFUNC/STYPE join and the `\s{2,}` squeeze end. `=` and `)` bound the clause matches. So a multi-argument signature (`integer, text`), a multi-word state type (`double precision`) or an array INITCOND (`'{0,0}'`) would each need its own match analysis. For such rows the model still computes the output through `DetailsSanitize`, which is defined on every text, and DetailsSanitizeShape proves the spacing guarantees.
- AggregateOutput.PassDangling: the same plain-field restriction as CleanRowSanitized, for the same reason.
- AggregateDetails.DanglingPassLines: stated for lines with plain values whose SFUNC, STYPE and INITCOND values are nonempty, the lines a plain row assembles.
- Store.FileSystem.MkdirP: adds only the leaf directory. `mkdir_p` also creates missing parents such as `db` and `app`. The model's directory set records only the directories the gem checks or writes into.
- DetailsExtractor.FunctionFileLastWins: stated for any rendering function rather than only `FunctionChunk`, so it holds for the chunks the class writes as a special case.
- DetailsExtractor.PostgresDetailsExtractor.CreateTypes: the loops of `create_*` go through the generic `Store.FileSystem.AppendEach` / `RewriteEach`. They do not call `TypesInFile` and the other per-item methods. Those per-item methods are modelled and proved separately with the same chunk functions.
- SchemaInfo.InfoSanitize has no postcondition of its own. What it does is stated by SchemaInfo.InfoSanitizeCommaFree and SchemaInfo.DefinitionIsJoinedParts.
- SchemaInfo.AggregatesOfCommaFreeRows: stated for rows none of whose fields holds a comma. A comma inside a field value would let the `, KEY =` removals fire, and the model computes that case through `InfoSanitize` without a separate lemma.

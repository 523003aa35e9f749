/** `PostgresDetailsExtractor`: the artifacts written under `db/others` and
    `db/functions`, and the loader lines put on the schema dump stream.
    The connection's query results are given to the constructor as the
    four lists they return. */
module DetailsExtractor {
  import opened Text
  import opened Formatting
  import opened SchemaInfo
  import opened Statements
  import opened AggregateDetails
  import opened Store

  // ---------------------------------------------------------------------
  // Paths, relative to the application root
  // ---------------------------------------------------------------------

  const OthersDir: string := "db/others"
  const TypesFile: string := "db/others/types.sql"
  const FtsFile: string := "db/others/fts.sql"
  const AggregatesFile: string := "db/others/aggregates.sql"
  const FunctionsDir: string := "db/functions"

  /** The file of the function called `name`. */
  function FunctionFile(name: string): string {
    FunctionsDir + "/" + name + ".sql"
  }

  /** Two functions share a file exactly when they share a name. */
  lemma FunctionFileInjective(a: string, b: string)
    ensures FunctionFile(a) == FunctionFile(b) <==> a == b
  {
    if FunctionFile(a) == FunctionFile(b) {
      assert |a| == |b|;
      assert a == FunctionFile(a)[13..13 + |a|];
      assert b == FunctionFile(b)[13..13 + |b|];
    }
  }

  /** No function file is one of the three shared files. */
  lemma FunctionFileNotShared(name: string)
    ensures FunctionFile(name) != TypesFile
    ensures FunctionFile(name) != FtsFile
    ensures FunctionFile(name) != AggregatesFile
  {
    assert FunctionFile(name)[3] == 'f';
  }

  // ---------------------------------------------------------------------
  // What each write appends
  // ---------------------------------------------------------------------

  /** `types_in_file`: normalise, break before the statement keywords. */
  function TypeText(content: string): string {
    Chunk(InsertBreaks(Normalise(content), StatementKeywords))
  }

  /** `extract_fts_configurations`: strip only, break before the statement keywords. */
  function FtsText(content: string): string {
    Chunk(InsertBreaks(Strip(content), StatementKeywords))
  }

  /** `aggregates_in_file`: sanitise, break before the statement keywords. */
  function AggregateText(content: string): string {
    Chunk(InsertBreaks(DetailsSanitize(content), StatementKeywords))
  }

  /** `functions_in_file`: normalise, break before the function keywords. */
  function FunctionText(content: string): string {
    Chunk(InsertBreaks(Normalise(content), FunctionKeywords))
  }

  /** What `types_in_file` appends for the statement of `e`. */
  function TypeChunk(e: EnumType): string {
    TypeText(EnumTypeStatement(e))
  }

  /** What `extract_fts_configurations` appends for the guard of `c`. */
  function FtsChunk(c: FtsConfiguration): string {
    FtsText(FtsStatement(c.name))
  }

  /** What `aggregates_in_file` appends for the definition of `a`. */
  function AggregateChunk(a: AggregateRecord): string {
    AggregateText(a.definition)
  }

  /** What `functions_in_file` writes for the statement of `f`. */
  function FunctionChunk(f: FunctionRecord): string {
    FunctionText(FunctionComponents(f).0)
  }

  /** Where `create_functions` writes a record. */
  function FunctionPath(f: FunctionRecord): string {
    FunctionFile(f.name)
  }

  /** The function files after writing `records` in order, each rendered
      by `chunk`: each write replaces the whole file of its name. */
  function FunctionFiles(files: map<string, string>, records: seq<FunctionRecord>,
                         chunk: FunctionRecord -> string): map<string, string>
  {
    Rewritten(files, records, FunctionPath, chunk)
  }

  /** Last writer wins: the file of a function holds the chunk of the last
      record with its name, and that chunk alone. */
  lemma {:induction false} FunctionFileLastWins(files: map<string, string>, records: seq<FunctionRecord>,
                                                chunk: FunctionRecord -> string, i: nat)
    requires i < |records|
    requires forall j :: i < j < |records| ==> records[j].name != records[i].name
    ensures FunctionFile(records[i].name) in FunctionFiles(files, records, chunk)
    ensures FunctionFiles(files, records, chunk)[FunctionFile(records[i].name)] == chunk(records[i])
    decreases |records|
  {
    var n := |records| - 1;
    var front := records[..n];
    var key := FunctionFile(records[i].name);
    assert FunctionFiles(files, records, chunk) == FunctionFiles(files, front, chunk)[FunctionFile(records[n].name) := chunk(records[n])];
    if i < n {
      assert front[i] == records[i];
      assert forall j :: i < j < |front| ==> front[j] == records[j];
      FunctionFileLastWins(files, front, chunk, i);
      FunctionFileInjective(records[n].name, records[i].name);
      assert FunctionFile(records[n].name) != key;
    }
  }

  /** A path that is not the file of any record keeps its contents, and a
      missing one stays missing. */
  lemma {:induction false} FunctionFilesFrame(files: map<string, string>, records: seq<FunctionRecord>,
                                              chunk: FunctionRecord -> string, p: string)
    requires forall j :: 0 <= j < |records| ==> p != FunctionFile(records[j].name)
    ensures p in FunctionFiles(files, records, chunk) <==> p in files
    ensures p in files ==> FunctionFiles(files, records, chunk)[p] == files[p]
    decreases |records|
  {
    if records != [] {
      var front := records[..|records| - 1];
      assert forall j :: 0 <= j < |front| ==> front[j] == records[j];
      FunctionFilesFrame(files, front, chunk, p);
    }
  }

  /** Writing the functions leaves the three shared files as they were. */
  lemma FunctionFilesKeepShared(files: map<string, string>, records: seq<FunctionRecord>,
                                chunk: FunctionRecord -> string)
    ensures forall p :: p in {TypesFile, FtsFile, AggregatesFile} ==>
      (p in FunctionFiles(files, records, chunk) <==> p in files)
      && (p in files ==> FunctionFiles(files, records, chunk)[p] == files[p])
  {
    forall j | 0 <= j < |records| {
      FunctionFileNotShared(records[j].name);
    }
    FunctionFilesFrame(files, records, chunk, TypesFile);
    FunctionFilesFrame(files, records, chunk, FtsFile);
    FunctionFilesFrame(files, records, chunk, AggregatesFile);
  }

  /** The statement text of a function ends with the `;` of its LANGUAGE line. */
  lemma StatementEndsWithSemicolon(f: FunctionRecord)
    ensures var s := FunctionComponents(f).0; |s| >= 2 && s[|s| - 2] == ';' && s[|s| - 1] == '\n'
  {
    var wrap := !StartsWithBegin(TrimBody(f.body));
    var language := if wrap then "plpgsql" else f.languageName;
    var s := FunctionComponents(f).0;
    var l := LanguageLine(language, f.volatility);
    var front := s[..|s| - |l|];
    assert s == front + l;
    assert l == ("  $$ LANGUAGE " + language + " " + f.volatility) + ";\n";
    SemicolonLineEnd(front, "  $$ LANGUAGE " + language + " " + f.volatility);
  }

  lemma SemicolonLineEnd(a: string, b: string)
    ensures var s := a + (b + ";\n"); |s| >= 2 && s[|s| - 2] == ';' && s[|s| - 1] == '\n'
  {
  }

  /** Text ending in `;` and a line feed keeps that `;` last through normalisation. */
  lemma NormaliseKeepsSemicolon(s: string)
    requires |s| >= 2 && s[|s| - 2] == ';' && s[|s| - 1] == '\n'
    ensures var n := Normalise(s); n != [] && n[|n| - 1] == ';'
  {
    VisiblePrefix(s, |s| - 1);
    VisibleLast(s[..|s| - 1]);
    var n := Normalise(s);
    NormaliseShape(s);
    assert n != [];
    VisibleLast(n);
  }

  /** A chunk of text ending in `;` ends with `;;` and the two newlines. */
  lemma ChunkDoubleSemicolon(r: string)
    requires r != [] && r[|r| - 1] == ';'
    ensures EndsWith(Chunk(r), ";;\n\n")
  {
    ChunkPrefix(r);
    var c := Chunk(r);
    assert c[|c| - 4..] == [r[|r| - 1]] + c[|c| - 3..];
  }

  /** Every function file ends with `;;`: the statement's own semicolon
      survives normalisation and the line-break pass in last place, and
      the write adds another. */
  lemma FunctionChunkDoubleSemicolon(f: FunctionRecord)
    ensures EndsWith(FunctionChunk(f), ";;\n\n")
  {
    var s := FunctionComponents(f).0;
    StatementEndsWithSemicolon(f);
    NormaliseKeepsSemicolon(s);
    InsertBreaksLast(Normalise(s), FunctionKeywords);
    ChunkDoubleSemicolon(InsertBreaks(Normalise(s), FunctionKeywords));
  }

  // ---------------------------------------------------------------------
  // Loader lines
  // ---------------------------------------------------------------------

  const TypesLoader: seq<string> := [
    "\tfile = Rails.root.join('db', 'others', 'types.sql')",
    "\tfile_content = File.read(file)",
    "\texecute file_content"]

  const AggregatesLoader: seq<string> := [
    "\taggregate_file = Rails.root.join('db', 'others', 'aggregates.sql')",
    "\taggregate_content = File.read(aggregate_file)",
    "\texecute aggregate_content"]

  const FunctionsLoader: seq<string> := [
    "\tfunction_files_path = Rails.root.join('db', 'functions')",
    "\tsql_files = Dir.glob(File.join(function_files_path, '*.sql')).sort",
    "\tsql_files.sort.each do |file|",
    "\t    sql = File.read(file)",
    "\t    execute sql",
    "\tend"]

  const FtsLoader: seq<string> := [
    "\tfts_file = Rails.root.join('db', 'others', 'fts.sql')",
    "\tfts_content = File.read(fts_file)",
    "\texecute fts_content"]

  // ---------------------------------------------------------------------
  // The extractor
  // ---------------------------------------------------------------------

  class PostgresDetailsExtractor {
    const enumTypes: seq<EnumType>
    const functions: seq<FunctionRecord>
    const ftsConfigurations: seq<FtsConfiguration>
    const aggregates: seq<AggregateRecord>
    /** The application's files, which every method writes. */
    const fs: FileSystem

    /** Keeps the query results, makes sure `db/others` exists and empties
        the three shared files. */
    constructor (enumTypes: seq<EnumType>, functions: seq<FunctionRecord>,
                 ftsConfigurations: seq<FtsConfiguration>, aggregates: seq<AggregateRecord>,
                 fs: FileSystem)
      modifies fs
      ensures this.enumTypes == enumTypes && this.functions == functions
      ensures this.ftsConfigurations == ftsConfigurations && this.aggregates == aggregates
      ensures this.fs == fs
      ensures fs.files == old(fs.files)[TypesFile := ""][FtsFile := ""][AggregatesFile := ""]
      ensures fs.files[TypesFile] == fs.files[FtsFile] == fs.files[AggregatesFile] == ""
      ensures fs.dirs == old(fs.dirs) + {OthersDir}
    {
      this.enumTypes := enumTypes;
      this.functions := functions;
      this.ftsConfigurations := ftsConfigurations;
      this.aggregates := aggregates;
      this.fs := fs;
      new;
      if !fs.DirExists(OthersDir) {
        fs.MkdirP(OthersDir);
      }
      fs.Truncate(TypesFile);
      fs.Truncate(FtsFile);
      fs.Truncate(AggregatesFile);
    }

    /** One statement per enum type appended to `types.sql`, then the three
        loader lines, even when there is no type. */
    method CreateTypes(stream: Stream)
      modifies fs, stream
      ensures enumTypes == [] ==> fs.files == old(fs.files)
      ensures enumTypes != [] ==>
        fs.files == old(fs.files)[TypesFile := Content(old(fs.files), TypesFile) + Written(enumTypes, TypeChunk)]
      ensures fs.dirs == old(fs.dirs)
      ensures stream.lines == old(stream.lines) + TypesLoader
    {
      fs.AppendEach(TypesFile, enumTypes, TypeChunk);
      ghost var lines0 := stream.lines;
      stream.Puts(TypesLoader[0]);
      stream.Puts(TypesLoader[1]);
      stream.Puts(TypesLoader[2]);
      PutThree(lines0, TypesLoader);
    }

    /** Nothing at all without aggregates; otherwise one sanitised
        definition per aggregate appended to `aggregates.sql`, then three
        loader lines. */
    method CreateAggregates(stream: Stream)
      modifies fs, stream
      ensures aggregates == [] ==> fs.files == old(fs.files) && stream.lines == old(stream.lines)
      ensures aggregates != [] ==>
        && fs.files == old(fs.files)[AggregatesFile := Content(old(fs.files), AggregatesFile) + Written(aggregates, AggregateChunk)]
        && stream.lines == old(stream.lines) + AggregatesLoader
      ensures fs.dirs == old(fs.dirs)
    {
      if aggregates == [] {
        return;
      }
      fs.AppendEach(AggregatesFile, aggregates, AggregateChunk);
      ghost var lines0 := stream.lines;
      stream.Puts(AggregatesLoader[0]);
      stream.Puts(AggregatesLoader[1]);
      stream.Puts(AggregatesLoader[2]);
      PutThree(lines0, AggregatesLoader);
    }

    /** One file per function, rewritten by each record of that name, then
        the six loader lines, even when there is no function. */
    method CreateFunctions(stream: Stream)
      modifies fs, stream
      ensures fs.files == FunctionFiles(old(fs.files), functions, FunctionChunk)
      ensures fs.dirs == if functions == [] then old(fs.dirs) else old(fs.dirs) + {FunctionsDir}
      ensures stream.lines == old(stream.lines) + FunctionsLoader
    {
      fs.RewriteEach(FunctionsDir, functions, FunctionPath, FunctionChunk);
      ghost var lines0 := stream.lines;
      stream.Puts(FunctionsLoader[0]);
      stream.Puts(FunctionsLoader[1]);
      stream.Puts(FunctionsLoader[2]);
      stream.Puts(FunctionsLoader[3]);
      stream.Puts(FunctionsLoader[4]);
      stream.Puts(FunctionsLoader[5]);
      PutSix(lines0, FunctionsLoader);
    }

    /** Nothing at all without configurations; otherwise one guard per
        configuration appended to `fts.sql`, then three loader lines. */
    method CreateFtsConfigurations(stream: Stream)
      modifies fs, stream
      ensures ftsConfigurations == [] ==> fs.files == old(fs.files) && stream.lines == old(stream.lines)
      ensures ftsConfigurations != [] ==>
        && fs.files == old(fs.files)[FtsFile := Content(old(fs.files), FtsFile) + Written(ftsConfigurations, FtsChunk)]
        && stream.lines == old(stream.lines) + FtsLoader
      ensures fs.dirs == old(fs.dirs)
    {
      if ftsConfigurations != [] {
        fs.AppendEach(FtsFile, ftsConfigurations, FtsChunk);
        ghost var lines0 := stream.lines;
        stream.Puts(FtsLoader[0]);
        stream.Puts(FtsLoader[1]);
        stream.Puts(FtsLoader[2]);
        PutThree(lines0, FtsLoader);
      }
    }

    /** Empties the function's file, creating `db/functions` if needed, and
        writes the formatted statement into it. */
    method FunctionsInFile(fileName: string, functionContent: string)
      modifies fs
      ensures fs.files == old(fs.files)[FunctionFile(fileName) := FunctionText(functionContent)]
      ensures fs.dirs == old(fs.dirs) + {FunctionsDir}
    {
      var path := FunctionFile(fileName);
      if !fs.DirExists(FunctionsDir) {
        fs.MkdirP(FunctionsDir);
      }
      var formatted := FunctionText(functionContent);
      ghost var files0 := fs.files;
      fs.Truncate(path);
      fs.Append(path, formatted);
      TruncateThenAppend(files0, path, formatted);
    }

    /** Appends one formatted type statement to `types.sql`. */
    method TypesInFile(typeContent: string)
      modifies fs
      ensures fs.files == old(fs.files)[TypesFile := Content(old(fs.files), TypesFile) + TypeText(typeContent)]
      ensures fs.dirs == old(fs.dirs)
    {
      var content := Normalise(typeContent);
      var formattedSql := InsertBreaks(content, StatementKeywords);
      fs.Append(TypesFile, formattedSql + ";" + "\n" + "\n");
    }

    /** Appends one formatted configuration guard to `fts.sql`. */
    method ExtractFtsConfigurations(ftsContent: string)
      modifies fs
      ensures fs.files == old(fs.files)[FtsFile := Content(old(fs.files), FtsFile) + FtsText(ftsContent)]
      ensures fs.dirs == old(fs.dirs)
    {
      var content := Strip(ftsContent);
      var formattedSql := InsertBreaks(content, StatementKeywords);
      fs.Append(FtsFile, formattedSql + ";" + "\n" + "\n");
    }

    /** Appends one sanitised, formatted aggregate definition to `aggregates.sql`. */
    method AggregatesInFile(aggregateContent: string)
      modifies fs
      ensures fs.files == old(fs.files)[AggregatesFile := Content(old(fs.files), AggregatesFile) + AggregateText(aggregateContent)]
      ensures fs.dirs == old(fs.dirs)
    {
      var content := DetailsSanitize(aggregateContent);
      var formattedSql := InsertBreaks(content, StatementKeywords);
      fs.Append(AggregatesFile, formattedSql + ";" + "\n" + "\n");
    }
  }
}

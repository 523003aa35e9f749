/** `TriggersOperations`: the `execute <<-SQL` block each table's triggers
    put on the schema dump stream, the per-table files under `db/triggers`
    those triggers are appended to, and the once-only wipe of
    `app/triggers`.  The connection's `triggers(table)` query is given to
    the constructor as a function from table name to rows. */
module Triggers {
  import opened Text
  import opened Formatting
  import opened Store

  /** One row of `connection.triggers(table)`; only its definition is read. */
  datatype TriggerRow = TriggerRow(definition: string)

  /** Where trigger artifacts are written, and what the reset wipes. */
  const TriggersDir: string := "db/triggers"
  const ResetDir: string := "app/triggers"

  const BlockOpen: string := "  execute <<-SQL"
  const BlockClose: string := "  SQL"

  /** The file of the triggers of `table`. */
  function TriggerFile(table: string): string {
    TriggersDir + "/" + table + ".sql"
  }

  /** What `add_triggers_in_file` appends for one definition: collapse
      newlines, unindent, strip, break before the trigger keywords, then
      `;` and the two newlines of the two bare `puts`. */
  function TriggerText(content: string): string {
    Chunk(InsertBreaks(Normalise(content), TriggerKeywords))
  }

  function TriggerChunk(t: TriggerRow): string {
    TriggerText(t.definition)
  }

  /** The line echoed to the stream for one trigger: its raw definition. */
  function Echo(t: TriggerRow): string {
    t.definition + " ;"
  }

  function Echoes(ts: seq<TriggerRow>): seq<string> {
    seq(|ts|, i requires 0 <= i < |ts| => Echo(ts[i]))
  }

  /** The stream lines of one table: nothing without triggers, otherwise
      the heredoc opening, one echo per trigger, and the closing line. */
  function Block(ts: seq<TriggerRow>): seq<string> {
    if ts == [] then [] else [BlockOpen] + Echoes(ts) + [BlockClose]
  }

  // ---------------------------------------------------------------------
  // Properties of the text
  // ---------------------------------------------------------------------

  /** No trigger, no line; `n` triggers, `n + 2` lines: the opening, each
      raw definition with ` ;` in order, the closing. */
  lemma BlockShape(ts: seq<TriggerRow>)
    ensures ts == [] <==> Block(ts) == []
    ensures ts != [] ==>
      && |Block(ts)| == |ts| + 2
      && Block(ts)[0] == BlockOpen && Block(ts)[|ts| + 1] == BlockClose
      && forall i :: 0 <= i < |ts| ==> Block(ts)[i + 1] == ts[i].definition + " ;"
  {
    if ts != [] {
      var b := Block(ts);
      forall i | 0 <= i < |ts| ensures b[i + 1] == ts[i].definition + " ;" {
        assert b[i + 1] == Echoes(ts)[i];
      }
    }
  }

  /** The echoes of a longer list extend those of a shorter one by one line. */
  lemma EchoesStep(ts: seq<TriggerRow>, i: nat)
    requires i < |ts|
    ensures Echoes(ts[..i + 1]) == Echoes(ts[..i]) + [Echo(ts[i])]
  {
  }

  /** A chunk only inserts: before its closing `;` and two newlines,
      every character of the normalised definition keeps its order,
      shifted by the breaks in front of it, and a newline goes in front
      of each keyword at a word boundary. */
  lemma TriggerTextSpec(content: string)
    ensures var r := TriggerText(content);
      && |r| >= 3 && r[|r| - 3..] == ";\n\n"
      && BreaksInserted(Normalise(content), TriggerKeywords, r[..|r| - 3])
  {
    ChunkOfBreaks(Normalise(content), TriggerKeywords);
  }

  /** The same for any text and any keyword list. */
  lemma ChunkOfBreaks(n: string, kws: seq<string>)
    ensures var r := Chunk(InsertBreaks(n, kws));
      && |r| >= 3 && r[|r| - 3..] == ";\n\n"
      && BreaksInserted(n, kws, r[..|r| - 3])
  {
    var f := InsertBreaks(n, kws);
    ChunkPrefix(f);
    InsertBreaksSpec(n, kws);
  }

  /** A keyword must begin where a break goes. */
  lemma {:induction false} NoFitWithoutFirstLetter(s: string, i: nat, kws: seq<string>)
    requires i < |s|
    requires forall j :: 0 <= j < |kws| ==> kws[j] != [] && kws[j][0] != s[i]
    ensures !SomeKeywordFits(s, i, kws)
    decreases |kws|
  {
    if kws != [] {
      NoFitWithoutFirstLetter(s, i, kws[1..]);
    }
  }

  /** Breaks go only in front of `A`, `F`, `W` or `E`: `BEFORE`, for one,
      is not on the list and gets none. */
  lemma TriggerBreakLetters(s: string, i: nat)
    requires i < |s| && KeywordAt(s, i, TriggerKeywords)
    ensures s[i] == 'A' || s[i] == 'F' || s[i] == 'W' || s[i] == 'E'
  {
    if !(s[i] == 'A' || s[i] == 'F' || s[i] == 'W' || s[i] == 'E') {
      NoFitWithoutFirstLetter(s, i, TriggerKeywords);
    }
  }

  // ---------------------------------------------------------------------
  // Properties of the paths
  // ---------------------------------------------------------------------

  /** Two tables share a trigger file exactly when they share a name. */
  lemma TriggerFileInjective(a: string, b: string)
    ensures TriggerFile(a) == TriggerFile(b) <==> a == b
  {
    if TriggerFile(a) == TriggerFile(b) {
      assert |a| == |b|;
      assert a == TriggerFile(a)[12..12 + |a|];
      assert b == TriggerFile(b)[12..12 + |b|];
    }
  }

  /** The reset wipes `app/triggers`, not `db/triggers`: every trigger
      file, and the trigger directory, come through it unchanged. */
  lemma ResetSparesTriggerFiles(files: map<string, string>, dirs: set<string>, table: string)
    ensures TriggerFile(table) in WipeFiles(files, ResetDir) <==> TriggerFile(table) in files
    ensures TriggerFile(table) in files ==> WipeFiles(files, ResetDir)[TriggerFile(table)] == files[TriggerFile(table)]
    ensures TriggersDir in WipeDirs(dirs, ResetDir) <==> TriggersDir in dirs
  {
    assert TriggerFile(table)[0] == 'd';
    assert !(ResetDir + "/" <= TriggerFile(table));
    WipeSparesOutside(files, ResetDir, TriggerFile(table));
    assert !Wiped(TriggersDir, ResetDir);
  }

  /** After appending the chunks of `ts` to `path`, starting from
      `files0` and `dirs0`. */
  predicate AppendedSoFar(files0: map<string, string>, dirs0: set<string>,
                          files: map<string, string>, dirs: set<string>,
                          path: string, ts: seq<TriggerRow>) {
    && files == files0[path := Content(files0, path) + Written(ts, TriggerChunk)]
    && dirs == dirs0 + {TriggersDir}
  }

  /** One more trigger appended to its table's file. */
  lemma TriggerStep(files0: map<string, string>, dirs0: set<string>,
                    files1: map<string, string>, dirs1: set<string>,
                    files2: map<string, string>, dirs2: set<string>,
                    path: string, ts: seq<TriggerRow>, i: nat)
    requires i < |ts|
    requires i == 0 ==> files1 == files0 && dirs1 == dirs0
    requires i > 0 ==> AppendedSoFar(files0, dirs0, files1, dirs1, path, ts[..i])
    requires files2 == files1[path := Content(files1, path) + TriggerText(ts[i].definition)]
    requires dirs2 == dirs1 + {TriggersDir}
    ensures AppendedSoFar(files0, dirs0, files2, dirs2, path, ts[..i + 1])
  {
    assert TriggerChunk(ts[i]) == TriggerText(ts[i].definition);
    AppendStep(files0, files1, path, ts, i, TriggerChunk);
  }

  /** The lines put for a table with triggers make up its block. */
  lemma BlockLines(lines0: seq<string>, ts: seq<TriggerRow>)
    requires ts != []
    ensures lines0 + [BlockOpen] + Echoes(ts) + [BlockClose] == lines0 + Block(ts)
  {
  }

  /** Appending keeps the old contents of the file in front. */
  lemma AppendedPrefix(files0: map<string, string>, dirs0: set<string>,
                       files: map<string, string>, dirs: set<string>,
                       path: string, ts: seq<TriggerRow>)
    requires AppendedSoFar(files0, dirs0, files, dirs, path, ts)
    ensures path in files && Content(files0, path) <= files[path]
  {
  }

  // ---------------------------------------------------------------------
  // The operations
  // ---------------------------------------------------------------------

  class TriggersOperations {
    /** The connection's answer to `triggers(table)`, for every table. */
    const triggersOf: string -> seq<TriggerRow>
    /** The application's files, which the operations write. */
    const fs: FileSystem
    var resetDone: bool

    constructor (triggersOf: string -> seq<TriggerRow>, fs: FileSystem)
      ensures this.triggersOf == triggersOf && this.fs == fs && !resetDone
    {
      this.triggersOf := triggersOf;
      this.fs := fs;
      resetDone := false;
    }

    /** Nothing at all for a table without triggers; otherwise the block
        on the stream and one chunk per trigger, in order, appended to the
        table's file, whose old contents stay in front. */
    method TriggersCreation(tableName: string, stream: Stream)
      modifies fs, stream
      ensures var ts := triggersOf(tableName);
        ts == [] ==> fs.files == old(fs.files) && fs.dirs == old(fs.dirs)
      ensures var ts := triggersOf(tableName); var path := TriggerFile(tableName);
        ts != [] ==>
          && fs.files == old(fs.files)[path := Content(old(fs.files), path) + Written(ts, TriggerChunk)]
          && fs.dirs == old(fs.dirs) + {TriggersDir}
          && Content(old(fs.files), path) <= fs.files[path]
      ensures stream.lines == old(stream.lines) + Block(triggersOf(tableName))
    {
      var triggers := triggersOf(tableName);
      if triggers == [] {
        return;
      }
      ghost var lines0 := stream.lines;
      stream.Puts(BlockOpen);
      EachTrigger(tableName, triggers, stream);
      stream.Puts(BlockClose);
      BlockLines(lines0, triggers);
    }

    /** The loop of `triggers_creation`: for each trigger, in order, its
        echo on the stream and its chunk appended to the table's file. */
    method EachTrigger(tableName: string, triggers: seq<TriggerRow>, stream: Stream)
      requires triggers != []
      modifies fs, stream
      ensures stream.lines == old(stream.lines) + Echoes(triggers)
      ensures AppendedSoFar(old(fs.files), old(fs.dirs), fs.files, fs.dirs, TriggerFile(tableName), triggers)
      ensures Content(old(fs.files), TriggerFile(tableName)) <= fs.files[TriggerFile(tableName)]
    {
      var path := TriggerFile(tableName);
      ghost var files0, dirs0, lines0 := fs.files, fs.dirs, stream.lines;
      var i := 0;
      while i < |triggers|
        invariant 0 <= i <= |triggers|
        invariant stream.lines == lines0 + Echoes(triggers[..i])
        invariant i == 0 ==> fs.files == files0 && fs.dirs == dirs0
        invariant i > 0 ==> AppendedSoFar(files0, dirs0, fs.files, fs.dirs, path, triggers[..i])
      {
        EchoesStep(triggers, i);
        stream.Puts(Echo(triggers[i]));
        ghost var files1, dirs1 := fs.files, fs.dirs;
        AddTriggersInFile(tableName, triggers[i].definition);
        TriggerStep(files0, dirs0, files1, dirs1, fs.files, fs.dirs, path, triggers, i);
        i := i + 1;
      }
      assert triggers[..i] == triggers;
      AppendedPrefix(files0, dirs0, fs.files, fs.dirs, path, triggers);
    }

    /** Wipes the entries of `app/triggers` on the first call only; every
        later call on the same object changes nothing. */
    method ResetTriggersFolder()
      modifies this, fs
      ensures resetDone
      ensures old(resetDone) ==> fs.files == old(fs.files) && fs.dirs == old(fs.dirs)
      ensures !old(resetDone) ==>
        fs.files == WipeFiles(old(fs.files), ResetDir) && fs.dirs == WipeDirs(old(fs.dirs), ResetDir)
    {
      if resetDone {
        return;
      }
      fs.RemoveEntries(ResetDir);
      resetDone := true;
    }

    /** Creates `db/triggers` if needed and the table's file if it is
        missing, then appends the formatted definition: nothing is ever
        truncated. */
    method AddTriggersInFile(fileName: string, triggerContent: string)
      modifies fs
      ensures fs.files == old(fs.files)[TriggerFile(fileName) := Content(old(fs.files), TriggerFile(fileName)) + TriggerText(triggerContent)]
      ensures fs.dirs == old(fs.dirs) + {TriggersDir}
    {
      if !fs.DirExists(TriggersDir) {
        fs.MkdirP(TriggersDir);
      }
      var filePath := TriggerFile(fileName);
      ghost var files0 := fs.files;
      if !fs.FileExists(filePath) {
        fs.Truncate(filePath);
      }
      assert Content(fs.files, filePath) == Content(files0, filePath);
      var content := Normalise(triggerContent);
      var formattedSql := InsertBreaks(content, TriggerKeywords);
      assert formattedSql + ";" + "\n" + "\n" == TriggerText(triggerContent);
      fs.Append(filePath, formattedSql + ";" + "\n" + "\n");
    }
  }
}

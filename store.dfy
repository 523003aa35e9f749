/** The state around the text pipeline: the project's files, modelled as a
    map from a path relative to the application root to its contents plus
    the set of directories, and the schema dump stream, modelled as the
    sequence of lines written to it (one element per `puts`). */
module Store {
  import opened Text

  /** What a file holds; a missing file reads as empty, which is also what
      `File.open(path, 'a')` starts from when it creates one. */
  function Content(files: map<string, string>, path: string): string {
    if path in files then files[path] else ""
  }

  /** One written artifact: the formatted text, `";"`, then the two newlines
      of the two bare `file.puts`. */
  function Chunk(formatted: string): string {
    formatted + ";" + "\n" + "\n"
  }

  /** A chunk is the formatted text followed by `;` and two newlines. */
  lemma ChunkPrefix(f: string)
    ensures var r := Chunk(f);
      |r| == |f| + 3 && r[..|r| - 3] == f && r[|r| - 3..] == ";\n\n"
  {
  }

  /** What a run of writes adds to one file: the chunk of each item, in order. */
  function Written<T>(items: seq<T>, chunk: T -> string): string
    decreases |items|
  {
    if items == [] then [] else Written(items[..|items| - 1], chunk) + chunk(items[|items| - 1])
  }

  /** Writing two runs one after the other writes their texts one after the other. */
  lemma {:induction false} WrittenAppend<T>(xs: seq<T>, ys: seq<T>, chunk: T -> string)
    ensures Written(xs + ys, chunk) == Written(xs, chunk) + Written(ys, chunk)
    decreases |ys|
  {
    if ys == [] {
      assert xs + ys == xs;
    } else {
      var zs := ys[..|ys| - 1];
      assert (xs + ys)[..|xs + ys| - 1] == xs + zs;
      WrittenAppend(xs, zs, chunk);
    }
  }

  /** What the first `k` writes left is a prefix of what all of them leave. */
  lemma WrittenPrefix<T>(items: seq<T>, k: nat, chunk: T -> string)
    requires k <= |items|
    ensures Written(items[..k], chunk) <= Written(items, chunk)
  {
    assert items[..k] + items[k..] == items;
    WrittenAppend(items[..k], items[k..], chunk);
  }

  /** Emptying a file and then appending to it leaves just what was appended. */
  lemma TruncateThenAppend(files: map<string, string>, path: string, text: string)
    ensures var emptied := files[path := ""];
      emptied[path := Content(emptied, path) + text] == files[path := text]
  {
    assert [] + text == text;
  }

  /** One more append in a run of appends of `items` to `path`: starting from
      `files0`, the file gains the chunks written so far, and when nothing
      was written yet the files are still `files0`. */
  lemma AppendStep<T>(files0: map<string, string>, files: map<string, string>, path: string,
                      items: seq<T>, i: nat, chunk: T -> string)
    requires i < |items|
    requires i == 0 ==> files == files0
    requires i > 0 ==> files == files0[path := Content(files0, path) + Written(items[..i], chunk)]
    ensures files[path := Content(files, path) + chunk(items[i])]
      == files0[path := Content(files0, path) + Written(items[..i + 1], chunk)]
  {
    assert items[..i + 1][..i] == items[..i];
    if i == 0 {
      assert Written(items[..i + 1], chunk) == [] + chunk(items[i]);
      assert [] + chunk(items[i]) == chunk(items[i]);
    } else {
      var a := Written(items[..i], chunk);
      assert Content(files0, path) + a + chunk(items[i]) == Content(files0, path) + (a + chunk(items[i]));
    }
  }

  /** The files after writing each of `items` in order to its own file
      `path(x)`, replacing whatever was there. */
  function Rewritten<T>(files: map<string, string>, items: seq<T>,
                        path: T -> string, chunk: T -> string): map<string, string>
    decreases |items|
  {
    if items == [] then files
    else
      var last := items[|items| - 1];
      Rewritten(files, items[..|items| - 1], path, chunk)[path(last) := chunk(last)]
  }

  /** The glob of `dir` followed by `/` and a star names the entries directly under `dir` whose
      names do not start with a dot; `rm_rf` removes each of them with
      everything below it. */
  predicate Wiped(path: string, dir: string) {
    |dir| + 1 < |path| && path[..|dir| + 1] == dir + "/" && path[|dir| + 1] != '.'
  }

  /** The files left after removing every globbed entry under `dir`. */
  function WipeFiles(files: map<string, string>, dir: string): (r: map<string, string>)
    ensures forall p :: p in r <==> p in files && !Wiped(p, dir)
    ensures forall p :: p in r ==> r[p] == files[p]
  {
    map p | p in files && !Wiped(p, dir) :: files[p]
  }

  /** The directories left after the same removal. */
  function WipeDirs(dirs: set<string>, dir: string): (r: set<string>)
    ensures forall d :: d in r <==> d in dirs && !Wiped(d, dir)
  {
    set d | d in dirs && !Wiped(d, dir)
  }

  /** Wiping twice is wiping once. */
  lemma WipeIdempotent(files: map<string, string>, dirs: set<string>, dir: string)
    ensures WipeFiles(WipeFiles(files, dir), dir) == WipeFiles(files, dir)
    ensures WipeDirs(WipeDirs(dirs, dir), dir) == WipeDirs(dirs, dir)
  {
  }

  /** A path that does not start with `dir + "/"` is never wiped, whatever
      its contents: the removal keeps it and its contents. */
  lemma WipeSparesOutside(files: map<string, string>, dir: string, p: string)
    requires !(dir + "/" <= p)
    ensures p in WipeFiles(files, dir) <==> p in files
    ensures p in files ==> WipeFiles(files, dir)[p] == files[p]
  {
  }

  /** The directory itself is kept, and so is every dot entry directly under it. */
  lemma WipeKeepsDotEntries(files: map<string, string>, dir: string, name: string)
    requires name != [] && name[0] == '.'
    ensures var p := dir + "/" + name;
      (p in WipeFiles(files, dir) <==> p in files)
      && (dir in WipeFiles(files, dir) <==> dir in files)
  {
    var p := dir + "/" + name;
    assert p[|dir| + 1] == '.';
  }

  /** Three `puts` in a row add the three lines in order. */
  lemma PutThree(lines: seq<string>, block: seq<string>)
    requires |block| == 3
    ensures lines + [block[0]] + [block[1]] + [block[2]] == lines + block
  {
  }

  /** Six `puts` in a row add the six lines in order. */
  lemma PutSix(lines: seq<string>, block: seq<string>)
    requires |block| == 6
    ensures lines + [block[0]] + [block[1]] + [block[2]] + [block[3]] + [block[4]] + [block[5]] == lines + block
  {
  }

  /** The application's files and directories. */
  class FileSystem {
    var files: map<string, string>
    var dirs: set<string>

    constructor (files0: map<string, string>, dirs0: set<string>)
      ensures files == files0 && dirs == dirs0
    {
      files := files0;
      dirs := dirs0;
    }

    /** `path.exist?` for a directory. */
    predicate DirExists(path: string)
      reads this
    {
      path in dirs
    }

    /** `File.exist?(path)`. */
    predicate FileExists(path: string)
      reads this
    {
      path in files
    }

    /** `FileUtils.mkdir_p path`. */
    method MkdirP(path: string)
      modifies this
      ensures dirs == old(dirs) + {path}
      ensures files == old(files)
    {
      dirs := dirs + {path};
    }

    /** `File.open(path, "w") {}`: the file exists and is empty. */
    method Truncate(path: string)
      modifies this
      ensures files == old(files)[path := ""]
      ensures dirs == old(dirs)
    {
      files := files[path := ""];
    }

    /** `File.open(path, 'a') { |file| file.write(text) }`: the old contents
        stay in front. */
    method Append(path: string, text: string)
      modifies this
      ensures files == old(files)[path := Content(old(files), path) + text]
      ensures Content(old(files), path) <= files[path]
      ensures dirs == old(dirs)
    {
      files := files[path := Content(files, path) + text];
    }

    /** Appends `chunk(x)` to `path` for each `x` of `items`, in order. */
    method AppendEach<T>(path: string, items: seq<T>, chunk: T -> string)
      modifies this
      ensures items == [] ==> files == old(files)
      ensures items != [] ==> files == old(files)[path := Content(old(files), path) + Written(items, chunk)]
      ensures dirs == old(dirs)
    {
      var i := 0;
      while i < |items|
        invariant 0 <= i <= |items|
        invariant i == 0 ==> files == old(files)
        invariant i > 0 ==> files == old(files)[path := Content(old(files), path) + Written(items[..i], chunk)]
        invariant dirs == old(dirs)
      {
        AppendStep(old(files), files, path, items, i, chunk);
        Append(path, chunk(items[i]));
        i := i + 1;
      }
      assert items[..i] == items;
    }

    /** For each `x` of `items`, in order: creates `dir` if it is missing,
        then empties `path(x)` and writes `chunk(x)` into it. */
    method RewriteEach<T>(dir: string, items: seq<T>, path: T -> string, chunk: T -> string)
      modifies this
      ensures files == Rewritten(old(files), items, path, chunk)
      ensures dirs == if items == [] then old(dirs) else old(dirs) + {dir}
    {
      var i := 0;
      while i < |items|
        invariant 0 <= i <= |items|
        invariant files == Rewritten(old(files), items[..i], path, chunk)
        invariant dirs == if i == 0 then old(dirs) else old(dirs) + {dir}
      {
        if !DirExists(dir) {
          MkdirP(dir);
        }
        var p := path(items[i]);
        var text := chunk(items[i]);
        ghost var files0 := files;
        Truncate(p);
        Append(p, text);
        TruncateThenAppend(files0, p, text);
        assert items[..i + 1][..i] == items[..i];
        i := i + 1;
      }
      assert items[..i] == items;
    }

    /** `FileUtils.rm_rf` of every globbed entry under `dir`. */
    method RemoveEntries(dir: string)
      modifies this
      ensures files == WipeFiles(old(files), dir)
      ensures dirs == WipeDirs(old(dirs), dir)
    {
      files := map p | p in files && !Wiped(p, dir) :: files[p];
      dirs := set d | d in dirs && !Wiped(d, dir);
    }
  }

  /** The schema dump stream, as the lines put on it. */
  class Stream {
    var lines: seq<string>

    constructor (lines0: seq<string>)
      ensures lines == lines0
    {
      lines := lines0;
    }

    /** `stream.puts(line)`. */
    method Puts(line: string)
      modifies this
      ensures lines == old(lines) + [line]
    {
      lines := lines + [line];
    }
  }
}

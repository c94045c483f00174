/**
 * `findFiles` of scripts/fix-router-imports.js over an abstract directory
 * tree. A path is the list of its components below the starting directory's
 * own path; `readdirSync` order is the order of each directory's entries.
 * `statSync` follows links, so an entry is what it resolves to: a file, a
 * directory, or something else (a socket, a device), which is skipped.
 */
module SourceScan {
  import opened Strings

  datatype Entry =
    | File(name: string)
    | Dir(name: string, children: seq<Entry>)
    | Other(name: string)

  const DefaultExtensions: seq<string> := [".ts", ".tsx", ".js", ".jsx"]

  /** `extensions.some(ext => item.endsWith(ext))`. */
  predicate HasExtension(name: string, exts: seq<string>) {
    exists e :: e in exts && EndsWith(name, e)
  }

  /** A directory is entered unless its name starts with '.' or is `node_modules`. */
  predicate Entered(name: string) {
    !StartsWith(name, ".") && name != "node_modules"
  }

  /** The files `traverse` collects, depth first, in directory order. */
  function FindFiles(dir: seq<string>, items: seq<Entry>, exts: seq<string>): seq<seq<string>>
    decreases items, 1
  {
    if items == [] then [] else Collect(dir, items[0], exts) + FindFiles(dir, items[1..], exts)
  }

  /** What one entry of directory `dir` adds: an entered directory's files, or the file itself. */
  function Collect(dir: seq<string>, e: Entry, exts: seq<string>): seq<seq<string>>
    decreases e, 0
  {
    match e
    case Dir(n, children) => if Entered(n) then FindFiles(dir + [n], children, exts) else []
    case File(n) => if HasExtension(n, exts) then [dir + [n]] else []
    case Other(_) => []
  }

  /** Entry `e` leads to the file at relative path `rel`, which has a listed extension, through entered directories only. */
  predicate EntryFound(e: Entry, rel: seq<string>, exts: seq<string>)
    decreases e, 0
  {
    match e
    case File(n) => rel == [n] && HasExtension(n, exts)
    case Dir(n, children) => |rel| > 1 && rel[0] == n && Entered(n) && Found(children, rel[1..], exts)
    case Other(_) => false
  }

  /** Some entry of `items` leads to the file at `rel`. */
  predicate Found(items: seq<Entry>, rel: seq<string>, exts: seq<string>)
    decreases items, 1
  {
    exists k :: 0 <= k < |items| && EntryFound(items[k], rel, exts)
  }

  lemma FoundCons(items: seq<Entry>, rel: seq<string>, exts: seq<string>)
    requires items != []
    ensures Found(items, rel, exts) <==> EntryFound(items[0], rel, exts) || Found(items[1..], rel, exts)
  {
    if Found(items, rel, exts) && !EntryFound(items[0], rel, exts) {
      var k :| 0 <= k < |items| && EntryFound(items[k], rel, exts);
      assert items[1..][k - 1] == items[k];
    }
    if Found(items[1..], rel, exts) {
      var k :| 0 <= k < |items[1..]| && EntryFound(items[1..][k], rel, exts);
      assert items[k + 1] == items[1..][k];
    }
  }

  /** A path is listed exactly when it lies under `dir` and some entry leads to it. */
  lemma {:induction false} FindFilesIff(dir: seq<string>, items: seq<Entry>, exts: seq<string>, path: seq<string>)
    ensures path in FindFiles(dir, items, exts) <==>
              |dir| < |path| && path[..|dir|] == dir && Found(items, path[|dir|..], exts)
    decreases items, 1
  {
    if items != [] {
      CollectIff(dir, items[0], exts, path);
      FindFilesIff(dir, items[1..], exts, path);
      if |dir| < |path| {
        FoundCons(items, path[|dir|..], exts);
      }
    }
  }

  /** The same for a single entry. */
  lemma {:induction false} CollectIff(dir: seq<string>, e: Entry, exts: seq<string>, path: seq<string>)
    ensures path in Collect(dir, e, exts) <==>
              |dir| < |path| && path[..|dir|] == dir && EntryFound(e, path[|dir|..], exts)
    decreases e, 0
  {
    match e
    case Dir(n, children) =>
      if Entered(n) {
        FindFilesIff(dir + [n], children, exts, path);
        if |dir| + 1 < |path| {
          var rel := path[|dir|..];
          assert path[..|dir| + 1] == dir + [n] <==> path[..|dir|] == dir && path[|dir|] == n;
          assert path[|dir| + 1..] == rel[1..];
        }
      }
    case File(n) =>
      if |dir| < |path| {
        assert path == dir + [n] <==> path[..|dir|] == dir && path[|dir|..] == [n];
      }
    case Other(_) =>
  }

  /** Every listed path has a listed extension and passes through no dot-directory and no `node_modules`. */
  lemma {:induction false} FoundShape(items: seq<Entry>, rel: seq<string>, exts: seq<string>)
    requires Found(items, rel, exts)
    ensures rel != [] && HasExtension(rel[|rel| - 1], exts)
    ensures forall j :: 0 <= j < |rel| - 1 ==> Entered(rel[j])
    decreases items
  {
    var k :| 0 <= k < |items| && EntryFound(items[k], rel, exts);
    match items[k]
    case File(n) =>
    case Dir(n, children) =>
      FoundShape(children, rel[1..], exts);
      forall j | 0 <= j < |rel| - 1
        ensures Entered(rel[j])
      {
        if j > 0 {
          assert rel[j] == rel[1..][j - 1];
        }
      }
  }

  /** What `findFiles` returns is only source files outside dot-directories and `node_modules`. */
  lemma ListedFilesAreSources(dir: seq<string>, items: seq<Entry>, exts: seq<string>, path: seq<string>)
    requires path in FindFiles(dir, items, exts)
    ensures |path| > |dir| && path[..|dir|] == dir
    ensures HasExtension(path[|path| - 1], exts)
    ensures forall j :: |dir| <= j < |path| - 1 ==> Entered(path[j])
  {
    FindFilesIff(dir, items, exts, path);
    var rel := path[|dir|..];
    FoundShape(items, rel, exts);
    assert path[|path| - 1] == rel[|rel| - 1];
    forall j | |dir| <= j < |path| - 1
      ensures Entered(path[j])
    {
      assert path[j] == rel[j - |dir|];
    }
  }

  /** A skipped directory contributes nothing, whatever it holds. */
  lemma SkippedDirectoryIgnored(dir: seq<string>, n: string, children: seq<Entry>, rest: seq<Entry>, exts: seq<string>)
    requires !Entered(n)
    ensures FindFiles(dir, [Dir(n, children)] + rest, exts) == FindFiles(dir, rest, exts)
  {
    assert ([Dir(n, children)] + rest)[1..] == rest;
    assert ([Dir(n, children)] + rest)[0] == Dir(n, children);
  }

  /** Dot-files themselves are not skipped: only directories are. */
  lemma DotFileListed()
    ensures FindFiles([], [File(".eslintrc.js")], DefaultExtensions) == [[".eslintrc.js"]]
  {
    assert EndsWith(".eslintrc.js", ".js");
    assert HasExtension(".eslintrc.js", DefaultExtensions);
    assert [File(".eslintrc.js")][1..] == [];
    assert [] + [".eslintrc.js"] == [".eslintrc.js"];
  }
}

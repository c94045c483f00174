/**
 * The driver of scripts/fix-router-imports.js: `main` lists the source files
 * under the project root, runs `fixRouterImports` on each in order, counts
 * the fixed ones and restarts the dev server when any was fixed; the
 * closing lines decide how the process exits. The file system is given as
 * the tree and, per path, the outcome of reading and writing that file.
 */
module FixScript {
  import opened Options
  import opened Strings
  import opened RouterRewrite
  import opened SourceScan

  /** Per file path, how its read and write go. */
  type FileSystem = seq<string> -> Io

  /** How many of `files` `fixRouterImports` reports as fixed. */
  function FixedCount(files: seq<seq<string>>, fs: FileSystem): (n: nat)
    ensures n <= |files|
    ensures n == 0 <==> forall i :: 0 <= i < |files| ==> !FixRouterImports(fs(files[i])).result
    ensures n == |files| <==> forall i :: 0 <= i < |files| ==> FixRouterImports(fs(files[i])).result
  {
    if files == [] then 0
    else
      var rest := FixedCount(files[1..], fs);
      assert forall i :: 1 <= i < |files| ==> files[i] == files[1..][i - 1];
      (if FixRouterImports(fs(files[0])).result then 1 else 0) + rest
  }

  /** The files written, in order, with their new content. */
  function Writes(files: seq<seq<string>>, fs: FileSystem): (w: seq<(seq<string>, string)>)
    ensures |w| <= |files|
    ensures forall k :: 0 <= k < |w| ==> w[k].0 in files
  {
    if files == [] then []
    else
      var r := FixRouterImports(fs(files[0]));
      (if r.written.Some? then [(files[0], r.written.value)] else []) + Writes(files[1..], fs)
  }

  /** The count adds up over consecutive lists of files. */
  lemma {:induction false} FixedCountAppend(a: seq<seq<string>>, b: seq<seq<string>>, fs: FileSystem)
    ensures FixedCount(a + b, fs) == FixedCount(a, fs) + FixedCount(b, fs)
    decreases |a|
  {
    if a == [] {
      assert a + b == b;
    } else {
      assert (a + b)[0] == a[0] && (a + b)[1..] == a[1..] + b;
      FixedCountAppend(a[1..], b, fs);
    }
  }

  /** One file counts exactly when `fixRouterImports` reports it fixed. */
  lemma FixedCountSingle(f: seq<string>, fs: FileSystem)
    ensures FixedCount([f], fs) == if FixRouterImports(fs(f)).result then 1 else 0
  {
    assert [f][1..] == [];
  }

  /** Exactly the fixed files are written: one write per fixed file, and every fixed file is written. */
  lemma {:induction false} WritesMatchCount(files: seq<seq<string>>, fs: FileSystem)
    ensures |Writes(files, fs)| == FixedCount(files, fs)
    ensures forall i :: 0 <= i < |files| && FixRouterImports(fs(files[i])).result ==>
              exists k :: 0 <= k < |Writes(files, fs)| && Writes(files, fs)[k].0 == files[i]
  {
    if files != [] {
      WritesMatchCount(files[1..], fs);
    }
    forall i | 0 <= i < |files| && FixRouterImports(fs(files[i])).result
      ensures exists k :: 0 <= k < |Writes(files, fs)| && Writes(files, fs)[k].0 == files[i]
    {
      FixedFileWritten(files, fs, i);
    }
  }

  /** The `i`-th file, when `fixRouterImports` reports it fixed, has a write. */
  lemma {:induction false} FixedFileWritten(files: seq<seq<string>>, fs: FileSystem, i: nat)
    requires i < |files| && FixRouterImports(fs(files[i])).result
    ensures exists k :: 0 <= k < |Writes(files, fs)| && Writes(files, fs)[k].0 == files[i]
    decreases i
  {
    var r := FixRouterImports(fs(files[0]));
    var head: seq<(seq<string>, string)> := if r.written.Some? then [(files[0], r.written.value)] else [];
    var tail := Writes(files[1..], fs);
    assert Writes(files, fs) == head + tail;
    if i == 0 {
      assert Writes(files, fs)[0].0 == files[0];
    } else {
      assert files[i] == files[1..][i - 1];
      FixedFileWritten(files[1..], fs, i - 1);
      var k :| 0 <= k < |tail| && tail[k].0 == files[i];
      assert Writes(files, fs)[|head| + k] == tail[k];
    }
  }

  /** Every write puts back the rewritten content of a file that was read, and that content is clean. */
  lemma {:induction false} WrittenContentIsRewrite(files: seq<seq<string>>, fs: FileSystem, k: nat)
    requires k < |Writes(files, fs)|
    ensures var (path, content) := Writes(files, fs)[k];
            && fs(path).read.Some? && Contains(fs(path).read.value, NavigationModule) && fs(path).writeOk
            && content == Rewrite(fs(path).read.value)
            && NoMatch(content, FromNavigation) && Normalised(content)
  {
    var r := FixRouterImports(fs(files[0]));
    var head: seq<(seq<string>, string)> := if r.written.Some? then [(files[0], r.written.value)] else [];
    assert Writes(files, fs) == head + Writes(files[1..], fs);
    if k < |head| {
      WrittenTextIsClean(fs(files[0]));
    } else {
      WrittenContentIsRewrite(files[1..], fs, k - |head|);
    }
  }

  /** What `main` reports, and the status the process then exits with. */
  datatype Summary = Summary(processed: nat, fixed: nat, restartsDevServer: bool, exitStatus: int)

  /**
   * The run of `main` on the project root `root`, whose entries are `tree`,
   * as the script is written: `main` completes, and the closing lines then
   * end the process with status 1 (see `SuccessfulRunExitsWithFailure`).
   */
  function Run(root: seq<string>, tree: seq<Entry>, fs: FileSystem): (s: Summary)
    ensures s.fixed <= s.processed
    ensures s.restartsDevServer <==> s.fixed > 0
    ensures s.exitStatus == 1
  {
    var files := FindFiles(root, tree, DefaultExtensions);
    var fixed := FixedCount(files, fs);
    Summary(|files|, fixed, fixed > 0, ExitStatus(MainAsWritten(Returned)))
  }

  /** The same run with `main` declared `async`: everything but the exit status agrees, and that is 0. */
  function RunCorrected(root: seq<string>, tree: seq<Entry>, fs: FileSystem): (s: Summary)
    ensures s == Run(root, tree, fs).(exitStatus := 0)
  {
    var files := FindFiles(root, tree, DefaultExtensions);
    var fixed := FixedCount(files, fs);
    Summary(|files|, fixed, fixed > 0, ScriptExit(Returned))
  }

  /** The dev server is restarted exactly when some listed source file mentions the module and could be written back. */
  lemma RestartIff(root: seq<string>, tree: seq<Entry>, fs: FileSystem)
    ensures Run(root, tree, fs).restartsDevServer <==>
              exists path :: path in FindFiles(root, tree, DefaultExtensions) &&
                fs(path).read.Some? && Contains(fs(path).read.value, NavigationModule) && fs(path).writeOk
  {
    var files := FindFiles(root, tree, DefaultExtensions);
    if Run(root, tree, fs).restartsDevServer {
      var i :| 0 <= i < |files| && FixRouterImports(fs(files[i])).result;
      assert files[i] in files;
    }
  }

  // ---------------------------------------------------------------------
  // How the process exits.
  // ---------------------------------------------------------------------

  /** How `main`'s body ends: normally, or with an exception escaping (a failing `readdirSync` or `statSync`). */
  datatype Completion = Returned | Threw

  /** The value a call of `main` produces, as far as the closing lines care. */
  datatype CallValue = Undefined | Promise(rejected: bool) | Thrown

  /** The plain (not `async`) `main` as written: it returns `undefined`, or throws. */
  function MainAsWritten(c: Completion): CallValue {
    if c == Threw then Thrown else Undefined
  }

  /** `main` declared `async`: its completion settles a promise. */
  function MainAsync(c: Completion): CallValue {
    Promise(c == Threw)
  }

  /**
   * The exit status of `main().catch(error => { ...; process.exit(1) })`
   * given the value of `main()`: a thrown exception escapes before `.catch`
   * is reached, and `.catch` read off `undefined` throws a TypeError; both
   * end the process with status 1. Only a promise has a `.catch`.
   */
  function ExitStatus(v: CallValue): (status: int)
    ensures status == 0 <==> v == Promise(false)
  {
    match v
    case Thrown => 1
    case Undefined => 1
    case Promise(rejected) => if rejected then 1 else 0
  }

  /** As written, the script fails even after a complete, successful run. */
  lemma SuccessfulRunExitsWithFailure()
    ensures ExitStatus(MainAsWritten(Returned)) == 1
    ensures forall c :: ExitStatus(MainAsWritten(c)) != 0
  {
  }

  /** The exit status of the corrected script: 0 exactly when `main` completed. */
  function ScriptExit(c: Completion): (status: int)
    ensures status == 0 <==> c == Returned
    ensures status == 1 <==> c == Threw
  {
    ExitStatus(MainAsync(c))
  }
}

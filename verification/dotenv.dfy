/**
 * How the deploy script reads `.env.local` (`checkEnvironmentVariables` in
 * scripts/deploy.js): the text is split into lines at '\n', each line is
 * split at '=', and a line with a key before its first '=' that does not
 * start with '#' defines the trimmed key as the trimmed rest of the line.
 * A later definition of a key replaces an earlier one.
 */
module DotEnv {
  import opened Options
  import opened Strings
  import opened EnvCheck

  /** One line: `Some((key, value))` when it defines a variable. */
  function ParseLine(line: string): (r: Option<(string, string)>)
  {
    var parts := Split(line, '=');
    var key := parts[0];
    if key != "" && !StartsWith(key, "#") && |parts| > 1 then Some((Trim(key), Trim(Join(parts[1..], '='))))
    else None
  }

  /**
   * A line defines a variable exactly when it has an '=' that is not its
   * first character and it does not start with '#'; the key is the trimmed
   * text before the first '=', the value the trimmed text after it, later
   * '=' signs included. A comment marker after leading spaces is not seen.
   */
  lemma ParseLineMeaning(line: string)
    ensures ParseLine(line).Some? <==> '=' in line && IndexOf(line, '=') > 0 && line[0] != '#'
    ensures ParseLine(line).Some? ==>
              && ParseLine(line).value.0 == Trim(line[..IndexOf(line, '=')])
              && ParseLine(line).value.1 == Trim(line[IndexOf(line, '=') + 1..])
  {
    var parts := Split(line, '=');
    SplitHead(line, '=');
    if '=' in line {
      var i := IndexOf(line, '=');
      SplitTail(line, '=');
      JoinSplit(line[i + 1..], '=');
      if i > 0 {
        assert parts[0][0] == line[0];
        assert StartsWith(parts[0], "#") <==> parts[0][0] == '#';
      }
    } else {
      assert |parts| == 1;
    }
  }

  /** A line starting with '#' never defines anything. */
  lemma CommentLineIgnored(line: string)
    requires |line| > 0 && line[0] == '#'
    ensures ParseLine(line).None?
  {
    ParseLineMeaning(line);
  }

  /** A line without '=' never defines anything. */
  lemma LineWithoutEqualsIgnored(line: string)
    requires '=' !in line
    ensures ParseLine(line).None?
  {
    ParseLineMeaning(line);
  }

  /** The variables the lines define, later lines winning. */
  function ParseLines(lines: seq<string>): (vars: Vars)
    decreases |lines|
  {
    if lines == [] then map[]
    else
      var vars := ParseLines(lines[..|lines| - 1]);
      match ParseLine(lines[|lines| - 1])
      case None => vars
      case Some(kv) => vars[kv.0 := kv.1]
  }

  /** True when line `i` defines `key`. */
  predicate Defines(lines: seq<string>, i: int, key: string)
    requires 0 <= i < |lines|
  {
    ParseLine(lines[i]).Some? && ParseLine(lines[i]).value.0 == key
  }

  /** A key is set exactly when some line defines it. */
  lemma {:induction false} KeySetIff(lines: seq<string>, key: string)
    ensures key in ParseLines(lines) <==> exists i :: 0 <= i < |lines| && Defines(lines, i, key)
    decreases |lines|
  {
    if lines != [] {
      var n := |lines| - 1;
      var init := lines[..n];
      KeySetIff(init, key);
      var last := ParseLine(lines[n]);
      assert ParseLines(lines) == if last.None? then ParseLines(init) else ParseLines(init)[last.value.0 := last.value.1];
      assert key in ParseLines(lines) <==> key in ParseLines(init) || Defines(lines, n, key);
      forall i | 0 <= i < n
        ensures Defines(init, i, key) == Defines(lines, i, key)
      {
        assert init[i] == lines[i];
      }
    }
  }

  /** The value of a key is the one its last defining line gives. */
  lemma {:induction false} LastDefinitionWins(lines: seq<string>, i: nat, key: string)
    requires i < |lines| && Defines(lines, i, key)
    requires forall j :: i < j < |lines| ==> !Defines(lines, j, key)
    ensures key in ParseLines(lines) && ParseLines(lines)[key] == ParseLine(lines[i]).value.1
    decreases |lines|
  {
    var init := lines[..|lines| - 1];
    if i < |lines| - 1 {
      assert !Defines(lines, |lines| - 1, key);
      forall j | i < j < |init|
        ensures !Defines(init, j, key)
      {
        assert !Defines(lines, j, key);
      }
      LastDefinitionWins(init, i, key);
    }
  }

  /** The variables of a file's text. */
  function ParseEnvFile(content: string): Vars
  {
    ParseLines(Split(content, '\n'))
  }

  /**
   * `checkEnvironmentVariables`: a missing file fails; otherwise the check
   * passes when no variable the environment requires is unset or empty.
   * `None` stands for the TypeError thrown when `env` names a member
   * inherited from `Object.prototype`.
   */
  function CheckEnvironmentVariables(env: string, file: Option<string>): (ok: Option<bool>)
    ensures file.None? ==> ok == Some(false)
    ensures file.Some? ==> (ok.None? <==> env in PrototypeKeys)
    ensures file.Some? && env !in PrototypeKeys ==>
              (ok == Some(true) <==> forall v :: v in DeployRequired(env).value ==> !IsMissing(ParseEnvFile(file.value), v))
  {
    match file
    case None => Some(false)
    case Some(content) =>
      match DeployMissing(env, ParseEnvFile(content))
      case None => None
      case Some(missing) =>
        assert missing != [] ==> missing[0] in missing;
        Some(|missing| == 0)
  }

  /** An environment without a required-variable entry passes whenever the file exists. */
  lemma UnlistedEnvironmentPasses(env: string, content: string)
    requires env !in {"development", "staging", "production"} && env !in PrototypeKeys
    ensures CheckEnvironmentVariables(env, Some(content)) == Some(true)
  {
  }

  /** A name inherited from `Object.prototype` makes the check throw, whether or not the file defines anything. */
  lemma PrototypeNameThrows(env: string, file: Option<string>)
    requires env in PrototypeKeys
    ensures CheckEnvironmentVariables(env, file) == if file.Some? then None else Some(false)
  {
  }

  /** A variable assigned nothing (`KEY=`) by its last definition counts as missing. */
  lemma {:induction false} EmptyAssignmentIsMissing(lines: seq<string>, i: nat, key: string)
    requires i < |lines| && Defines(lines, i, key) && ParseLine(lines[i]).value.1 == ""
    requires forall j :: i < j < |lines| ==> !Defines(lines, j, key)
    ensures IsMissing(ParseLines(lines), key)
  {
    LastDefinitionWins(lines, i, key);
  }

  /** The example line has its first '=' at index 3. */
  lemma ExampleLineSplits()
    ensures '=' in " #A=1" && IndexOf(" #A=1", '=') == 3
    ensures " #A=1"[..3] == " #A" && " #A=1"[4..] == "1"
  {
    var line := " #A=1";
    assert line[0] != '=' && line[1] != '=' && line[2] != '=' && line[3] == '=';
    assert line[1..][1..][1..][0] == '=';
  }

  /** Trimming the example key drops the leading space only. */
  lemma ExampleKeyTrims()
    ensures Trim(" #A") == "#A" && Trim("1") == "1"
  {
    assert SkipSpaces(" #A", 1) == 1;
    assert SkipSpaces(" #A", 0) == 1;
    assert " #A"[1..] == "#A";
    TrimOfTrimmed("#A");
    TrimOfTrimmed("1");
  }

  /** An indented comment is read as a definition of a key starting with '#'. */
  lemma IndentedCommentIsRead()
    ensures ParseLine(" #A=1") == Some(("#A", "1"))
  {
    ExampleLineSplits();
    ExampleKeyTrims();
    ParseLineMeaning(" #A=1");
  }
}

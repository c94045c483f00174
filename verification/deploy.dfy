/**
 * The deployment sequence of scripts/deploy.js. Every shell command is a
 * text, and `succeeds` says how each one exits; `buildDirExists` says
 * whether `.next` exists after the build, and `jsonWritten` whether
 * `fs.writeFileSync` of firebase.json returns without throwing. The result lists the commands run
 * in order, the hosting section written to firebase.json, whether the smoke
 * step ran, and the exit code.
 */
module Deploy {
  import opened Options
  import opened EnvCheck
  import opened DotEnv
  import opened DeployConfig

  const ValidEnvironments: set<string> := {"development", "staging", "production"}

  const ToolProbes: seq<string> := ["node --version", "npm --version", "git --version"]
  const GitProbe: string := "git rev-parse --git-dir"
  const TestCommands: seq<string> := ["npm run lint", "npm run type-check", "npm run test:coverage", "npm run test:e2e"]
  const BuildCommand: string := "npm run build"
  const HostingDeploy: string := "firebase deploy --only hosting"
  const StagingDeploy: string := "firebase deploy --only hosting:staging"
  const VercelProd: string := "vercel --prod"
  const VercelPreview: string := "vercel"

  /** True when every command in the list exits successfully. */
  predicate AllSucceed(cmds: seq<string>, succeeds: string -> bool) {
    forall k :: 0 <= k < |cmds| ==> succeeds(cmds[k])
  }

  /**
   * Commands run one after another until one fails, as a `try` block of
   * `execSync` calls does: the result is the commands issued and whether all
   * of them succeeded.
   */
  function RunInOrder(cmds: seq<string>, succeeds: string -> bool): (r: (seq<string>, bool))
    ensures r.1 <==> AllSucceed(cmds, succeeds)
    ensures r.1 ==> r.0 == cmds
    ensures !r.1 ==> && 0 < |r.0| <= |cmds| && r.0 == cmds[..|r.0|]
                     && !succeeds(r.0[|r.0| - 1])
                     && AllSucceed(r.0[..|r.0| - 1], succeeds)
  {
    if cmds == [] then ([], true)
    else if !succeeds(cmds[0]) then ([cmds[0]], false)
    else
      var rest := RunInOrder(cmds[1..], succeeds);
      assert rest.1 ==> AllSucceed(cmds, succeeds) by {
        if rest.1 {
          forall k | 0 < k < |cmds|
            ensures succeeds(cmds[k])
          {
            assert cmds[k] == cmds[1..][k - 1];
          }
        }
      }
      assert !rest.1 ==> !AllSucceed(cmds, succeeds) by {
        if !rest.1 {
          assert cmds[1..][|rest.0| - 1] == cmds[|rest.0|];
        }
      }
      ([cmds[0]] + rest.0, rest.1)
  }

  /**
   * `checkPrerequisites`: every tool is probed, even after one is missing;
   * the repository probe runs only when all tools are present.
   */
  function Prerequisites(succeeds: string -> bool): (r: (seq<string>, bool))
    ensures r.1 <==> AllSucceed(ToolProbes, succeeds) && succeeds(GitProbe)
    ensures r.0 == ToolProbes + (if AllSucceed(ToolProbes, succeeds) then [GitProbe] else [])
  {
    var toolsOk := AllSucceed(ToolProbes, succeeds);
    (ToolProbes + (if toolsOk then [GitProbe] else []), toolsOk && succeeds(GitProbe))
  }

  /** The Firebase command: a staging deploy targets the staging site. */
  function FirebaseCommand(env: string): (cmd: string)
    ensures cmd == StagingDeploy <==> env == "staging"
    ensures cmd in {StagingDeploy, HostingDeploy}
  {
    if env == "staging" then StagingDeploy else HostingDeploy
  }

  /** The Vercel command: `--prod` exactly when the configuration says production. */
  function VercelCommand(v: Vercel): (cmd: string)
    ensures cmd == VercelProd <==> v.production
  {
    if v.production then VercelProd else VercelPreview
  }

  /** The hosting section written to firebase.json: the environment's, with `public` replaced. */
  function FirebaseJson(env: string, h: Hosting): (j: Hosting)
    ensures j.public == (if env == "development" then "out" else ".next")
    ensures j.ignore == h.ignore && j.rewrites == h.rewrites && j.headers == h.headers
  {
    h.(public := if env == "development" then "out" else ".next")
  }

  /** `runSmokeTests`: its body has no check that can fail. */
  function RunSmokeTests(env: string): bool {
    true
  }

  /** What a run leaves: commands run, firebase.json's hosting section if written, whether smoke tests ran, the exit code. */
  datatype Deployment = Deployment(commands: seq<string>, firebaseJson: Option<Hosting>, smokeTested: bool, exitCode: int)

  /** `process.env.DEPLOY_TO_VERCEL === 'true'`. */
  predicate VercelRequested(vars: Vars) {
    "DEPLOY_TO_VERCEL" in vars && vars["DEPLOY_TO_VERCEL"] == "true"
  }

  /** The commands after the prerequisites, up to the Firebase deploy. */
  function Rest(env: string): seq<string> {
    (if env != "development" then TestCommands else []) + [BuildCommand, FirebaseCommand(env)]
  }

  /** The commands up to the Firebase deploy, in the order a run issues them. */
  function Plan(env: string): seq<string> {
    ToolProbes + [GitProbe] + Rest(env)
  }

  /** The optional Vercel deploy that ends a successful run; only the three known environments get that far, and each has a Vercel entry. */
  function VercelStep(env: string, vars: Vars): seq<string> {
    var vercel := GetEnvironmentConfig(Some(env), vars).vercel;
    if VercelRequested(vars) && vercel.Some? then [VercelCommand(vercel.value)] else []
  }

  /** True when `p` is a prefix of `s`. */
  predicate IsPrefix(p: seq<string>, s: seq<string>) {
    |p| <= |s| && p == s[..|p|]
  }

  /**
   * The build, the Firebase deploy and the optional Vercel deploy, after
   * `issued`. A failed firebase.json write is caught in `deployToFirebase`,
   * before the Firebase command, and fails the run.
   */
  function Ship(env: string, vars: Vars, succeeds: string -> bool, buildDirExists: bool, jsonWritten: bool, issued: seq<string>): (d: Deployment)
    requires env in ValidEnvironments
    ensures d.exitCode == 0 <==> succeeds(BuildCommand) && buildDirExists && jsonWritten && succeeds(FirebaseCommand(env))
    ensures d.exitCode == 0 ==> d.commands == issued + [BuildCommand, FirebaseCommand(env)] + VercelStep(env, vars)
    ensures d.commands == issued + [BuildCommand] <==> !(succeeds(BuildCommand) && buildDirExists && jsonWritten)
    ensures d.firebaseJson.Some? <==> succeeds(BuildCommand) && buildDirExists && jsonWritten
    ensures d.exitCode != 0 ==> d.exitCode == 1 && IsPrefix(d.commands, issued + [BuildCommand, FirebaseCommand(env)])
                                && |d.commands| > |issued|
    ensures d.firebaseJson.Some? ==> d.firebaseJson.value.public == (if env == "development" then "out" else ".next")
    ensures d.smokeTested <==> d.exitCode == 0 && env != "development"
  {
    var built := issued + [BuildCommand];
    var whole := issued + [BuildCommand, FirebaseCommand(env)];
    assert built == whole[..|built|];
    if !(succeeds(BuildCommand) && buildDirExists) then Deployment(built, None, false, 1)
    else
      var config := GetEnvironmentConfig(Some(env), vars);
      BuiltInsValid(Some(env), vars);
      ValidConfigIff(config);
      var json := FirebaseJson(env, config.firebase.value.hosting.value);
      var deployed := built + [FirebaseCommand(env)];
      assert deployed == whole;
      if !jsonWritten then Deployment(built, None, false, 1)
      else if !succeeds(FirebaseCommand(env)) then Deployment(deployed, Some(json), false, 1)
      else
        var vercel := if VercelRequested(vars) then [VercelCommand(config.vercel.value)] else [];
        var smoked := env != "development" && RunSmokeTests(env);
        Deployment(deployed + vercel, Some(json), smoked, 0)
  }

  /** The tests (outside development), then the rest of the run, after `issued`. */
  function TestAndShip(env: string, vars: Vars, succeeds: string -> bool, buildDirExists: bool, jsonWritten: bool, issued: seq<string>): (d: Deployment)
    requires env in ValidEnvironments
    ensures d.exitCode == 0 <==>
              (env == "development" || AllSucceed(TestCommands, succeeds))
              && succeeds(BuildCommand) && buildDirExists && jsonWritten && succeeds(FirebaseCommand(env))
    ensures d.exitCode == 0 ==> d.commands == issued + Rest(env) + VercelStep(env, vars)
    ensures !jsonWritten ==> forall c :: c in d.commands ==> c in issued || c in TestCommands || c == BuildCommand
    ensures d.firebaseJson.Some? ==> jsonWritten
    ensures d.exitCode != 0 ==> d.exitCode == 1 && IsPrefix(d.commands, issued + Rest(env)) && |d.commands| >= |issued|
    ensures d.firebaseJson.Some? ==> d.firebaseJson.value.public == (if env == "development" then "out" else ".next")
    ensures d.smokeTested <==> d.exitCode == 0 && env != "development"
  {
    var tests := if env != "development" then RunInOrder(TestCommands, succeeds) else ([], true);
    var testsPlanned := if env != "development" then TestCommands else [];
    assert issued + Rest(env) == (issued + testsPlanned) + [BuildCommand, FirebaseCommand(env)];
    if !tests.1 then
      assert issued + tests.0 == (issued + Rest(env))[..|issued| + |tests.0|] by {
        assert tests.0 == TestCommands[..|tests.0|];
      }
      Deployment(issued + tests.0, None, false, 1)
    else
      var d := Ship(env, vars, succeeds, buildDirExists, jsonWritten, issued + tests.0);
      assert tests.0 == testsPlanned;
      d
  }

  /**
   * `deploy`. `vars` is the process environment and `envFile` the text of
   * `.env.local`, if the file exists. Each failing stage exits with 1; the
   * Vercel deploy and the smoke tests cannot fail the run.
   */
  function Deploy(env: string, vars: Vars, envFile: Option<string>, succeeds: string -> bool, buildDirExists: bool, jsonWritten: bool): (d: Deployment)
    ensures d.exitCode in {0, 1}
    ensures env !in ValidEnvironments ==> d == Deployment([], None, false, 1)
    ensures d.firebaseJson.Some? ==> jsonWritten
    ensures d.firebaseJson.Some? ==> d.firebaseJson.value.public == (if env == "development" then "out" else ".next")
    ensures d.smokeTested <==> d.exitCode == 0 && env != "development"
  {
    if env !in ValidEnvironments then Deployment([], None, false, 1)
    else
      var pre := Prerequisites(succeeds);
      if !pre.1 then Deployment(pre.0, None, false, 1)
      else if !ValidateEnvironmentConfig(Some(env), vars) then Deployment(pre.0, None, false, 1)
      else if CheckEnvironmentVariables(env, envFile) != Some(true) then Deployment(pre.0, None, false, 1)
      else TestAndShip(env, vars, succeeds, buildDirExists, jsonWritten, pre.0)
  }

  /**
   * A run exits with 0 exactly when the environment is known and the
   * prerequisites, the variable check, the tests (outside development), the
   * build, the firebase.json write and the Firebase deploy all pass; the configuration check never
   * stops it, because every known environment's entry is valid.
   */
  lemma DeployExitIff(env: string, vars: Vars, envFile: Option<string>, succeeds: string -> bool, buildDirExists: bool, jsonWritten: bool)
    ensures Deploy(env, vars, envFile, succeeds, buildDirExists, jsonWritten).exitCode == 0 <==>
              && env in ValidEnvironments
              && AllSucceed(ToolProbes, succeeds) && succeeds(GitProbe)
              && CheckEnvironmentVariables(env, envFile) == Some(true)
              && (env == "development" || AllSucceed(TestCommands, succeeds))
              && succeeds(BuildCommand) && buildDirExists && jsonWritten
              && succeeds(FirebaseCommand(env))
  {
    BuiltInsValid(Some(env), vars);
  }

  /**
   * A run issues its commands in plan order and stops at the first failing
   * stage: a failed run has issued a prefix of the plan, a successful one
   * the whole plan followed by the optional Vercel deploy.
   */
  lemma DeployFollowsPlan(env: string, vars: Vars, envFile: Option<string>, succeeds: string -> bool, buildDirExists: bool, jsonWritten: bool)
    ensures var d := Deploy(env, vars, envFile, succeeds, buildDirExists, jsonWritten);
            && (d.exitCode == 0 ==> d.commands == Plan(env) + VercelStep(env, vars))
            && (d.exitCode != 0 ==> IsPrefix(d.commands, Plan(env)))
  {
    var pre := ToolProbes + [GitProbe];
    var plan := Plan(env);
    assert plan == pre + Rest(env);
    if env in ValidEnvironments {
      if !AllSucceed(ToolProbes, succeeds) {
        assert ToolProbes == plan[..3];
      } else {
        assert pre == plan[..4];
        var d := TestAndShip(env, vars, succeeds, buildDirExists, jsonWritten, pre);
        if d.exitCode != 0 {
          assert IsPrefix(d.commands, pre + Rest(env));
        }
      }
    }
  }

  /** A run whose firebase.json write fails exits 1 without issuing the Firebase command or anything after it. */
  lemma FailedWriteSkipsFirebase(env: string, vars: Vars, envFile: Option<string>, succeeds: string -> bool, buildDirExists: bool)
    ensures var d := Deploy(env, vars, envFile, succeeds, buildDirExists, false);
            && d.exitCode == 1 && d.firebaseJson.None?
            && HostingDeploy !in d.commands && StagingDeploy !in d.commands
            && VercelProd !in d.commands && VercelPreview !in d.commands
  {
    var d := Deploy(env, vars, envFile, succeeds, buildDirExists, false);
    DeployExitIff(env, vars, envFile, succeeds, buildDirExists, false);
    NoShippingBeforeWrite(d.commands);
  }

  /** The probes, the tests and the build are none of the Firebase and Vercel commands. */
  lemma NoShippingBeforeWrite(cmds: seq<string>)
    requires forall c :: c in cmds ==> c in ToolProbes || c == GitProbe || c in TestCommands || c == BuildCommand
    ensures HostingDeploy !in cmds && StagingDeploy !in cmds && VercelProd !in cmds && VercelPreview !in cmds
  {
    forall c | c in cmds
      ensures c[0] == 'n' || c[0] == 'g'
    {
      if c in ToolProbes {
        var k :| 0 <= k < |ToolProbes| && ToolProbes[k] == c;
      } else if c in TestCommands {
        var k :| 0 <= k < |TestCommands| && TestCommands[k] == c;
      }
    }
  }

  /** The exit code does not depend on how the Vercel command exits. */
  lemma VercelFailureIgnored(env: string, vars: Vars, envFile: Option<string>, s1: string -> bool, s2: string -> bool, buildDirExists: bool, jsonWritten: bool)
    requires forall c :: c != VercelProd && c != VercelPreview ==> s1(c) == s2(c)
    ensures Deploy(env, vars, envFile, s1, buildDirExists, jsonWritten).exitCode == Deploy(env, vars, envFile, s2, buildDirExists, jsonWritten).exitCode
  {
    DeployExitIff(env, vars, envFile, s1, buildDirExists, jsonWritten);
    DeployExitIff(env, vars, envFile, s2, buildDirExists, jsonWritten);
    assert AllSucceed(ToolProbes, s1) == AllSucceed(ToolProbes, s2);
    assert AllSucceed(TestCommands, s1) == AllSucceed(TestCommands, s2);
  }

  /** No Vercel command is part of the plan. */
  lemma PlanHasNoVercel(env: string)
    ensures VercelProd !in Plan(env) && VercelPreview !in Plan(env)
  {
    var plan := Plan(env);
    forall k | 0 <= k < |plan|
      ensures plan[k] != VercelProd && plan[k] != VercelPreview
    {
      assert plan[k][0] == 'n' || plan[k][0] == 'g' || plan[k][0] == 'f';
    }
  }

  /** `vercel --prod` runs exactly on a successful production run with the Vercel deploy requested. */
  lemma VercelProdOnlyInProduction(env: string, vars: Vars, envFile: Option<string>, succeeds: string -> bool, buildDirExists: bool, jsonWritten: bool)
    ensures VercelProd in Deploy(env, vars, envFile, succeeds, buildDirExists, jsonWritten).commands <==>
              env == "production" && VercelRequested(vars) && Deploy(env, vars, envFile, succeeds, buildDirExists, jsonWritten).exitCode == 0
  {
    var d := Deploy(env, vars, envFile, succeeds, buildDirExists, jsonWritten);
    DeployFollowsPlan(env, vars, envFile, succeeds, buildDirExists, jsonWritten);
    PlanHasNoVercel(env);
    if d.exitCode == 0 {
      FlagsByEnvironment(EnvOf(env).value, vars);
      assert VercelProd in d.commands <==> VercelProd in VercelStep(env, vars);
    } else {
      assert forall c :: c in d.commands ==> c in Plan(env);
    }
  }

  /** Every command a run issues is a command of the plan or the Vercel step. */
  lemma CommandsFromPlan(env: string, vars: Vars, envFile: Option<string>, succeeds: string -> bool, buildDirExists: bool, jsonWritten: bool)
    ensures forall c :: c in Deploy(env, vars, envFile, succeeds, buildDirExists, jsonWritten).commands ==>
              c in Plan(env) || c in VercelStep(env, vars)
  {
    var d := Deploy(env, vars, envFile, succeeds, buildDirExists, jsonWritten);
    DeployFollowsPlan(env, vars, envFile, succeeds, buildDirExists, jsonWritten);
    if d.exitCode != 0 {
      forall c | c in d.commands
        ensures c in Plan(env)
      {
        var i :| 0 <= i < |d.commands| && d.commands[i] == c;
        assert Plan(env)[i] == c;
      }
    }
  }

  /** Development never runs the test suite. */
  lemma TestsSkippedInDevelopment(vars: Vars, envFile: Option<string>, succeeds: string -> bool, buildDirExists: bool, jsonWritten: bool)
    ensures forall k :: 0 <= k < |TestCommands| ==>
              TestCommands[k] !in Deploy("development", vars, envFile, succeeds, buildDirExists, jsonWritten).commands
  {
    CommandsFromPlan("development", vars, envFile, succeeds, buildDirExists, jsonWritten);
    var allowed := Plan("development") + VercelStep("development", vars);
    assert Plan("development") == ToolProbes + [GitProbe] + [BuildCommand, HostingDeploy];
    assert forall c :: c in VercelStep("development", vars) ==> c == VercelProd || c == VercelPreview;
    forall k | 0 <= k < |TestCommands|
      ensures TestCommands[k] !in Plan("development") && TestCommands[k] !in VercelStep("development", vars)
    {
    }
  }

  /** The hosting section written keeps the environment's cache headers: none in development, scripts in staging, scripts and images in production. */
  lemma FirebaseJsonHeaders(env: string, vars: Vars, envFile: Option<string>, succeeds: string -> bool, buildDirExists: bool, jsonWritten: bool)
    ensures var d := Deploy(env, vars, envFile, succeeds, buildDirExists, jsonWritten);
            d.firebaseJson.Some? ==>
              && (env == "development" ==> d.firebaseJson.value.headers.None?)
              && (env == "staging" ==> d.firebaseJson.value.headers == Some([ScriptRule]))
              && (env == "production" ==> d.firebaseJson.value.headers == Some([ScriptRule, ImageRule]))
  {
  }

  /** The environment the command line selects: the first argument, or development when it is absent or empty. */
  function CliEnvironment(args: seq<string>): (env: string)
    ensures |args| > 0 && args[0] != "" ==> env == args[0]
    ensures !(|args| > 0 && args[0] != "") ==> env == "development"
  {
    if |args| > 0 && args[0] != "" then args[0] else "development"
  }
}

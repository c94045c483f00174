/**
 * Required-variable checks over a set of environment variables, as both
 * src/lib/checkEnv.ts and the deploy script's `checkEnvironmentVariables`
 * (scripts/deploy.js) do them: a name is missing when it is unset or set to
 * the empty string, and the missing names are listed in declared order.
 */
module EnvCheck {
  import opened Options
  import opened Strings

  type Vars = map<string, string>

  /** `!vars[name]` for a string value: unset or empty. */
  predicate IsMissing(vars: Vars, name: string) {
    name !in vars || vars[name] == ""
  }

  /** The required names that are missing, in the order they are required. */
  function MissingVars(required: seq<string>, vars: Vars): (missing: seq<string>)
    ensures |missing| <= |required|
    ensures forall v :: v in missing <==> v in required && IsMissing(vars, v)
  {
    if required == [] then []
    else (if IsMissing(vars, required[0]) then [required[0]] else []) + MissingVars(required[1..], vars)
  }

  /** Only the required names are inspected: two variable sets that agree on them give the same list. */
  lemma {:induction false} MissingVarsLocal(required: seq<string>, a: Vars, b: Vars)
    requires forall v :: v in required ==> (v in a <==> v in b) && (v in a ==> a[v] == b[v])
    ensures MissingVars(required, a) == MissingVars(required, b)
    decreases |required|
  {
    if required != [] {
      assert required[0] in required;
      assert forall v :: v in required[1..] ==> v in required;
      MissingVarsLocal(required[1..], a, b);
    }
  }

  /** The list keeps declared order: missing lists of joined requirement lists join. */
  lemma {:induction false} MissingVarsAppend(r1: seq<string>, r2: seq<string>, vars: Vars)
    ensures MissingVars(r1 + r2, vars) == MissingVars(r1, vars) + MissingVars(r2, vars)
    decreases |r1|
  {
    if r1 == [] {
      assert r1 + r2 == r2;
    } else {
      assert (r1 + r2)[1..] == r1[1..] + r2;
      MissingVarsAppend(r1[1..], r2, vars);
    }
  }

  /** With nothing set, every required name is reported, in declared order. */
  lemma {:induction false} NothingSetMissesAll(required: seq<string>)
    ensures MissingVars(required, map[]) == required
    decreases |required|
  {
    if required != [] {
      NothingSetMissesAll(required[1..]);
      assert required == [required[0]] + required[1..];
    }
  }

  /** The three Firebase Admin variables `checkFirebaseEnv` requires. */
  const FirebaseRequired: seq<string> := ["FIREBASE_PROJECT_ID", "FIREBASE_CLIENT_EMAIL", "FIREBASE_PRIVATE_KEY"]

  /** `checkFirebaseEnv`. */
  function CheckFirebaseEnv(vars: Vars): (ok: bool)
    ensures ok <==> MissingVars(FirebaseRequired, vars) == []
  {
    |MissingVars(FirebaseRequired, vars)| == 0
  }

  /** The check passes exactly when all three variables are set and non-empty. */
  lemma CheckFirebaseEnvExactly(vars: Vars)
    ensures CheckFirebaseEnv(vars) <==>
              && !IsMissing(vars, "FIREBASE_PROJECT_ID")
              && !IsMissing(vars, "FIREBASE_CLIENT_EMAIL")
              && !IsMissing(vars, "FIREBASE_PRIVATE_KEY")
  {
    var m := MissingVars(FirebaseRequired, vars);
    assert FirebaseRequired[0] in FirebaseRequired && FirebaseRequired[1] in FirebaseRequired;
    assert FirebaseRequired[2] in FirebaseRequired;
    if m != [] {
      assert m[0] in m;
    }
  }

  /** An empty value counts as missing: setting a variable to "" fails the check. */
  lemma EmptyValueFailsCheck(vars: Vars, name: string)
    requires name in FirebaseRequired
    ensures !CheckFirebaseEnv(vars[name := ""])
  {
    assert name in MissingVars(FirebaseRequired, vars[name := ""]);
  }

  /** No variable outside the three changes the answer. */
  lemma CheckFirebaseEnvIgnoresOthers(vars: Vars, name: string, value: string)
    requires name !in FirebaseRequired
    ensures CheckFirebaseEnv(vars[name := value]) == CheckFirebaseEnv(vars)
  {
    MissingVarsLocal(FirebaseRequired, vars[name := value], vars);
  }

  const StagingRequired: seq<string> :=
    ["NEXT_PUBLIC_FIREBASE_API_KEY", "NEXT_PUBLIC_FIREBASE_PROJECT_ID", "FIREBASE_PROJECT_ID"]

  /**
   * `requiredVars[env]` in the deploy script: the table's list for the three
   * environments, `None` for a member inherited from `Object.prototype`, and
   * the empty list for any other name, which `?.` and `|| []` turn into no
   * requirement.
   */
  function DeployRequired(env: string): (required: Option<seq<string>>)
    ensures required.None? <==> env in PrototypeKeys
    ensures env !in {"development", "staging", "production"} && env !in PrototypeKeys ==> required == Some([])
  {
    if env == "development" then Some(["NEXT_PUBLIC_APP_URL"])
    else if env == "staging" then Some(StagingRequired)
    else if env == "production" then Some(StagingRequired + ["STRIPE_SECRET_KEY"])
    else if env in PrototypeKeys then None
    else Some([])
  }

  /**
   * `missing` in `checkEnvironmentVariables`; `None` when the expression
   * throws, because the inherited member found has no `filter` to call.
   */
  function DeployMissing(env: string, vars: Vars): (missing: Option<seq<string>>)
    ensures missing.None? <==> env in PrototypeKeys
    ensures missing.Some? ==> forall v :: v in missing.value <==> v in DeployRequired(env).value && IsMissing(vars, v)
  {
    match DeployRequired(env)
    case None => None
    case Some(required) => Some(MissingVars(required, vars))
  }

  /** Production misses what staging misses, then possibly the payment key. */
  lemma ProductionExtendsStaging(vars: Vars)
    ensures DeployMissing("production", vars).value ==
              DeployMissing("staging", vars).value + (if IsMissing(vars, "STRIPE_SECRET_KEY") then ["STRIPE_SECRET_KEY"] else [])
  {
    MissingVarsAppend(StagingRequired, ["STRIPE_SECRET_KEY"], vars);
    assert MissingVars(["STRIPE_SECRET_KEY"], vars) ==
             (if IsMissing(vars, "STRIPE_SECRET_KEY") then ["STRIPE_SECRET_KEY"] else []) + MissingVars([], vars);
  }
}

/**
 * The per-environment deployment table of deployment.config.js and its
 * accessors. The table is built once from the process environment; a
 * variable that is unset or empty falls back to the built-in default.
 * Fields a generic configuration may lack are `Option`s, and an empty text
 * field counts as absent, as JavaScript truthiness has it.
 */
module DeployConfig {
  import opened Options
  import opened Strings
  import opened EnvCheck

  datatype Header = Header(key: string, value: string)
  datatype HeaderRule = HeaderRule(source: string, headers: seq<Header>)
  datatype Rewrite = Rewrite(source: string, destination: string)

  /** Firebase hosting settings; `headers` is absent in the development entry. */
  datatype Hosting = Hosting(public: string, ignore: seq<string>, rewrites: seq<Rewrite>, headers: Option<seq<HeaderRule>>)
  datatype Firebase = Firebase(projectId: string, hosting: Option<Hosting>)
  datatype Vercel = Vercel(production: bool, preview: bool)
  datatype Features = Features(debug: bool, mockData: bool, analytics: bool)

  datatype EnvConfig = EnvConfig(
    name: string, url: string,
    firebase: Option<Firebase>, vercel: Option<Vercel>, features: Option<Features>)

  /** The three environments the table has entries for. */
  datatype Env = Development | Staging | Production

  /** `process.env[key] || fallback`. */
  function EnvOr(vars: Vars, key: string, fallback: string): (r: string)
    ensures fallback != "" ==> r != ""
    ensures !IsMissing(vars, key) ==> r == vars[key]
    ensures IsMissing(vars, key) ==> r == fallback
  {
    if key in vars && vars[key] != "" then vars[key] else fallback
  }

  const CacheForever: seq<Header> := [Header("Cache-Control", "public, max-age=31536000, immutable")]
  const ScriptRule: HeaderRule := HeaderRule("**/*.@(js|css)", CacheForever)
  const ImageRule: HeaderRule := HeaderRule("**/*.@(jpg|jpeg|gif|png|svg|webp|ico)", CacheForever)
  const IgnoredFiles: seq<string> := ["firebase.json", "**/.*", "**/node_modules/**"]
  const SpaRewrite: seq<Rewrite> := [Rewrite("**", "/index.html")]

  /** The default project id of each environment. */
  function DefaultProjectId(e: Env): string {
    match e
    case Development => "dev-project"
    case Staging => "staging-project"
    case Production => "prod-project"
  }

  /** The table entry of an environment. */
  function Config(e: Env, vars: Vars): EnvConfig {
    var projectId := EnvOr(vars, "FIREBASE_PROJECT_ID", DefaultProjectId(e));
    match e
    case Development =>
      EnvConfig("Development", "http://localhost:3000",
                Some(Firebase(projectId, Some(Hosting("out", IgnoredFiles, SpaRewrite, None)))),
                Some(Vercel(false, true)), Some(Features(true, true, false)))
    case Staging =>
      EnvConfig("Staging", EnvOr(vars, "STAGING_URL", "https://staging.yourdomain.com"),
                Some(Firebase(projectId, Some(Hosting("out", IgnoredFiles, SpaRewrite, Some([ScriptRule]))))),
                Some(Vercel(false, true)), Some(Features(false, false, true)))
    case Production =>
      EnvConfig("Production", EnvOr(vars, "PRODUCTION_URL", "https://yourdomain.com"),
                Some(Firebase(projectId, Some(Hosting("out", IgnoredFiles, SpaRewrite, Some([ScriptRule, ImageRule]))))),
                Some(Vercel(true, false)), Some(Features(false, false, true)))
  }

  /** The table key an environment name selects as an own key, if any. */
  function EnvOf(name: string): (e: Option<Env>)
    ensures e == Some(Development) <==> name == "development"
    ensures e == Some(Staging) <==> name == "staging"
    ensures e == Some(Production) <==> name == "production"
  {
    if name == "development" then Some(Development)
    else if name == "staging" then Some(Staging)
    else if name == "production" then Some(Production)
    else None
  }

  /** What `environments[name]` finds: a table entry, or a member inherited from `Object.prototype`. */
  datatype Selected = Own(env: Env) | Inherited(key: string)

  /** `environments[name]` when it is truthy. */
  function Select(name: string): (r: Option<Selected>)
    ensures r.Some? && r.value.Own? <==> EnvOf(name).Some?
    ensures r.Some? && r.value.Own? ==> r.value.env == EnvOf(name).value
    ensures r.Some? && r.value.Inherited? <==> name in PrototypeKeys
    ensures r.Some? && r.value.Inherited? ==> r.value.key == name
  {
    if EnvOf(name).Some? then Some(Own(EnvOf(name).value))
    else if name in PrototypeKeys then Some(Inherited(name))
    else None
  }

  /** The environment name an accessor uses: the argument, or `NODE_ENV || 'development'` when none is passed. */
  function ArgOrDefault(arg: Option<string>, vars: Vars): (name: string)
    ensures arg.Some? ==> name == arg.value
    ensures arg.None? ==> name == EnvOr(vars, "NODE_ENV", "development")
  {
    match arg
    case Some(a) => a
    case None => EnvOr(vars, "NODE_ENV", "development")
  }

  /** `environments[name] || environments.development`: a name found nowhere falls back to development. */
  function Resolve(name: string): (r: Selected)
    ensures EnvOf(name).Some? ==> r == Own(EnvOf(name).value)
    ensures name in PrototypeKeys ==> r == Inherited(name)
    ensures EnvOf(name).None? && name !in PrototypeKeys ==> r == Own(Development)
  {
    Select(name).GetOr(Own(Development))
  }

  /**
   * An inherited member as the accessors see it: a function has only its
   * `name` (`Object` for the constructor), `Object.prototype` has none, and
   * `url`, `firebase`, `vercel` and `features` are all undefined.
   */
  function InheritedView(key: string): (c: EnvConfig)
    ensures c.url == "" && c.firebase.None? && c.vercel.None? && c.features.None?
    ensures key in PrototypeKeys ==> (c.name == "" <==> key == "__proto__")
  {
    EnvConfig(if key == "constructor" then "Object" else if key == "__proto__" then "" else key, "", None, None, None)
  }

  /** The configuration a lookup result stands for. */
  function ConfigOf(s: Selected, vars: Vars): EnvConfig {
    match s
    case Own(e) => Config(e, vars)
    case Inherited(key) => InheritedView(key)
  }

  /** `getEnvironmentConfig`. */
  function GetEnvironmentConfig(arg: Option<string>, vars: Vars): EnvConfig {
    ConfigOf(Resolve(ArgOrDefault(arg, vars)), vars)
  }

  /** `getFirebaseConfig`. */
  function GetFirebaseConfig(arg: Option<string>, vars: Vars): Option<Firebase> {
    GetEnvironmentConfig(arg, vars).firebase
  }

  /** `getVercelConfig`. */
  function GetVercelConfig(arg: Option<string>, vars: Vars): Option<Vercel> {
    GetEnvironmentConfig(arg, vars).vercel
  }

  /** `getFeatureFlags`. */
  function GetFeatureFlags(arg: Option<string>, vars: Vars): Option<Features> {
    GetEnvironmentConfig(arg, vars).features
  }

  /** The top-level fields that are falsy, in the order they are checked. */
  function MissingFields(c: EnvConfig): (missing: seq<string>)
    ensures |missing| <= 5
  {
    (if c.name == "" then ["name"] else [])
    + (if c.url == "" then ["url"] else [])
    + (if c.firebase.None? then ["firebase"] else [])
    + (if c.vercel.None? then ["vercel"] else [])
    + (if c.features.None? then ["features"] else [])
  }

  /** The Firebase fields that are falsy, in the order they are checked. */
  function FirebaseMissing(f: Firebase): (missing: seq<string>)
    ensures |missing| <= 2
  {
    (if f.projectId == "" then ["projectId"] else []) + (if f.hosting.None? then ["hosting"] else [])
  }

  /** The check `validateEnvironmentConfig` applies to a configuration. */
  function ValidConfig(c: EnvConfig): bool {
    MissingFields(c) == [] && (c.firebase.Some? ==> FirebaseMissing(c.firebase.value) == [])
  }

  /** `validateEnvironmentConfig`: the check applied to the configuration the name resolves to. */
  function ValidateEnvironmentConfig(arg: Option<string>, vars: Vars): bool {
    ValidConfig(GetEnvironmentConfig(arg, vars))
  }

  /** A configuration passes exactly when every required field, the Firebase ones included, is present and non-empty. */
  lemma ValidConfigIff(c: EnvConfig)
    ensures ValidConfig(c) <==>
              && c.name != "" && c.url != "" && c.firebase.Some? && c.vercel.Some? && c.features.Some?
              && c.firebase.value.projectId != "" && c.firebase.value.hosting.Some?
  {
  }

  /** One missing field is reported alone. */
  lemma MissingNameReported(c: EnvConfig)
    requires c.name == "" && c.url != "" && c.firebase.Some? && c.vercel.Some? && c.features.Some?
    ensures MissingFields(c) == ["name"]
  {
  }

  /**
   * Whatever the variables hold, a name passes the check exactly when it is
   * not a key inherited from `Object.prototype`: the three entries are
   * valid, every unknown name gets the development entry, and an inherited
   * member lacks `url` and the other fields.
   */
  lemma BuiltInsValid(arg: Option<string>, vars: Vars)
    ensures ValidateEnvironmentConfig(arg, vars) <==> ArgOrDefault(arg, vars) !in PrototypeKeys
  {
    ValidConfigIff(GetEnvironmentConfig(arg, vars));
  }

  /** A name that is neither a table key nor an inherited key gets the development entry, for every accessor. */
  lemma UnknownNameIsDevelopment(name: string, vars: Vars)
    requires name !in {"development", "staging", "production"} && name !in PrototypeKeys
    ensures GetEnvironmentConfig(Some(name), vars) == GetEnvironmentConfig(Some("development"), vars)
    ensures GetFirebaseConfig(Some(name), vars) == GetFirebaseConfig(Some("development"), vars)
    ensures GetVercelConfig(Some(name), vars) == Some(Vercel(false, true))
    ensures GetFeatureFlags(Some(name), vars) == Some(Features(true, true, false))
  {
  }

  /**
   * A key inherited from `Object.prototype` does not fall back to
   * development: the accessors return undefined and the check fails,
   * reporting `url`, `firebase`, `vercel` and `features` missing (and
   * `name` too for `__proto__`).
   */
  lemma PrototypeNameHasNoEntry(name: string, vars: Vars)
    requires name in PrototypeKeys
    ensures GetFirebaseConfig(Some(name), vars).None?
    ensures GetVercelConfig(Some(name), vars).None?
    ensures GetFeatureFlags(Some(name), vars).None?
    ensures MissingFields(GetEnvironmentConfig(Some(name), vars)) ==
              (if name == "__proto__" then ["name"] else []) + ["url", "firebase", "vercel", "features"]
    ensures !ValidateEnvironmentConfig(Some(name), vars)
  {
  }

  /** For instance, `getEnvironmentConfig('constructor')` is the `Object` function, not the development entry. */
  lemma ConstructorIsNotDevelopment(vars: Vars)
    ensures GetEnvironmentConfig(Some("constructor"), vars) != GetEnvironmentConfig(Some("development"), vars)
    ensures GetEnvironmentConfig(Some("constructor"), vars).name == "Object"
  {
  }

  /**
   * The flags by environment: only production deploys to Vercel production
   * and has no preview; debug and mock data only in development; analytics
   * everywhere else.
   */
  lemma FlagsByEnvironment(e: Env, vars: Vars)
    ensures Config(e, vars).vercel.value.production <==> e == Production
    ensures Config(e, vars).vercel.value.preview <==> e != Production
    ensures Config(e, vars).features.value.debug <==> e == Development
    ensures Config(e, vars).features.value.mockData <==> e == Development
    ensures Config(e, vars).features.value.analytics <==> e != Development
  {
  }

  /** The project id is the variable when it is set and non-empty, else the environment's default. */
  lemma ProjectIdSource(e: Env, vars: Vars)
    ensures Config(e, vars).firebase.value.projectId ==
              if IsMissing(vars, "FIREBASE_PROJECT_ID") then DefaultProjectId(e) else vars["FIREBASE_PROJECT_ID"]
  {
  }

  /** Every entry serves `out` with the same ignore list and rewrite; production adds image caching to script caching. */
  lemma HostingByEnvironment(e: Env, vars: Vars)
    ensures var h := Config(e, vars).firebase.value.hosting.value;
            && h.public == "out" && h.ignore == IgnoredFiles && h.rewrites == SpaRewrite
            && (h.headers.None? <==> e == Development)
            && (e == Production ==> h.headers == Some([ScriptRule, ImageRule]))
            && (e == Staging ==> h.headers == Some([ScriptRule]))
  {
  }
}

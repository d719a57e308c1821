/** The configuration object built once at import time: three credentials
    read from the environment, fixed processing constants, and the check that
    refuses to start when a credential is absent or empty. */
module Config {
  import opened Strings

  // Fixed settings assigned by the initialiser.
  const OutputsDir: string := "outputs"
  const MaxResults: nat := 10
  const MaxRetries: nat := 3
  const MaxThreads: nat := 10
  const Timeout: nat := 15
  const ViewportWidth: nat := 1920
  const ViewportHeight: nat := 1080
  const UserAgent: string := "Mozilla/5.0 (Windows NT 10.0; Win64; x64) AppleWebKit/537.36"

  // Names of the required environment variables, in the order they are checked.
  const GoogleApiKeyVar: string := "GOOGLE_API_KEY"
  const GoogleCxVar: string := "GOOGLE_CX"
  const GeminiApiKeyVar: string := "GEMINI_API_KEY"

  const MissingPrefix: string := "Missing required environment variables: "

  datatype Config = Config(
    googleApiKey: Option<string>,
    googleCx: Option<string>,
    geminiApiKey: Option<string>,
    outputsDir: string,
    maxResults: nat,
    maxRetries: nat,
    maxThreads: nat,
    timeout: nat,
    viewportWidth: nat,
    viewportHeight: nat,
    userAgent: string)

  datatype Outcome = Pass | Fail(message: string)

  datatype Loaded = Loaded(config: Config) | Refused(message: string)

  /** `os.getenv(name)`: the value, or `None` when the variable is unset. */
  function GetEnv(env: map<string, string>, name: string): Option<string>
  {
    if name in env then Some(env[name]) else None
  }

  /** Python's `not value` for a string-or-None: `None` and `""` are falsy. */
  predicate Falsy(value: Option<string>)
  {
    value.None? || value.value == ""
  }

  /** The `required_env_vars` dictionary, in insertion order. */
  function RequiredVars(c: Config): seq<(string, Option<string>)>
  {
    [(GoogleApiKeyVar, c.googleApiKey), (GoogleCxVar, c.googleCx), (GeminiApiKeyVar, c.geminiApiKey)]
  }

  /** `[var for var, value in vars if not value]`. */
  function FalsyNames(vars: seq<(string, Option<string>)>): seq<string>
  {
    if vars == [] then []
    else (if Falsy(vars[0].1) then [vars[0].0] else []) + FalsyNames(vars[1..])
  }

  /** The missing credentials, named in the fixed order API key, CX, Gemini key. */
  function MissingVars(c: Config): (r: seq<string>)
    ensures r == (if Falsy(c.googleApiKey) then [GoogleApiKeyVar] else [])
               + (if Falsy(c.googleCx) then [GoogleCxVar] else [])
               + (if Falsy(c.geminiApiKey) then [GeminiApiKeyVar] else [])
  {
    var vars := RequiredVars(c);
    assert FalsyNames(vars[2..]) == (if Falsy(c.geminiApiKey) then [GeminiApiKeyVar] else []) by {
      assert vars[2..][1..] == [];
    }
    assert FalsyNames(vars[1..]) == (if Falsy(c.googleCx) then [GoogleCxVar] else []) + FalsyNames(vars[2..]) by {
      assert vars[1..][1..] == vars[2..];
    }
    FalsyNames(vars)
  }

  /** `_validate_config`: fails exactly when a credential is `None` or empty,
      with a message listing the missing names joined by `", "`. */
  function ValidateConfig(c: Config): (r: Outcome)
    ensures r.Fail? <==> Falsy(c.googleApiKey) || Falsy(c.googleCx) || Falsy(c.geminiApiKey)
    ensures r.Fail? ==> r.message == MissingPrefix + Join(MissingVars(c), ", ")
  {
    var missing := MissingVars(c);
    if |missing| > 0 then Fail(MissingPrefix + Join(missing, ", ")) else Pass
  }

  /** Recovers the list of missing names from a validation message. */
  function ParseMissingMessage(message: string): Option<seq<string>>
  {
    if IsPrefix(MissingPrefix, message) then Some(SplitList(message[|MissingPrefix|..])) else None
  }

  /** The message states exactly which credentials are missing: reading it
      back gives the missing list, so no set of missing names is reported as
      another. */
  lemma ValidationMessageNamesMissing(c: Config)
    requires ValidateConfig(c).Fail?
    ensures ParseMissingMessage(ValidateConfig(c).message) == Some(MissingVars(c))
  {
    var missing := MissingVars(c);
    var message := ValidateConfig(c).message;
    assert message[..|MissingPrefix|] == MissingPrefix;
    assert message[|MissingPrefix|..] == Join(missing, ", ");
    forall j | 0 <= j < |missing| ensures NoComma(missing[j]) {
      assert missing[j] in {GoogleApiKeyVar, GoogleCxVar, GeminiApiKeyVar};
    }
    SplitJoin(missing);
  }

  /** `Config()`: read the three credentials, assign the constants, then
      validate; a failed validation raises, which here is `Refused`. */
  function Load(env: map<string, string>): (r: Loaded)
    ensures r.Loaded? <==>
      && GoogleApiKeyVar in env && env[GoogleApiKeyVar] != ""
      && GoogleCxVar in env && env[GoogleCxVar] != ""
      && GeminiApiKeyVar in env && env[GeminiApiKeyVar] != ""
    ensures r.Loaded? ==>
      && r.config.googleApiKey == Some(env[GoogleApiKeyVar])
      && r.config.googleCx == Some(env[GoogleCxVar])
      && r.config.geminiApiKey == Some(env[GeminiApiKeyVar])
      && r.config.maxResults == 10 && r.config.maxRetries == 3 && r.config.maxThreads == 10
    ensures r.Refused? ==> IsPrefix(MissingPrefix, r.message)
  {
    var c := Config(
      GetEnv(env, GoogleApiKeyVar), GetEnv(env, GoogleCxVar), GetEnv(env, GeminiApiKeyVar),
      OutputsDir, MaxResults, MaxRetries, MaxThreads, Timeout,
      ViewportWidth, ViewportHeight, UserAgent);
    match ValidateConfig(c)
    case Pass => Loaded(c)
    case Fail(message) => Refused(message)
  }
}

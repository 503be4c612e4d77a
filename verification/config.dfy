/** Application configuration: defaults and environment overrides (internal/config/config.go). */
module Config {
  import opened Results
  import opened Text

  /** Durations are Go `time.Duration` values: integer nanoseconds. */
  const Second: int := 1_000_000_000
  const Minute: int := 60 * Second

  const AppName: string := "mass-git-cloner"
  const AppVersion: string := "1.0.0"
  /** "mass-git-cloner/1.0.0". */
  const UserAgent: string := AppName + "/" + AppVersion
  const GitHubApiBaseUrl: string := "https://api.github.com"
  /** Maximum repositories per listing request. */
  const PerPage: int := 100

  datatype Config = Config(
    gitHubToken: string,
    maxConcurrency: int,
    cloneTimeout: int,
    apiTimeout: int,
    retryAttempts: int,
    baseDir: string)

  /** The process environment; an absent variable reads as the empty string, as with `os.Getenv`. */
  type Environment = map<string, string>

  /** `DefaultConfig`: fixed defaults, with the token taken from the environment. */
  function DefaultConfig(env: Environment): (cfg: Config)
    ensures cfg.maxConcurrency == 5
    ensures cfg.cloneTimeout == 10 * Minute && cfg.apiTimeout == 30 * Second
    ensures cfg.retryAttempts == 3
    ensures cfg.baseDir == "."
    ensures cfg.gitHubToken == Lookup(env, "GITHUB_TOKEN")
  {
    Config(Lookup(env, "GITHUB_TOKEN"), 5, 10 * Minute, 30 * Second, 3, ".")
  }

  /**
   * `LoadConfig`: the defaults, overridden by MAX_CONCURRENCY (only by a
   * positive integer), CLONE_TIMEOUT (only when `parseDuration` accepts it)
   * and BASE_DIR (only when non-empty). `time.ParseDuration` is not part of
   * this model and is passed in.
   */
  function LoadConfig(env: Environment, parseDuration: string -> Option<int>): (cfg: Config)
    ensures cfg.maxConcurrency > 0
    ensures cfg.retryAttempts == 3 && cfg.apiTimeout == 30 * Second
    ensures cfg.gitHubToken == Lookup(env, "GITHUB_TOKEN")
    ensures cfg.baseDir != ""
    ensures Lookup(env, "BASE_DIR") == "" ==> cfg.baseDir == "."
    ensures Lookup(env, "BASE_DIR") != "" ==> cfg.baseDir == Lookup(env, "BASE_DIR")
    ensures cfg.maxConcurrency != 5 ==> Atoi(Lookup(env, "MAX_CONCURRENCY")) == Some(cfg.maxConcurrency)
    ensures var parsed := Atoi(Lookup(env, "MAX_CONCURRENCY"));
            parsed.Some? && parsed.value > 0 ==> cfg.maxConcurrency == parsed.value
    ensures var timeout := Lookup(env, "CLONE_TIMEOUT");
            timeout != "" && parseDuration(timeout).Some? ==> cfg.cloneTimeout == parseDuration(timeout).value
    ensures Lookup(env, "CLONE_TIMEOUT") == "" ==> cfg.cloneTimeout == 10 * Minute
    ensures cfg.cloneTimeout != 10 * Minute ==>
              Lookup(env, "CLONE_TIMEOUT") != "" && parseDuration(Lookup(env, "CLONE_TIMEOUT")) == Some(cfg.cloneTimeout)
    ensures parseDuration(Lookup(env, "CLONE_TIMEOUT")).None? ==> cfg.cloneTimeout == 10 * Minute
  {
    var cfg := DefaultConfig(env);
    var token := Lookup(env, "GITHUB_TOKEN");
    var cfg := if token != "" then cfg.(gitHubToken := token) else cfg;
    var concurrency := Lookup(env, "MAX_CONCURRENCY");
    var parsed := Atoi(concurrency);
    var cfg := if concurrency != "" && parsed.Some? && parsed.value > 0 then cfg.(maxConcurrency := parsed.value) else cfg;
    var timeout := Lookup(env, "CLONE_TIMEOUT");
    var cfg := if timeout != "" && parseDuration(timeout).Some? then cfg.(cloneTimeout := parseDuration(timeout).value) else cfg;
    var baseDir := Lookup(env, "BASE_DIR");
    if baseDir != "" then cfg.(baseDir := baseDir) else cfg
  }

  /** With none of the variables set, loading yields exactly the defaults. */
  lemma LoadConfigEmptyEnvironment(parseDuration: string -> Option<int>)
    ensures LoadConfig(map[], parseDuration) == DefaultConfig(map[])
  {
  }

  /** Any positive `int` written in decimal in MAX_CONCURRENCY becomes the worker count. */
  lemma MaxConcurrencyOverride(env: Environment, n: nat, parseDuration: string -> Option<int>)
    requires 0 < n <= MaxInt64
    requires "MAX_CONCURRENCY" in env && env["MAX_CONCURRENCY"] == NatToString(n)
    ensures LoadConfig(env, parseDuration).maxConcurrency == n
  {
    AtoiNatToString(n);
  }

  /** A MAX_CONCURRENCY of zero is ignored: the default of five workers stays. */
  lemma ZeroConcurrencyIgnored(env: Environment, parseDuration: string -> Option<int>)
    requires "MAX_CONCURRENCY" in env && env["MAX_CONCURRENCY"] == "0"
    ensures LoadConfig(env, parseDuration).maxConcurrency == 5
  {
    assert Atoi("0") == Some(0) by {
      assert ParseDigits("0") == ParseDigits("") * 10 + DigitValue('0');
    }
  }
}

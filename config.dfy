/**
 * The worker's configuration, resolved from the process environment
 * (`config.Load`). The environment is a map from variable name to value;
 * `os.Getenv` yields "" for a variable that is not in it.
 */
module Config {
  import opened Wrappers
  import opened Strconv

  type Env = map<string, string>

  const QueueUrlVar := "SQS_QUEUE_URL"
  const RegionVar := "SQS_REGION"
  const WaitTimeVar := "POLLING_WAIT_TIME"
  const MaxMessagesVar := "MAX_MESSAGES"
  const VisibilityVar := "VISIBILITY_TIMEOUT"
  const EndpointVar := "AWS_ENDPOINT_URL"

  const DefaultRegion := "ap-northeast-1"
  const DefaultWaitTime: Int64 := 20
  const DefaultMaxMessages: Int64 := 10
  const DefaultVisibility: Int64 := 30

  datatype Config = Config(
    queueURL: string,
    region: string,
    maxMessages: Int64,
    waitTimeSeconds: Int64,
    visibilityTimeout: Int64,
    endpointURL: string)  // "" when no custom endpoint is configured

  datatype LoadError = MissingQueueURL

  /** `os.Getenv(key)`. */
  function Getenv(env: Env, key: string): string {
    if key in env then env[key] else ""
  }

  /** True when `key` is unset, empty, or not a valid base-10 int64. */
  predicate Unparsable(env: Env, key: string) {
    key !in env || env[key] == "" || Parse(env[key]).None?
  }

  /** One numeric setting: the default, overridden by the variable's value when that parses. */
  function Setting(env: Env, key: string, default: Int64): (r: Int64)
    ensures Parse(Getenv(env, key)).Some? ==> Parse(Getenv(env, key)) == Some(r)
    ensures Parse(Getenv(env, key)).None? ==> r == default
  {
    var raw := Getenv(env, key);
    if raw != "" then
      match Parse(raw)
      case Some(v) => v
      case None => default
    else default
  }

  /** `config.Load`. */
  function Load(env: Env): (r: Result<Config, LoadError>)
    ensures r.Failure? <==> QueueUrlVar !in env || env[QueueUrlVar] == ""
    ensures r.Success? ==> r.value.queueURL != "" && r.value.region != ""
  {
    var queueURL := Getenv(env, QueueUrlVar);
    if queueURL == "" then Failure(MissingQueueURL)
    else
      var region := if Getenv(env, RegionVar) == "" then DefaultRegion else Getenv(env, RegionVar);
      Success(Config(
        queueURL,
        region,
        Setting(env, MaxMessagesVar, DefaultMaxMessages),
        Setting(env, WaitTimeVar, DefaultWaitTime),
        Setting(env, VisibilityVar, DefaultVisibility),
        Getenv(env, EndpointVar)))
  }

  /** A missing or empty queue URL is the one error; there is no config in that case. */
  lemma LoadRequiresQueueURL(env: Env)
    ensures Load(env) == Failure(MissingQueueURL) <==> QueueUrlVar !in env || env[QueueUrlVar] == ""
  {
  }

  lemma LoadRegion(env: Env)
    requires Load(env).Success?
    ensures RegionVar in env && env[RegionVar] != "" ==> Load(env).value.region == env[RegionVar]
    ensures RegionVar !in env || env[RegionVar] == "" ==> Load(env).value.region == "ap-northeast-1"
  {
  }

  /** The queue URL and the optional endpoint are copied verbatim; an unset endpoint is "". */
  lemma LoadCopiesURLs(env: Env)
    requires Load(env).Success?
    ensures Load(env).value.queueURL == env[QueueUrlVar]
    ensures EndpointVar in env ==> Load(env).value.endpointURL == env[EndpointVar]
    ensures EndpointVar !in env ==> Load(env).value.endpointURL == ""
  {
  }

  lemma LoadWaitTime(env: Env)
    requires Load(env).Success?
    ensures Unparsable(env, WaitTimeVar) ==> Load(env).value.waitTimeSeconds == 20
    ensures !Unparsable(env, WaitTimeVar) ==> Parse(env[WaitTimeVar]) == Some(Load(env).value.waitTimeSeconds)
  {
  }

  lemma LoadMaxMessages(env: Env)
    requires Load(env).Success?
    ensures Unparsable(env, MaxMessagesVar) ==> Load(env).value.maxMessages == 10
    ensures !Unparsable(env, MaxMessagesVar) ==> Parse(env[MaxMessagesVar]) == Some(Load(env).value.maxMessages)
  {
  }

  lemma LoadVisibilityTimeout(env: Env)
    requires Load(env).Success?
    ensures Unparsable(env, VisibilityVar) ==> Load(env).value.visibilityTimeout == 30
    ensures !Unparsable(env, VisibilityVar) ==> Parse(env[VisibilityVar]) == Some(Load(env).value.visibilityTimeout)
  {
  }

  /**
   * No range check: every int64, including 0 and negative values, written
   * in decimal into a numeric variable is stored unchanged.
   */
  lemma LoadNoRangeCheck(env: Env, v: Int64)
    requires QueueUrlVar in env && env[QueueUrlVar] != ""
    ensures Load(env[WaitTimeVar := FormatInt(v)]).value.waitTimeSeconds == v
    ensures Load(env[MaxMessagesVar := FormatInt(v)]).value.maxMessages == v
    ensures Load(env[VisibilityVar := FormatInt(v)]).value.visibilityTimeout == v
  {
    ParseFormatInt(v);
  }

  /** A decimal value beyond the int64 range is a parse failure, so the default is kept. */
  lemma LoadOverflowFallsBack(env: Env, n: nat)
    requires QueueUrlVar in env && env[QueueUrlVar] != ""
    requires n > MaxInt64
    ensures Load(env[WaitTimeVar := Digits(n)]).value.waitTimeSeconds == 20
  {
    ParseAboveRange(n);
  }

  /** The configuration with the field that `key` feeds reset to 0. */
  function Without(c: Config, key: string): Config {
    if key == WaitTimeVar then c.(waitTimeSeconds := 0)
    else if key == MaxMessagesVar then c.(maxMessages := 0)
    else if key == VisibilityVar then c.(visibilityTimeout := 0)
    else c
  }

  function WithoutResult(r: Result<Config, LoadError>, key: string): Result<Config, LoadError> {
    match r
    case Success(c) => Success(Without(c, key))
    case Failure(e) => Failure(e)
  }

  /**
   * Each numeric field depends only on its own variable: setting one of them
   * to anything leaves the outcome and every other field unchanged.
   */
  lemma SettingIsolated(env: Env, key: string, s: string)
    requires key == WaitTimeVar || key == MaxMessagesVar || key == VisibilityVar
    ensures WithoutResult(Load(env[key := s]), key) == WithoutResult(Load(env), key)
  {
    var env' := env[key := s];
    assert Getenv(env', QueueUrlVar) == Getenv(env, QueueUrlVar);
    assert Getenv(env', RegionVar) == Getenv(env, RegionVar);
    assert Getenv(env', EndpointVar) == Getenv(env, EndpointVar);
    if key != WaitTimeVar {
      assert Setting(env', WaitTimeVar, DefaultWaitTime) == Setting(env, WaitTimeVar, DefaultWaitTime);
    }
    if key != MaxMessagesVar {
      assert Setting(env', MaxMessagesVar, DefaultMaxMessages) == Setting(env, MaxMessagesVar, DefaultMaxMessages);
    }
    if key != VisibilityVar {
      assert Setting(env', VisibilityVar, DefaultVisibility) == Setting(env, VisibilityVar, DefaultVisibility);
    }
  }

  /** An environment that describes `c` completely. */
  function Environment(c: Config): Env {
    map[
      QueueUrlVar := c.queueURL,
      RegionVar := c.region,
      WaitTimeVar := FormatInt(c.waitTimeSeconds),
      MaxMessagesVar := FormatInt(c.maxMessages),
      VisibilityVar := FormatInt(c.visibilityTimeout),
      EndpointVar := c.endpointURL]
  }

  /**
   * Every configuration with a queue URL and a region is what `Load` makes
   * of some environment; together with `Load`'s own postcondition, the
   * configurations `Load` can return are exactly these.
   */
  lemma LoadEnvironment(c: Config)
    requires c.queueURL != "" && c.region != ""
    ensures Load(Environment(c)) == Success(c)
  {
    ParseFormatInt(c.waitTimeSeconds);
    ParseFormatInt(c.maxMessages);
    ParseFormatInt(c.visibilityTimeout);
  }
}

/**
 * The decision rules of the ActiveRecord rake tasks: which configured
 * databases `create:all` and `drop:all` touch, how `migrate`, `migrate:up`,
 * `migrate:down`, `rollback` and `forward` read `VERSION`, `VERBOSE` and
 * `STEP` from the environment, how `migrate:redo` chooses its sub-tasks, the
 * character set and collation a MySQL database is created with, the encoding
 * of a PostgreSQL one, and the `--schema=` flags of a PostgreSQL structure
 * dump.
 *
 * A database configuration is a map from keys to YAML values; the environment
 * is a map from names to strings. The database work itself is not modelled.
 */
module ArTasks {
  import opened Wrappers
  import opened RubyText

  /** A hash key: the configurations read from YAML have string keys; Ruby symbols are different keys. */
  datatype Key = StrKey(s: string) | SymKey(s: string)

  /** A scalar value of `database.yml`. */
  datatype Yaml = YStr(text: string) | YInt(i: int) | YBool(b: bool) | YNil

  type Config = map<Key, Yaml>
  type Env = map<string, string>

  /** `config[key]`: nil for a missing key. */
  function Lookup(config: Config, key: Key): Yaml {
    if key in config then config[key] else YNil
  }

  predicate Truthy(v: Yaml) {
    v != YNil && v != YBool(false)
  }

  /** `to_s`, as string interpolation uses it. */
  function ToS(v: Yaml): string {
    match v
    case YStr(t) => t
    case YInt(i) => IntToS(i)
    case YBool(b) => if b then "true" else "false"
    case YNil => ""
  }

  /** `blank?`: nil and false; a string with nothing but whitespace; never a number or true. */
  predicate Blank(v: Yaml) {
    match v
    case YNil => true
    case YBool(b) => !b
    case YInt(_) => false
    case YStr(t) => forall i :: 0 <= i < |t| ==> IsRegexSpace(t[i])
  }

  // ------------------------------------------------------- local databases

  /** `next unless config['database']`: entries without a database (shared defaults) are skipped. */
  predicate HasDatabase(config: Config) {
    Truthy(Lookup(config, StrKey("database")))
  }

  /** `local_database?`: the host is `127.0.0.1` or `localhost`, or blank. */
  predicate LocalDatabase(config: Config) {
    var host := Lookup(config, StrKey("host"));
    host == YStr("127.0.0.1") || host == YStr("localhost") || Blank(host)
  }

  function RemoteNotice(config: Config): string {
    "This task only modifies local databases. " + ToS(Lookup(config, StrKey("database"))) + " is on a remote host."
  }

  /** What `create:all` or `drop:all` does with one configuration. */
  datatype Step = Skip | Act | Refuse(notice: string)

  /**
   * The loop of `create:all` and `drop:all` over the configurations: skip
   * entries without a database, act on local ones, print the notice for the
   * others.
   */
  method PlanAll(configs: seq<Config>) returns (plan: seq<Step>)
    ensures |plan| == |configs|
    ensures forall k :: 0 <= k < |configs| ==> Planned(plan[k], configs[k])
  {
    plan := [];
    for k := 0 to |configs|
      invariant |plan| == k
      invariant forall j :: 0 <= j < k ==> Planned(plan[j], configs[j])
    {
      var config := configs[k];
      if !HasDatabase(config) {
        plan := plan + [Skip];
      } else if LocalDatabase(config) {
        plan := plan + [Act];
      } else {
        plan := plan + [Refuse(RemoteNotice(config))];
      }
    }
  }

  /**
   * The step a configuration gets: skipped exactly when it has no database,
   * acted on exactly when it has one on a local host, refused with the remote
   * notice exactly when it has one elsewhere.
   */
  predicate Planned(step: Step, config: Config) {
    (step == Skip <==> !HasDatabase(config)) &&
    (step == Act <==> HasDatabase(config) && LocalDatabase(config)) &&
    (step.Refuse? <==> HasDatabase(config) && !LocalDatabase(config)) &&
    (step.Refuse? ==> step.notice == RemoteNotice(config))
  }

  /** A configuration without a host, or with an empty one, is local. */
  lemma MissingHostIsLocal(config: Config)
    requires StrKey("host") !in config || config[StrKey("host")] == YStr("")
    ensures LocalDatabase(config)
  {
  }

  /** Any other host name is remote: the notice names the database. */
  lemma OtherHostIsRemote(config: Config, host: string, database: string)
    requires config == map[StrKey("host") := YStr(host), StrKey("database") := YStr(database)]
    requires host != "127.0.0.1" && host != "localhost"
    requires exists i :: 0 <= i < |host| && !IsRegexSpace(host[i])
    ensures HasDatabase(config)
    ensures !LocalDatabase(config)
    ensures RemoteNotice(config) == "This task only modifies local databases. " + database + " is on a remote host."
  {
  }

  // ---------------------------------------------------- environment defaults

  /** `ENV["VERBOSE"] ? ENV["VERBOSE"] == "true" : true`. */
  function Verbose(env: Env): (r: bool)
    ensures "VERBOSE" !in env ==> r
    ensures "VERBOSE" in env ==> (r <==> env["VERBOSE"] == "true")
  {
    if "VERBOSE" in env then env["VERBOSE"] == "true" else true
  }

  /** Only the exact text `true` keeps the output on once `VERBOSE` is set: `TRUE` turns it off. */
  lemma VerboseIsCaseSensitive(env: Env)
    requires "VERBOSE" in env && env["VERBOSE"] == "TRUE"
    ensures !Verbose(env)
  {
  }

  /** The target of `migrate`: `VERSION.to_i`, or nil (every pending migration) when unset. */
  function MigrateTarget(env: Env): (r: Option<int>)
    ensures r.None? <==> "VERSION" !in env
    ensures r.Some? ==> r.value == ToI(env["VERSION"])
  {
    if "VERSION" in env then Some(ToI(env["VERSION"])) else None
  }

  /** `migrate:up` and `migrate:down`: raise "VERSION is required" when `VERSION` is unset. */
  function RequiredVersion(env: Env): (r: Result<int>)
    ensures r.Err? <==> "VERSION" !in env
    ensures r.Err? ==> r.message == "VERSION is required"
    ensures r.Ok? ==> MigrateTarget(env) == Some(r.value)
  {
    if "VERSION" in env then Ok(ToI(env["VERSION"])) else Err("VERSION is required")
  }

  /** A version written as its decimal text is read back as that version. */
  lemma VersionRoundTrip(env: Env, version: int)
    requires "VERSION" in env && env["VERSION"] == IntToS(version)
    ensures MigrateTarget(env) == Some(version)
    ensures RequiredVersion(env) == Ok(version)
  {
    IntToSRoundTrip(version);
  }

  /**
   * The check is on the variable being set, not on the number: a `VERSION`
   * without digits reads as version 0 and is not rejected.
   */
  lemma NonNumericVersionIsZero(env: Env)
    requires "VERSION" in env && env["VERSION"] == "abc"
    ensures RequiredVersion(env) == Ok(0)
  {
    assert TrimStart("abc") == "abc";
    assert Unprefixed("abc") == "abc";
    assert DigitRun("abc") == "";
  }

  /** `ENV['STEP'] ? ENV['STEP'].to_i : 1`, for `rollback` and `forward`. */
  function Steps(env: Env): (r: int)
    ensures "STEP" !in env ==> r == 1
    ensures "STEP" in env ==> r == ToI(env["STEP"])
  {
    if "STEP" in env then ToI(env["STEP"]) else 1
  }

  lemma StepsRoundTrip(env: Env, n: int)
    requires "STEP" in env && env["STEP"] == IntToS(n)
    ensures Steps(env) == n
  {
    IntToSRoundTrip(n);
  }

  /**
   * `migrate:redo`: down then up to `VERSION` when it is set, otherwise
   * rollback then migrate; the two tasks that raise without a `VERSION` are
   * invoked exactly when they do not.
   */
  function RedoTasks(env: Env): (r: seq<string>)
    ensures RequiredVersion(env).Ok? ==> r == ["db:migrate:down", "db:migrate:up"]
    ensures RequiredVersion(env).Err? ==> r == ["db:rollback", "db:migrate"]
  {
    if "VERSION" in env then ["db:migrate:down", "db:migrate:up"] else ["db:rollback", "db:migrate"]
  }

  // ----------------------------------------------------- creation options

  /** `a || b` on a configured value and a fallback string. */
  function OrElse(v: Yaml, fallback: string): (r: Yaml)
    ensures Truthy(v) ==> r == v
    ensures !Truthy(v) ==> r == YStr(fallback)
  {
    if Truthy(v) then v else YStr(fallback)
  }

  /** `ENV[name] || default`: a set variable wins, even when it is empty. */
  function EnvOr(env: Env, name: string, default: string): (r: string)
    ensures name in env ==> r == env[name]
    ensures name !in env ==> r == default
  {
    if name in env then env[name] else default
  }

  /**
   * The MySQL creation options: the configured charset, else `CHARSET`,
   * else `utf8`; the configured collation, else `COLLATION`, else
   * `utf8_unicode_ci`.
   */
  function MysqlCreationOptions(config: Config, env: Env): (r: (Yaml, Yaml))
    ensures Truthy(Lookup(config, StrKey("charset"))) ==> r.0 == config[StrKey("charset")]
    ensures !Truthy(Lookup(config, StrKey("charset"))) && "CHARSET" in env ==> r.0 == YStr(env["CHARSET"])
    ensures !Truthy(Lookup(config, StrKey("charset"))) && "CHARSET" !in env ==> r.0 == YStr("utf8")
    ensures Truthy(Lookup(config, StrKey("collation"))) ==> r.1 == config[StrKey("collation")]
    ensures !Truthy(Lookup(config, StrKey("collation"))) && "COLLATION" in env ==> r.1 == YStr(env["COLLATION"])
    ensures !Truthy(Lookup(config, StrKey("collation"))) && "COLLATION" !in env ==> r.1 == YStr("utf8_unicode_ci")
  {
    (OrElse(Lookup(config, StrKey("charset")), EnvOr(env, "CHARSET", "utf8")),
     OrElse(Lookup(config, StrKey("collation")), EnvOr(env, "COLLATION", "utf8_unicode_ci")))
  }

  /** The charset and the collation fall back independently of each other. */
  lemma CharsetDoesNotPickCollation(config: Config, env: Env, charset: string)
    requires config == map[StrKey("charset") := YStr(charset)] && env == map[]
    ensures MysqlCreationOptions(config, env) == (YStr(charset), YStr("utf8_unicode_ci"))
  {
  }

  /** The charset depends only on the configured `charset` and on `CHARSET`, never on the collation settings. */
  lemma MysqlCharsetIndependent(config: Config, env: Env, config': Config, env': Env)
    requires Lookup(config, StrKey("charset")) == Lookup(config', StrKey("charset"))
    requires ("CHARSET" in env <==> "CHARSET" in env') && ("CHARSET" in env ==> env["CHARSET"] == env'["CHARSET"])
    ensures MysqlCreationOptions(config, env).0 == MysqlCreationOptions(config', env').0
  {
  }

  /** The collation depends only on the configured `collation` and on `COLLATION`, never on the charset settings. */
  lemma MysqlCollationIndependent(config: Config, env: Env, config': Config, env': Env)
    requires Lookup(config, StrKey("collation")) == Lookup(config', StrKey("collation"))
    requires ("COLLATION" in env <==> "COLLATION" in env') && ("COLLATION" in env ==> env["COLLATION"] == env'["COLLATION"])
    ensures MysqlCreationOptions(config, env).1 == MysqlCreationOptions(config', env').1
  {
  }

  /**
   * The PostgreSQL encoding as written: the configuration is read with the
   * symbol key `:encoding`, which a configuration loaded from YAML never has.
   */
  function PostgresEncodingAsWritten(config: Config, env: Env): (r: Yaml)
    ensures Truthy(Lookup(config, SymKey("encoding"))) ==> r == config[SymKey("encoding")]
    ensures !Truthy(Lookup(config, SymKey("encoding"))) ==> r == YStr(EnvOr(env, "CHARSET", "utf8"))
  {
    OrElse(Lookup(config, SymKey("encoding")), EnvOr(env, "CHARSET", "utf8"))
  }

  /** The encoding as evidently intended: the configured `encoding`, else `CHARSET`, else `utf8`. */
  function PostgresEncoding(config: Config, env: Env): (r: Yaml)
    ensures Truthy(Lookup(config, StrKey("encoding"))) ==> r == config[StrKey("encoding")]
    ensures !Truthy(Lookup(config, StrKey("encoding"))) ==> r == YStr(EnvOr(env, "CHARSET", "utf8"))
  {
    OrElse(Lookup(config, StrKey("encoding")), EnvOr(env, "CHARSET", "utf8"))
  }

  /** A configuration whose keys are all strings: every configuration read from YAML. */
  predicate StringKeyed(config: Config) {
    forall k :: k in config ==> k.StrKey?
  }

  /**
   * As written, the configured encoding never counts: on a string-keyed
   * configuration the result depends on the environment alone.
   */
  lemma ConfiguredEncodingIgnored(config: Config, env: Env)
    requires StringKeyed(config)
    ensures PostgresEncodingAsWritten(config, env) == YStr(EnvOr(env, "CHARSET", "utf8"))
  {
    assert SymKey("encoding") !in config;
  }

  /** The input that shows it: `encoding: latin1` in the configuration still creates a `utf8` database. */
  lemma Latin1BecomesUtf8(config: Config)
    requires config == map[StrKey("adapter") := YStr("postgresql"), StrKey("encoding") := YStr("latin1")]
    ensures PostgresEncodingAsWritten(config, map[]) == YStr("utf8")
    ensures PostgresEncoding(config, map[]) == YStr("latin1")
  {
    ConfiguredEncodingIgnored(config, map[]);
  }

  // -------------------------------------------------------- schema flags

  /** `"--schema=#{part.strip}"`. */
  function SchemaFlag(part: string): string {
    "--schema=" + Strip(part)
  }

  /**
   * The search-path argument of the PostgreSQL structure dump: a blank value
   * is interpolated as it is; otherwise it is split at commas and each part
   * stripped and prefixed with `--schema=`, separated by spaces. A value that
   * is neither blank nor a string has no `split` and raises.
   */
  function SchemaSearchArgument(searchPath: Yaml): (r: Result<string>)
    ensures Blank(searchPath) ==> r == Ok(ToS(searchPath))
    ensures !Blank(searchPath) && !searchPath.YStr? ==> r.Err?
  {
    if Blank(searchPath) then Ok(ToS(searchPath))
    else match searchPath
      case YStr(t) =>
        var parts := Split(t, ',');
        Ok(Join(seq(|parts|, k requires 0 <= k < |parts| => SchemaFlag(parts[k])), " "))
      case _ => Err("undefined method `split'")
  }

  /** Schema names joined by commas, with spaces around them, give one flag per name. */
  lemma {:induction false} SchemaFlagsOfNames(parts: seq<string>)
    requires |parts| > 0 && parts[|parts| - 1] != ""
    requires forall k :: 0 <= k < |parts| ==> ',' !in parts[k]
    requires exists i :: 0 <= i < |parts[0]| && !IsRegexSpace(parts[0][i])
    ensures SchemaSearchArgument(YStr(Join(parts, ","))) ==
      Ok(Join(seq(|parts|, k requires 0 <= k < |parts| => SchemaFlag(parts[k])), " "))
  {
    var t := Join(parts, ",");
    FieldsOfJoin(parts, ',');
    assert Split(t, ',') == parts;
    var i :| 0 <= i < |parts[0]| && !IsRegexSpace(parts[0][i]);
    JoinHead(parts, ",");
    assert t[i] == parts[0][i];
  }

  lemma JoinHead(parts: seq<string>, sep: string)
    requires |parts| > 0
    ensures parts[0] <= Join(parts, sep)
  {
  }
}

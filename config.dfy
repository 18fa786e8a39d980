/** The application settings: nine strings read from the environment with a
    literal default each, the connection parameters built from them, and the
    check that the required ones are non-empty. */
module Config {
  import opened Sql

  /** The process environment: the variables that are set, with their values. */
  type Env = map<string, string>

  /** The class attributes of `Config`. */
  datatype Settings = Settings(
    account: string,
    username: string,
    user: string,
    password: string,
    database: string,
    schema: string,
    authenticator: string,
    warehouse: string,
    role: string)

  const FieldNames: seq<string> := [
    "SNOWFLAKE_ACCOUNT", "SNOWFLAKE_USERNAME", "SNOWFLAKE_USER", "SNOWFLAKE_PASSWORD", "SNOWFLAKE_DATABASE",
    "SNOWFLAKE_SCHEMA", "SNOWFLAKE_AUTHENTICATOR", "SNOWFLAKE_WAREHOUSE", "SNOWFLAKE_ROLE"]

  /** `getattr(Config, name)`, with `None` for a name that is no setting. */
  function Attr(s: Settings, name: string): (r: Option<string>)
    ensures r.Some? <==> name in FieldNames
  {
    if name == "SNOWFLAKE_ACCOUNT" then Some(s.account)
    else if name == "SNOWFLAKE_USERNAME" then Some(s.username)
    else if name == "SNOWFLAKE_USER" then Some(s.user)
    else if name == "SNOWFLAKE_PASSWORD" then Some(s.password)
    else if name == "SNOWFLAKE_DATABASE" then Some(s.database)
    else if name == "SNOWFLAKE_SCHEMA" then Some(s.schema)
    else if name == "SNOWFLAKE_AUTHENTICATOR" then Some(s.authenticator)
    else if name == "SNOWFLAKE_WAREHOUSE" then Some(s.warehouse)
    else if name == "SNOWFLAKE_ROLE" then Some(s.role)
    else None
  }

  /** `os.getenv(name, default)`: a variable that is set wins, even when empty. */
  function Getenv(env: Env, name: string, default: string): string
  {
    if name in env then env[name] else default
  }

  /** The class body: each setting is its variable's value when set, and
      otherwise its default (the literal defaults are a parameter here). */
  function LoadSettings(env: Env, defaults: Settings): (s: Settings)
    ensures forall name :: name in FieldNames ==>
      Attr(s, name) == (if name in env then Some(env[name]) else Attr(defaults, name))
  {
    Settings(
      Getenv(env, "SNOWFLAKE_ACCOUNT", defaults.account),
      Getenv(env, "SNOWFLAKE_USERNAME", defaults.username),
      Getenv(env, "SNOWFLAKE_USER", defaults.user),
      Getenv(env, "SNOWFLAKE_PASSWORD", defaults.password),
      Getenv(env, "SNOWFLAKE_DATABASE", defaults.database),
      Getenv(env, "SNOWFLAKE_SCHEMA", defaults.schema),
      Getenv(env, "SNOWFLAKE_AUTHENTICATOR", defaults.authenticator),
      Getenv(env, "SNOWFLAKE_WAREHOUSE", defaults.warehouse),
      Getenv(env, "SNOWFLAKE_ROLE", defaults.role))
  }

  /** The keyword arguments handed to the warehouse driver. */
  datatype ConnectionParams = ConnectionParams(
    account: string,
    user: string,
    password: string,
    database: string,
    schema: string,
    authenticator: string,
    warehouse: string,
    role: string,
    keepAlive: bool,
    loginTimeout: int,
    networkTimeout: int)

  const LoginTimeout: int := 30
  const NetworkTimeout: int := 30

  /** `get_snowflake_config()`: the login name is `SNOWFLAKE_USERNAME`; the
      session is kept alive and both timeouts are 30 seconds. */
  function GetSnowflakeConfig(s: Settings): (p: ConnectionParams)
    ensures p.user == s.username
    ensures p.account == s.account && p.password == s.password && p.database == s.database
    ensures p.schema == s.schema && p.authenticator == s.authenticator
    ensures p.warehouse == s.warehouse && p.role == s.role
    ensures p.keepAlive && p.loginTimeout == 30 && p.networkTimeout == 30
  {
    ConnectionParams(s.account, s.username, s.password, s.database, s.schema, s.authenticator,
                     s.warehouse, s.role, true, LoginTimeout, NetworkTimeout)
  }

  // ---------------------------------------------------------------------
  // validate_config

  const Required: seq<string> := ["SNOWFLAKE_ACCOUNT", "SNOWFLAKE_USER", "SNOWFLAKE_DATABASE"]

  /** `not getattr(Config, field)`: an empty string is falsy. */
  predicate Unset(s: Settings, field: string)
  {
    Attr(s, field) == Some("")
  }

  /** The fields of `fields` that are unset, in order. */
  function MissingFields(s: Settings, fields: seq<string>): seq<string>
  {
    if fields == [] then []
    else
      var last := fields[|fields| - 1];
      MissingFields(s, fields[..|fields| - 1]) + (if Unset(s, last) then [last] else [])
  }

  /** `validate_config()`. */
  method ValidateConfig(s: Settings) returns (missing: seq<string>)
    ensures missing == MissingFields(s, Required)
  {
    missing := [];
    var i := 0;
    while i < |Required|
      invariant 0 <= i <= |Required|
      invariant missing == MissingFields(s, Required[..i])
    {
      var field := Required[i];
      if Attr(s, field) == Some("") {
        missing := missing + [field];
      }
      assert Required[..i + 1][..i] == Required[..i];
      i := i + 1;
    }
    assert Required[..i] == Required;
  }

  /** A field is reported exactly when it is checked and unset. */
  lemma {:induction false} MissingFieldsIff(s: Settings, fields: seq<string>, f: string)
    ensures f in MissingFields(s, fields) <==> f in fields && Unset(s, f)
  {
    if fields != [] {
      var init := fields[..|fields| - 1];
      assert fields == init + [fields[|fields| - 1]];
      MissingFieldsIff(s, init, f);
    }
  }

  /** The report for the three required fields: in their order, each at most
      once, and empty exactly when all three are non-empty. */
  lemma MissingRequired(s: Settings)
    ensures MissingFields(s, Required) ==
      (if s.account == "" then ["SNOWFLAKE_ACCOUNT"] else [])
      + (if s.user == "" then ["SNOWFLAKE_USER"] else [])
      + (if s.database == "" then ["SNOWFLAKE_DATABASE"] else [])
    ensures |MissingFields(s, Required)| <= 3
    ensures forall i, j :: 0 <= i < j < |MissingFields(s, Required)| ==>
      MissingFields(s, Required)[i] != MissingFields(s, Required)[j]
    ensures MissingFields(s, Required) == [] <==> s.account != "" && s.user != "" && s.database != ""
  {
    var a: seq<string> := if s.account == "" then ["SNOWFLAKE_ACCOUNT"] else [];
    var u: seq<string> := if s.user == "" then ["SNOWFLAKE_USER"] else [];
    assert Required[..2] == ["SNOWFLAKE_ACCOUNT", "SNOWFLAKE_USER"];
    assert Required[..2][..1] == ["SNOWFLAKE_ACCOUNT"];
    assert ["SNOWFLAKE_ACCOUNT"][..0] == [];
    assert Unset(s, "SNOWFLAKE_ACCOUNT") <==> s.account == "";
    assert Unset(s, "SNOWFLAKE_USER") <==> s.user == "";
    assert Unset(s, "SNOWFLAKE_DATABASE") <==> s.database == "";
    assert MissingFields(s, ["SNOWFLAKE_ACCOUNT"]) == a;
    assert MissingFields(s, Required[..2]) == a + u;
  }

  /** Validation looks at `SNOWFLAKE_USER` while the connection logs in as
      `SNOWFLAKE_USERNAME`: a configuration can pass validation and still
      connect with an empty login name. */
  lemma ValidationIgnoresLoginName()
    ensures exists s :: MissingFields(s, Required) == [] && GetSnowflakeConfig(s).user == ""
  {
    var s := Settings("acct", "", "someone", "", "db", "", "", "", "");
    MissingRequired(s);
    assert MissingFields(s, Required) == [] && GetSnowflakeConfig(s).user == "";
  }
}

/** The warehouse connector: where the connection parameters come from, how a
    failed connection is reported, and the SQL text its query helpers build. */
module Connector {
  import opened Sql
  import opened Text
  import Config

  /** A credentials dictionary of the web session. */
  type Creds = map<string, string>

  /** `st.session_state['user_info']` (the one key the connector reads). */
  datatype UserInfo = UserInfo(snowflakeCredentials: Option<Creds>)

  /** The two session entries the connector reads; `None` when absent. */
  datatype Session = Session(realCreds: Option<Creds>, userInfo: Option<UserInfo>)

  /** `real_creds`: the session's `real_snowflake_credentials` (default `{}`),
      replaced by `user_info['snowflake_credentials']` only when it is empty
      and those are present and non-empty. */
  function ChooseCreds(session: Session): (creds: Creds)
    ensures session.realCreds.Some? && session.realCreds.value != map[] ==> creds == session.realCreds.value
    ensures creds != map[] ==>
      creds == Coalesce(session.realCreds, map[])
      || (session.userInfo.Some? && session.userInfo.value.snowflakeCredentials == Some(creds))
    ensures creds == map[] <==>
      Coalesce(session.realCreds, map[]) == map[]
      && (session.userInfo.None? || Coalesce(session.userInfo.value.snowflakeCredentials, map[]) == map[])
  {
    var stored := Coalesce(session.realCreds, map[]);
    if stored == map[] && session.userInfo.Some?
       && session.userInfo.value.snowflakeCredentials.Some?
       && session.userInfo.value.snowflakeCredentials.value != map[]
    then session.userInfo.value.snowflakeCredentials.value
    else stored
  }

  /** `creds.get(key, default)`: a present key wins, even with an empty value. */
  function GetOr(creds: Creds, key: string, default: string): string
  {
    if key in creds then creds[key] else default
  }

  /** `real_creds and real_creds.get('user')`. */
  predicate HasSessionUser(creds: Creds)
  {
    "user" in creds && creds["user"] != ""
  }

  /** The parameter a credentials key overrides, with its Config fallback. */
  function Param(p: Config.ConnectionParams, key: string): Option<string>
  {
    if key == "account" then Some(p.account)
    else if key == "user" then Some(p.user)
    else if key == "password" then Some(p.password)
    else if key == "database" then Some(p.database)
    else if key == "schema" then Some(p.schema)
    else if key == "role" then Some(p.role)
    else if key == "warehouse" then Some(p.warehouse)
    else if key == "authenticator" then Some(p.authenticator)
    else None
  }

  const CredKeys: seq<string> := ["account", "user", "password", "database", "schema", "role", "warehouse", "authenticator"]

  /** `connection_params`: built from the session credentials when they name
      a user, and otherwise the whole of `Config.get_snowflake_config()`. */
  function ResolveParams(creds: Creds, s: Config.Settings): (p: Config.ConnectionParams)
    ensures p.keepAlive && p.loginTimeout == 30 && p.networkTimeout == 30
    ensures !HasSessionUser(creds) ==> p == Config.GetSnowflakeConfig(s)
    ensures HasSessionUser(creds) ==> p.user == creds["user"]
    ensures HasSessionUser(creds) ==> forall key :: key in CredKeys ==>
      Param(p, key) == Some(GetOr(creds, key, Param(Config.GetSnowflakeConfig(s), key).value))
  {
    if HasSessionUser(creds) then
      Config.ConnectionParams(
        GetOr(creds, "account", s.account),
        GetOr(creds, "user", s.username),
        GetOr(creds, "password", s.password),
        GetOr(creds, "database", s.database),
        GetOr(creds, "schema", s.schema),
        GetOr(creds, "authenticator", s.authenticator),
        GetOr(creds, "warehouse", s.warehouse),
        GetOr(creds, "role", s.role),
        true, 30, 30)
    else
      Config.GetSnowflakeConfig(s)
  }

  /** A non-empty `real_snowflake_credentials` without a user sends the
      connector to Config, whatever `user_info` holds. */
  lemma RealCredsWithoutUserUseConfig(session: Session, s: Config.Settings)
    requires session.realCreds.Some? && session.realCreds.value != map[]
    requires !HasSessionUser(session.realCreds.value)
    ensures ResolveParams(ChooseCreds(session), s) == Config.GetSnowflakeConfig(s)
  {
  }

  // ---------------------------------------------------------------------
  // Error classification

  datatype ConnectError = CredentialsError | AccountError | WarehouseError | RoleError | GenericError(message: string)

  /** The `if`/`elif` chain over the lower-cased driver message: the first
      matching phrase decides. */
  function ClassifyConnectError(message: string): (e: ConnectError)
    ensures var m := Lower(message);
      && (e == CredentialsError <==> Contains(m, "incorrect username or password"))
      && (e == AccountError <==>
            !Contains(m, "incorrect username or password")
            && (Contains(m, "account") || Contains(m, "could not connect to snowflake backend")))
      && (e == WarehouseError <==>
            !Contains(m, "incorrect username or password") && !Contains(m, "account")
            && !Contains(m, "could not connect to snowflake backend") && Contains(m, "warehouse"))
      && (e == RoleError <==>
            !Contains(m, "incorrect username or password") && !Contains(m, "account")
            && !Contains(m, "could not connect to snowflake backend") && !Contains(m, "warehouse")
            && Contains(m, "role"))
      && (e.GenericError? <==>
            !Contains(m, "incorrect username or password") && !Contains(m, "account")
            && !Contains(m, "could not connect to snowflake backend") && !Contains(m, "warehouse") && !Contains(m, "role"))
    ensures e.GenericError? ==> e.message == message
  {
    var m := Lower(message);
    if Contains(m, "incorrect username or password") then CredentialsError
    else if Contains(m, "account") || Contains(m, "could not connect to snowflake backend") then AccountError
    else if Contains(m, "warehouse") then WarehouseError
    else if Contains(m, "role") then RoleError
    else GenericError(message)
  }

  /** The classification does not depend on letter case (a generic error
      still carries the message as given). */
  lemma ClassificationIgnoresCase(message: string)
    ensures ClassifyConnectError(Upper(message)).GenericError? == ClassifyConnectError(message).GenericError?
    ensures !ClassifyConnectError(message).GenericError? ==>
      ClassifyConnectError(Upper(message)) == ClassifyConnectError(message)
    ensures !ClassifyConnectError(message).GenericError? ==>
      ClassifyConnectError(Lower(message)) == ClassifyConnectError(message)
  {
    LowerOfUpper(message);
    LowerIdempotent(message);
  }

  // ---------------------------------------------------------------------
  // The connector object

  /** An open warehouse session (opaque). */
  datatype Connection = Connection(params: Config.ConnectionParams)

  /** What the driver's `connect` call does with the parameters. */
  datatype Attempt = Connected(conn: Connection) | Failed(message: string)

  class SnowflakeConnector {
    var connection: Option<Connection>

    constructor()
      ensures connection.None?
    {
      connection := None;
    }

    /** `connect()`: drops any open connection, resolves the parameters and
        hands them to the driver (a parameter here). On failure the
        connection stays closed and the error is classified. */
    method Connect(session: Session, s: Config.Settings, driver: Config.ConnectionParams -> Attempt)
      returns (ok: bool, error: Option<ConnectError>)
      modifies this
      ensures var attempt := driver(ResolveParams(ChooseCreds(session), s));
        && (ok <==> attempt.Connected?)
        && (ok ==> connection == Some(attempt.conn) && error.None?)
        && (!ok ==> connection.None? && error == Some(ClassifyConnectError(attempt.message)))
    {
      if connection.Some? {
        connection := None;
      }
      var realCreds := ChooseCreds(session);
      var params := ResolveParams(realCreds, s);
      var attempt := driver(params);
      match attempt
      case Connected(c) =>
        connection := Some(c);
        ok, error := true, None;
      case Failed(msg) =>
        ok, error := false, Some(ClassifyConnectError(msg));
    }
  }

  // ---------------------------------------------------------------------
  // Query builders

  const TableInfoHead: string := "SELECT COLUMN_NAME, DATA_TYPE, IS_NULLABLE, COLUMN_DEFAULT, COMMENT FROM INFORMATION_SCHEMA.COLUMNS WHERE TABLE_NAME = '"
  const TableInfoTail: string := "' ORDER BY ORDINAL_POSITION"

  /** `get_table_info(table_name)`: the name is upper-cased into the query. */
  function TableInfoQuery(tableName: string): (q: string)
    ensures |q| == |TableInfoHead| + |tableName| + |TableInfoTail|
    ensures q[..|TableInfoHead|] == TableInfoHead
    ensures q[|TableInfoHead|..|TableInfoHead| + |tableName|] == Upper(tableName)
    ensures q[|TableInfoHead| + |tableName|..] == TableInfoTail
  {
    TableInfoHead + Upper(tableName) + TableInfoTail
  }

  /** Names that differ only in letter case give the same query. */
  lemma TableInfoIgnoresCase(tableName: string)
    ensures TableInfoQuery(Lower(tableName)) == TableInfoQuery(tableName)
  {
    UpperOfLower(tableName);
  }

  const ConfigurationsBase: string := "SELECT CUSTOMER_ID, CUSTOMER_NAME, CONFIGURATION_TYPE, CONFIGURATION_VALUE, CREATED_DATE, UPDATED_DATE, STATUS, REGION FROM CUSTOMER_CONFIGURATIONS WHERE 1=1"
  const ConfigurationsOrder: string := " ORDER BY UPDATED_DATE DESC"

  /** A filter contributes its clause only when the key is present with a
      non-empty value. */
  predicate Truthy(filters: map<string, string>, key: string)
  {
    key in filters && filters[key] != ""
  }

  /** `f" AND {column} = '{filters[key]}'"`, given its text up to the value. */
  function Clause(filters: map<string, string>, key: string, head: string): (c: string)
    ensures !Truthy(filters, key) ==> c == ""
    ensures Truthy(filters, key) ==> c == head + filters[key] + "'"
  {
    if Truthy(filters, key) then head + filters[key] + "'" else ""
  }

  /** The clauses of `get_customer_configurations`, in the order customer id,
      status, region; `None` is a call without filters. */
  function ConfigurationFilters(filters: Option<map<string, string>>): string
  {
    match filters
    case None => ""
    case Some(f) => Clause(f, "customer_id", " AND CUSTOMER_ID = '") + Clause(f, "status", " AND STATUS = '") + Clause(f, "region", " AND REGION = '")
  }

  /** Appending a clause piece by piece appends the whole clause. */
  lemma Grow(q: string, head: string, value: string, tail: string)
    ensures q + head + value + tail == q + (head + value + tail)
  {
  }

  lemma Assoc(a: string, b: string, c: string)
    ensures a + b + c == a + (b + c)
  {
  }

  /** `get_customer_configurations(filters)`, growing the query by `+=`. */
  method CustomerConfigurationsQuery(filters: Option<map<string, string>>) returns (q: string)
    ensures q == ConfigurationsBase + ConfigurationFilters(filters) + ConfigurationsOrder
  {
    q := ConfigurationsBase;
    ghost var added := "";
    assert q == ConfigurationsBase + added;
    if filters.Some? && filters.value != map[] {
      var f := filters.value;
      if "customer_id" in f && f["customer_id"] != "" {
        Grow(q, " AND CUSTOMER_ID = '", f["customer_id"], "'");
        Assoc(ConfigurationsBase, added, Clause(f, "customer_id", " AND CUSTOMER_ID = '"));
        q := q + " AND CUSTOMER_ID = '" + f["customer_id"] + "'";
      }
      added := Clause(f, "customer_id", " AND CUSTOMER_ID = '");
      assert q == ConfigurationsBase + added;
      if "status" in f && f["status"] != "" {
        Grow(q, " AND STATUS = '", f["status"], "'");
        Assoc(ConfigurationsBase, added, Clause(f, "status", " AND STATUS = '"));
        q := q + " AND STATUS = '" + f["status"] + "'";
      }
      added := added + Clause(f, "status", " AND STATUS = '");
      assert q == ConfigurationsBase + added;
      if "region" in f && f["region"] != "" {
        Grow(q, " AND REGION = '", f["region"], "'");
        Assoc(ConfigurationsBase, added, Clause(f, "region", " AND REGION = '"));
        q := q + " AND REGION = '" + f["region"] + "'";
      }
      added := added + Clause(f, "region", " AND REGION = '");
      assert q == ConfigurationsBase + added;
    }
    assert added == ConfigurationFilters(filters);
    q := q + ConfigurationsOrder;
  }

  /** The query starts with the base text and always ends with the ordering;
      an absent filter, an empty value and no filters at all are the same. */
  lemma ConfigurationsQueryShape(filters: map<string, string>, key: string)
    ensures var q := ConfigurationsBase + ConfigurationFilters(Some(filters)) + ConfigurationsOrder;
      q[..|ConfigurationsBase|] == ConfigurationsBase && q[|q| - |ConfigurationsOrder|..] == ConfigurationsOrder
    ensures ConfigurationFilters(Some(map[])) == ConfigurationFilters(None)
    ensures key in filters && filters[key] == "" ==>
      ConfigurationFilters(Some(filters)) == ConfigurationFilters(Some(filters - {key}))
  {
    var q := ConfigurationsBase + ConfigurationFilters(Some(filters)) + ConfigurationsOrder;
    assert q[..|ConfigurationsBase|] == ConfigurationsBase;
    assert q[|q| - |ConfigurationsOrder|..] == ConfigurationsOrder;
    if key in filters && filters[key] == "" {
      var g := filters - {key};
      assert forall k :: Truthy(g, k) <==> Truthy(filters, k);
      assert forall k :: Truthy(g, k) ==> g[k] == filters[k];
    }
  }

  const DetailsBase: string := "SELECT CUSTOMER_ID, CUSTOMER_NAME, EMAIL, PHONE, ADDRESS, CITY, STATE, COUNTRY, POSTAL_CODE, ACCOUNT_TYPE, SUBSCRIPTION_LEVEL, CREATED_DATE, LAST_LOGIN_DATE, STATUS FROM CUSTOMER_DETAILS WHERE 1=1"
  const DetailsOrder: string := " ORDER BY CREATED_DATE DESC"

  /** The customer clause of `get_customer_details`: only for a non-empty id. */
  function DetailsFilter(customerId: Option<string>): (c: string)
    ensures c == "" <==> customerId.None? || customerId == Some("")
  {
    if customerId.Some? && customerId.value != "" then " AND CUSTOMER_ID = '" + customerId.value + "'" else ""
  }

  /** `get_customer_details(customer_id)`. */
  method CustomerDetailsQuery(customerId: Option<string>) returns (q: string)
    ensures q == DetailsBase + DetailsFilter(customerId) + DetailsOrder
  {
    q := DetailsBase;
    if customerId.Some? && customerId.value != "" {
      Grow(q, " AND CUSTOMER_ID = '", customerId.value, "'");
      q := q + " AND CUSTOMER_ID = '" + customerId.value + "'";
    }
    q := q + DetailsOrder;
  }

  /** `get_available_tables()` over the `TABLE_NAME` column of the result:
      `[]` when the query failed (`None`) or returned no rows. */
  function AvailableTables(result: Option<seq<string>>): (tables: seq<string>)
    ensures tables == [] <==> result.None? || result.value == []
    ensures result.Some? ==> tables == result.value
  {
    if result.Some? && result.value != [] then result.value else []
  }
}

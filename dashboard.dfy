/** The connection search of the customer-configuration page: up to three
    conditions from the search inputs, joined into one WHERE clause, or a
    capped listing when every input is blank. */
module Dashboard {
  import opened Text

  const ConnectionsBase: string := "SELECT _id, app, type, _userId, name, OBJECT_CONSTRUCT(*) as full_data FROM connections"
  const ConnectionsLimit: string := " LIMIT 100"

  /** `f"_id = '{...}'"`, `f"app = '{...}'"` and `f"_userId = '{...}'"`. */
  function IdCondition(id: string): string { "_id = '" + id + "'" }
  function AppCondition(app: string): string { "app = '" + app + "'" }
  function UserCondition(user: string): string { "_userId = '" + user + "'" }

  /** The conditions, in the order connection id, app, user id: the two typed
      inputs count once stripped of surrounding whitespace, the app choice
      when it is not the blank option. */
  function SearchConditions(connectionId: string, app: string, userId: string): (conds: seq<string>)
    ensures |conds| == (if Strip(connectionId) != "" then 1 else 0) + (if app != "" then 1 else 0)
                       + (if Strip(userId) != "" then 1 else 0)
    ensures Strip(connectionId) != "" ==> conds[0] == IdCondition(Strip(connectionId))
    ensures app != "" ==> conds[if Strip(connectionId) != "" then 1 else 0] == AppCondition(app)
    ensures Strip(userId) != "" ==> conds[|conds| - 1] == UserCondition(Strip(userId))
  {
    (if Strip(connectionId) != "" then [IdCondition(Strip(connectionId))] else [])
    + (if app != "" then [AppCondition(app)] else [])
    + (if Strip(userId) != "" then [UserCondition(Strip(userId))] else [])
  }

  /** The query the page runs for the given inputs: the capped listing
      exactly when there is no condition, and a WHERE clause otherwise. */
  function SearchQuery(connectionId: string, app: string, userId: string): (q: string)
    ensures SearchConditions(connectionId, app, userId) == [] <==> q == ConnectionsBase + ConnectionsLimit
    ensures SearchConditions(connectionId, app, userId) != [] ==>
      |q| >= |ConnectionsBase| + 7 && q[..|ConnectionsBase| + 7] == ConnectionsBase + " WHERE "
    ensures SearchConditions(connectionId, app, userId) != [] ==>
      q == ConnectionsBase + " WHERE " + Join(SearchConditions(connectionId, app, userId), " AND ")
  {
    var conds := SearchConditions(connectionId, app, userId);
    if conds != [] then
      var q := ConnectionsBase + " WHERE " + Join(conds, " AND ");
      assert q[..|ConnectionsBase| + 7] == ConnectionsBase + " WHERE ";
      assert q[|ConnectionsBase| + 1] == 'W' != (ConnectionsBase + ConnectionsLimit)[|ConnectionsBase| + 1];
      q
    else ConnectionsBase + ConnectionsLimit
  }

  /** The page's builder: appends to a `conditions` list step by step, then
      joins it. */
  method ConnectionSearchQuery(connectionId: string, app: string, userId: string) returns (query: string)
    ensures query == SearchQuery(connectionId, app, userId)
  {
    var id := Strip(connectionId);
    var user := Strip(userId);
    ghost var c1: seq<string> := if id != "" then [IdCondition(id)] else [];
    ghost var c2: seq<string> := if app != "" then [AppCondition(app)] else [];
    ghost var c3: seq<string> := if user != "" then [UserCondition(user)] else [];
    var conditions: seq<string> := [];
    if id != "" {
      conditions := conditions + [IdCondition(id)];
    }
    assert conditions == c1;
    if app != "" {
      conditions := conditions + [AppCondition(app)];
    }
    assert conditions == c1 + c2;
    if user != "" {
      conditions := conditions + [UserCondition(user)];
    }
    assert conditions == c1 + c2 + c3;
    if conditions != [] {
      query := ConnectionsBase + " WHERE " + Join(conditions, " AND ");
    } else {
      query := ConnectionsBase + ConnectionsLimit;
    }
  }

  /** Blank inputs (whitespace only, and no app) list the first hundred
      connections; any other input filters with a WHERE clause instead. */
  lemma BlankSearchListsAll(connectionId: string, app: string, userId: string)
    ensures var blank := (forall i :: 0 <= i < |connectionId| ==> IsSpace(connectionId[i]))
                         && app == ""
                         && (forall i :: 0 <= i < |userId| ==> IsSpace(userId[i]));
      && (blank ==> SearchQuery(connectionId, app, userId) == ConnectionsBase + ConnectionsLimit)
      && (!blank ==> SearchQuery(connectionId, app, userId)[..|ConnectionsBase| + 7] == ConnectionsBase + " WHERE ")
  {
    StripEmptyIff(connectionId);
    StripEmptyIff(userId);
  }

  /** All three inputs given: the three conditions, in the order connection
      id, app, user id, each pair separated by `AND`. */
  lemma AllConditions(connectionId: string, app: string, userId: string)
    requires Strip(connectionId) != "" && app != "" && Strip(userId) != ""
    ensures SearchQuery(connectionId, app, userId) ==
      ConnectionsBase + " WHERE " + IdCondition(Strip(connectionId)) + " AND " + AppCondition(app)
      + " AND " + UserCondition(Strip(userId))
  {
    var a, b, c := IdCondition(Strip(connectionId)), AppCondition(app), UserCondition(Strip(userId));
    var conds := SearchConditions(connectionId, app, userId);
    var and, w := " AND ", ConnectionsBase + " WHERE ";
    assert conds == [a, b, c];
    assert [a, b, c][..2] == [a, b] && [a, b][..1] == [a];
    var ab := Join([a, b], and);
    assert ab == a + and + b;
    assert Join(conds, and) == ab + and + c;
    assert SearchQuery(connectionId, app, userId) == w + (ab + and + c);
    ConcatAssoc(w, a, and, b, and, c);
  }

  /** Regrouping the three joined conditions after the WHERE prefix. */
  lemma ConcatAssoc(w: string, a: string, x: string, b: string, y: string, c: string)
    ensures w + ((a + x + b) + y + c) == w + a + x + b + y + c
  {
  }

  /** Only the user id given: the query filters on that user alone. */
  lemma SingleCondition(userId: string)
    requires Strip(userId) != ""
    ensures SearchQuery("", "", userId) == ConnectionsBase + " WHERE " + UserCondition(Strip(userId))
  {
    var c := UserCondition(Strip(userId));
    assert Strip("") == "";
    assert SearchConditions("", "", userId) == [c];
    assert Join([c], " AND ") == c;
  }
}

/** Rollout phase resolution, as the three copies of the `user_group` query
    compute it (the overview pie chart, the Rollout Tracking tab and the
    "Canary Phase Distribution" catalogue entry):

      users INNER JOIN licenses ON l._userId = u._id
            LEFT JOIN (release_canary_groups flattened to one row per user id)
                   ON user id, release and version match
      WHERE the license is eligible
      SELECT the phase CASE for every surviving row

    followed by `GROUP BY phase` and `count(*)`. Tables are sequences of
    records, nullable columns are `Option`s, every SQL condition is evaluated
    in three-valued logic, and `CURRENT_DATE()`, the release and the version
    are parameters. */
module Rollout {
  import opened Sql

  const InternalDomain: string := "celigo.com"
  const TargetRelease: string := "2025.5.1"
  const TargetVersion: string := "1.0"
  const AllowedTypes: seq<string> := ["integrator", "endpoint", "platform", "diy"]
  const FreeTier: string := "free"
  const NoTier: string := "none"
  const InternalPhase: string := "internal"
  const FreeTrialPhase: string := "free-trial"
  const FreePhase: string := "free"

  /** A row of `users`. */
  datatype User = User(
    id: string,
    name: Option<string>,
    email: Option<string>,
    emailDomain: Option<string>,
    verified: Option<bool>,
    subdomain: Option<string>)

  /** A row of `licenses`; a user may own any number of them. */
  datatype License = License(
    userId: Option<string>,
    licenseType: Option<string>,
    tier: Option<string>,
    trialEndDate: Option<int>,
    expires: Option<int>)

  /** A row of `release_canary_groups`; `USER_IDS` is an array of user ids
      (a NULL array flattens to nothing, like an empty one). */
  datatype CanaryGroup = CanaryGroup(
    name: Option<string>,
    release: Option<string>,
    version: Option<string>,
    userIds: seq<string>)

  /** A row of the flattened cohort table `ef`: one per (group, user id). */
  datatype Member = Member(
    name: Option<string>,
    userId: string,
    release: Option<string>,
    version: Option<string>)

  /** The release and version the cohorts are read for, and `CURRENT_DATE()`. */
  datatype Scope = Scope(release: string, version: string, today: int)

  /** A row of `user_group`: the selected user and license columns and the
      computed phase (`subdomain` is the `coalesce(u.subdomain, 'na')` column
      of the catalogue's audit variant). */
  datatype PhaseRow = PhaseRow(
    userId: string,
    name: Option<string>,
    email: Option<string>,
    verified: Option<bool>,
    phase: Option<string>,
    tier: Option<string>,
    subdomain: string)

  /** The scope every copy of the query hard-codes. */
  function SourceScope(today: int): Scope
  {
    Scope(TargetRelease, TargetVersion, today)
  }

  // ---------------------------------------------------------------------
  // Eligibility (the WHERE clause)

  /** `l.type in (...) and l.tier != 'none' and (l.tier = 'free' OR l.expires > current_date())` */
  function EligibilityCondition(l: License, today: int): Truth
  {
    And(And(InList(l.licenseType, AllowedTypes), Ne(l.tier, Some(NoTier))),
        Or(Eq(l.tier, Some(FreeTier)), Gt(l.expires, Some(today))))
  }

  /** What the WHERE clause keeps, with NULLs excluded as SQL excludes them. */
  predicate Eligible(l: License, today: int)
    ensures Eligible(l, today) <==>
      && l.licenseType.Some? && l.licenseType.value in AllowedTypes
      && l.tier.Some? && l.tier.value != NoTier
      && (l.tier.value == FreeTier || (l.expires.Some? && l.expires.value > today))
    ensures l.tier.None? ==> !Eligible(l, today)
    ensures l.tier == Some(NoTier) ==> !Eligible(l, today)
    ensures l.tier.Some? && l.tier.value != FreeTier && l.expires.None? ==> !Eligible(l, today)
    ensures l.tier == Some(FreeTier) ==>
      (Eligible(l, today) <==> l.licenseType.Some? && l.licenseType.value in AllowedTypes)
  {
    EligibilityCondition(l, today) == True
  }

  // ---------------------------------------------------------------------
  // The phase CASE

  /** `CASE WHEN u.emailDomain = 'celigo.com' THEN 'internal'
           WHEN l.tier = 'free' and l.trialenddate > CURRENT_DATE() THEN 'free-trial'
           WHEN l.tier = 'free' THEN 'free'
           ELSE ef.canary_group_name END`,
      where `cohort` is the joined `ef.canary_group_name` (NULL when the LEFT
      JOIN found no cohort row). The first matching rule wins: internal, then
      free-trial, then free, then the cohort; a NULL trial end date never
      makes a trial. */
  function PhaseOf(u: User, l: License, cohort: Option<string>, today: int): (phase: Option<string>)
    ensures u.emailDomain == Some(InternalDomain) ==> phase == Some(InternalPhase)
    ensures u.emailDomain != Some(InternalDomain) && l.tier == Some(FreeTier) ==>
      phase == if l.trialEndDate.Some? && l.trialEndDate.value > today then Some(FreeTrialPhase) else Some(FreePhase)
    ensures u.emailDomain != Some(InternalDomain) && l.tier != Some(FreeTier) ==> phase == cohort
  {
    if Eq(u.emailDomain, Some(InternalDomain)) == True then Some(InternalPhase)
    else if And(Eq(l.tier, Some(FreeTier)), Gt(l.trialEndDate, Some(today))) == True then Some(FreeTrialPhase)
    else if Eq(l.tier, Some(FreeTier)) == True then Some(FreePhase)
    else cohort
  }

  // ---------------------------------------------------------------------
  // The cohort table: LATERAL FLATTEN and the LEFT JOIN's ON condition

  function MembersOf(g: CanaryGroup): (ms: seq<Member>)
    ensures |ms| == |g.userIds|
    ensures forall i :: 0 <= i < |ms| ==> ms[i] == Member(g.name, g.userIds[i], g.release, g.version)
  {
    seq(|g.userIds|, i requires 0 <= i < |g.userIds| => Member(g.name, g.userIds[i], g.release, g.version))
  }

  /** `release_canary_groups e, LATERAL FLATTEN(input => e.USER_IDS) f` */
  function Flatten(groups: seq<CanaryGroup>): seq<Member>
  {
    if groups == [] then [] else MembersOf(groups[0]) + Flatten(groups[1..])
  }

  lemma {:induction false} FlattenAppend(a: seq<CanaryGroup>, b: seq<CanaryGroup>)
    ensures Flatten(a + b) == Flatten(a) + Flatten(b)
  {
    if a == [] {
      assert a + b == b;
    } else {
      assert (a + b)[0] == a[0] && (a + b)[1..] == a[1..] + b;
      FlattenAppend(a[1..], b);
    }
  }

  /** The flattened table holds one row for every user id of every group,
      carrying that group's name, release and version, and nothing else. */
  lemma {:induction false} FlattenMembers(groups: seq<CanaryGroup>, m: Member)
    ensures m in Flatten(groups) <==>
      exists g, i :: g in groups && 0 <= i < |g.userIds| && m == Member(g.name, g.userIds[i], g.release, g.version)
  {
    if groups != [] {
      FlattenMembers(groups[1..], m);
      var g0 := groups[0];
      if m in MembersOf(g0) {
        var i :| 0 <= i < |g0.userIds| && MembersOf(g0)[i] == m;
        assert g0 in groups;
      }
      if exists g, i :: g in groups && 0 <= i < |g.userIds| && m == Member(g.name, g.userIds[i], g.release, g.version) {
        var g, i :| g in groups && 0 <= i < |g.userIds| && m == Member(g.name, g.userIds[i], g.release, g.version);
        if g == g0 {
          assert MembersOf(g0)[i] == m;
        } else {
          assert g in groups[1..];
        }
      }
    }
  }

  /** `ef.user_id = u._id and ef.RELEASE_NAME = release and ef.version = version` */
  predicate Matches(m: Member, u: User, scope: Scope)
  {
    And(And(Eq(Some(m.userId), Some(u.id)), Eq(m.release, Some(scope.release))),
        Eq(m.version, Some(scope.version))) == True
  }

  /** The cohort names the LEFT JOIN pairs with user `u`, one per matching row. */
  function CohortNames(ms: seq<Member>, u: User, scope: Scope): seq<Option<string>>
  {
    if ms == [] then []
    else (if Matches(ms[0], u, scope) then [ms[0].name] else []) + CohortNames(ms[1..], u, scope)
  }

  /** The `ef.canary_group_name` values a LEFT JOIN produces for `u`: one per
      matching cohort row, or a single NULL when none matches. */
  function LeftJoinNames(ms: seq<Member>, u: User, scope: Scope): seq<Option<string>>
  {
    var found := CohortNames(ms, u, scope);
    if found == [] then [None] else found
  }

  lemma {:induction false} CohortNamesAppend(a: seq<Member>, b: seq<Member>, u: User, scope: Scope)
    ensures CohortNames(a + b, u, scope) == CohortNames(a, u, scope) + CohortNames(b, u, scope)
  {
    if a == [] {
      assert a + b == b;
    } else {
      assert (a + b)[0] == a[0] && (a + b)[1..] == a[1..] + b;
      CohortNamesAppend(a[1..], b, u, scope);
    }
  }

  lemma {:induction false} CohortNamesMembers(ms: seq<Member>, u: User, scope: Scope, n: Option<string>)
    ensures n in CohortNames(ms, u, scope) <==> exists m :: m in ms && Matches(m, u, scope) && m.name == n
  {
    if ms != [] {
      CohortNamesMembers(ms[1..], u, scope, n);
      if exists m :: m in ms && Matches(m, u, scope) && m.name == n {
        var m :| m in ms && Matches(m, u, scope) && m.name == n;
        if m != ms[0] {
          assert m in ms[1..];
        }
      }
    }
  }

  lemma {:induction false} CohortNamesEmptyIff(ms: seq<Member>, u: User, scope: Scope)
    ensures CohortNames(ms, u, scope) == [] <==> forall m :: m in ms ==> !Matches(m, u, scope)
  {
    if ms != [] {
      CohortNamesEmptyIff(ms[1..], u, scope);
      assert ms == [ms[0]] + ms[1..];
    }
  }

  /** Group `g` lists user `u` at position `i` and is of the given release
      and version. */
  ghost predicate Lists(g: CanaryGroup, i: int, u: User, scope: Scope)
  {
    0 <= i < |g.userIds| && g.userIds[i] == u.id
    && g.release == Some(scope.release) && g.version == Some(scope.version)
  }

  /** A user id is listed in some cohort of the given release and version. */
  ghost predicate InCohort(groups: seq<CanaryGroup>, u: User, scope: Scope)
  {
    exists g, i :: g in groups && Lists(g, i, u, scope)
  }

  /** The cohort lookup: the names joined to `u` are exactly the names of the
      groups of the target release and version that list `u`, or a single
      NULL when no such group exists. */
  lemma CohortLookup(groups: seq<CanaryGroup>, u: User, scope: Scope, n: Option<string>)
    ensures n in LeftJoinNames(Flatten(groups), u, scope) <==>
      (n.None? && !InCohort(groups, u, scope)) ||
      exists g, i :: g in groups && Lists(g, i, u, scope) && g.name == n
  {
    var ms := Flatten(groups);
    CohortNamesMembers(ms, u, scope, n);
    CohortNamesEmptyIff(ms, u, scope);
    forall m | m in ms && Matches(m, u, scope)
      ensures InCohort(groups, u, scope)
      ensures m.name == n ==> (exists g, i :: g in groups && Lists(g, i, u, scope) && g.name == n)
    {
      FlattenMembers(groups, m);
      var g, i :| g in groups && 0 <= i < |g.userIds| && m == Member(g.name, g.userIds[i], g.release, g.version);
      assert Lists(g, i, u, scope);
    }
    if exists g, i :: g in groups && Lists(g, i, u, scope) && g.name == n {
      var g, i :| g in groups && Lists(g, i, u, scope) && g.name == n;
      var m := Member(g.name, g.userIds[i], g.release, g.version);
      FlattenMembers(groups, m);
      assert m in ms && Matches(m, u, scope);
    }
    if InCohort(groups, u, scope) {
      var g, i :| g in groups && Lists(g, i, u, scope);
      var m := Member(g.name, g.userIds[i], g.release, g.version);
      FlattenMembers(groups, m);
      assert m in ms && Matches(m, u, scope);
    }
  }

  // ---------------------------------------------------------------------
  // The joined rows of `user_group`

  function MakeRow(u: User, l: License, cohort: Option<string>, today: int): PhaseRow
  {
    PhaseRow(u.id, u.name, u.email, u.verified, PhaseOf(u, l, cohort, today), l.tier, Coalesce(u.subdomain, "na"))
  }

  /** The rows one (user, license) pair yields: one per joined cohort name. */
  function RowsFor(u: User, l: License, names: seq<Option<string>>, today: int): (rows: seq<PhaseRow>)
    ensures |rows| == |names|
    ensures forall i :: 0 <= i < |names| ==> rows[i] == MakeRow(u, l, names[i], today)
  {
    seq(|names|, i requires 0 <= i < |names| => MakeRow(u, l, names[i], today))
  }

  /** `l._userId = u._id` */
  predicate Joins(l: License, u: User)
  {
    Eq(l.userId, Some(u.id)) == True
  }

  /** The rows of one user: every license joined to the user and kept by the
      WHERE clause, times every cohort name joined to the user. (The WHERE
      clause reads only license columns, so filtering before the LEFT JOIN
      keeps the same rows.) */
  function UserRows(u: User, licenses: seq<License>, names: seq<Option<string>>, today: int): seq<PhaseRow>
  {
    if licenses == [] then []
    else
      (if Joins(licenses[0], u) && Eligible(licenses[0], today) then RowsFor(u, licenses[0], names, today) else [])
      + UserRows(u, licenses[1..], names, today)
  }

  function UserGroupOver(users: seq<User>, licenses: seq<License>, ms: seq<Member>, scope: Scope): seq<PhaseRow>
  {
    if users == [] then []
    else
      UserRows(users[0], licenses, LeftJoinNames(ms, users[0], scope), scope.today)
      + UserGroupOver(users[1..], licenses, ms, scope)
  }

  /** The `user_group` common table expression. */
  function UserGroup(users: seq<User>, licenses: seq<License>, groups: seq<CanaryGroup>, scope: Scope): (rows: seq<PhaseRow>)
    ensures |rows| == Contribution(users, licenses, Flatten(groups), scope)
  {
    UserGroupSize(users, licenses, Flatten(groups), scope);
    UserGroupOver(users, licenses, Flatten(groups), scope)
  }

  lemma {:induction false} UserRowsMembers(u: User, licenses: seq<License>, names: seq<Option<string>>, today: int, r: PhaseRow)
    ensures r in UserRows(u, licenses, names, today) <==>
      exists l, n :: l in licenses && Joins(l, u) && Eligible(l, today) && n in names && r == MakeRow(u, l, n, today)
  {
    if licenses != [] {
      UserRowsMembers(u, licenses[1..], names, today, r);
      var l0 := licenses[0];
      if Joins(l0, u) && Eligible(l0, today) && r in RowsFor(u, l0, names, today) {
        var i :| 0 <= i < |names| && RowsFor(u, l0, names, today)[i] == r;
        assert l0 in licenses && names[i] in names && r == MakeRow(u, l0, names[i], today);
      }
      if exists l, n :: l in licenses && Joins(l, u) && Eligible(l, today) && n in names && r == MakeRow(u, l, n, today) {
        var l, n :| l in licenses && Joins(l, u) && Eligible(l, today) && n in names && r == MakeRow(u, l, n, today);
        if l == l0 {
          var i :| 0 <= i < |names| && names[i] == n;
          assert RowsFor(u, l0, names, today)[i] == r;
        } else {
          assert l in licenses[1..];
        }
      }
    }
  }

  lemma {:induction false} UserGroupOverMembers(users: seq<User>, licenses: seq<License>, ms: seq<Member>, scope: Scope, r: PhaseRow)
    ensures r in UserGroupOver(users, licenses, ms, scope) <==>
      exists u, l, n :: u in users && l in licenses && Joins(l, u) && Eligible(l, scope.today)
        && n in LeftJoinNames(ms, u, scope) && r == MakeRow(u, l, n, scope.today)
  {
    if users != [] {
      var u0 := users[0];
      UserGroupOverMembers(users[1..], licenses, ms, scope, r);
      UserRowsMembers(u0, licenses, LeftJoinNames(ms, u0, scope), scope.today, r);
      if exists u, l, n :: u in users && l in licenses && Joins(l, u) && Eligible(l, scope.today)
          && n in LeftJoinNames(ms, u, scope) && r == MakeRow(u, l, n, scope.today) {
        var u, l, n :| u in users && l in licenses && Joins(l, u) && Eligible(l, scope.today)
          && n in LeftJoinNames(ms, u, scope) && r == MakeRow(u, l, n, scope.today);
        if u != u0 {
          assert u in users[1..];
        }
      }
    }
  }

  /** Every row of `user_group` is the phase row of an eligible license joined
      to its user and of one cohort name joined to that user, and every such
      combination is a row. */
  lemma UserGroupMembers(users: seq<User>, licenses: seq<License>, groups: seq<CanaryGroup>, scope: Scope, r: PhaseRow)
    ensures r in UserGroup(users, licenses, groups, scope) <==>
      exists u, l, n :: u in users && l in licenses && Joins(l, u) && Eligible(l, scope.today)
        && n in LeftJoinNames(Flatten(groups), u, scope) && r == MakeRow(u, l, n, scope.today)
  {
    UserGroupOverMembers(users, licenses, Flatten(groups), scope, r);
  }

  /** `_id` is the key of `users`. */
  ghost predicate UniqueIds(users: seq<User>)
  {
    forall a, b :: a in users && b in users && a.id == b.id ==> a == b
  }

  /** An internal user's rows all have phase `internal`, whatever the tier,
      trial date or cohort membership of the license behind them. */
  lemma InternalRowsAreInternal(users: seq<User>, licenses: seq<License>, groups: seq<CanaryGroup>, scope: Scope,
                                u: User, r: PhaseRow)
    requires UniqueIds(users) && u in users && u.emailDomain == Some(InternalDomain)
    requires r in UserGroup(users, licenses, groups, scope) && r.userId == u.id
    ensures r.phase == Some(InternalPhase)
  {
    UserGroupMembers(users, licenses, groups, scope, r);
    var u', l, n :| u' in users && l in licenses && Joins(l, u') && Eligible(l, scope.today)
      && n in LeftJoinNames(Flatten(groups), u', scope) && r == MakeRow(u', l, n, scope.today);
    assert u' == u;
  }

  /** A row of a non-internal user on the free tier is `free-trial` or `free`:
      cohort membership never reaches free users. */
  lemma FreeRowsIgnoreCohorts(users: seq<User>, licenses: seq<License>, groups: seq<CanaryGroup>, scope: Scope,
                              u: User, r: PhaseRow)
    requires UniqueIds(users) && u in users && u.emailDomain != Some(InternalDomain)
    requires r in UserGroup(users, licenses, groups, scope) && r.userId == u.id && r.tier == Some(FreeTier)
    ensures r.phase == Some(FreeTrialPhase) || r.phase == Some(FreePhase)
  {
    UserGroupMembers(users, licenses, groups, scope, r);
    var u', l, n :| u' in users && l in licenses && Joins(l, u') && Eligible(l, scope.today)
      && n in LeftJoinNames(Flatten(groups), u', scope) && r == MakeRow(u', l, n, scope.today);
    assert u' == u;
  }

  /** A row of a non-internal user on a paying tier carries the name of a
      cohort of the target release and version that lists the user, or NULL
      when the user is in no such cohort. */
  lemma PaidRowsFollowCohort(users: seq<User>, licenses: seq<License>, groups: seq<CanaryGroup>, scope: Scope,
                             u: User, r: PhaseRow)
    requires UniqueIds(users) && u in users && u.emailDomain != Some(InternalDomain)
    requires r in UserGroup(users, licenses, groups, scope) && r.userId == u.id && r.tier != Some(FreeTier)
    ensures (r.phase.None? && !InCohort(groups, u, scope)) ||
      exists g, i :: g in groups && Lists(g, i, u, scope) && g.name == r.phase
  {
    UserGroupMembers(users, licenses, groups, scope, r);
    var u', l, n :| u' in users && l in licenses && Joins(l, u') && Eligible(l, scope.today)
      && n in LeftJoinNames(Flatten(groups), u', scope) && r == MakeRow(u', l, n, scope.today);
    assert u' == u;
    assert r.phase == n;
    CohortLookup(groups, u, scope, n);
  }

  /** A paying, non-internal user in no cohort of the target release and
      version gets a row with a NULL phase for each eligible license. */
  lemma UncohortedPaidUserHasNullPhase(users: seq<User>, licenses: seq<License>, groups: seq<CanaryGroup>, scope: Scope,
                                       u: User, l: License)
    requires u in users && l in licenses && Joins(l, u) && Eligible(l, scope.today)
    requires u.emailDomain != Some(InternalDomain) && l.tier != Some(FreeTier)
    requires !InCohort(groups, u, scope)
    ensures MakeRow(u, l, None, scope.today) in UserGroup(users, licenses, groups, scope)
    ensures MakeRow(u, l, None, scope.today).phase == None
  {
    CohortLookup(groups, u, scope, None);
    UserGroupMembers(users, licenses, groups, scope, MakeRow(u, l, None, scope.today));
  }

  /** Cohorts of other releases or versions never change `user_group`. */
  lemma OtherReleasesIgnored(users: seq<User>, licenses: seq<License>, groups: seq<CanaryGroup>,
                             others: seq<CanaryGroup>, scope: Scope)
    requires forall g :: g in others ==> g.release != Some(scope.release) || g.version != Some(scope.version)
    ensures UserGroup(users, licenses, groups + others, scope) == UserGroup(users, licenses, groups, scope)
  {
    FlattenAppend(groups, others);
    forall u: User
      ensures LeftJoinNames(Flatten(groups + others), u, scope) == LeftJoinNames(Flatten(groups), u, scope)
    {
      CohortNamesAppend(Flatten(groups), Flatten(others), u, scope);
      if CohortNames(Flatten(others), u, scope) != [] {
        var n := CohortNames(Flatten(others), u, scope)[0];
        CohortNamesMembers(Flatten(others), u, scope, n);
        var m :| m in Flatten(others) && Matches(m, u, scope) && m.name == n;
        FlattenMembers(others, m);
      }
    }
    SameJoinNamesSameRows(users, licenses, Flatten(groups + others), Flatten(groups), scope);
  }

  lemma {:induction false} SameJoinNamesSameRows(users: seq<User>, licenses: seq<License>, ms: seq<Member>, ms': seq<Member>, scope: Scope)
    requires forall u: User :: LeftJoinNames(ms, u, scope) == LeftJoinNames(ms', u, scope)
    ensures UserGroupOver(users, licenses, ms, scope) == UserGroupOver(users, licenses, ms', scope)
  {
    if users != [] {
      SameJoinNamesSameRows(users[1..], licenses, ms, ms', scope);
    }
  }

  // ---------------------------------------------------------------------
  // Row multiplicity

  /** How many licenses of `u` the join and the WHERE clause keep. */
  function EligibleCount(u: User, licenses: seq<License>, today: int): nat
  {
    if licenses == [] then 0
    else (if Joins(licenses[0], u) && Eligible(licenses[0], today) then 1 else 0) + EligibleCount(u, licenses[1..], today)
  }

  /** A user with k eligible licenses and m joined cohort names contributes
      k * m rows: nothing picks one license or one cohort. */
  lemma {:induction false} UserRowsCount(u: User, licenses: seq<License>, names: seq<Option<string>>, today: int)
    ensures |UserRows(u, licenses, names, today)| == EligibleCount(u, licenses, today) * |names|
  {
    if licenses != [] {
      UserRowsCount(u, licenses[1..], names, today);
      var rest := EligibleCount(u, licenses[1..], today);
      var tail := |UserRows(u, licenses[1..], names, today)|;
      assert tail == rest * |names|;
      if Joins(licenses[0], u) && Eligible(licenses[0], today) {
        assert EligibleCount(u, licenses, today) == rest + 1;
        assert |UserRows(u, licenses, names, today)| == |names| + tail;
        MulSucc(rest, |names|);
      } else {
        assert EligibleCount(u, licenses, today) == rest;
        assert |UserRows(u, licenses, names, today)| == tail;
      }
    }
  }

  lemma MulSucc(k: nat, n: nat)
    ensures (k + 1) * n == k * n + n
  {
  }

  /** The positions of the cohort rows that satisfy the ON clause for `u`. */
  ghost function MatchingRows(ms: seq<Member>, u: User, scope: Scope): set<int>
  {
    set i | 0 <= i < |ms| && Matches(ms[i], u, scope)
  }

  /** One name is collected per matching cohort row. */
  lemma {:induction false} CohortNamesCount(ms: seq<Member>, u: User, scope: Scope)
    ensures |CohortNames(ms, u, scope)| == |MatchingRows(ms, u, scope)|
  {
    if ms != [] {
      var n := |ms| - 1;
      var init := ms[..n];
      assert init + [ms[n]] == ms;
      CohortNamesCount(init, u, scope);
      CohortNamesAppend(init, [ms[n]], u, scope);
      assert [ms[n]][1..] == [];
      var s := MatchingRows(init, u, scope);
      if Matches(ms[n], u, scope) {
        assert MatchingRows(ms, u, scope) == s + {n};
        assert n !in s;
      } else {
        assert MatchingRows(ms, u, scope) == s;
      }
    }
  }

  /** A LEFT JOIN yields one row per matching cohort row, and a single NULL
      row when no cohort row matches. */
  lemma LeftJoinCount(ms: seq<Member>, u: User, scope: Scope)
    ensures |LeftJoinNames(ms, u, scope)| == if MatchingRows(ms, u, scope) == {} then 1 else |MatchingRows(ms, u, scope)|
  {
    CohortNamesCount(ms, u, scope);
  }

  /** The size of `user_group`: each user's eligible licenses times the
      rows its LEFT JOIN yields, summed over users. */
  function Contribution(users: seq<User>, licenses: seq<License>, ms: seq<Member>, scope: Scope): nat
  {
    if users == [] then 0
    else
      EligibleCount(users[0], licenses, scope.today) * |LeftJoinNames(ms, users[0], scope)|
      + Contribution(users[1..], licenses, ms, scope)
  }

  lemma {:induction false} UserGroupSize(users: seq<User>, licenses: seq<License>, ms: seq<Member>, scope: Scope)
    ensures |UserGroupOver(users, licenses, ms, scope)| == Contribution(users, licenses, ms, scope)
  {
    if users != [] {
      UserRowsCount(users[0], licenses, LeftJoinNames(ms, users[0], scope), scope.today);
      UserGroupSize(users[1..], licenses, ms, scope);
    }
  }

  // ---------------------------------------------------------------------
  // GROUP BY phase, count(*)

  /** A row of the grouped result: `phase, count(*) as user_count`. */
  datatype PhaseCount = PhaseCount(phase: Option<string>, count: nat)

  /** The number of rows whose phase is `p` (NULL groups with NULL). */
  function CountPhase(rows: seq<PhaseRow>, p: Option<string>): nat
  {
    if rows == [] then 0
    else CountPhase(rows[..|rows| - 1], p) + (if rows[|rows| - 1].phase == p then 1 else 0)
  }

  lemma {:induction false} CountPhaseAppend(a: seq<PhaseRow>, b: seq<PhaseRow>, p: Option<string>)
    ensures CountPhase(a + b, p) == CountPhase(a, p) + CountPhase(b, p)
    decreases |b|
  {
    if b == [] {
      assert a + b == a;
    } else {
      assert (a + b)[..|a + b| - 1] == a + b[..|b| - 1];
      assert (a + b)[|a + b| - 1] == b[|b| - 1];
      CountPhaseAppend(a, b[..|b| - 1], p);
    }
  }

  /** The count a grouped result reports for phase `p` (0 when absent). */
  function CountOf(t: seq<PhaseCount>, p: Option<string>): nat
  {
    if t == [] then 0 else if t[0].phase == p then t[0].count else CountOf(t[1..], p)
  }

  function Total(t: seq<PhaseCount>): nat
  {
    if t == [] then 0 else t[0].count + Total(t[1..])
  }

  function Phases(t: seq<PhaseCount>): set<Option<string>>
  {
    set i | 0 <= i < |t| :: t[i].phase
  }

  /** Each phase forms one group. */
  ghost predicate DistinctPhases(t: seq<PhaseCount>)
  {
    forall i, j :: 0 <= i < j < |t| ==> t[i].phase != t[j].phase
  }

  /** Every group has at least one row. */
  ghost predicate Positive(t: seq<PhaseCount>)
  {
    forall i :: 0 <= i < |t| ==> t[i].count > 0
  }

  lemma PhasesCons(e: PhaseCount, t: seq<PhaseCount>)
    ensures Phases([e] + t) == {e.phase} + Phases(t)
  {
    var r := [e] + t;
    assert r[0] == e;
    forall q | q in Phases(r) ensures q in {e.phase} + Phases(t) {
      var i :| 0 <= i < |r| && r[i].phase == q;
      if i > 0 { assert t[i - 1].phase == q; }
    }
    forall q | q in Phases(t) ensures q in Phases(r) {
      var i :| 0 <= i < |t| && t[i].phase == q;
      assert r[i + 1].phase == q;
    }
  }

  /** What a grouped result `r` looks like after one more row of phase `p`
      was added to `t`. */
  ghost predicate BumpedBy(t: seq<PhaseCount>, p: Option<string>, r: seq<PhaseCount>)
  {
    DistinctPhases(r) && Positive(r)
    && Phases(r) == Phases(t) + {p}
    && (forall q :: CountOf(r, q) == CountOf(t, q) + (if q == p then 1 else 0))
    && Total(r) == Total(t) + 1
  }

  /** The first group has phase `p`: its count goes up by one. */
  lemma BumpFirst(t: seq<PhaseCount>, p: Option<string>)
    requires t != [] && t[0].phase == p && DistinctPhases(t) && Positive(t)
    ensures BumpedBy(t, p, [PhaseCount(p, t[0].count + 1)] + t[1..])
  {
    var r := [PhaseCount(p, t[0].count + 1)] + t[1..];
    assert r[1..] == t[1..];
    assert t == [t[0]] + t[1..];
    PhasesCons(t[0], t[1..]);
    PhasesCons(r[0], t[1..]);
    assert DistinctPhases(r) by {
      forall i, j | 0 <= i < j < |r| ensures r[i].phase != r[j].phase {
        assert r[j] == t[j];
        if i > 0 { assert r[i] == t[i]; }
      }
    }
  }

  /** The first group has another phase: it is kept in front of the rest,
      which was bumped. */
  lemma BumpRest(t: seq<PhaseCount>, p: Option<string>, rest: seq<PhaseCount>)
    requires t != [] && t[0].phase != p && DistinctPhases(t) && Positive(t)
    requires BumpedBy(t[1..], p, rest)
    ensures BumpedBy(t, p, [t[0]] + rest)
  {
    var r := [t[0]] + rest;
    assert r[1..] == rest;
    assert Total(r) == t[0].count + Total(rest);
    assert Total(t) == t[0].count + Total(t[1..]);
    assert t == [t[0]] + t[1..];
    PhasesCons(t[0], t[1..]);
    PhasesCons(t[0], rest);
    assert t[0].phase !in Phases(t[1..]) by {
      forall i | 0 <= i < |t[1..]| ensures t[1..][i].phase != t[0].phase {
        assert t[1..][i] == t[i + 1];
      }
    }
    assert DistinctPhases(r) by {
      forall i, j | 0 <= i < j < |r| ensures r[i].phase != r[j].phase {
        if i == 0 {
          assert r[j].phase == rest[j - 1].phase;
          assert rest[j - 1].phase in Phases(rest);
        } else {
          assert r[i] == rest[i - 1] && r[j] == rest[j - 1];
        }
      }
    }
  }

  /** Adds one row of phase `p` to a grouped result. */
  function Bump(t: seq<PhaseCount>, p: Option<string>): (r: seq<PhaseCount>)
    requires DistinctPhases(t) && Positive(t)
    ensures DistinctPhases(r) && Positive(r)
    ensures Phases(r) == Phases(t) + {p}
    ensures forall q :: CountOf(r, q) == CountOf(t, q) + (if q == p then 1 else 0)
    ensures Total(r) == Total(t) + 1
  {
    if t == [] then
      var r := [PhaseCount(p, 1)];
      assert Phases(r) == {p} by { assert r[0].phase == p; }
      r
    else if t[0].phase == p then
      BumpFirst(t, p);
      [PhaseCount(p, t[0].count + 1)] + t[1..]
    else
      assert DistinctPhases(t[1..]) && Positive(t[1..]) by {
        forall i | 0 <= i < |t[1..]| ensures t[1..][i] == t[i + 1] { }
      }
      var rest := Bump(t[1..], p);
      BumpRest(t, p, rest);
      [t[0]] + rest
  }

  /** `GROUP BY phase` with `count(*)`: one entry per distinct phase of the
      rows (NULL included), each with the number of rows of that phase, so
      the counts add up to the number of rows. */
  function Tally(rows: seq<PhaseRow>): (t: seq<PhaseCount>)
    ensures DistinctPhases(t) && Positive(t)
    ensures forall p :: CountOf(t, p) == CountPhase(rows, p)
    ensures Total(t) == |rows|
  {
    if rows == [] then [] else Bump(Tally(rows[..|rows| - 1]), rows[|rows| - 1].phase)
  }

  /** In a grouped result, a phase is listed exactly when it has a count. */
  lemma {:induction false} ListedIffCounted(t: seq<PhaseCount>, p: Option<string>)
    requires Positive(t)
    ensures p in Phases(t) <==> CountOf(t, p) > 0
  {
    if t != [] {
      ListedIffCounted(t[1..], p);
      assert t == [t[0]] + t[1..];
      PhasesCons(t[0], t[1..]);
    }
  }

  /** `select phase, count(*) ... group by phase` over `user_group`: NULL
      phases form their own group, and the counts add up to the number of
      join rows, not of users. */
  function PhaseDistribution(users: seq<User>, licenses: seq<License>, groups: seq<CanaryGroup>, today: int): (t: seq<PhaseCount>)
    ensures DistinctPhases(t) && Positive(t)
    ensures forall p :: CountOf(t, p) == CountPhase(UserGroup(users, licenses, groups, SourceScope(today)), p)
    ensures Total(t) == Contribution(users, licenses, Flatten(groups), SourceScope(today))
  {
    Tally(UserGroup(users, licenses, groups, SourceScope(today)))
  }

  // ---------------------------------------------------------------------
  // Resolving the cohort subquery's columns

  /** The columns the cohort subquery projects in the overview copy
      (app.py:813-817) and in the other two copies; unquoted identifiers
      resolve upper-cased. */
  const OverviewProjection: set<string> := {"CANARY_GROUP_NAME", "USER_ID"}
  const FullProjection: set<string> := {"CANARY_GROUP_NAME", "USER_ID", "RELEASE_NAME", "VERSION"}

  /** The `ef` columns the ON clause reads. */
  const OnClauseColumns: set<string> := {"USER_ID", "RELEASE_NAME", "VERSION"}

  /** Running the phase query whose subquery projects `projection`: a column
      of the ON clause missing from the projection is an invalid identifier,
      the query fails, `execute_query` returns `None` and no chart is drawn;
      otherwise the result is the phase distribution. */
  function RunPhaseQuery(projection: set<string>, users: seq<User>, licenses: seq<License>,
                         groups: seq<CanaryGroup>, today: int): (r: Option<seq<PhaseCount>>)
    ensures r.Some? <==> OnClauseColumns <= projection
    ensures r.Some? ==> forall p :: CountOf(r.value, p) == CountPhase(UserGroup(users, licenses, groups, SourceScope(today)), p)
  {
    if OnClauseColumns <= projection then Some(PhaseDistribution(users, licenses, groups, today)) else None
  }

  /** As written, the overview's ON clause reads `ef.RELEASE_NAME` and
      `ef.version`, which its subquery does not project: the query fails
      whatever the tables hold. */
  lemma OverviewQueryFails(users: seq<User>, licenses: seq<License>, groups: seq<CanaryGroup>, today: int)
    ensures "RELEASE_NAME" in OnClauseColumns && "RELEASE_NAME" !in OverviewProjection
    ensures RunPhaseQuery(OverviewProjection, users, licenses, groups, today).None?
  {
    assert "RELEASE_NAME" in OnClauseColumns - OverviewProjection;
  }

  /** With the subquery projecting the release and version, as the other two
      copies do, the overview counts every phase as the catalogue copy does,
      and every non-NULL phase as Rollout Tracking does. */
  lemma CorrectedOverviewMatchesOtherCopies(users: seq<User>, licenses: seq<License>, groups: seq<CanaryGroup>,
                                            today: int, p: Option<string>)
    ensures RunPhaseQuery(FullProjection, users, licenses, groups, today).Some?
    ensures var t := RunPhaseQuery(FullProjection, users, licenses, groups, today).value;
      && multiset(t) == multiset(CataloguePhaseDistribution(users, licenses, groups, today))
      && (p.Some? ==> CountOf(t, p) == CountOf(RolloutTracking(users, licenses, groups, today), p))
      && Total(t) == Contribution(users, licenses, Flatten(groups), SourceScope(today))
  {
    assert OnClauseColumns <= FullProjection;
  }

  lemma {:induction false} AllRowsCounted(rows: seq<PhaseRow>, p: Option<string>)
    requires forall r :: r in rows ==> r.phase == p
    ensures CountPhase(rows, p) == |rows|
  {
    if rows != [] {
      AllRowsCounted(rows[..|rows| - 1], p);
    }
  }

  /** An internal user's k eligible licenses and m joined cohort names all
      land in the `internal` group: k * m rows. */
  lemma InternalUserCount(u: User, licenses: seq<License>, ms: seq<Member>, scope: Scope)
    requires u.emailDomain == Some(InternalDomain)
    ensures CountPhase(UserRows(u, licenses, LeftJoinNames(ms, u, scope), scope.today), Some(InternalPhase))
      == EligibleCount(u, licenses, scope.today) * |LeftJoinNames(ms, u, scope)|
  {
    var names := LeftJoinNames(ms, u, scope);
    var rows := UserRows(u, licenses, names, scope.today);
    forall r | r in rows ensures r.phase == Some(InternalPhase) {
      UserRowsMembers(u, licenses, names, scope.today, r);
    }
    AllRowsCounted(rows, Some(InternalPhase));
    UserRowsCount(u, licenses, names, scope.today);
  }

  // ---------------------------------------------------------------------
  // Rollout Tracking: `where phase is not null` before grouping

  function NonNullPhase(rows: seq<PhaseRow>): seq<PhaseRow>
  {
    if rows == [] then []
    else NonNullPhase(rows[..|rows| - 1]) + (if rows[|rows| - 1].phase.Some? then [rows[|rows| - 1]] else [])
  }

  lemma {:induction false} NonNullCounts(rows: seq<PhaseRow>, p: Option<string>)
    ensures CountPhase(NonNullPhase(rows), p) == if p.None? then 0 else CountPhase(rows, p)
  {
    if rows != [] {
      var last := rows[|rows| - 1];
      var kept := if last.phase.Some? then [last] else [];
      NonNullCounts(rows[..|rows| - 1], p);
      CountPhaseAppend(NonNullPhase(rows[..|rows| - 1]), kept, p);
      if kept != [] {
        assert kept[..0] == [];
      }
    }
  }

  /** The Rollout Tracking query (app.py, `_show_canary_analytics`). */
  function RolloutTracking(users: seq<User>, licenses: seq<License>, groups: seq<CanaryGroup>, today: int): (t: seq<PhaseCount>)
    ensures DistinctPhases(t) && Positive(t)
    ensures forall p :: CountOf(t, p) == (if p.None? then 0 else CountPhase(UserGroup(users, licenses, groups, SourceScope(today)), p))
  {
    var rows := UserGroup(users, licenses, groups, SourceScope(today));
    assert forall p :: CountPhase(NonNullPhase(rows), p) == (if p.None? then 0 else CountPhase(rows, p)) by {
      forall p ensures CountPhase(NonNullPhase(rows), p) == (if p.None? then 0 else CountPhase(rows, p)) {
        NonNullCounts(rows, p);
      }
    }
    Tally(NonNullPhase(rows))
  }

  /** Rollout Tracking reports every non-NULL phase with the overview's count
      and no NULL group, where the overview counts NULL-phase rows. */
  lemma TrackingDropsOnlyNull(users: seq<User>, licenses: seq<License>, groups: seq<CanaryGroup>, today: int, p: Option<string>)
    ensures CountOf(RolloutTracking(users, licenses, groups, today), p)
      == if p.None? then 0 else CountOf(PhaseDistribution(users, licenses, groups, today), p)
    ensures None !in Phases(RolloutTracking(users, licenses, groups, today))
  {
    var rows := UserGroup(users, licenses, groups, SourceScope(today));
    NonNullCounts(rows, p);
    NonNullCounts(rows, None);
    ListedIffCounted(RolloutTracking(users, licenses, groups, today), None);
  }

  // ---------------------------------------------------------------------
  // ORDER BY phase (the catalogue copy); NULL sorts last, as in ascending order

  /** Lexicographic order on strings by character code. */
  predicate StrLess(a: string, b: string)
  {
    if |a| == 0 then |b| > 0
    else if |b| == 0 then false
    else if a[0] != b[0] then a[0] < b[0]
    else StrLess(a[1..], b[1..])
  }

  lemma {:induction false} StrLessAsymmetric(a: string, b: string)
    ensures StrLess(a, b) ==> !StrLess(b, a)
  {
    if |a| > 0 && |b| > 0 && a[0] == b[0] {
      StrLessAsymmetric(a[1..], b[1..]);
    }
  }

  /** `a` sorts strictly before `b` under `ORDER BY phase` (NULLS LAST). */
  predicate PhaseBefore(a: Option<string>, b: Option<string>)
  {
    a.Some? && (b.None? || StrLess(a.value, b.value))
  }

  ghost predicate SortedByPhase(t: seq<PhaseCount>)
  {
    forall i :: 0 <= i < |t| - 1 ==> !PhaseBefore(t[i + 1].phase, t[i].phase)
  }

  function Insert(e: PhaseCount, t: seq<PhaseCount>): (r: seq<PhaseCount>)
    requires SortedByPhase(t)
    ensures SortedByPhase(r)
    ensures multiset(r) == multiset(t) + multiset{e}
    ensures |r| > 0 && (r[0] == e || (t != [] && r[0] == t[0]))
  {
    if t == [] || !PhaseBefore(t[0].phase, e.phase) then [e] + t
    else
      var rest := Insert(e, t[1..]);
      assert !PhaseBefore(e.phase, t[0].phase) by {
        StrLessAsymmetric(t[0].phase.value, if e.phase.Some? then e.phase.value else "");
      }
      assert t == [t[0]] + t[1..];
      [t[0]] + rest
  }

  /** `ORDER BY phase`: the same entries, in ascending phase order. */
  function SortByPhase(t: seq<PhaseCount>): (r: seq<PhaseCount>)
    ensures SortedByPhase(r)
    ensures multiset(r) == multiset(t)
  {
    if t == [] then []
    else
      assert t == [t[0]] + t[1..];
      Insert(t[0], SortByPhase(t[1..]))
  }

  /** The "Canary Phase Distribution" catalogue entry: the overview's groups,
      ordered by phase. */
  function CataloguePhaseDistribution(users: seq<User>, licenses: seq<License>, groups: seq<CanaryGroup>, today: int): (r: seq<PhaseCount>)
    ensures SortedByPhase(r)
    ensures multiset(r) == multiset(PhaseDistribution(users, licenses, groups, today))
  {
    SortByPhase(Tally(UserGroup(users, licenses, groups, SourceScope(today))))
  }
}

# Canary rollout analytics dashboard — a Dafny model of its decision logic

The dashboard is a Streamlit application over a Snowflake warehouse. Almost
all of it is presentation. The decisions it makes live in four places, and this
project models them as Dafny functions, methods and lemmas:

- **Rollout phase resolution** (`rollout.dfy`). This is the `user_group` query
  that appears three times: the overview pie chart, the Rollout Tracking tab
  and the "Canary Phase Distribution" catalogue entry. Users are joined to
  their licenses. The query LEFT JOINs the canary cohorts of release
  `2025.5.1`, version `1.0`, flattened to one row per listed user id. It keeps
  eligible licenses, computes the phase CASE (internal, then free-trial, then
  free, then cohort name) and counts rows per phase.
- **Audit correlation** (`audit.dfy`). For each uid, keep the newest audit
  record at or after 2025-06-04, then join those records to `user_group` on
  `ca.uid = ug.phase`.
- **Small column rules** (`segmentation.dfy`): the segment tier, the `NA`/`EU`
  domain, the HTTP-enabled status and the subdomain default.
- **The query catalogue** (`catalogue.dfy`): category lookup, category
  listing, the case-insensitive keyword search and the featured selection.
- **Configuration and connection** (`config.dfy`, `connector.dfy`):
  - settings from the environment and the required-setting check;
  - which credentials the connector uses;
  - how a failed connection is classified;
  - the SQL text of the connector's query helpers.
- **The connection search** of the customer-configuration page
  (`dashboard.dfy`).

`sql.dfy` and `text.dfy` hold the foundations:
- SQL's three-valued logic over nullable columns (`Option`). A WHERE, ON,
  QUALIFY or CASE WHEN admits a row only when its condition is `True`.
- The few Python string operations the code uses.

Tables are sequences of records, so a join that duplicates rows duplicates
them in the model too. `CURRENT_DATE()`, dates and timestamps are integers on
one scale.

Some consequences of the SQL as written, which the model keeps:
- A paying user in no cohort gets a NULL phase; no "unassigned" label exists.
- A user listed by several matching cohort rows yields one row per cohort row.
- A license with a NULL `expires` on a non-free tier is excluded, because
  `l.expires > current_date()` is unknown for it.
- The audit selection breaks ties between equal newest times in an
  unspecified way.
- No query reports drift or users without audit records.

In the overview copy (app.py:813-817), the cohort subquery does not project
`release_name` or `version`, yet its ON clause reads them. `Rollout.RunPhaseQuery`
models that failure; the rest of the model uses the query with the columns
projected, as in the other two copies (see "## Findings").

## Model

| member | source | states |
|---|---|---|
| Sql.And | app.py:818-820 | Kleene conjunction: true iff both are true, false iff either is false |
| Sql.Or | app.py:820 | Kleene disjunction: true iff either is true, false iff both are false |
| Sql.Eq | app.py:805 | `=` is unknown exactly when a side is NULL, and true exactly for equal non-NULL values |
| Sql.Ne | app.py:819 | `!=` is unknown exactly when a side is NULL, and true exactly for different non-NULL values |
| Sql.Gt | app.py:806 | `>` on dates is unknown with a NULL side, and true exactly when the left value is later |
| Sql.Ge | enhanced_queries.py:245 | `>=` is unknown with a NULL side, and true exactly when the left value is not earlier |
| Sql.IsNull | enhanced_queries.py:153 | `IS NULL` is never unknown, and true exactly for NULL |
| Sql.InList | app.py:818 | `IN (...)` is unknown for NULL, and true exactly when the value is listed |
| Sql.Coalesce | enhanced_queries.py:238 | `coalesce(a, d)` is `a` when `a` is not NULL, and `d` otherwise |
| Text.Lower | enhanced_queries.py:281-283 | `lower()` keeps the length and lower-cases each ASCII letter |
| Text.Upper | snowflake_connector.py:148 | `upper()` keeps the length and upper-cases each ASCII letter |
| Text.LowerIdempotent | snowflake_connector.py:73 | lower-casing twice equals lower-casing once |
| Text.LowerOfUpper | snowflake_connector.py:73 | lower-casing after upper-casing equals lower-casing |
| Text.UpperOfLower | snowflake_connector.py:148 | upper-casing after lower-casing equals upper-casing |
| Text.ContainsAt | enhanced_queries.py:281-283 | `sub in s` holds iff `sub` occurs at some offset of `s` |
| Text.ContainsEmpty | enhanced_queries.py:281 | the empty string occurs in every string |
| Text.TrimStart | app.py:923 | the result is a suffix that starts with a non-space, and only whitespace was removed |
| Text.TrimEnd | app.py:923 | the result is a prefix that ends with a non-space, and only whitespace was removed |
| Text.Join | app.py:931 | `sep.join(parts)`: empty for no part, the part itself for one, and joining one more part appends the separator and that part |
| Text.Strip | app.py:923-924 | `strip()` is the slice left after removing leading and trailing whitespace, with no whitespace at either end |
| Text.StripEmptyIff | app.py:923 | `s.strip()` is empty iff every character of `s` is whitespace |
| Rollout.Eligible | app.py:818-820 | a license passes the WHERE iff its type is one of the four, its tier is non-NULL and not `none`, and the tier is `free` or `expires` is later than today; a NULL tier, or a NULL `expires` on a non-free tier, excludes it |
| Rollout.PhaseOf | app.py:804-809 | first match wins: `celigo.com` gives internal; otherwise a free tier gives free-trial iff the trial ends after today, else free; otherwise the phase is the joined cohort name |
| Rollout.MembersOf | app.py:814-816 | LATERAL FLATTEN yields one row per USER_IDS element, carrying the group's name, release and version |
| Rollout.FlattenAppend | app.py:813-816 | flattening two group tables gives the two flattened tables one after the other |
| Rollout.FlattenMembers | app.py:813-816 | a row is in the flattened table iff some group lists that user id at some position |
| Rollout.CohortNamesAppend | app.py:817 | the cohort names joined from two member tables are the names from each, in order |
| Rollout.CohortNamesMembers | app.py:817 | a name is joined iff some member row matches the user id, release and version and carries that name |
| Rollout.CohortNamesEmptyIff | app.py:817 | no cohort name is joined iff no member row matches |
| Rollout.CohortLookup | app.py:1443-1452 | the LEFT JOIN gives the name of every group of the release and version that lists the user, and gives NULL only when no such group exists |
| Rollout.RowsFor | app.py:812-817 | a (user, license) pair yields one `user_group` row per joined cohort name |
| Rollout.UserRowsMembers | app.py:811-820 | a row belongs to a user's rows iff it comes from one of their joined eligible licenses and one of the joined names |
| Rollout.UserGroupOverMembers | app.py:799-821 | a row is in `user_group` iff some user, joined eligible license and joined name produce it |
| Rollout.UserGroupMembers | app.py:799-821 | the same membership characterisation, over the flattened `release_canary_groups` |
| Rollout.UserGroup | app.py:799-821 | `user_group` has, for each user, its eligible joined licenses times its LEFT JOIN rows |
| Rollout.InternalRowsAreInternal | app.py:805 | every row of a `celigo.com` user has phase internal, whatever the tier, trial or cohort |
| Rollout.FreeRowsIgnoreCohorts | app.py:806-807 | every free-tier row of an external user is free-trial or free, never a cohort name |
| Rollout.PaidRowsFollowCohort | app.py:808 | a non-free row of an external user carries the name of a listing group of the release and version, or NULL when no such group exists |
| Rollout.UncohortedPaidUserHasNullPhase | app.py:808 | an eligible paying user in no cohort appears with a NULL phase |
| Rollout.OtherReleasesIgnored | app.py:817 | adding groups of other releases or versions leaves `user_group` unchanged |
| Rollout.SameJoinNamesSameRows | app.py:813-817 | two cohort tables that join the same names for every user give the same `user_group` |
| Rollout.UserRowsCount | app.py:812-817 | a user with k eligible licenses and j joined names contributes k·j rows |
| Rollout.CohortNamesCount | app.py:817 | one cohort name is collected per member row satisfying the ON clause, counted as the set of matching row positions |
| Rollout.LeftJoinCount | app.py:813-817 | the LEFT JOIN yields one row per matching cohort row position, and a single row when no position matches |
| Rollout.UserGroupSize | app.py:799-821 | the size of `user_group` is the sum over users of these contributions |
| Rollout.CountPhaseAppend | app.py:822 | the count of a phase over two row lists is the sum of the two counts |
| Rollout.PhasesCons | app.py:822 | the phases listed by a tally are the first row's phase together with the rest's |
| Rollout.Bump | app.py:822 | counting one more row of phase p adds 1 to p's count only, lists p, and keeps one positive row per phase |
| Rollout.Tally | app.py:822 | GROUP BY phase gives one positive row per phase, each count equals the number of rows with that phase, and the counts sum to the row count |
| Rollout.ListedIffCounted | app.py:822 | a phase is listed iff its count is positive |
| Rollout.PhaseDistribution | app.py:799-822 | GROUP BY over `user_group`: one positive entry per distinct phase, NULL included, each counting that phase's rows; the counts add up to the number of join rows, not of users |
| Rollout.AllRowsCounted | app.py:822 | rows that all share one phase are all counted under it |
| Rollout.InternalUserCount | app.py:805 | an internal user adds k·m (or k, with no cohort) to the internal count |
| Rollout.NonNullCounts | app.py:1461-1463 | dropping NULL phases zeroes the NULL count and keeps every other count |
| Rollout.RolloutTracking | app.py:1426-1464 | one positive entry per phase, no NULL entry, and each non-NULL phase counts its `user_group` rows |
| Rollout.TrackingDropsOnlyNull | app.py:1461-1463 | Rollout Tracking reports each non-NULL phase with the overview's count and no NULL group |
| Rollout.StrLessAsymmetric | enhanced_queries.py:230 | the string order used by ORDER BY is asymmetric |
| Rollout.Insert | enhanced_queries.py:230 | inserting into a phase-sorted tally keeps it sorted and adds exactly that row |
| Rollout.SortByPhase | enhanced_queries.py:230 | ORDER BY phase (NULLS LAST) gives a sorted permutation of the tally |
| Rollout.CataloguePhaseDistribution | enhanced_queries.py:216-230 | the catalogue copy gives the overview's per-phase counts, sorted by phase |
| Rollout.RunPhaseQuery | app.py:813-829 | the phase query succeeds iff its subquery projects every `ef` column the ON clause reads, and then counts each phase's `user_group` rows; otherwise `execute_query` yields no result and no chart is drawn |
| Rollout.OverviewQueryFails | app.py:813-817 | as written, the overview's ON clause reads `ef.RELEASE_NAME`, which its subquery does not project, so the query fails for every input |
| Rollout.CorrectedOverviewMatchesOtherCopies | app.py:1443-1452 | with the release and version projected, the overview has the catalogue copy's entries, each non-NULL phase's Rollout Tracking count, and a total equal to the join rows |
| Audit.Find | enhanced_queries.py:246 | the record found for a uid is in the selection and has that uid; none is found only when no record has it |
| Audit.FindUnique | enhanced_queries.py:246 | in a selection with distinct uids, each record is the one found for its uid |
| Audit.Offer | enhanced_queries.py:246 | offering a record keeps uids distinct, keeps a record at least as new for that uid and for every uid already kept, and adds nothing else |
| Audit.Latest | enhanced_queries.py:245-246 | the per-uid selection contains only in-window records of the table, one per uid, and for every in-window record one of its uid that is at least as new |
| Audit.KeptRecordIsNewest | enhanced_queries.py:246 | the kept record of a uid is at least as new as every in-window record of that uid |
| Audit.SelectionDeterminedUpToTies | enhanced_queries.py:246 | any two valid selections keep the same uids with the same times; only the choice among equal newest times is open |
| Audit.PairOnPhaseMembers | enhanced_queries.py:247 | an audit record pairs with exactly the `user_group` rows whose phase equals its non-NULL uid |
| Audit.CorrelateMembers | enhanced_queries.py:247 | a row appears in the join iff it pairs an audit record with a `user_group` row whose phase equals the record's non-NULL uid |
| Audit.PairOnPhaseCount | enhanced_queries.py:247 | an audit record yields as many rows as there are `user_group` row positions whose phase equals its non-NULL uid |
| Audit.CorrelateCount | enhanced_queries.py:247 | the join emits exactly as many rows as there are (audit position, `user_group` position) pairs with uid equal to phase |
| Audit.PairOnPhase | enhanced_queries.py:247 | every row an audit record produces carries that record's non-NULL uid and time, and a phase equal to the uid |
| Audit.Correlate | enhanced_queries.py:247 | every output row of the join has a non-NULL uid equal to its phase |
| Audit.AnalysisRowsMatchUidToPhase | enhanced_queries.py:233-247 | every row of the catalogue query has a non-NULL uid equal to its phase, with the time of that uid's newest in-window record |
| Audit.CanaryWithAuditAnalysis | enhanced_queries.py:233-247 | every row of the catalogue query has a non-NULL uid equal to its phase label |
| Audit.UidMatchedAgainstPhase | enhanced_queries.py:247 | as written, an audit record of a user's own id does not meet that user's row when the phase is a cohort name |
| Audit.UidNotAPhaseIsDropped | enhanced_queries.py:247 | as written, a uid that is no row's phase appears in no output row, whatever rows that user has |
| Audit.PairOnUserMembers | enhanced_queries.py:247 | with the join on the user id, an audit record pairs with exactly its own user's rows |
| Audit.CorrelateByUserMembers | enhanced_queries.py:247 | a row appears in the user-id join iff it pairs an audit record with a `user_group` row of that record's user |
| Audit.PairOnUserCount | enhanced_queries.py:247 | with the join on the user id, an audit record yields as many rows as its user has `user_group` rows |
| Audit.CorrelateByUserCount | enhanced_queries.py:247 | the user-id join emits exactly as many rows as there are (audit position, position of a row of that user) pairs |
| Audit.CorrectedJoinPairsLatestAudit | enhanced_queries.py:233-247 | with the user-id join, every row of a user who has an in-window audit record is paired with that user's newest record |
| Segmentation.SegmentTier | app.py:1226-1229 | internal for `celigo.com`; otherwise free for an empty segment, else the segment itself; never empty, and NULL exactly for an external user without a segment |
| Segmentation.Region | app.py:1230 | `NA` exactly when the subdomain is NULL, and `EU` otherwise |
| Segmentation.HttpStatus | enhanced_queries.py:153-156 | `'false'` exactly when `enableHttp` is NULL or `'false'`, otherwise the value itself |
| Segmentation.SubdomainOrNa | enhanced_queries.py:238 | `'na'` exactly when the subdomain is NULL or literally `na`, otherwise the subdomain |
| Catalogue.Get | enhanced_queries.py:270 | `get` returns a value stored under the key, and `None` exactly when no entry has the key |
| Catalogue.GetStored | enhanced_queries.py:270 | in a dictionary, `get` returns the value stored under the key |
| Catalogue.GetQueryByCategory | enhanced_queries.py:268-270 | an unknown category gives `{}`; a known one gives a stored entry of the catalogue |
| Catalogue.GetQueryByCategoryStored | enhanced_queries.py:268-270 | a known category gives exactly its queries |
| Catalogue.GetAllCategories | enhanced_queries.py:272-274 | the category names, in catalogue order |
| Catalogue.ListedIffKnown | enhanced_queries.py:268-274 | a name is listed iff the category lookup knows it |
| Catalogue.SearchQueries | enhanced_queries.py:276-288 | the nested loops compute the search specification |
| Catalogue.MatchingQueriesIff | enhanced_queries.py:281-285 | a query is kept iff it is in the category and the lower-cased keyword occurs in its lower-cased name, description or SQL; it is kept with its own details |
| Catalogue.SearchSpecIff | enhanced_queries.py:286-287 | a category appears iff some query in it matches, and then with exactly its matching queries |
| Catalogue.MatchingQueriesEmptyKeyword | enhanced_queries.py:281 | every query matches the empty keyword |
| Catalogue.SearchEmptyKeyword | enhanced_queries.py:276-288 | the empty keyword returns the whole catalogue when no category is empty |
| Catalogue.Lookup | enhanced_queries.py:293-297 | double indexing fails iff the category or the name within it is missing, and otherwise gives an entry of the category's queries |
| Catalogue.LookupStored | enhanced_queries.py:293-297 | a category and query name present in the catalogue give exactly the stored entry |
| Catalogue.FeaturedFrom | enhanced_queries.py:292-298 | the featured dictionary exists iff every lookup succeeds, and then lists each label with its entry, in order |
| Catalogue.FeaturedQueries | enhanced_queries.py:290-299 | the five featured entries under their labels, or a key error when one of the five is missing |
| Config.Attr | config.py:52 | `getattr` succeeds exactly for the nine setting names |
| Config.LoadSettings | config.py:12-20 | each setting is its environment variable's value when set (even when empty), and its default otherwise |
| Config.GetSnowflakeConfig | config.py:25-39 | the login name is `SNOWFLAKE_USERNAME`, the other fields are their settings, keep-alive is on and both timeouts are 30 |
| Config.ValidateConfig | config.py:42-55 | the loop returns the unset required fields |
| Config.MissingFieldsIff | config.py:51-53 | a field is reported iff it is checked and empty |
| Config.MissingRequired | config.py:44-55 | the report lists the empty ones of account, user and database, in that order, at most once each; it is empty iff all three are set |
| Config.ValidationIgnoresLoginName | config.py:29 | some configuration passes validation and still connects with an empty login name |
| Connector.ChooseCreds | snowflake_connector.py:33-39 | non-empty session credentials win; `user_info` credentials are used only when those are empty or missing, and only when non-empty; the choice is empty iff both are |
| Connector.ResolveParams | snowflake_connector.py:41-59 | with a session user, each of the eight fields is the session value when the key is present, else the Config value; without a session user the whole Config parameters are used; keep-alive and the 30-second timeouts hold either way |
| Connector.RealCredsWithoutUserUseConfig | snowflake_connector.py:36-59 | non-empty session credentials without a user lead to Config, whatever `user_info` holds |
| Connector.ClassifyConnectError | snowflake_connector.py:73-87 | on the lower-cased message, the credentials phrase wins, then account or backend, then warehouse, then role, each stated as an iff over the earlier phrases; anything else is a generic error carrying the message |
| Connector.ClassificationIgnoresCase | snowflake_connector.py:73-87 | upper- or lower-casing the message does not change the classification |
| Connector.SnowflakeConnector.constructor | snowflake_connector.py:18-19 | a new connector has no connection |
| Connector.SnowflakeConnector.Connect | snowflake_connector.py:21-88 | success holds the driver's connection; failure leaves none and reports the classified error |
| Connector.TableInfoQuery | snowflake_connector.py:140-150 | the query is the fixed head, then the upper-cased table name, then the fixed tail |
| Connector.TableInfoIgnoresCase | snowflake_connector.py:148 | table names that differ only in case give the same query |
| Connector.Clause | snowflake_connector.py:180-185 | a missing or empty filter contributes nothing; a non-empty one contributes its column head, the value and the closing quote |
| Connector.CustomerConfigurationsQuery | snowflake_connector.py:164-189 | the query is the base, then the clauses for customer id, status and region in that order, then the UPDATED_DATE ordering |
| Connector.ConfigurationsQueryShape | snowflake_connector.py:179-187 | the query starts with the base and ends with the ordering; no filters, empty filters and an empty value add nothing |
| Connector.DetailsFilter | snowflake_connector.py:221-222 | the customer clause is empty iff the id is missing or empty |
| Connector.CustomerDetailsQuery | snowflake_connector.py:201-226 | the query is the base, then the customer clause, then the CREATED_DATE ordering |
| Connector.AvailableTables | snowflake_connector.py:242-245 | `[]` iff the query failed or returned no rows, otherwise the table names |
| Dashboard.SearchConditions | app.py:921-927 | one condition per given input: the stripped connection id first, then the app, then the stripped user id last |
| Dashboard.SearchQuery | app.py:930-933 | the capped listing exactly when there is no condition, and otherwise the base query, ` WHERE ` and the conditions joined by ` AND ` |
| Dashboard.ConnectionSearchQuery | app.py:920-933 | the builder's list-and-join result is the search query |
| Dashboard.BlankSearchListsAll | app.py:923-933 | whitespace-only ids and no app give the base query with `LIMIT 100`; any other input gives a WHERE clause |
| Dashboard.AllConditions | app.py:923-931 | all three inputs given: the id, app and user conditions in that order, separated by ` AND ` |
| Dashboard.SingleCondition | app.py:927-930 | a user id alone gives a WHERE on that stripped user id |

## Left out

- Rendering is not modelled: Streamlit pages, charts, tabs, CSS, demo and mock
  data, and the random or floating-point figures. This is presentation only.
- Warehouse I/O is not modelled: executing a query, cursors, DataFrames and
  closing a connection. `Connect` takes the driver's outcome as a function
  parameter.
- `execute_query`, `test_connection`, the OAuth and PKCE login, session
  handling, and the setup and launch scripts are not part of this model. They
  are network, file-system and subprocess code.
- The literal defaults of the settings are a parameter of `Config.LoadSettings`.
- Logging and the `st.error` messages are not modelled. `Connect` returns the
  error class they are chosen from.
- Whitespace and line breaks inside the SQL literals of the connector's query
  helpers are written out as single spaces.
- Text.Lower, Text.Upper and Text.Strip cover only ASCII letters and the ASCII
  and Latin-1 whitespace. Python's full Unicode case mapping and whitespace
  table are not modelled.
- Rollout.StrLessAsymmetric: ORDER BY is modelled as order by character code.
  The warehouse's collation settings are not modelled.
- Rollout.SortByPhase: rows with equal phases cannot occur in a tally, so the
  order among ties is not stated.
- Audit.Latest: the QUALIFY tie-break among equal newest times is unspecified
  in SQL. Audit.IsLatestPerUid states what every valid selection satisfies,
  and Latest is one of them.
- Catalogue search assumes unique dictionary keys. Python's dict semantics
  guarantee them, and Catalogue.GetStored states the property under that
  assumption.
- The catalogue's SQL texts are a parameter of the search and lookup
  functions. Only the featured category and entry names are written out.
- Connector.ResolveParams: a session credential value that is not a string is
  not modelled.
- Audit.AuditCutoff: the literal `'2025-06-04'` is read as midnight UTC. The
  warehouse session's time zone is not modelled.
- Segmentation.HttpStatus: `MICROSERVICES:enableHttp` is a VARIANT, modelled
  as an optional string. A JSON boolean `false` is not modelled; only the text
  `'false'` and NULL map to `'false'`.

## Findings

| source | as written | input that shows it | evidently intended | confidence | as-written member | corrected member |
|---|---|---|---|---|---|---|
| enhanced_queries.py:247 | `canary_audit ca inner join user_group ug on ca.uid=ug.phase` compares a user id with a phase label | user `u6` in cohort `grp-B`, with an audit record for uid `u6` at 2025-06-04: the join yields no row | `ca.uid = ug.user_id`, pairing each user's rows with that user's newest audit record | medium, not executed | Audit.UidMatchedAgainstPhase | Audit.CorrectedJoinPairsLatestAudit |
| app.py:813-817 | the overview's cohort subquery projects only `canary_group_name` and `user_id`, while its ON clause reads `ef.RELEASE_NAME` and `ef.version` | any tables: the warehouse rejects the unresolved `ef.RELEASE_NAME`, `execute_query` returns nothing and the phase pie chart is never drawn | project `e.release_name` and `e.version`, as app.py:1443-1452 and enhanced_queries.py:225 do | high, not executed | Rollout.OverviewQueryFails | Rollout.CorrectedOverviewMatchesOtherCopies |

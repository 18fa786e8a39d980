/** The "Canary with Audit Analysis" catalogue entry: the `canary_audit`
    common table expression keeps, per `uid`, the newest record of
    `canary_rollout_audit` at or after 2025-06-04, and the final SELECT joins
    it to `user_group` on `ca.uid = ug.phase`. */
module Audit {
  import opened Sql
  import Rollout

  /** The literal `'2025-06-04'`, read as the instant 2025-06-04 00:00:00 UTC
      in seconds since the Unix epoch, the scale `time` is modelled on. */
  const AuditCutoff: int := 1748995200

  /** A row of `canary_rollout_audit` (the columns the query reads). */
  datatype AuditRecord = AuditRecord(uid: Option<string>, time: Option<int>, releaseVersion: Option<string>)

  /** `WHERE time >= '2025-06-04'`: a NULL time never qualifies. */
  predicate InWindow(a: AuditRecord, cutoff: int)
  {
    Ge(a.time, Some(cutoff)) == True
  }

  /** `ORDER BY time DESC` puts `s` no later than `r`. */
  predicate AtLeastAsNew(s: AuditRecord, r: AuditRecord)
  {
    Ge(s.time, r.time) == True
  }

  /** One row per partition. `PARTITION BY uid` puts all NULL uids in one
      partition, which is what equality on `Option` does. */
  ghost predicate DistinctUids(sel: seq<AuditRecord>)
  {
    forall i, j :: 0 <= i < j < |sel| ==> sel[i].uid != sel[j].uid
  }

  /** The first record of `sel` with the given uid. */
  function Find(sel: seq<AuditRecord>, uid: Option<string>): (r: Option<AuditRecord>)
    ensures r.Some? ==> r.value in sel && r.value.uid == uid
    ensures r.None? ==> forall s :: s in sel ==> s.uid != uid
  {
    if sel == [] then None
    else if sel[0].uid == uid then Some(sel[0])
    else Find(sel[1..], uid)
  }

  /** In a selection with distinct uids, a record is the one found for its uid. */
  lemma {:induction false} FindUnique(sel: seq<AuditRecord>, s: AuditRecord)
    requires DistinctUids(sel) && s in sel
    ensures Find(sel, s.uid) == Some(s)
  {
    if s != sel[0] {
      var k :| 0 <= k < |sel| && sel[k] == s;
      assert k > 0 && sel[0].uid != sel[k].uid;
      assert DistinctUids(sel[1..]) by {
        forall i, j | 0 <= i < j < |sel[1..]| ensures sel[1..][i].uid != sel[1..][j].uid {
          assert sel[1..][i] == sel[i + 1] && sel[1..][j] == sel[j + 1];
        }
      }
      assert sel[1..][k - 1] == s;
      FindUnique(sel[1..], s);
    }
  }

  /** What `QUALIFY ROW_NUMBER() OVER (PARTITION BY uid ORDER BY time DESC) = 1`
      returns: in-window records of the table only, one per uid, and for
      every in-window record one of the same uid that is at least as new.
      A uid without an in-window record is absent. Which of several records
      with the same newest time is kept is left open. */
  ghost predicate IsLatestPerUid(records: seq<AuditRecord>, cutoff: int, sel: seq<AuditRecord>)
  {
    && (forall s :: s in sel ==> s in records && InWindow(s, cutoff))
    && DistinctUids(sel)
    && (forall r :: r in records && InWindow(r, cutoff) ==>
          Find(sel, r.uid).Some? && AtLeastAsNew(Find(sel, r.uid).value, r))
  }

  /** Offers one in-window record to a selection: it replaces the selected
      record of its uid only when strictly newer, and is added when its uid
      has none. */
  function Offer(sel: seq<AuditRecord>, a: AuditRecord, cutoff: int): (r: seq<AuditRecord>)
    requires InWindow(a, cutoff)
    requires forall s :: s in sel ==> InWindow(s, cutoff)
    requires DistinctUids(sel)
    ensures forall s :: s in r ==> s in sel || s == a
    ensures DistinctUids(r)
    ensures Find(r, a.uid).Some? && AtLeastAsNew(Find(r, a.uid).value, a)
    ensures forall u :: Find(sel, u).Some? ==> Find(r, u).Some? && AtLeastAsNew(Find(r, u).value, Find(sel, u).value)
  {
    if sel == [] then [a]
    else if sel[0].uid == a.uid then
      assert sel[0] in sel && InWindow(sel[0], cutoff);
      if Gt(a.time, sel[0].time) == True then
        var r := [a] + sel[1..];
        assert r[1..] == sel[1..];
        assert forall s :: s in sel[1..] ==> s in sel;
        assert DistinctUids(r) by {
          forall i, j | 0 <= i < j < |r| ensures r[i].uid != r[j].uid {
            assert r[j] == sel[j];
            if i > 0 { assert r[i] == sel[i]; }
          }
        }
        assert forall u :: Find(sel, u).Some? ==> Find(r, u).Some? && AtLeastAsNew(Find(r, u).value, Find(sel, u).value) by {
          forall u | Find(sel, u).Some?
            ensures Find(r, u).Some? && AtLeastAsNew(Find(r, u).value, Find(sel, u).value)
          {
            if u != a.uid {
              assert Find(r, u) == Find(sel[1..], u) == Find(sel, u);
              assert InWindow(Find(sel, u).value, cutoff);
            }
          }
        }
        r
      else
        assert Find(sel, a.uid) == Some(sel[0]);
        assert forall u :: Find(sel, u).Some? ==> AtLeastAsNew(Find(sel, u).value, Find(sel, u).value) by {
          forall u | Find(sel, u).Some? ensures AtLeastAsNew(Find(sel, u).value, Find(sel, u).value) {
            assert InWindow(Find(sel, u).value, cutoff);
          }
        }
        sel
    else
      var rest := Offer(sel[1..], a, cutoff);
      var r := [sel[0]] + rest;
      assert r[1..] == rest;
      assert forall s :: s in sel[1..] ==> s in sel;
      assert DistinctUids(r) by {
        forall i, j | 0 <= i < j < |r| ensures r[i].uid != r[j].uid {
          if i == 0 {
            assert r[j] in rest;
            if r[j] != a {
              var k :| 0 <= k < |sel[1..]| && sel[1..][k] == r[j];
              assert sel[k + 1] == r[j];
            }
          } else {
            assert r[i] == rest[i - 1] && r[j] == rest[j - 1];
          }
        }
      }
      assert forall u :: Find(sel, u).Some? ==> Find(r, u).Some? && AtLeastAsNew(Find(r, u).value, Find(sel, u).value) by {
        forall u | Find(sel, u).Some?
          ensures Find(r, u).Some? && AtLeastAsNew(Find(r, u).value, Find(sel, u).value)
        {
          if u == sel[0].uid {
            assert sel[0] in sel && InWindow(sel[0], cutoff);
          } else {
            assert Find(sel, u) == Find(sel[1..], u);
            assert Find(r, u) == Find(rest, u);
          }
        }
      }
      r
  }

  /** The `canary_audit` table: the in-window records folded one at a time
      into a selection. */
  function Latest(records: seq<AuditRecord>, cutoff: int): (sel: seq<AuditRecord>)
    ensures IsLatestPerUid(records, cutoff, sel)
  {
    if records == [] then []
    else
      var prefix := records[..|records| - 1];
      var last := records[|records| - 1];
      assert records == prefix + [last];
      var prev := Latest(prefix, cutoff);
      if InWindow(last, cutoff) then
        var sel := Offer(prev, last, cutoff);
        assert forall r :: r in records && InWindow(r, cutoff) ==>
          Find(sel, r.uid).Some? && AtLeastAsNew(Find(sel, r.uid).value, r) by {
          forall r | r in records && InWindow(r, cutoff)
            ensures Find(sel, r.uid).Some? && AtLeastAsNew(Find(sel, r.uid).value, r)
          {
            if r != last {
              assert r in prefix;
              assert Find(prev, r.uid).Some?;
            }
          }
        }
        sel
      else
        prev
  }

  /** The kept record of a uid is the newest of that uid's in-window records. */
  lemma KeptRecordIsNewest(records: seq<AuditRecord>, cutoff: int, sel: seq<AuditRecord>, s: AuditRecord, r: AuditRecord)
    requires IsLatestPerUid(records, cutoff, sel)
    requires s in sel && r in records && InWindow(r, cutoff) && r.uid == s.uid
    ensures AtLeastAsNew(s, r)
  {
    FindUnique(sel, s);
  }

  /** Two results the QUALIFY clause may give differ at most in which record
      of equal newest time they keep: the same uids, with the same times. */
  lemma SelectionDeterminedUpToTies(records: seq<AuditRecord>, cutoff: int, sel1: seq<AuditRecord>, sel2: seq<AuditRecord>)
    requires IsLatestPerUid(records, cutoff, sel1) && IsLatestPerUid(records, cutoff, sel2)
    ensures forall u :: Find(sel1, u).Some? <==> Find(sel2, u).Some?
    ensures forall u :: Find(sel1, u).Some? ==> Find(sel1, u).value.time == Find(sel2, u).value.time
  {
    forall u | Find(sel1, u).Some?
      ensures Find(sel2, u).Some? && Find(sel1, u).value.time == Find(sel2, u).value.time
    {
      var s1 := Find(sel1, u).value;
      assert s1 in records && InWindow(s1, cutoff);
      var s2 := Find(sel2, u).value;
      KeptRecordIsNewest(records, cutoff, sel2, s2, s1);
      KeptRecordIsNewest(records, cutoff, sel1, s1, s2);
    }
    forall u | Find(sel2, u).Some?
      ensures Find(sel1, u).Some?
    {
      assert Find(sel2, u).value in records;
    }
  }

  // ---------------------------------------------------------------------
  // The final SELECT: `canary_audit ca inner join user_group ug on ca.uid=ug.phase`

  /** `select email, uid, phase, time, release_version` */
  datatype CorrelatedRow = CorrelatedRow(
    email: Option<string>,
    uid: Option<string>,
    phase: Option<string>,
    time: Option<int>,
    releaseVersion: Option<string>)

  function Output(a: AuditRecord, g: Rollout.PhaseRow): CorrelatedRow
  {
    CorrelatedRow(g.email, a.uid, g.phase, a.time, a.releaseVersion)
  }

  function PairOnPhase(a: AuditRecord, group: seq<Rollout.PhaseRow>): (cs: seq<CorrelatedRow>)
    ensures forall c :: c in cs ==> c.uid == a.uid && c.time == a.time && a.uid.Some? && c.phase == a.uid
  {
    if group == [] then []
    else (if Eq(a.uid, group[0].phase) == True then [Output(a, group[0])] else []) + PairOnPhase(a, group[1..])
  }

  /** The join as written: an audit row meets a `user_group` row when its uid
      equals that row's phase label. */
  function Correlate(audits: seq<AuditRecord>, group: seq<Rollout.PhaseRow>): (cs: seq<CorrelatedRow>)
    ensures forall c :: c in cs ==> c.uid.Some? && c.uid == c.phase
  {
    if audits == [] then [] else PairOnPhase(audits[0], group) + Correlate(audits[1..], group)
  }

  lemma {:induction false} PairOnPhaseMembers(a: AuditRecord, group: seq<Rollout.PhaseRow>, c: CorrelatedRow)
    ensures c in PairOnPhase(a, group) <==> exists g :: g in group && a.uid.Some? && a.uid == g.phase && c == Output(a, g)
  {
    if group != [] {
      PairOnPhaseMembers(a, group[1..], c);
      if exists g :: g in group && a.uid.Some? && a.uid == g.phase && c == Output(a, g) {
        var g :| g in group && a.uid.Some? && a.uid == g.phase && c == Output(a, g);
        if g != group[0] { assert g in group[1..]; }
      }
    }
  }

  /** A row appears in the correlation exactly when it pairs an audit record
      with a `user_group` row whose phase label equals its uid; a NULL uid or
      phase never matches. */
  lemma {:induction false} CorrelateMembers(audits: seq<AuditRecord>, group: seq<Rollout.PhaseRow>, c: CorrelatedRow)
    ensures c in Correlate(audits, group) <==>
      exists a, g :: a in audits && g in group && a.uid.Some? && a.uid == g.phase && c == Output(a, g)
  {
    if audits != [] {
      CorrelateMembers(audits[1..], group, c);
      PairOnPhaseMembers(audits[0], group, c);
      if exists a, g :: a in audits && g in group && a.uid.Some? && a.uid == g.phase && c == Output(a, g) {
        var a, g :| a in audits && g in group && a.uid.Some? && a.uid == g.phase && c == Output(a, g);
        if a != audits[0] { assert a in audits[1..]; }
      }
    }
  }

  /** The positions of the `user_group` rows whose phase equals the uid of `a`. */
  ghost function PhasePartners(a: AuditRecord, group: seq<Rollout.PhaseRow>): set<int>
  {
    set j | 0 <= j < |group| && a.uid.Some? && a.uid == group[j].phase
  }

  /** The (audit record, `user_group` row) position pairs the join condition admits. */
  ghost function PhasePairs(audits: seq<AuditRecord>, group: seq<Rollout.PhaseRow>): set<(int, int)>
  {
    set i, j | 0 <= i < |audits| && 0 <= j < |group| && j in PhasePartners(audits[i], group) :: (i, j)
  }

  lemma {:induction false} PairOnPhaseAppend(a: AuditRecord, g1: seq<Rollout.PhaseRow>, g2: seq<Rollout.PhaseRow>)
    ensures PairOnPhase(a, g1 + g2) == PairOnPhase(a, g1) + PairOnPhase(a, g2)
  {
    if g1 == [] {
      assert g1 + g2 == g2;
    } else {
      assert (g1 + g2)[0] == g1[0] && (g1 + g2)[1..] == g1[1..] + g2;
      PairOnPhaseAppend(a, g1[1..], g2);
    }
  }

  /** An audit record yields one row per `user_group` row whose phase is its uid. */
  lemma {:induction false} PairOnPhaseCount(a: AuditRecord, group: seq<Rollout.PhaseRow>)
    ensures |PairOnPhase(a, group)| == |PhasePartners(a, group)|
  {
    if group != [] {
      var n := |group| - 1;
      var init := group[..n];
      assert init + [group[n]] == group;
      PairOnPhaseCount(a, init);
      PairOnPhaseAppend(a, init, [group[n]]);
      assert [group[n]][1..] == [];
      var s := PhasePartners(a, init);
      if a.uid.Some? && a.uid == group[n].phase {
        assert PhasePartners(a, group) == s + {n};
        assert n !in s;
      } else {
        assert PhasePartners(a, group) == s;
      }
    }
  }

  lemma {:induction false} CorrelateAppend(a1: seq<AuditRecord>, a2: seq<AuditRecord>, group: seq<Rollout.PhaseRow>)
    ensures Correlate(a1 + a2, group) == Correlate(a1, group) + Correlate(a2, group)
  {
    if a1 == [] {
      assert a1 + a2 == a2;
    } else {
      assert (a1 + a2)[0] == a1[0] && (a1 + a2)[1..] == a1[1..] + a2;
      CorrelateAppend(a1[1..], a2, group);
    }
  }

  /** Pairing the elements of `s` below `k` with the same first component
      keeps their count. */
  lemma {:induction false} PairedCount(i: int, s: set<int>, k: nat)
    ensures |set j | j in s && 0 <= j < k :: (i, j)| == |set j | j in s && 0 <= j < k|
  {
    if k > 0 {
      PairedCount(i, s, k - 1);
      var below := set j | j in s && 0 <= j < k - 1;
      var pairs := set j | j in s && 0 <= j < k - 1 :: (i, j);
      if k - 1 in s {
        assert (set j | j in s && 0 <= j < k) == below + {k - 1};
        assert (set j | j in s && 0 <= j < k :: (i, j)) == pairs + {(i, k - 1)};
      } else {
        assert (set j | j in s && 0 <= j < k) == below;
        assert (set j | j in s && 0 <= j < k :: (i, j)) == pairs;
      }
    }
  }

  /** The correlation emits exactly one row per (audit record, `user_group`
      row) pair whose uid equals the row's phase label. */
  lemma {:induction false} CorrelateCount(audits: seq<AuditRecord>, group: seq<Rollout.PhaseRow>)
    ensures |Correlate(audits, group)| == |PhasePairs(audits, group)|
  {
    if audits != [] {
      var n := |audits| - 1;
      var init := audits[..n];
      assert init + [audits[n]] == audits;
      CorrelateCount(init, group);
      CorrelateAppend(init, [audits[n]], group);
      assert [audits[n]][1..] == [];
      PairOnPhaseCount(audits[n], group);
      var partners := PhasePartners(audits[n], group);
      var last := set j | j in partners && 0 <= j < |group| :: (n, j);
      PairedCount(n, partners, |group|);
      assert (set j | j in partners && 0 <= j < |group|) == partners;
      assert PhasePairs(audits, group) == PhasePairs(init, group) + last;
      assert PhasePairs(init, group) * last == {};
    }
  }

  /** The catalogue query: the latest audit records correlated with the
      rollout phases for release 2025.5.1, version 1.0. */
  function CanaryWithAuditAnalysis(users: seq<Rollout.User>, licenses: seq<Rollout.License>,
                                   groups: seq<Rollout.CanaryGroup>, audits: seq<AuditRecord>, today: int): (cs: seq<CorrelatedRow>)
    ensures forall c :: c in cs ==> c.uid.Some? && c.uid == c.phase
  {
    Correlate(Latest(audits, AuditCutoff), Rollout.UserGroup(users, licenses, groups, Rollout.SourceScope(today)))
  }

  /** Every row the catalogue query emits has a uid equal to its phase label,
      and comes from a newest in-window audit record of that uid. */
  lemma AnalysisRowsMatchUidToPhase(users: seq<Rollout.User>, licenses: seq<Rollout.License>,
                                    groups: seq<Rollout.CanaryGroup>, audits: seq<AuditRecord>, today: int, c: CorrelatedRow)
    requires c in CanaryWithAuditAnalysis(users, licenses, groups, audits, today)
    ensures c.uid.Some? && c.uid == c.phase
    ensures Find(Latest(audits, AuditCutoff), c.uid).Some?
    ensures Find(Latest(audits, AuditCutoff), c.uid).value.time == c.time
  {
    var sel := Latest(audits, AuditCutoff);
    CorrelateMembers(sel, Rollout.UserGroup(users, licenses, groups, Rollout.SourceScope(today)), c);
    var a, g :| a in sel && g in Rollout.UserGroup(users, licenses, groups, Rollout.SourceScope(today))
      && a.uid.Some? && a.uid == g.phase && c == Output(a, g);
    FindUnique(sel, a);
  }

  /** As written, a uid that is no row's phase label appears in no output
      row, whatever rows of that user exist. */
  lemma UidNotAPhaseIsDropped(audits: seq<AuditRecord>, group: seq<Rollout.PhaseRow>, u: string)
    requires forall g :: g in group ==> g.phase != Some(u)
    ensures forall c :: c in Correlate(audits, group) ==> c.uid != Some(u)
  {
    forall c | c in Correlate(audits, group)
      ensures c.uid != Some(u)
    {
      CorrelateMembers(audits, group, c);
    }
  }

  /** As written, an audit record of a user's own id is never paired with
      that user's row when the phase is a cohort name. */
  lemma UidMatchedAgainstPhase()
    ensures Correlate(
      [AuditRecord(Some("u6"), Some(AuditCutoff), Some("grp-A"))],
      [Rollout.PhaseRow("u6", None, Some("u6@acme.com"), None, Some("grp-B"), Some("platform"), "na")]) == []
  {
  }

  // ---------------------------------------------------------------------
  // The evidently intended join: `ca.uid = ug.user_id`

  function PairOnUser(a: AuditRecord, group: seq<Rollout.PhaseRow>): seq<CorrelatedRow>
  {
    if group == [] then []
    else (if Eq(a.uid, Some(group[0].userId)) == True then [Output(a, group[0])] else []) + PairOnUser(a, group[1..])
  }

  function CorrelateByUser(audits: seq<AuditRecord>, group: seq<Rollout.PhaseRow>): seq<CorrelatedRow>
  {
    if audits == [] then [] else PairOnUser(audits[0], group) + CorrelateByUser(audits[1..], group)
  }

  lemma {:induction false} PairOnUserMembers(a: AuditRecord, group: seq<Rollout.PhaseRow>, c: CorrelatedRow)
    ensures c in PairOnUser(a, group) <==> exists g :: g in group && a.uid == Some(g.userId) && c == Output(a, g)
  {
    if group != [] {
      PairOnUserMembers(a, group[1..], c);
      if exists g :: g in group && a.uid == Some(g.userId) && c == Output(a, g) {
        var g :| g in group && a.uid == Some(g.userId) && c == Output(a, g);
        if g != group[0] { assert g in group[1..]; }
      }
    }
  }

  lemma {:induction false} CorrelateByUserMembers(audits: seq<AuditRecord>, group: seq<Rollout.PhaseRow>, c: CorrelatedRow)
    ensures c in CorrelateByUser(audits, group) <==>
      exists a, g :: a in audits && g in group && a.uid == Some(g.userId) && c == Output(a, g)
  {
    if audits != [] {
      CorrelateByUserMembers(audits[1..], group, c);
      PairOnUserMembers(audits[0], group, c);
      if exists a, g :: a in audits && g in group && a.uid == Some(g.userId) && c == Output(a, g) {
        var a, g :| a in audits && g in group && a.uid == Some(g.userId) && c == Output(a, g);
        if a != audits[0] { assert a in audits[1..]; }
      }
    }
  }

  /** The positions of the `user_group` rows of the user `a` was recorded for. */
  ghost function UserPartners(a: AuditRecord, group: seq<Rollout.PhaseRow>): set<int>
  {
    set j | 0 <= j < |group| && a.uid == Some(group[j].userId)
  }

  /** The (audit record, `user_group` row) position pairs the user-id join admits. */
  ghost function UserPairs(audits: seq<AuditRecord>, group: seq<Rollout.PhaseRow>): set<(int, int)>
  {
    set i, j | 0 <= i < |audits| && 0 <= j < |group| && j in UserPartners(audits[i], group) :: (i, j)
  }

  lemma {:induction false} PairOnUserAppend(a: AuditRecord, g1: seq<Rollout.PhaseRow>, g2: seq<Rollout.PhaseRow>)
    ensures PairOnUser(a, g1 + g2) == PairOnUser(a, g1) + PairOnUser(a, g2)
  {
    if g1 == [] {
      assert g1 + g2 == g2;
    } else {
      assert (g1 + g2)[0] == g1[0] && (g1 + g2)[1..] == g1[1..] + g2;
      PairOnUserAppend(a, g1[1..], g2);
    }
  }

  /** An audit record yields one row per `user_group` row of its user. */
  lemma {:induction false} PairOnUserCount(a: AuditRecord, group: seq<Rollout.PhaseRow>)
    ensures |PairOnUser(a, group)| == |UserPartners(a, group)|
  {
    if group != [] {
      var n := |group| - 1;
      var init := group[..n];
      assert init + [group[n]] == group;
      PairOnUserCount(a, init);
      PairOnUserAppend(a, init, [group[n]]);
      assert [group[n]][1..] == [];
      var s := UserPartners(a, init);
      if a.uid == Some(group[n].userId) {
        assert UserPartners(a, group) == s + {n};
        assert n !in s;
      } else {
        assert UserPartners(a, group) == s;
      }
    }
  }

  lemma {:induction false} CorrelateByUserAppend(a1: seq<AuditRecord>, a2: seq<AuditRecord>, group: seq<Rollout.PhaseRow>)
    ensures CorrelateByUser(a1 + a2, group) == CorrelateByUser(a1, group) + CorrelateByUser(a2, group)
  {
    if a1 == [] {
      assert a1 + a2 == a2;
    } else {
      assert (a1 + a2)[0] == a1[0] && (a1 + a2)[1..] == a1[1..] + a2;
      CorrelateByUserAppend(a1[1..], a2, group);
    }
  }

  /** The user-id join emits exactly one row per (audit record, `user_group`
      row of that user) pair. */
  lemma {:induction false} CorrelateByUserCount(audits: seq<AuditRecord>, group: seq<Rollout.PhaseRow>)
    ensures |CorrelateByUser(audits, group)| == |UserPairs(audits, group)|
  {
    if audits != [] {
      var n := |audits| - 1;
      var init := audits[..n];
      assert init + [audits[n]] == audits;
      CorrelateByUserCount(init, group);
      CorrelateByUserAppend(init, [audits[n]], group);
      assert [audits[n]][1..] == [];
      PairOnUserCount(audits[n], group);
      var partners := UserPartners(audits[n], group);
      var last := set j | j in partners && 0 <= j < |group| :: (n, j);
      PairedCount(n, partners, |group|);
      assert (set j | j in partners && 0 <= j < |group|) == partners;
      assert UserPairs(audits, group) == UserPairs(init, group) + last;
      assert UserPairs(init, group) * last == {};
    }
  }

  /** With the join on the user id, every `user_group` row of a user who has
      an in-window audit record is paired with that user's newest one. */
  lemma CorrectedJoinPairsLatestAudit(records: seq<AuditRecord>, group: seq<Rollout.PhaseRow>,
                                      g: Rollout.PhaseRow, r: AuditRecord)
    requires g in group && r in records && InWindow(r, AuditCutoff) && r.uid == Some(g.userId)
    ensures Find(Latest(records, AuditCutoff), r.uid).Some?
    ensures var s := Find(Latest(records, AuditCutoff), r.uid).value;
      Output(s, g) in CorrelateByUser(Latest(records, AuditCutoff), group) && AtLeastAsNew(s, r)
  {
    var sel := Latest(records, AuditCutoff);
    var s := Find(sel, r.uid).value;
    CorrelateByUserMembers(sel, group, Output(s, g));
  }

  /** The catalogue query with the corrected join. */
  function CanaryWithAuditAnalysisByUser(users: seq<Rollout.User>, licenses: seq<Rollout.License>,
                                         groups: seq<Rollout.CanaryGroup>, audits: seq<AuditRecord>, today: int): seq<CorrelatedRow>
  {
    CorrelateByUser(Latest(audits, AuditCutoff), Rollout.UserGroup(users, licenses, groups, Rollout.SourceScope(today)))
  }
}

/** What a completed reconciliation writes, row by row and field by field. */
module AuthorityEffects {
  import opened Collections
  import opened AuthorityPreview
  import opened AuthorityReconciliation
  import opened AuthorityProperties

  predicate IsLive(a: Authority, l: Id) {
    l in a.leagues && !a.leagues[l].deleted
  }

  /** An active commissioner of a live league that points at somebody else. */
  predicate SurplusCommissioner(a: Authority, id: Identifier)
    requires id in a.memberships
  {
    var m := a.memberships[id];
    && IsLive(a, m.league) && m.category == Commissioner && m.status == Active
    && a.leagues[m.league].pointer != Some(id)
  }

  /** An administrator whose active membership of a live league is not that of a plain member. */
  predicate IrregularAdministrator(a: Authority, id: Identifier)
    requires id in a.memberships
  {
    var m := a.memberships[id];
    && IsLive(a, m.league) && m.user in a.administrators && m.status == Active
    && (m.category != Member || m.joined.None? || m.ended.Some?)
  }

  predicate HoldsActive(ms: Memberships, l: Id, u: Id) {
    exists id | id in ms :: ms[id].league == l && ms[id].user == u && ms[id].status == Active
  }

  lemma HoldingMeans(ms: Memberships, l: Id, u: Id)
    ensures HasActive(ms, l, u) <==> HoldsActive(ms, l, u)
  {
    if HasActive(ms, l, u) {
      var id :| id in ms && IsActive(ms[id], l, u);
      assert ms[id].league == l;
    }
    if HoldsActive(ms, l, u) {
      var id :| id in ms && ms[id].league == l && ms[id].user == u && ms[id].status == Active;
      assert IsActive(ms[id], l, u);
    }
  }

  /** Team assignments of this very membership that are accepted and not ended. */
  function HeldTeams(a: Authority, id: Identifier): set<Id>
    requires id in a.memberships
  {
    var m := a.memberships[id];
    set i | i in a.assignments
            && a.assignments[i].league == m.league && a.assignments[i].user == m.user
            && a.assignments[i].membership == id
            && a.assignments[i].status == Accepted && a.assignments[i].ended == None
  }

  function Latest(a: int, b: int, c: int): int {
    if a >= b && a >= c then a else if b >= c then b else c
  }

  lemma DemotedMeans(a: Authority, id: Identifier, now: int)
    requires id in a.memberships
    ensures Surplus(a, id) <==> SurplusCommissioner(a, id)
    ensures
      var m := a.memberships[id];
      Demoted(m, DemotionFor(a, id), now) ==
      Membership(m.league, m.user, if HeldTeams(a, id) == {} then Member else Manager, m.status, m.joined, m.ended,
                 m.created, Latest(now, m.created, m.updated), m.version + 1)
    ensures
      var m := a.memberships[id];
      DemotionFor(a, id) == Demotion(m.league, m.user, if HeldTeams(a, id) == {} then Member else Manager,
                                     HeldTeams(a, id), m.version,
                                     if m.created >= m.updated then m.created else m.updated)
  {
    assert CurrentAssignments(a, id, a.memberships[id]) == HeldTeams(a, id);
  }

  lemma NormalizedMeans(a: Authority, id: Identifier, now: int)
    requires id in a.memberships
    ensures Irregular(a, id) <==> IrregularAdministrator(a, id)
    ensures
      var m := a.memberships[id];
      Normalized(m, NormalizationFor(a, id), now) ==
      Membership(m.league, m.user, Member, m.status, if m.joined.Some? then m.joined else Some(m.created), None,
                 m.created, Latest(now, m.created, m.updated), m.version + 1)
    ensures
      var m := a.memberships[id];
      NormalizationFor(a, id) == Normalization(m.league, m.user, m.category, HeldTeams(a, id), m.joined, m.created,
                                               m.version, if m.created >= m.updated then m.created else m.updated)
  {
    assert CurrentAssignments(a, id, a.memberships[id]) == HeldTeams(a, id);
  }

  lemma SurplusIsNoAdministrator(a: Authority, b: Binding, id: Identifier)
    requires Plannable(a, b) && id in a.memberships
    ensures !(SurplusCommissioner(a, id) && IrregularAdministrator(a, id))
  {
  }

  /**
   * Over a completed first run a surplus commissioner becomes a manager if it still holds a team and
   * a member otherwise, an irregular administrator becomes a plain member, and every other
   * membership stays as it is.
   */
  lemma MembershipsBecome(db: Database, q: Arguments, id: Identifier)
    requires IsFirstRun(db, q) && Reconcile(db, q).1.Completed? && id in db.authority.memberships
    ensures
      var a, ms := db.authority, Reconcile(db, q).0.authority.memberships;
      var m := a.memberships[id];
      && id in ms
      && (SurplusCommissioner(a, id) ==>
            ms[id] == Membership(m.league, m.user, if HeldTeams(a, id) == {} then Member else Manager, Active, m.joined,
                                 m.ended, m.created, Latest(q.nowMs, m.created, m.updated), m.version + 1))
      && (IrregularAdministrator(a, id) ==>
            ms[id] == Membership(m.league, m.user, Member, Active, if m.joined.Some? then m.joined else Some(m.created),
                                 None, m.created, Latest(q.nowMs, m.created, m.updated), m.version + 1))
      && (!SurplusCommissioner(a, id) && !IrregularAdministrator(a, id) ==> ms[id] == m)
  {
    var a := db.authority;
    FirstRunCompletesExactly(db, q);
    DemotedMeans(a, id, q.nowMs);
    NormalizedMeans(a, id, q.nowMs);
    SurplusIsNoAdministrator(a, q.binding, id);
    hide Reconcile, Plannable, InOrder, Surplus, Irregular, Demoted, Normalized, DemotionFor, NormalizationFor,
      IsProvision;
  }

  /**
   * Every administrator without an active membership of a live league is given one, under its
   * deterministic identifier; no other membership appears.
   */
  lemma MembershipsAppear(db: Database, q: Arguments)
    requires IsFirstRun(db, q) && Reconcile(db, q).1.Completed?
    ensures
      var a, ms := db.authority, Reconcile(db, q).0.authority.memberships;
      && (forall l, u :: IsLive(a, l) && u in a.administrators && !HoldsActive(a.memberships, l, u) ==>
                           var id := AdministratorMembership(q.binding.databaseId, q.binding.releaseId, l, u);
                           && id !in a.memberships && id in ms
                           && ms[id] == Membership(l, u, Member, Active, Some(q.nowMs), None, q.nowMs, q.nowMs, 1))
      && (forall id :: id in ms && id !in a.memberships ==>
                         && id.AdministratorMembership?
                         && id.databaseId == q.binding.databaseId && id.releaseId == q.binding.releaseId
                         && IsLive(a, id.leagueId) && id.userId in a.administrators
                         && !HoldsActive(a.memberships, id.leagueId, id.userId))
  {
    var a, ms := db.authority, Reconcile(db, q).0.authority.memberships;
    FirstRunCompletesExactly(db, q);
    forall l, u ensures HasActive(a.memberships, l, u) <==> HoldsActive(a.memberships, l, u) {
      HoldingMeans(a.memberships, l, u);
    }
    hide Reconcile, Plannable, InOrder, RowAfter, HasActive, HoldsActive;
    forall l, u | IsLive(a, l) && u in a.administrators && !HoldsActive(a.memberships, l, u)
      ensures
        var id := AdministratorMembership(q.binding.databaseId, q.binding.releaseId, l, u);
        && id !in a.memberships && id in ms
        && ms[id] == Membership(l, u, Member, Active, Some(q.nowMs), None, q.nowMs, q.nowMs, 1)
    {
      assert IsProvision(a, q.binding, AdministratorMembership(q.binding.databaseId, q.binding.releaseId, l, u));
    }
  }

  /**
   * Afterwards a live league points at its one active commissioner, and each administrator has an
   * active membership of it, and none that is not that of a member who has joined and not left.
   */
  lemma AuthorityAfterwards(db: Database, q: Arguments, l: Id, u: Id)
    requires IsFirstRun(db, q) && Reconcile(db, q).1.Completed? && IsLive(db.authority, l)
    ensures
      var a := Reconcile(db, q).0.authority;
      var ms := a.memberships;
      && IsLive(a, l) && a.leagues == db.authority.leagues
      && (forall id :: id in ms && ms[id].league == l && ms[id].category == Commissioner && ms[id].status == Active <==>
                         a.leagues[l].pointer == Some(id))
      && (u in a.administrators ==>
            && HoldsActive(ms, l, u)
            && forall id :: id in ms && ms[id].league == l && ms[id].user == u && ms[id].status == Active ==>
                              ms[id].category == Member && ms[id].joined.Some? && ms[id].ended == None)
  {
    FirstRunCompletesExactly(db, q);
    var a := Reconcile(db, q).0.authority;
    HoldingMeans(a.memberships, l, u);
    hide Reconcile, Plannable, Reconciled, HasActive, HoldsActive;
    assert l in Live(a) && OneCommissioner(a, l);
    forall id ensures id in Commissioners(a.memberships, l) <==>
                        id in a.memberships && a.memberships[id].league == l
                        && a.memberships[id].category == Commissioner && a.memberships[id].status == Active
    {
    }
    if u in a.administrators {
      assert Covered(a, l, u);
      forall id | id in a.memberships && a.memberships[id].league == l && a.memberships[id].user == u
                  && a.memberships[id].status == Active
        ensures a.memberships[id].category == Member && a.memberships[id].joined.Some?
                && a.memberships[id].ended == None
      {
        assert IsActive(a.memberships[id], l, u);
      }
    }
  }

  /** The report lists each change with the row it was planned for, and is stored in the one new audit record. */
  lemma ReportSays(db: Database, q: Arguments)
    requires IsFirstRun(db, q) && Reconcile(db, q).1.Completed?
    ensures
      var a, (db', outcome) := db.authority, Reconcile(db, q);
      var r, auditEventId := outcome.report, AuditId(q.binding.databaseId, q.binding.releaseId);
      && r.code == AuthorityReconciled && r.releaseId == q.binding.releaseId && r.staging && r.binding == q.binding
      && r.schemaVersion == q.schemaVersion && r.auditEventId == auditEventId
      && r.totalChangeCount == r.authorityMutationCount + 1
      && r.before == Preview(a) && r.after == Preview(db'.authority)
      && (forall id :: id in r.changes.demotions <==> id in a.memberships && SurplusCommissioner(a, id))
      && (forall id :: id in r.changes.normalizations <==> id in a.memberships && IrregularAdministrator(a, id))
      && db'.audit == db.audit[auditEventId :=
           AuditEvent(true, true, None, None, q.binding.releaseId, AuthorityReconciled,
                      Some(Metadata(1, q.binding.releaseId, true, q.binding.environmentId, q.binding.databaseId,
                                    Some(r))))]
  {
    var a := db.authority;
    FirstRunExecutes(db, q);
    forall id | id in a.memberships
      ensures Surplus(a, id) <==> SurplusCommissioner(a, id)
      ensures Irregular(a, id) <==> IrregularAdministrator(a, id)
    {
      DemotedMeans(a, id, q.nowMs);
      NormalizedMeans(a, id, q.nowMs);
    }
    hide Reconcile, Rewritten, Clean, Preview, MutationCount, Surplus, Irregular, SurplusCommissioner,
      IrregularAdministrator, DemotionFor, NormalizationFor, ProvisionsOf, CoveragePairs;
  }

  lemma ReportedDemotion(db: Database, q: Arguments, id: Identifier)
    requires IsFirstRun(db, q) && Reconcile(db, q).1.Completed?
    requires id in db.authority.memberships && SurplusCommissioner(db.authority, id)
    ensures
      var a, demotions := db.authority, Reconcile(db, q).1.report.changes.demotions;
      var m := a.memberships[id];
      && id in demotions
      && demotions[id] == Demotion(m.league, m.user, if HeldTeams(a, id) == {} then Member else Manager,
                                   HeldTeams(a, id), m.version,
                                     if m.created >= m.updated then m.created else m.updated)
  {
    FirstRunExecutes(db, q);
    DemotedMeans(db.authority, id, q.nowMs);
    hide Reconcile, Rewritten, Clean, Preview, MutationCount, DemotionFor, NormalizationFor, ProvisionsOf,
      CoveragePairs, EventOf;
  }

  // ---------- what a first run demands ----------

  predicate CommissionsActively(m: Membership, l: Id) {
    m.league == l && m.category == Commissioner && m.status == Active
  }

  /** No two active commissioners. */
  ghost predicate OneCommissionerAtMost(ms: Memberships, l: Id) {
    forall id, id' :: id in ms && id' in ms && CommissionsActively(ms[id], l) && CommissionsActively(ms[id'], l) ==>
                        id == id'
  }

  /** The league points at an active commissioner of its own who is no administrator. */
  ghost predicate PointsAtCommissioner(a: Authority, l: Id)
    requires l in a.leagues
  {
    var pointer := a.leagues[l].pointer;
    && pointer.Some? && pointer.value in a.memberships && CommissionsActively(a.memberships[pointer.value], l)
    && a.memberships[pointer.value].user !in a.administrators
  }

  predicate IsTheirs(m: Membership, l: Id, u: Id) {
    m.league == l && m.user == u
  }

  /**
   * The administrator has one active membership of the league at most; if it has none, it has one
   * membership of it at most, and the identifier of the one to be made is free.
   */
  ghost predicate CanBeCovered(a: Authority, b: Binding, l: Id, u: Id) {
    var ms := a.memberships;
    && (forall id, id' | id in ms && id' in ms && ms[id].status == Active && ms[id'].status == Active ::
          IsTheirs(ms[id], l, u) && IsTheirs(ms[id'], l, u) ==> id == id')
    && (HoldsActive(ms, l, u)
        || (&& (forall id, id' :: id in ms && id' in ms && IsTheirs(ms[id], l, u) && IsTheirs(ms[id'], l, u) ==>
                                    id == id')
            && AdministratorMembership(b.databaseId, b.releaseId, l, u) !in ms))
  }

  ghost predicate Reconcilable(a: Authority, b: Binding) {
    && (forall l :: l in a.leagues && a.leagues[l].deleted ==> OneCommissionerAtMost(a.memberships, l))
    && (forall i, j :: i in a.transfers && j in a.transfers && a.transfers[i] == a.transfers[j] ==> i == j)
    && (forall l :: IsLive(a, l) ==> PointsAtCommissioner(a, l))
    && (forall id :: id in a.memberships && IsLive(a, a.memberships[id].league)
                     && CommissionsActively(a.memberships[id], a.memberships[id].league) ==>
                       a.memberships[id].user !in a.administrators)
    && (forall l, u :: IsLive(a, l) && u in a.administrators ==> CanBeCovered(a, b, l, u))
  }

  lemma FewCommissioners(ms: Memberships, l: Id)
    ensures |Commissioners(ms, l)| <= 1 <==> OneCommissionerAtMost(ms, l)
  {
    AtMostOne(Commissioners(ms, l));
    assert forall id :: id in Commissioners(ms, l) <==> id in ms && CommissionsActively(ms[id], l);
  }

  lemma PointingMeans(a: Authority, l: Id)
    requires l in a.leagues
    ensures LeagueProblem(a, l).None? <==> PointsAtCommissioner(a, l)
  {
    assert forall id :: id in Commissioners(a.memberships, l) <==>
                          id in a.memberships && CommissionsActively(a.memberships[id], l);
  }

  lemma CoveringMeans(a: Authority, b: Binding, l: Id, u: Id)
    ensures CoverageProblem(a, b, (l, u)).None? <==> CanBeCovered(a, b, l, u)
  {
    var ms := a.memberships;
    AtMostOne(ActiveOf(ms, l, u));
    AtMostOne(MembershipsOf(ms, l, u));
    NoneActive(ms, l, u);
    HoldingMeans(ms, l, u);
    assert forall id :: id in ActiveOf(ms, l, u) <==> id in ms && IsTheirs(ms[id], l, u) && ms[id].status == Active;
    assert forall id :: id in MembershipsOf(ms, l, u) <==> id in ms && IsTheirs(ms[id], l, u);
    hide HoldsActive, HasActive, ActiveOf, MembershipsOf;
  }

  lemma PlannableMeans(a: Authority, b: Binding)
    ensures Plannable(a, b) <==> Reconcilable(a, b)
  {
    TransfersInOrder(a);
    forall l ensures |Commissioners(a.memberships, l)| <= 1 <==> OneCommissionerAtMost(a.memberships, l) {
      FewCommissioners(a.memberships, l);
    }
    forall l | l in a.leagues ensures LeagueProblem(a, l).None? <==> PointsAtCommissioner(a, l) {
      PointingMeans(a, l);
    }
    forall l, u ensures CoverageProblem(a, b, (l, u)).None? <==> CanBeCovered(a, b, l, u) {
      CoveringMeans(a, b, l, u);
    }
    hide Preview, Commissioners, OneCommissionerAtMost, LeagueProblem, PointsAtCommissioner, CoverageProblem,
      CanBeCovered;
  }

  /** A first run completes exactly on authority that can be reconciled, whatever it has to write. */
  lemma FirstRunCompletesOn(db: Database, q: Arguments)
    requires IsFirstRun(db, q)
    ensures Reconcile(db, q).1.Completed? <==> Reconcilable(db.authority, q.binding)
  {
    FirstRunCompletesExactly(db, q);
    PlannableMeans(db.authority, q.binding);
    hide Reconcile, Plannable, Reconcilable, Reconciled, InOrder;
  }

  // ---------- arguments and replays ----------

  lemma {:induction false} ProblemsAreOfChecks<T>(items: seq<T>, check: T -> Option<Failure>)
    requires forall x :: x in items ==> check(x) != Some(ArgumentInvalid)
    ensures FirstProblem(items, check) != Some(ArgumentInvalid)
  {
    if items != [] {
      assert items == items[..|items| - 1] + [items[|items| - 1]];
      ProblemsAreOfChecks(items[..|items| - 1], check);
    }
  }

  lemma ArgumentsAreNoProblem(db: Database, q: Arguments)
    requires ArgumentsValid(q)
    ensures Reconcile(db, q).1 != Failed(ArgumentInvalid)
  {
    var a := db.authority;
    ProblemsAreOfChecks(Ordered(Live(a)), LeagueCheck(a));
    ProblemsAreOfChecks(CoveragePairs(a), CoverageCheck(a, q.binding));
    hide Clean, Preview, CoveragePairs, Ordered, Live, DemotionsOf, NormalizationsOf, ProvisionsOf, DemotionsMatch,
      ProvisionsFit, NormalizationsMatch, FirstProblem, Commissioners, Replayable;
  }

  lemma InvalidArguments(db: Database, q: Arguments)
    requires !ArgumentsValid(q)
    ensures Reconcile(db, q) == (db, Failed(ArgumentInvalid))
  {
    hide PlanOf, Execute, Clean, ReadAuditReplay, ArgumentsValid;
  }

  /** Only three schema versions are supported, and the clock has to be a safe integer. */
  lemma ArgumentsChecked(db: Database, q: Arguments)
    ensures
      Reconcile(db, q).1 == Failed(ArgumentInvalid) <==>
        !(q.wellFormed && 52 <= q.schemaVersion <= 54 && 0 <= q.nowMs <= 9_007_199_254_740_991)
  {
    assert ArgumentsValid(q) <==> q.wellFormed && 52 <= q.schemaVersion <= 54 && 0 <= q.nowMs <= 9_007_199_254_740_991;
    hide ArgumentsValid;
    if ArgumentsValid(q) {
      hide Reconcile;
      ArgumentsAreNoProblem(db, q);
    } else {
      InvalidArguments(db, q);
      hide Reconcile;
    }
  }

  /** A stored record answers only if it is the completed record of this release, database and environment. */
  lemma ReplayIsOfThisRelease(db: Database, q: Arguments)
    requires ArgumentsValid(q) && !IsFirstRun(db, q) && Reconcile(db, q).1.Completed?
    ensures
      var auditEventId := AuditId(q.binding.databaseId, q.binding.releaseId);
      var outcome := Reconcile(db, q).1;
      && auditEventId in db.audit
      && outcome.replayed && outcome.changesThisRun == 0
      && var e := db.audit[auditEventId];
         && e.reconciled && e.success && e.actor == None && e.league == None && e.releaseId == q.binding.releaseId
         && e.reason == AuthorityReconciled && e.metadata.Some?
         && var m, r := e.metadata.value, outcome.report;
            && m.contractVersion == 1 && m.releaseId == q.binding.releaseId && m.staging
            && m.environmentId == q.binding.environmentId && m.databaseId == q.binding.databaseId
            && m.result == Some(r)
            && r.code == AuthorityReconciled && r.releaseId == q.binding.releaseId && r.staging
            && r.auditEventId == auditEventId
            && r.binding.environmentId == q.binding.environmentId && r.binding.databaseId == q.binding.databaseId
            && 1 <= r.totalChangeCount <= 9_007_199_254_740_991
  {
    hide PlanOf, Execute, Clean;
  }

  /** Any other record under that identifier is a conflict, and nothing is written. */
  lemma ForeignRecordConflicts(db: Database, q: Arguments)
    requires ArgumentsValid(q) && !IsFirstRun(db, q) && Clean(db.authority)
    requires Reconcile(db, q).1.Failed?
    ensures Reconcile(db, q) == (db, Failed(AuditConflict))
  {
    hide PlanOf, Execute, Clean, Replayable;
  }

  // ---------- the findings ----------

  /** What each finding of a preview names. */
  lemma FindingsName(a: Authority)
    ensures
      var f, ms := Preview(a), a.memberships;
      && (forall l: Id, u: Id :: (l, u) in f.missing <==>
                                   IsLive(a, l) && u in a.administrators && !HoldsActive(ms, l, u))
      && (forall id :: id in f.nonCanonical <==> id in ms && IrregularAdministrator(a, id))
      && (forall i :: i in f.protectedAssignments <==>
                        && i in a.assignments && a.assignments[i].user in a.administrators
                        && a.assignments[i].status != OtherAssignment && a.assignments[i].ended == None)
      && (forall l :: l in f.pointers <==>
                        && IsLive(a, l)
                        && !(exists id :: id in ms && a.leagues[l].pointer == Some(id)
                                          && CommissionsActively(ms[id], l)))
  {
    var ms := a.memberships;
    forall l: Id, u: Id ensures HasActive(ms, l, u) <==> HoldsActive(ms, l, u) {
      HoldingMeans(ms, l, u);
    }
    hide HasActive, HoldsActive, TransfersOf;
    forall l: Id ensures forall id :: id in Commissioners(ms, l) <==> id in ms && CommissionsActively(ms[id], l) {
    }
    hide Commissioners;
  }
}

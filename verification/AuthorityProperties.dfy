/** What a reconciliation achieves, what it leaves alone, and what a second run of it does. */
module AuthorityProperties {
  import opened Collections
  import opened AuthorityPreview
  import opened AuthorityReconciliation

  // ---------- when planning succeeds ----------

  ghost predicate NoAdministratorCommissions(a: Authority) {
    forall id :: id in a.memberships && a.memberships[id].league in Live(a)
                 && Commissions(a.memberships[id], a.memberships[id].league) ==>
                   a.memberships[id].user !in a.administrators
  }

  /** What planning demands of the stored authority. */
  ghost predicate Plannable(a: Authority, b: Binding) {
    && (forall l :: l in a.leagues && a.leagues[l].deleted ==> |Commissioners(a.memberships, l)| <= 1)
    && Preview(a).duplicateTransfers == {}
    && (forall l :: l in Live(a) ==> LeagueProblem(a, l).None?)
    && NoAdministratorCommissions(a)
    && (forall l, u :: l in Live(a) && u in a.administrators ==> CoverageProblem(a, b, (l, u)).None?)
  }

  function PlannedFor(a: Authority, b: Binding): Plan {
    Plan(DemotionsOf(a), ProvisionsOf(b, Uncovered(a, set p | p in CoveragePairs(a))), NormalizationsOf(a))
  }

  lemma LeaguesChecked(a: Authority)
    ensures FirstProblem(Ordered(Live(a)), LeagueCheck(a)).None?
            <==> forall l :: l in Live(a) ==> LeagueProblem(a, l).None?
  {
    hide LeagueProblem, Ordered;
    NoProblemExactly(Ordered(Live(a)), LeagueCheck(a));
  }

  lemma PairsAreCoverage(a: Authority)
    ensures forall p :: p in CoveragePairs(a) <==> p.0 in Live(a) && p.1 in a.administrators
  {
  }

  lemma CoverageChecked(a: Authority, b: Binding)
    ensures FirstProblem(CoveragePairs(a), CoverageCheck(a, b)).None?
            <==> forall l, u :: l in Live(a) && u in a.administrators ==> CoverageProblem(a, b, (l, u)).None?
  {
    hide CoverageProblem, Live;
    PairsAreCoverage(a);
    hide CoveragePairs;
    var check := CoverageCheck(a, b);
    NoProblemExactly(CoveragePairs(a), check);
    if FirstProblem(CoveragePairs(a), check).None? {
      forall l, u | l in Live(a) && u in a.administrators ensures CoverageProblem(a, b, (l, u)).None? {
        assert check((l, u)).None?;
      }
    } else {
      var p :| p in CoveragePairs(a) && check(p).Some?;
      assert CoverageProblem(a, b, (p.0, p.1)).Some?;
    }
  }

  /** Planning succeeds exactly on authority that has all of this, and then plans these writes. */
  lemma PlanSucceedsExactly(a: Authority, b: Binding)
    ensures PlanOf(a, b).Ok? <==> Plannable(a, b)
    ensures PlanOf(a, b).Ok? ==> PlanOf(a, b).value == PlannedFor(a, b)
  {
    LeaguesChecked(a);
    CoverageChecked(a, b);
    hide Preview, Commissioners, LeagueProblem, CoverageProblem, DemotionsOf, ProvisionsOf, NormalizationsOf, Uncovered,
      FirstProblem, Ordered, CoveragePairs, Live, Commissions;
  }

  // ---------- the planned writes all apply ----------

  /** The membership a plan provisions for an administrator without one. */
  predicate IsProvision(a: Authority, b: Binding, id: Identifier) {
    && id.AdministratorMembership? && id.databaseId == b.databaseId && id.releaseId == b.releaseId
    && id.leagueId in Live(a) && id.userId in a.administrators
    && !HasActive(a.memberships, id.leagueId, id.userId)
  }

  lemma ProvisionsAreTheUncovered(a: Authority, b: Binding)
    ensures
      var provisions := PlannedFor(a, b).provisions;
      && (forall id :: id in provisions <==> IsProvision(a, b, id))
      && (forall id :: id in provisions ==> provisions[id] == Provision(id.leagueId, id.userId))
  {
    hide HasActive, DemotionsOf, NormalizationsOf;
    assert forall l, u :: (l, u) in CoveragePairs(a) <==> l in Live(a) && u in a.administrators;
    hide Live, CoveragePairs;
    forall id | IsProvision(a, b, id) ensures id in PlannedFor(a, b).provisions {
      assert (id.leagueId, id.userId) in Uncovered(a, set p | p in CoveragePairs(a));
    }
  }

  /** What becomes of a stored membership. */
  function RowAfter(a: Authority, id: Identifier, now: int): Membership
    requires id in a.memberships
  {
    var m := a.memberships[id];
    if Surplus(a, id) then Demoted(m, DemotionFor(a, id), now)
    else if Irregular(a, id) then Normalized(m, NormalizationFor(a, id), now)
    else m
  }

  /** The table after the three write loops. */
  ghost predicate Reconciled(a: Authority, b: Binding, ms: Memberships, now: int) {
    && (forall id :: id in ms <==> id in a.memberships || IsProvision(a, b, id))
    && (forall id :: id in a.memberships ==> ms[id] == RowAfter(a, id, now))
    && (forall id :: IsProvision(a, b, id) ==>
                       id !in a.memberships && ms[id] == Provisioned(Provision(id.leagueId, id.userId), now))
  }

  /** No membership is written twice: demoted, provisioned and normalized rows are all different. */
  lemma WritesAreDisjoint(a: Authority, b: Binding)
    requires Plannable(a, b)
    ensures
      var plan := PlannedFor(a, b);
      && plan.demotions.Keys !! plan.normalizations.Keys
      && plan.provisions.Keys !! a.memberships.Keys
      && plan.demotions.Keys <= a.memberships.Keys && plan.normalizations.Keys <= a.memberships.Keys
  {
    hide ProvisionsOf, Live, Canonical, DemotionFor, NormalizationFor, Preview, LeagueProblem, Commissioners;
    ProvisionsAreTheUncovered(a, b);
    forall id | id in PlannedFor(a, b).provisions ensures id !in a.memberships {
      NoneActive(a.memberships, id.leagueId, id.userId);
      assert CoverageProblem(a, b, (id.leagueId, id.userId)).None?;
    }
  }

  lemma DemotionKeepsActivity(a: Authority, now: int, l: Id, u: Id)
    ensures
      var ms := AfterDemotions(a.memberships, DemotionsOf(a), now);
      HasActive(ms, l, u) <==> HasActive(a.memberships, l, u)
  {
    hide Surplus, DemotionFor;
    var ms := AfterDemotions(a.memberships, DemotionsOf(a), now);
    forall id | id in ms ensures IsActive(ms[id], l, u) <==> IsActive(a.memberships[id], l, u) {
    }
  }

  function AfterWrites(ms: Memberships, plan: Plan, now: int): Memberships {
    AfterNormalizations(AfterProvisions(AfterDemotions(ms, plan.demotions, now), plan.provisions, now),
                        plan.normalizations, now)
  }

  lemma RowWritten(ms: Memberships, plan: Plan, now: int, id: Identifier)
    requires plan.demotions.Keys !! plan.normalizations.Keys && plan.provisions.Keys !! ms.Keys
    requires plan.normalizations.Keys <= ms.Keys
    ensures id in AfterWrites(ms, plan, now) <==> id in ms || id in plan.provisions
    ensures id in ms ==>
              AfterWrites(ms, plan, now)[id] ==
              if id in plan.demotions then Demoted(ms[id], plan.demotions[id], now)
              else if id in plan.normalizations then Normalized(ms[id], plan.normalizations[id], now)
              else ms[id]
    ensures id in plan.provisions ==> AfterWrites(ms, plan, now)[id] == Provisioned(plan.provisions[id], now)
  {
  }

  lemma PlannedRow(a: Authority, b: Binding, id: Identifier)
    requires id in a.memberships
    ensures
      var plan := PlannedFor(a, b);
      && (id in plan.demotions <==> Surplus(a, id)) && (id in plan.normalizations <==> Irregular(a, id))
      && (id in plan.demotions ==> plan.demotions[id] == DemotionFor(a, id))
      && (id in plan.normalizations ==> plan.normalizations[id] == NormalizationFor(a, id))
  {
  }

  lemma WrittenRow(a: Authority, b: Binding, now: int, id: Identifier)
    requires Plannable(a, b)
    ensures
      var ms := AfterWrites(a.memberships, PlannedFor(a, b), now);
      && (id in ms <==> id in a.memberships || IsProvision(a, b, id))
      && (id in a.memberships ==> ms[id] == RowAfter(a, id, now))
      && (IsProvision(a, b, id) ==>
            id !in a.memberships && ms[id] == Provisioned(Provision(id.leagueId, id.userId), now))
  {
    hide Plannable, PlannedFor, IsProvision, Demoted, Normalized, DemotionFor, NormalizationFor, Surplus, Irregular,
      Provisioned, AfterWrites;
    WritesAreDisjoint(a, b);
    ProvisionsAreTheUncovered(a, b);
    RowWritten(a.memberships, PlannedFor(a, b), now, id);
    if id in a.memberships { PlannedRow(a, b, id); }
  }

  lemma IsProvisionId(a: Authority, b: Binding, id: Identifier)
    ensures IsProvision(a, b, id) ==> id.AdministratorMembership?
  {
  }

  lemma WrittenRows(a: Authority, b: Binding, now: int)
    requires Plannable(a, b)
    ensures Reconciled(a, b, AfterWrites(a.memberships, PlannedFor(a, b), now), now)
  {
    hide Plannable, PlannedFor, IsProvision, RowAfter, Provisioned, AfterWrites;
    forall id
      ensures id in AfterWrites(a.memberships, PlannedFor(a, b), now) <==> id in a.memberships || IsProvision(a, b, id)
      ensures id in a.memberships ==> AfterWrites(a.memberships, PlannedFor(a, b), now)[id] == RowAfter(a, id, now)
      ensures IsProvision(a, b, id) ==>
                id !in a.memberships && id.AdministratorMembership?
                && AfterWrites(a.memberships, PlannedFor(a, b), now)[id]
                   == Provisioned(Provision(id.leagueId, id.userId), now)
    {
      WrittenRow(a, b, now, id);
      IsProvisionId(a, b, id);
    }
  }

  lemma NotCovered(a: Authority, b: Binding, id: Identifier)
    requires IsProvision(a, b, id)
    ensures id == AdministratorMembership(b.databaseId, b.releaseId, id.leagueId, id.userId)
    ensures !HasActive(a.memberships, id.leagueId, id.userId)
  {
  }

  lemma DemotedThenProvisioned(a: Authority, b: Binding, now: int)
    requires Plannable(a, b)
    ensures
      var plan := PlannedFor(a, b);
      ProvisionsFit(AfterDemotions(a.memberships, plan.demotions, now), plan.provisions)
  {
    var plan := PlannedFor(a, b);
    var demoted := AfterDemotions(a.memberships, plan.demotions, now);
    WritesAreDisjoint(a, b);
    ProvisionsAreTheUncovered(a, b);
    assert demoted.Keys == a.memberships.Keys && plan.demotions == DemotionsOf(a);
    hide Plannable, PlannedFor, IsProvision, HasActive, AfterDemotions, DemotionsOf;
    forall id | id in plan.provisions
      ensures id !in demoted && !HasActive(demoted, plan.provisions[id].league, plan.provisions[id].user)
      ensures id == AdministratorMembership(b.databaseId, b.releaseId,
                                            plan.provisions[id].league, plan.provisions[id].user)
    {
      NotCovered(a, b, id);
      DemotionKeepsActivity(a, now, id.leagueId, id.userId);
    }
  }

  lemma DemotionsAllMatch(a: Authority)
    ensures DemotionsMatch(a.memberships, DemotionsOf(a))
  {
  }

  lemma NormalizationsAllMatch(a: Authority, ms: Memberships)
    requires forall id :: id in NormalizationsOf(a) ==> id in ms && ms[id] == a.memberships[id]
    ensures NormalizationsMatch(ms, NormalizationsOf(a))
  {
  }

  /** Every planned write finds its row as planned, so no loop stops and each writes one row per item. */
  lemma PlannedWritesApply(a: Authority, b: Binding, now: int)
    requires Plannable(a, b)
    ensures
      var r := Rewritten(a.memberships, PlannedFor(a, b), now);
      r.Ok? && Reconciled(a, b, r.value, now)
  {
    var plan := PlannedFor(a, b);
    var demoted := AfterDemotions(a.memberships, plan.demotions, now);
    WritesAreDisjoint(a, b);
    ProvisionsAreTheUncovered(a, b);
    DemotionsAllMatch(a);
    DemotedThenProvisioned(a, b, now);
    NormalizationsAllMatch(a, AfterProvisions(demoted, plan.provisions, now));
    WrittenRows(a, b, now);
    hide Plannable, IsProvision, DemotionsMatch, ProvisionsFit, NormalizationsMatch, Reconciled,
      AfterDemotions, AfterProvisions, AfterNormalizations, ProvisionsOf;
  }

  // ---------- the result is in order ----------

  lemma OneCommissionerAfter(a: Authority, b: Binding, ms: Memberships, now: int, l: Id)
    requires Plannable(a, b) && Reconciled(a, b, ms, now) && l in Live(a)
    ensures OneCommissioner(a.(memberships := ms), l)
  {
  }

  lemma AdministratorRowAfter(a: Authority, b: Binding, id: Identifier, now: int)
    requires id in a.memberships
    requires a.memberships[id].user in a.administrators && a.memberships[id].league in Live(a)
    ensures RowAfter(a, id, now).status == Active ==>
              Canonical(RowAfter(a, id, now)) || Commissions(a.memberships[id], a.memberships[id].league)
  {
  }

  lemma CoveredAfter(a: Authority, b: Binding, ms: Memberships, now: int, l: Id, u: Id)
    requires Plannable(a, b) && Reconciled(a, b, ms, now) && l in Live(a) && u in a.administrators
    ensures Covered(a.(memberships := ms), l, u)
  {
    assert NoAdministratorCommissions(a);
    hide Plannable, Commissioners;
    var provision := AdministratorMembership(b.databaseId, b.releaseId, l, u);
    if HasActive(a.memberships, l, u) {
      var id :| id in a.memberships && IsActive(a.memberships[id], l, u);
      assert IsActive(RowAfter(a, id, now), l, u);
    } else {
      assert IsProvision(a, b, provision) && IsActive(ms[provision], l, u);
    }
    forall id | id in ms && IsActive(ms[id], l, u) ensures Canonical(ms[id]) {
      if id in a.memberships { AdministratorRowAfter(a, b, id, now); }
    }
  }

  /** Whatever authority planning accepted, the writes leave it in order. */
  lemma ReconciledIsInOrder(a: Authority, b: Binding, ms: Memberships, now: int)
    requires Plannable(a, b) && Reconciled(a, b, ms, now)
    ensures InOrder(a.(memberships := ms)) && Clean(a.(memberships := ms))
  {
    var a' := a.(memberships := ms);
    TransfersInOrder(a);
    NoMutationExactlyInOrder(a');
    assert Live(a') == Live(a);
    forall l | l in Live(a) ensures OneCommissioner(a', l) {
      OneCommissionerAfter(a, b, ms, now, l);
    }
    forall l, u | l in Live(a) && u in a.administrators ensures Covered(a', l, u) {
      CoveredAfter(a, b, ms, now, l, u);
    }
    hide Live, Preview, OneCommissioner, Covered, LeagueProblem, CoverageProblem, NoAdministratorCommissions,
      Commissioners,
      IsProvision, RowAfter;
  }

  // ---------- a first run ----------

  /** Foreign keys and the unique index of active memberships. */
  ghost predicate LeaguesExist(a: Authority) {
    forall id :: id in a.memberships ==> a.memberships[id].league in a.leagues
  }

  ghost predicate OneActivePerUser(ms: Memberships) {
    forall id, id' :: id in ms && id' in ms && ms[id].status == Active && ms[id'].status == Active
                      && ms[id].league == ms[id'].league && ms[id].user == ms[id'].user ==>
                        id == id'
  }

  /** The value constraints on a stored membership. */
  predicate RowValid(m: Membership) {
    && 0 <= m.created <= m.updated && m.version >= 1
    && (m.joined.Some? ==> m.joined.value >= 0)
    && (m.ended.Some? ==> m.joined.Some? && m.ended.value >= m.joined.value)
  }

  predicate IsFirstRun(db: Database, q: Arguments) {
    ArgumentsValid(q) && AuditId(q.binding.databaseId, q.binding.releaseId) !in db.audit
  }

  /**
   * Once planning has succeeded nothing can fail any more: every write applies, the post-check
   * passes, and the run completes. A run that fails leaves the database exactly as it was.
   */
  lemma FirstRunCompletesExactly(db: Database, q: Arguments)
    requires IsFirstRun(db, q)
    ensures Reconcile(db, q).1.Completed? <==> Plannable(db.authority, q.binding)
    ensures Reconcile(db, q).1.Failed? ==>
              && PlanOf(db.authority, q.binding).Err?
              && Reconcile(db, q) == (db, Failed(PlanOf(db.authority, q.binding).error))
    ensures Reconcile(db, q).1.Completed? ==>
              var a, a' := db.authority, Reconcile(db, q).0.authority;
              && a' == a.(memberships := a'.memberships)
              && Reconciled(a, q.binding, a'.memberships, q.nowMs)
              && InOrder(a')
  {
    var a := db.authority;
    PlanSucceedsExactly(a, q.binding);
    if Plannable(a, q.binding) {
      PlannedWritesApply(a, q.binding, q.nowMs);
      var ms := Rewritten(a.memberships, PlannedFor(a, q.binding), q.nowMs).value;
      ReconciledIsInOrder(a, q.binding, ms, q.nowMs);
      hide PlanOf, Plannable, PlannedFor, Rewritten, Reconciled, InOrder, Clean, ReportOf, EventOf;
    }
  }

  /** The memberships a run added or changed. */
  function ChangedRows(before: Memberships, after: Memberships): set<Identifier> {
    set id | id in after && !(id in before && before[id] == after[id])
  }

  lemma ChangedRow(a: Authority, b: Binding, ms: Memberships, now: int, id: Identifier)
    requires Plannable(a, b) && Reconciled(a, b, ms, now)
    ensures
      var plan := PlannedFor(a, b);
      id in ChangedRows(a.memberships, ms)
      <==> id in plan.demotions || id in plan.normalizations || id in plan.provisions
  {
    WritesAreDisjoint(a, b);
    ProvisionsAreTheUncovered(a, b);
    hide Plannable, PlannedFor, IsProvision, DemotionFor, NormalizationFor, Surplus, Irregular, Provisioned;
    if id in a.memberships { PlannedRow(a, b, id); }
  }

  lemma DisjointCount<T>(x: set<T>, y: set<T>)
    requires x !! y
    ensures |x + y| == |x| + |y|
  {
  }

  lemma CountedRows(changed: set<Identifier>, plan: Plan)
    requires plan.demotions.Keys !! plan.normalizations.Keys
    requires (plan.demotions.Keys + plan.normalizations.Keys) !! plan.provisions.Keys
    requires forall id :: id in changed <==> id in plan.demotions || id in plan.normalizations || id in plan.provisions
    ensures |changed| == MutationCount(plan)
  {
    assert changed == plan.demotions.Keys + plan.normalizations.Keys + plan.provisions.Keys;
    DisjointCount(plan.demotions.Keys, plan.normalizations.Keys);
    DisjointCount(plan.demotions.Keys + plan.normalizations.Keys, plan.provisions.Keys);
  }

  lemma ChangedRowsArePlanned(a: Authority, b: Binding, ms: Memberships, now: int)
    requires Plannable(a, b) && Reconciled(a, b, ms, now)
    ensures |ChangedRows(a.memberships, ms)| == MutationCount(PlannedFor(a, b))
    ensures a.memberships.Keys <= ms.Keys
  {
    WritesAreDisjoint(a, b);
    forall id ensures id in ChangedRows(a.memberships, ms) <==>
                        id in PlannedFor(a, b).demotions || id in PlannedFor(a, b).normalizations
                        || id in PlannedFor(a, b).provisions
    {
      hide Plannable, Reconciled, PlannedFor, ChangedRows;
      ChangedRow(a, b, ms, now, id);
    }
    hide Plannable, PlannedFor, ChangedRows;
    CountedRows(ChangedRows(a.memberships, ms), PlannedFor(a, b));
  }

  lemma FirstRunExecutes(db: Database, q: Arguments)
    requires IsFirstRun(db, q) && Reconcile(db, q).1.Completed?
    ensures Reconcile(db, q) == Execute(db, q, PlannedFor(db.authority, q.binding),
                                        AuditId(q.binding.databaseId, q.binding.releaseId))
  {
    hide PlanOf, Execute, Clean;
    PlanSucceedsExactly(db.authority, q.binding);
  }

  lemma ExecutionReports(db: Database, q: Arguments, plan: Plan, auditEventId: Identifier)
    requires Execute(db, q, plan, auditEventId).1.Completed?
    ensures
      var (db', outcome) := Execute(db, q, plan, auditEventId);
      && !outcome.replayed && outcome.report.auditEventId == auditEventId
      && outcome.changesThisRun == outcome.report.totalChangeCount == MutationCount(plan) + 1
      && db'.audit.Keys == db.audit.Keys + {auditEventId}
  {
    hide Rewritten, Clean, MutationCount;
  }

  /**
   * Exact accounting: the reported number of changes is the number of membership rows that
   * differ afterwards, plus the one audit record. No membership disappears.
   */
  lemma ChangesAreAccounted(db: Database, q: Arguments)
    requires IsFirstRun(db, q) && Reconcile(db, q).1.Completed?
    ensures
      var (db', outcome) := Reconcile(db, q);
      && !outcome.replayed
      && outcome.changesThisRun == outcome.report.totalChangeCount
      && outcome.changesThisRun == |ChangedRows(db.authority.memberships, db'.authority.memberships)| + 1
      && db.authority.memberships.Keys <= db'.authority.memberships.Keys
      && db'.audit.Keys == db.audit.Keys + {outcome.report.auditEventId} && outcome.report.auditEventId !in db.audit
  {
    var auditEventId := AuditId(q.binding.databaseId, q.binding.releaseId);
    FirstRunExecutes(db, q);
    ExecutionReports(db, q, PlannedFor(db.authority, q.binding), auditEventId);
    FirstRunCompletesExactly(db, q);
    hide Reconcile, Execute, Reconciled, InOrder, ChangedRows, MutationCount, Plannable, PlannedFor;
    ChangedRowsArePlanned(db.authority, q.binding, Reconcile(db, q).0.authority.memberships, q.nowMs);
  }

  // ---------- what a run leaves alone ----------

  lemma PointedAtIsNotIrregular(a: Authority, b: Binding, id: Identifier)
    requires Plannable(a, b) && id in a.memberships
    ensures a.memberships[id].league in Live(a) && a.leagues[a.memberships[id].league].pointer == Some(id) ==>
              !Irregular(a, id)
  {
  }

  /**
   * A membership changes only if it is a surplus commissioner or an irregular administrator of a
   * live league, and even then it keeps its league, user, status and creation; the commissioner
   * a league points at is left exactly as it was.
   */
  lemma RestIsUntouched(db: Database, q: Arguments, id: Identifier)
    requires id in db.authority.memberships && ArgumentsValid(q)
    ensures
      var a, ms := db.authority, Reconcile(db, q).0.authority.memberships;
      var m := a.memberships[id];
      && id in ms
      && (ms[id] != m ==> Surplus(a, id) || Irregular(a, id))
      && ms[id].league == m.league && ms[id].user == m.user && ms[id].status == m.status && ms[id].created == m.created
      && (m.league in Live(a) && a.leagues[m.league].pointer == Some(id) ==> ms[id] == m)
  {
    var a := db.authority;
    if Reconcile(db, q).1.Completed? && IsFirstRun(db, q) {
      FirstRunCompletesExactly(db, q);
      PointedAtIsNotIrregular(a, q.binding, id);
      hide Reconcile, Plannable, Irregular, DemotionFor, NormalizationFor, IsProvision;
    } else {
      hide PlanOf, Execute, Clean, Surplus, Irregular;
      if IsFirstRun(db, q) { FirstRunCompletesExactly(db, q); }
    }
  }

  ghost predicate Constraints(a: Authority) {
    && OneActivePerUser(a.memberships) && LeaguesExist(a)
    && forall id :: id in a.memberships ==> RowValid(a.memberships[id])
  }

  lemma UnlessFirstUnwritten(db: Database, q: Arguments)
    requires !(IsFirstRun(db, q) && Reconcile(db, q).1.Completed?)
    ensures Reconcile(db, q).0 == db
  {
  }

  lemma RowAfterIsValid(a: Authority, id: Identifier, now: int)
    requires id in a.memberships && RowValid(a.memberships[id]) && now >= 0
    ensures RowValid(RowAfter(a, id, now)) && RowAfter(a, id, now).league == a.memberships[id].league
  {
  }

  lemma ActiveAfter(a: Authority, b: Binding, ms: Memberships, now: int, id: Identifier, id': Identifier)
    requires Reconciled(a, b, ms, now) && OneActivePerUser(a.memberships)
    requires id in ms && id' in ms && ms[id].status == Active && ms[id'].status == Active
    requires ms[id].league == ms[id'].league && ms[id].user == ms[id'].user
    ensures id == id'
  {
  }

  lemma ConstraintsAfter(a: Authority, b: Binding, ms: Memberships, now: int)
    requires Reconciled(a, b, ms, now) && Constraints(a) && now >= 0
    ensures Constraints(a.(memberships := ms))
  {
    forall id | id in ms ensures RowValid(ms[id]) && ms[id].league in a.leagues {
      hide Canonical, HasActive, CurrentAssignments, OneActivePerUser;
      if id in a.memberships { RowAfterIsValid(a, id, now); }
    }
    forall id, id' | id in ms && id' in ms && ms[id].status == Active && ms[id'].status == Active
                     && ms[id].league == ms[id'].league && ms[id].user == ms[id'].user
      ensures id == id'
    {
      hide RowValid, LeaguesExist;
      ActiveAfter(a, b, ms, now, id, id');
    }
    hide RowValid, Reconciled;
  }

  /** The unique index, the foreign keys and the value constraints hold after a run if they held before. */
  lemma ConstraintsAreKept(db: Database, q: Arguments)
    requires ArgumentsValid(q) && Constraints(db.authority)
    ensures Constraints(Reconcile(db, q).0.authority)
  {
    if IsFirstRun(db, q) && Reconcile(db, q).1.Completed? {
      FirstRunCompletesExactly(db, q);
      hide Reconcile, Reconciled, Constraints, InOrder;
      ConstraintsAfter(db.authority, q.binding, Reconcile(db, q).0.authority.memberships, q.nowMs);
    } else {
      hide PlanOf, Execute, Clean, Constraints, ReadAuditReplay;
      UnlessFirstUnwritten(db, q);
    }
  }

  // ---------- running it again ----------

  lemma CompletedIsClean(db: Database, q: Arguments)
    requires Reconcile(db, q).1.Completed?
    ensures Clean(Reconcile(db, q).0.authority)
  {
    hide Clean, PlanOf, Rewritten, ReportOf, EventOf, ReadAuditReplay;
  }

  lemma RecordIsReplayable(db: Database, q: Arguments)
    requires IsFirstRun(db, q) && Reconcile(db, q).1.Completed?
    requires IsSafe(Reconcile(db, q).1.report.totalChangeCount)
    ensures
      var (db', outcome) := Reconcile(db, q);
      ReadAuditReplay(db', q.binding, AuditId(q.binding.databaseId, q.binding.releaseId)) == Ok(Some(outcome.report))
  {
    hide Clean, PlanOf, Rewritten, Preview, MutationCount;
  }

  /** A second run of the same release writes nothing and answers with the stored report. */
  lemma SecondRunReplays(db: Database, q: Arguments, again: Arguments)
    requires IsFirstRun(db, q) && Reconcile(db, q).1.Completed?
    requires ArgumentsValid(again) && again.binding == q.binding
    requires IsSafe(Reconcile(db, q).1.report.totalChangeCount)
    ensures
      var (db', outcome) := Reconcile(db, q);
      Reconcile(db', again) == (db', Completed(outcome.report, true, 0))
  {
    ChangesAreAccounted(db, q);
    RecordIsReplayable(db, q);
    CompletedIsClean(db, q);
    hide Replayable, Clean, PlanOf, Rewritten, ReportOf, EventOf, ChangedRows, ReadAuditReplay;
  }

  /** A replay writes nothing, and answers exactly when the authority is still in order. */
  lemma ReplayAnswersExactlyWhileInOrder(db: Database, q: Arguments)
    requires ArgumentsValid(q)
    requires ReadAuditReplay(db, q.binding, AuditId(q.binding.databaseId, q.binding.releaseId)).Ok?
             && !IsFirstRun(db, q)
    ensures Reconcile(db, q).0 == db
    ensures Reconcile(db, q).1.Completed? <==> InOrder(db.authority)
  {
    NoMutationExactlyInOrder(db.authority);
    hide InOrder, Preview, Replayable, PlanOf;
  }

  lemma InOrderIsPlannable(a: Authority, b: Binding)
    requires InOrder(a) && OneActivePerUser(a.memberships)
    requires forall l :: l in a.leagues && a.leagues[l].deleted ==> |Commissioners(a.memberships, l)| <= 1
    ensures Plannable(a, b)
  {
    TransfersInOrder(a);
    hide Preview, TransfersOf;
    assert NoAdministratorCommissions(a) by {
      forall id | id in a.memberships && a.memberships[id].league in Live(a)
                  && Commissions(a.memberships[id], a.memberships[id].league)
        ensures a.memberships[id].user !in a.administrators
      {
        var m := a.memberships[id];
        assert m.user in a.administrators ==> Covered(a, m.league, m.user);
        assert IsActive(m, m.league, m.user);
      }
    }
    forall l | l in Live(a) ensures LeagueProblem(a, l).None? {
      assert OneCommissioner(a, l);
      var pointer := a.leagues[l].pointer.value;
      assert pointer in Commissioners(a.memberships, l);
    }
    forall l, u | l in Live(a) && u in a.administrators ensures CoverageProblem(a, b, (l, u)).None? {
      assert Covered(a, l, u);
      NoneActive(a.memberships, l, u);
      AtMostOne(ActiveOf(a.memberships, l, u));
    }
  }

  lemma NothingToWrite(a: Authority, b: Binding)
    requires InOrder(a)
    ensures PlannedFor(a, b) == Plan(map[], map[], map[])
  {
    ProvisionsAreTheUncovered(a, b);
    forall id | id in a.memberships ensures !Surplus(a, id) && !Irregular(a, id) {
      var m := a.memberships[id];
      if m.league in Live(a) {
        assert OneCommissioner(a, m.league);
        assert id in Commissioners(a.memberships, m.league) <==> Commissions(m, m.league);
        if m.user in a.administrators && m.status == Active {
          assert Covered(a, m.league, m.user) && IsActive(m, m.league, m.user);
        }
      }
    }
    forall id ensures !IsProvision(a, b, id) {
      if id.AdministratorMembership? && id.leagueId in Live(a) && id.userId in a.administrators {
        assert Covered(a, id.leagueId, id.userId);
      }
    }
    hide Surplus, Irregular, IsProvision, InOrder, ProvisionsOf, HasActive;
    assert DemotionsOf(a) == map[] && NormalizationsOf(a) == map[];
  }

  /** Authority in order has nothing to reconcile, under any release. */
  lemma InOrderPlansNothing(a: Authority, b: Binding)
    requires InOrder(a) && OneActivePerUser(a.memberships)
    requires forall l :: l in a.leagues && a.leagues[l].deleted ==> |Commissioners(a.memberships, l)| <= 1
    ensures PlanOf(a, b) == Ok(Plan(map[], map[], map[]))
  {
    NothingToWrite(a, b);
    PlanSucceedsExactly(a, b);
    InOrderIsPlannable(a, b);
    hide PlanOf, Plannable, PlannedFor, InOrder, OneActivePerUser, Commissioners;
  }

  lemma DeletedLeagueKept(a: Authority, b: Binding, ms: Memberships, now: int, l: Id)
    requires Reconciled(a, b, ms, now) && l !in Live(a)
    ensures Commissioners(ms, l) == Commissioners(a.memberships, l)
  {
  }

  /** A run under another release, straight after a completed one, plans no change of authority. */
  lemma NextReleasePlansNothing(db: Database, q: Arguments, next: Binding)
    requires IsFirstRun(db, q) && Reconcile(db, q).1.Completed?
    requires OneActivePerUser(db.authority.memberships)
    ensures PlanOf(Reconcile(db, q).0.authority, next) == Ok(Plan(map[], map[], map[]))
  {
    FirstRunCompletesExactly(db, q);
    var a, b, ms := db.authority, q.binding, Reconcile(db, q).0.authority.memberships;
    hide Reconcile, InOrder, PlanOf;
    forall id, id' | id in ms && id' in ms && ms[id].status == Active && ms[id'].status == Active
                     && ms[id].league == ms[id'].league && ms[id].user == ms[id'].user
      ensures id == id'
    {
      ActiveAfter(a, b, ms, q.nowMs, id, id');
    }
    forall l | l in a.leagues && a.leagues[l].deleted ensures Commissioners(ms, l) == Commissioners(a.memberships, l) {
      DeletedLeagueKept(a, b, ms, q.nowMs, l);
    }
    hide Reconciled, Commissioners, OneActivePerUser;
    InOrderPlansNothing(a.(memberships := ms), next);
  }

  // ---------- the schema migration that waits for it ----------

  /** The three counts that the migration to schema 54 demands to be zero. */
  ghost predicate MigrationPreflight(a: Authority) {
    && (forall l :: |Commissioners(a.memberships, l)| <= 1)
    && (forall l, u :: l in Live(a) && u in a.administrators ==> HasActive(a.memberships, l, u))
    && (forall id :: id in a.memberships && a.memberships[id].league in Live(a) && a.memberships[id].status == Active
                     && a.memberships[id].user in a.administrators ==>
                       a.memberships[id].category == Member)
  }

  lemma FewCommissionersAfter(a: Authority, b: Binding, ms: Memberships, now: int, l: Id)
    requires Plannable(a, b) && Reconciled(a, b, ms, now) && InOrder(a.(memberships := ms)) && LeaguesExist(a)
    ensures |Commissioners(ms, l)| <= 1
  {
    hide Reconciled, Covered;
    if l in Live(a) {
      assert OneCommissioner(a.(memberships := ms), l);
    } else {
      DeletedLeagueKept(a, b, ms, now, l);
      if l !in a.leagues { assert Commissioners(a.memberships, l) == {}; }
    }
  }

  lemma PreflightOf(a: Authority)
    requires InOrder(a) && forall l :: |Commissioners(a.memberships, l)| <= 1
    ensures MigrationPreflight(a)
  {
  }

  /** A completed reconciliation leaves a database the migration accepts, deleted leagues included. */
  lemma ReconciliationUnblocksMigration(db: Database, q: Arguments)
    requires IsFirstRun(db, q) && Reconcile(db, q).1.Completed? && LeaguesExist(db.authority)
    ensures MigrationPreflight(Reconcile(db, q).0.authority)
  {
    FirstRunCompletesExactly(db, q);
    var a, ms := db.authority, Reconcile(db, q).0.authority.memberships;
    hide Reconcile, Reconciled, InOrder, MigrationPreflight;
    forall l ensures |Commissioners(ms, l)| <= 1 {
      hide Plannable, LeaguesExist;
      FewCommissionersAfter(a, q.binding, ms, q.nowMs, l);
    }
    PreflightOf(a.(memberships := ms));
  }
}

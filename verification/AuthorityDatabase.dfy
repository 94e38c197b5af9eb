/** The reconciliation as it runs: plan lists filled in loops, rows written one by one, changes counted. */
module AuthorityDatabase {
  import opened Collections
  import opened AuthorityPreview
  import opened AuthorityReconciliation

  // ---------- planning ----------

  lemma {:induction false} FirstProblemPersists<T>(items: seq<T>, i: nat, check: T -> Option<Failure>)
    requires i <= |items| && FirstProblem(items[..i], check).Some?
    ensures FirstProblem(items, check) == FirstProblem(items[..i], check)
    decreases |items|
  {
    if i == |items| {
      assert items[..i] == items;
    } else {
      var n := |items| - 1;
      assert items[..n][..i] == items[..i];
      FirstProblemPersists(items[..n], i, check);
    }
  }

  lemma FirstProblemStep<T>(items: seq<T>, i: nat, check: T -> Option<Failure>)
    requires i < |items| && FirstProblem(items[..i], check) == None
    ensures FirstProblem(items[..i + 1], check) == check(items[i])
    ensures check(items[i]).Some? ==> FirstProblem(items, check) == check(items[i])
  {
    assert items[..i + 1][..i] == items[..i];
    if check(items[i]).Some? { FirstProblemPersists(items, i + 1, check); }
  }

  /** Checks the pointer of every live league, in order, up to the first problem. */
  method CheckLeagues(a: Authority) returns (problem: Option<Failure>)
    ensures problem == FirstProblem(Ordered(Live(a)), LeagueCheck(a))
  {
    var leagues := Ordered(Live(a));
    ghost var check := LeagueCheck(a);
    assert forall l :: l in leagues ==> l in a.leagues;
    hide LeagueProblem, Ordered, Live;
    for i := 0 to |leagues|
      invariant FirstProblem(leagues[..i], check) == None
    {
      var l := leagues[i];
      FirstProblemStep(leagues, i, check);
      problem := LeagueProblem(a, l);
      if problem.Some? { return; }
    }
    assert leagues[..|leagues|] == leagues;
    problem := None;
  }

  /** Plans the demotion of every surplus commissioner, league by league. */
  method CollectDemotions(a: Authority) returns (demotions: map<Identifier, Demotion>)
    ensures demotions == DemotionsOf(a)
  {
    hide DemotionFor, Ordered;
    var leagues, ms := Ordered(Live(a)), a.memberships;
    demotions := map[];
    for i := 0 to |leagues|
      invariant forall id :: id in demotions <==> id in ms && Surplus(a, id) && ms[id].league in leagues[..i]
      invariant forall id :: id in demotions ==> demotions[id] == DemotionFor(a, id)
    {
      var l := leagues[i];
      assert l in Live(a);
      var todo := Commissioners(ms, l);
      assert leagues[..i + 1] == leagues[..i] + [l];
      while todo != {}
        invariant todo <= Commissioners(ms, l)
        invariant forall id :: id in demotions <==>
                                 id in ms && Surplus(a, id)
                                 && (ms[id].league in leagues[..i] || (ms[id].league == l && id !in todo))
        invariant forall id :: id in demotions ==> demotions[id] == DemotionFor(a, id)
      {
        var id :| id in todo;
        if Some(id) != a.leagues[l].pointer { demotions := demotions[id := DemotionFor(a, id)]; }
        todo := todo - {id};
      }
    }
    assert leagues[..|leagues|] == leagues;
  }

  /** The plan of one pair of a live league and an administrator, added to those planned so far. */
  ghost predicate PairsPlanned(a: Authority, b: Binding, pairs: seq<(Id, Id)>, provisions: map<Identifier, Provision>,
                               normalizations: map<Identifier, Normalization>)
  {
    && provisions == ProvisionsOf(b, Uncovered(a, set p | p in pairs))
    && (forall id :: id in normalizations <==>
                       id in a.memberships && Irregular(a, id)
                       && (a.memberships[id].league, a.memberships[id].user) in pairs)
    && (forall id :: id in normalizations ==> normalizations[id] == NormalizationFor(a, id))
  }

  lemma PairProvisioned(a: Authority, b: Binding, pairs: seq<(Id, Id)>, p: (Id, Id),
                        provisions: map<Identifier, Provision>, normalizations: map<Identifier, Normalization>)
    requires PairsPlanned(a, b, pairs, provisions, normalizations) && !HasActive(a.memberships, p.0, p.1)
    ensures PairsPlanned(a, b, pairs + [p],
                         provisions[AdministratorMembership(b.databaseId, b.releaseId, p.0, p.1)
                                    := Provision(p.0, p.1)],
                         normalizations)
  {
  }

  lemma PairNormalized(a: Authority, b: Binding, pairs: seq<(Id, Id)>, p: (Id, Id),
                       provisions: map<Identifier, Provision>, normalizations: map<Identifier, Normalization>,
                       id: Identifier)
    requires PairsPlanned(a, b, pairs, provisions, normalizations)
    requires id in a.memberships && ActiveOf(a.memberships, p.0, p.1) == {id}
    requires p.0 in Live(a) && p.1 in a.administrators
    ensures PairsPlanned(a, b, pairs + [p], provisions,
                         if Canonical(a.memberships[id]) then normalizations
                         else normalizations[id := NormalizationFor(a, id)])
  {
    hide NormalizationFor, Canonical, Live, ProvisionsOf;
    assert id in ActiveOf(a.memberships, p.0, p.1);
    assert Uncovered(a, set x | x in pairs + [p]) == Uncovered(a, set x | x in pairs);
    hide Uncovered, HasActive;
    forall id' | id' in a.memberships && Irregular(a, id')
      ensures (a.memberships[id'].league, a.memberships[id'].user) == p <==> id' == id
    {
      assert id' in ActiveOf(a.memberships, p.0, p.1) <==> (a.memberships[id'].league, a.memberships[id'].user) == p;
    }
  }

  lemma ActiveAreStored(ms: Memberships, l: Id, u: Id, id: Identifier)
    requires id in ActiveOf(ms, l, u)
    ensures id in ms
  {
  }

  /** Plans what one pair needs, unless there is a problem with it. */
  method PlanPair(a: Authority, b: Binding, pairs: seq<(Id, Id)>, j: nat,
                  provisions: map<Identifier, Provision>, normalizations: map<Identifier, Normalization>)
    returns (problem: Option<Failure>, provisions': map<Identifier, Provision>,
             normalizations': map<Identifier, Normalization>)
    requires j < |pairs| && PairsPlanned(a, b, pairs[..j], provisions, normalizations)
    requires pairs[j].0 in Live(a) && pairs[j].1 in a.administrators
    ensures problem == CoverageProblem(a, b, pairs[j])
    ensures problem.None? ==> PairsPlanned(a, b, pairs[..j + 1], provisions', normalizations')
  {
    var p := pairs[j];
    assert pairs[..j + 1] == pairs[..j] + [p];
    hide PairsPlanned, HasActive, Canonical, NormalizationFor, Live, ActiveOf;
    var ms, active := a.memberships, ActiveOf(a.memberships, p.0, p.1);
    provisions', normalizations' := provisions, normalizations;
    NoneActive(ms, p.0, p.1);
    if |active| > 1 { return Some(AdministratorMembershipDuplicate), provisions', normalizations'; }
    if active == {} {
      if |MembershipsOf(ms, p.0, p.1)| > 1 { return Some(AdministratorHistoryAmbiguous), provisions', normalizations'; }
      var id := AdministratorMembership(b.databaseId, b.releaseId, p.0, p.1);
      if id in ms { return Some(DeterministicIdConflict), provisions', normalizations'; }
      PairProvisioned(a, b, pairs[..j], p, provisions, normalizations);
      provisions' := provisions[id := Provision(p.0, p.1)];
    } else {
      var id :| id in active;
      SingletonsOnly(active, id);
      assert id in ms by { ActiveAreStored(ms, p.0, p.1, id); }
      PairNormalized(a, b, pairs[..j], p, provisions, normalizations, id);
      if !Canonical(ms[id]) { normalizations' := normalizations[id := NormalizationFor(a, id)]; }
    }
    problem := None;
  }

  lemma NoPairsPlanned(a: Authority, b: Binding)
    ensures PairsPlanned(a, b, [], map[], map[])
  {
  }

  lemma Checked(a: Authority, b: Binding, p: (Id, Id))
    ensures CoverageCheck(a, b)(p) == CoverageProblem(a, b, p)
  {
  }

  lemma PairIsCovered(a: Authority, p: (Id, Id))
    ensures p in CoveragePairs(a) <==> p.0 in Live(a) && p.1 in a.administrators
  {
  }

  lemma AllPairsPlanned(a: Authority, b: Binding, provisions: map<Identifier, Provision>,
                        normalizations: map<Identifier, Normalization>)
    requires PairsPlanned(a, b, CoveragePairs(a), provisions, normalizations)
    ensures provisions == ProvisionsOf(b, Uncovered(a, set p | p in CoveragePairs(a)))
    ensures normalizations == NormalizationsOf(a)
  {
  }

  /** Plans a membership, or its correction, for every pair in turn, up to the first problem. */
  method CollectCoverage(a: Authority, b: Binding)
    returns (problem: Option<Failure>, provisions: map<Identifier, Provision>,
             normalizations: map<Identifier, Normalization>)
    ensures problem == FirstProblem(CoveragePairs(a), CoverageCheck(a, b))
    ensures problem.None? ==>
              provisions == ProvisionsOf(b, Uncovered(a, set p | p in CoveragePairs(a)))
              && normalizations == NormalizationsOf(a)
  {
    var pairs := CoveragePairs(a);
    ghost var check := CoverageCheck(a, b);
    assert FirstProblem(pairs[..0], check) == None;
    hide CoveragePairs, Live, CoverageProblem, PairsPlanned, FirstProblem, ProvisionsOf, Uncovered,
      NormalizationsOf, CoverageCheck;
    provisions, normalizations := map[], map[];
    NoPairsPlanned(a, b);
    for j := 0 to |pairs|
      invariant FirstProblem(pairs[..j], check) == None
      invariant PairsPlanned(a, b, pairs[..j], provisions, normalizations)
    {
      FirstProblemStep(pairs, j, check);
      PairIsCovered(a, pairs[j]);
      Checked(a, b, pairs[j]);
      problem, provisions, normalizations := PlanPair(a, b, pairs, j, provisions, normalizations);
      if problem.Some? { return; }
    }
    assert pairs[..|pairs|] == pairs;
    AllPairsPlanned(a, b, provisions, normalizations);
    problem := None;
  }

  /** Plans a whole reconciliation, or names the first problem that stands in its way. */
  method CollectPlan(a: Authority, b: Binding) returns (r: Result<Plan, Failure>)
    ensures r == PlanOf(a, b)
  {
    hide Live, Commissioners, DemotionsOf, ProvisionsOf, NormalizationsOf, CoveragePairs, FirstProblem, Ordered,
      Preview;
    if exists l | l in a.leagues :: a.leagues[l].deleted && |Commissioners(a.memberships, l)| > 1 {
      return Err(DeletedLeagueCommissionersDuplicate);
    }
    if Preview(a).duplicateTransfers != {} { return Err(PendingTransfersAmbiguous); }
    var problem := CheckLeagues(a);
    if problem.Some? { return Err(problem.value); }
    if exists id | id in a.memberships ::
         && a.memberships[id].league in Live(a) && Commissions(a.memberships[id], a.memberships[id].league)
         && a.memberships[id].user in a.administrators
    {
      return Err(AdministratorCommissioner);
    }
    var demotions := CollectDemotions(a);
    var provisions, normalizations;
    problem, provisions, normalizations := CollectCoverage(a, b);
    if problem.Some? { return Err(problem.value); }
    return Ok(Plan(demotions, provisions, normalizations));
  }

  // ---------- writing ----------

  lemma ReportCounts(a: Authority, a': Authority, q: Arguments, plan: Plan, auditEventId: Identifier)
    ensures ReportOf(a, a', q, plan, auditEventId).totalChangeCount == MutationCount(plan) + 1
  {
  }

  lemma DemotionReadsOneRow(was: Memberships, ms: Memberships, id: Identifier, d: Demotion)
    requires (id in was <==> id in ms) && (id in was ==> was[id] == ms[id])
    ensures DemotionMatches(was, id, d) <==> DemotionMatches(ms, id, d)
    ensures DemotionMatches(ms, id, d) ==> id in ms
  {
  }

  lemma NormalizationReadsOneRow(was: Memberships, ms: Memberships, id: Identifier, n: Normalization)
    requires (id in was <==> id in ms) && (id in was ==> was[id] == ms[id])
    ensures NormalizationMatches(was, id, n) <==> NormalizationMatches(ms, id, n)
    ensures NormalizationMatches(ms, id, n) ==> id in ms
  {
  }

  /** The table with some of the planned memberships inserted. */
  ghost function AfterSome(ms: Memberships, provisions: map<Identifier, Provision>, done: set<Identifier>, now: int)
    : Memberships
    requires done <= provisions.Keys
  {
    ms + map id | id in done :: Provisioned(provisions[id], now)
  }

  ghost predicate SomeFit(ms: Memberships, provisions: map<Identifier, Provision>, done: set<Identifier>)
    requires done <= provisions.Keys
  {
    && (forall id :: id in done ==> id !in ms && !HasActive(ms, provisions[id].league, provisions[id].user))
    && (forall id, id' :: id in done && id' in done && provisions[id] == provisions[id'] ==> id == id')
  }

  lemma NoneInserted(ms: Memberships, provisions: map<Identifier, Provision>, now: int)
    ensures SomeFit(ms, provisions, {}) && AfterSome(ms, provisions, {}, now) == ms
  {
  }

  lemma ActiveAfterSome(ms: Memberships, provisions: map<Identifier, Provision>, done: set<Identifier>, now: int,
                        p: Provision)
    requires done <= provisions.Keys && SomeFit(ms, provisions, done)
    ensures HasActive(AfterSome(ms, provisions, done, now), p.league, p.user) <==>
              HasActive(ms, p.league, p.user) || exists id :: id in done && provisions[id] == p
  {
  }

  lemma OneMoreFits(ms: Memberships, provisions: map<Identifier, Provision>, done: set<Identifier>, id: Identifier)
    requires done <= provisions.Keys && id in provisions && id !in done && SomeFit(ms, provisions, done)
    ensures SomeFit(ms, provisions, done + {id}) <==>
              id !in ms && !HasActive(ms, provisions[id].league, provisions[id].user)
              && !exists id' :: id' in done && provisions[id'] == provisions[id]
    ensures ProvisionsFit(ms, provisions) ==> SomeFit(ms, provisions, done + {id})
  {
  }

  lemma OneMoreInserted(ms: Memberships, provisions: map<Identifier, Provision>, done: set<Identifier>, id: Identifier,
                        now: int)
    requires done <= provisions.Keys && id in provisions
    ensures AfterSome(ms, provisions, done, now)[id := Provisioned(provisions[id], now)]
            == AfterSome(ms, provisions, done + {id}, now)
    ensures id !in done ==> (id in AfterSome(ms, provisions, done, now) <==> id in ms)
  {
  }

  lemma InsertOneMore(ms: Memberships, provisions: map<Identifier, Provision>, done: set<Identifier>, id: Identifier,
                      now: int)
    requires done <= provisions.Keys && id in provisions && id !in done && SomeFit(ms, provisions, done)
    ensures
      var now' := AfterSome(ms, provisions, done, now);
      var p := provisions[id];
      && (id !in now' && !HasActive(now', p.league, p.user) ==> SomeFit(ms, provisions, done + {id}))
      && now'[id := Provisioned(p, now)] == AfterSome(ms, provisions, done + {id}, now)
      && (id in now' || HasActive(now', p.league, p.user) ==> !ProvisionsFit(ms, provisions))
  {
    hide HasActive, Provisioned, SomeFit, ProvisionsFit, AfterSome;
    ActiveAfterSome(ms, provisions, done, now, provisions[id]);
    OneMoreFits(ms, provisions, done, id);
    OneMoreInserted(ms, provisions, done, id, now);
  }

  lemma AllInserted(ms: Memberships, provisions: map<Identifier, Provision>, now: int)
    requires SomeFit(ms, provisions, provisions.Keys)
    ensures ProvisionsFit(ms, provisions)
    ensures AfterSome(ms, provisions, provisions.Keys, now) == AfterProvisions(ms, provisions, now)
  {
  }

  /** An open database. `totalChanges` counts the rows its statements have written. */
  class AuthorityConnection {
    var db: Database
    var totalChanges: nat

    /** One row written to the membership table. */
    method Put(id: Identifier, m: Membership)
      modifies this
      ensures db == old(db).(authority := old(db).authority.(memberships := old(db).authority.memberships[id := m]))
      ensures totalChanges == old(totalChanges) + 1
    {
      db := db.(authority := db.authority.(memberships := db.authority.memberships[id := m]));
      totalChanges := totalChanges + 1;
    }

    /** Demotes the planned commissioners one by one; a row that is not as planned stops the loop. */
    method DemoteAll(demotions: map<Identifier, Demotion>, now: int) returns (ok: bool)
      modifies this
      ensures ok <==> DemotionsMatch(old(db).authority.memberships, demotions)
      ensures ok ==>
                var was := old(db).authority.memberships;
                && db == old(db).(authority := old(db).authority.(memberships := AfterDemotions(was, demotions, now)))
                && totalChanges == old(totalChanges) + |demotions|
    {
      hide DemotionMatches, Demoted;
      ghost var was := db.authority.memberships;
      var todo := demotions.Keys;
      while todo != {}
        invariant todo <= demotions.Keys && totalChanges + |todo| == old(totalChanges) + |demotions.Keys|
        invariant db == old(db).(authority := old(db).authority.(memberships := db.authority.memberships))
        invariant db.authority.memberships.Keys == was.Keys
        invariant forall id :: id in demotions && id !in todo ==> DemotionMatches(was, id, demotions[id])
        invariant forall id :: id in was ==>
                                 db.authority.memberships[id] ==
                                 if id in demotions && id !in todo then Demoted(was[id], demotions[id], now)
                                 else was[id]
      {
        var id :| id in todo;
        DemotionReadsOneRow(was, db.authority.memberships, id, demotions[id]);
        if !DemotionMatches(db.authority.memberships, id, demotions[id]) { return false; }
        Put(id, Demoted(db.authority.memberships[id], demotions[id], now));
        todo := todo - {id};
      }
      assert db.authority.memberships == AfterDemotions(was, demotions, now);
      ok := true;
    }

    /** Inserts the planned memberships one by one; a taken key or a second active membership stops the loop. */
    method InsertAll(provisions: map<Identifier, Provision>, now: int) returns (ok: bool)
      modifies this
      ensures ok <==> ProvisionsFit(old(db).authority.memberships, provisions)
      ensures ok ==>
                var was := old(db).authority.memberships;
                && db == old(db).(authority := old(db).authority.(memberships := AfterProvisions(was, provisions, now)))
                && totalChanges == old(totalChanges) + |provisions|
    {
      ghost var was := db.authority.memberships;
      var todo := provisions.Keys;
      ghost var done: set<Identifier> := {};
      NoneInserted(was, provisions, now);
      hide HasActive, SomeFit, AfterSome, ProvisionsFit, AfterProvisions, Provisioned;
      while todo != {}
        invariant todo <= provisions.Keys && done == provisions.Keys - todo
        invariant totalChanges + |todo| == old(totalChanges) + |provisions.Keys|
        invariant db == old(db).(authority := old(db).authority.(memberships := db.authority.memberships))
        invariant db.authority.memberships == AfterSome(was, provisions, done, now)
        invariant SomeFit(was, provisions, done)
      {
        var id :| id in todo;
        InsertOneMore(was, provisions, done, id, now);
        if id in db.authority.memberships
           || HasActive(db.authority.memberships, provisions[id].league, provisions[id].user) { return false; }
        Put(id, Provisioned(provisions[id], now));
        todo, done := todo - {id}, done + {id};
      }
      assert done == provisions.Keys;
      AllInserted(was, provisions, now);
      ok := true;
    }

    /** Normalizes the planned memberships one by one; a row that is not as planned stops the loop. */
    method NormalizeAll(normalizations: map<Identifier, Normalization>, now: int) returns (ok: bool)
      modifies this
      ensures ok <==> NormalizationsMatch(old(db).authority.memberships, normalizations)
      ensures ok ==>
                var was := old(db).authority.memberships;
                && db == old(db).(authority := old(db).authority.(memberships :=
                                                                    AfterNormalizations(was, normalizations, now)))
                && totalChanges == old(totalChanges) + |normalizations|
    {
      hide NormalizationMatches, Normalized;
      ghost var was := db.authority.memberships;
      var todo := normalizations.Keys;
      while todo != {}
        invariant todo <= normalizations.Keys && totalChanges + |todo| == old(totalChanges) + |normalizations.Keys|
        invariant db == old(db).(authority := old(db).authority.(memberships := db.authority.memberships))
        invariant db.authority.memberships.Keys == was.Keys
        invariant forall id :: id in normalizations && id !in todo ==> NormalizationMatches(was, id, normalizations[id])
        invariant forall id :: id in was ==>
                                 db.authority.memberships[id] ==
                                 if id in normalizations && id !in todo
                                   then Normalized(was[id], normalizations[id], now)
                                 else was[id]
      {
        var id :| id in todo;
        NormalizationReadsOneRow(was, db.authority.memberships, id, normalizations[id]);
        if !NormalizationMatches(db.authority.memberships, id, normalizations[id]) { return false; }
        Put(id, Normalized(db.authority.memberships[id], normalizations[id], now));
        todo := todo - {id};
      }
      assert db.authority.memberships == AfterNormalizations(was, normalizations, now);
      ok := true;
    }

    /** Writes a plan in three loops and checks the result. */
    method WritePlan(plan: Plan, now: int) returns (failure: Option<Failure>)
      modifies this
      ensures
        var was := old(db).authority.memberships;
        match Rewritten(was, plan, now)
        case Err(e) => failure == Some(e)
        case Ok(ms) =>
          && db == old(db).(authority := old(db).authority.(memberships := ms))
          && totalChanges == old(totalChanges) + MutationCount(plan)
          && failure == if Clean(db.authority) then None else Some(PostcheckFailed)
    {
      hide DemotionsMatch, ProvisionsFit, NormalizationsMatch, AfterDemotions, AfterProvisions, AfterNormalizations,
        Clean;
      var ok := DemoteAll(plan.demotions, now);
      if !ok { return Some(PostcheckFailed); }
      ok := InsertAll(plan.provisions, now);
      if !ok { return Some(ConstraintFailed); }
      ok := NormalizeAll(plan.normalizations, now);
      if !ok { return Some(PostcheckFailed); }
      failure := if Clean(db.authority) then None else Some(PostcheckFailed);
    }

    /** A first run of a release under its plan: all of its writes are kept, or none. */
    method Execute(q: Arguments, plan: Plan, auditEventId: Identifier) returns (outcome: Outcome)
      requires auditEventId !in db.audit
      modifies this
      ensures (db, outcome) == AuthorityReconciliation.Execute(old(db), q, plan, auditEventId)
      ensures outcome.Completed? ==> totalChanges == old(totalChanges) + outcome.changesThisRun
    {
      hide Rewritten, Clean, ReportOf, EventOf, MutationCount;
      var saved, startChanges := db, totalChanges;
      var failure := WritePlan(plan, q.nowMs);
      if failure.Some? {
        db := saved;
        return Failed(failure.value);
      }
      var report := ReportOf(saved.authority, db.authority, q, plan, auditEventId);
      db := db.(audit := db.audit[auditEventId := EventOf(q, report)]);
      totalChanges := totalChanges + 1;
      ReportCounts(saved.authority, db.authority, q, plan, auditEventId);
      outcome := if totalChanges - startChanges != report.totalChangeCount then Failed(WriteCountMismatch)
                 else Completed(report, false, totalChanges - startChanges);
    }

    method Reconcile(q: Arguments) returns (outcome: Outcome)
      modifies this
      ensures (db, outcome) == AuthorityReconciliation.Reconcile(old(db), q)
      ensures outcome.Completed? ==> totalChanges == old(totalChanges) + outcome.changesThisRun
    {
      hide Clean, PlanOf, AuthorityReconciliation.Execute, Replayable;
      if !ArgumentsValid(q) { return Failed(ArgumentInvalid); }
      var auditEventId := AuditId(q.binding.databaseId, q.binding.releaseId);
      match ReadAuditReplay(db, q.binding, auditEventId) {
        case Err(e) => return Failed(e);
        case Ok(Some(report)) =>
          return if Clean(db.authority) then Completed(report, true, 0) else Failed(PostcheckFailed);
        case Ok(None) =>
          var plan := CollectPlan(db.authority, q.binding);
          if plan.Err? { return Failed(plan.error); }
          outcome := Execute(q, plan.value, auditEventId);
      }
    }
  }
}

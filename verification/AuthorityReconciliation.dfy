/** Planning a reconciliation of stored authority, writing it, and recording it in the audit log. */
module AuthorityReconciliation {
  import opened Collections
  import opened AuthorityPreview

  const CONTRACT_VERSION: int := 1
  const SUPPORTED_SCHEMA_VERSIONS: set<int> := {52, 53, 54}

  datatype Failure =
    | ArgumentInvalid | AuditConflict
    | DeletedLeagueCommissionersDuplicate | PendingTransfersAmbiguous | PointerInvalid | AdministratorCommissioner
    | AdministratorMembershipDuplicate | AdministratorHistoryAmbiguous | DeterministicIdConflict
    | PostcheckFailed | WriteCountMismatch | ConstraintFailed

  // ---------- planning ----------

  datatype Demotion = Demotion(league: Id, user: Id, category: Category, assignments: set<Id>,
                               version: int, minimumUpdated: int)

  datatype Provision = Provision(league: Id, user: Id)

  datatype Normalization = Normalization(league: Id, user: Id, previousCategory: Category, assignments: set<Id>,
                                         joined: Option<int>, created: int, version: int, minimumUpdated: int)

  datatype Plan = Plan(demotions: map<Identifier, Demotion>, provisions: map<Identifier, Provision>,
                       normalizations: map<Identifier, Normalization>)

  /** The database and the release that the deterministic identifiers are made from. */
  datatype Binding = Binding(databaseId: nat, environmentId: nat, releaseId: nat)

  predicate IsLeast(s: set<Id>, x: Id) {
    x in s && forall y | y in s :: x <= y
  }

  lemma LeastExists(s: set<Id>)
    requires s != {}
    ensures exists x :: IsLeast(s, x)
  {
    var x :| x in s;
    if s == {x} {
      assert IsLeast(s, x);
    } else {
      LeastExists(s - {x});
      var y :| IsLeast(s - {x}, y);
      assert forall z :: z in s ==> z == x || z in s - {x};
      assert IsLeast(s, if x < y then x else y);
    }
  }

  function Least(s: set<Id>): (x: Id)
    requires s != {}
    ensures IsLeast(s, x)
  {
    LeastExists(s);
    var x :| IsLeast(s, x);
    x
  }

  /** The members in increasing order. */
  function Ordered(s: set<Id>): (r: seq<Id>)
    ensures forall x :: x in r <==> x in s
    ensures forall i, j :: 0 <= i < j < |r| ==> r[i] < r[j]
  {
    if s == {} then [] else [Least(s)] + Ordered(s - {Least(s)})
  }

  /** Every pair of a league and an administrator, by league and then by user. */
  function Pairs(leagues: seq<Id>, users: seq<Id>): (r: seq<(Id, Id)>)
    ensures forall p :: p in r <==> p.0 in leagues && p.1 in users
  {
    if leagues == [] then []
    else
      var n := |leagues| - 1;
      var earlier := Pairs(leagues[..n], users);
      var last := seq(|users|, i requires 0 <= i < |users| => (leagues[n], users[i]));
      assert leagues == leagues[..n] + [leagues[n]];
      assert forall p :: p in last <==> p.0 == leagues[n] && p.1 in users by {
        forall u | u in users ensures (leagues[n], u) in last {
          var i :| 0 <= i < |users| && users[i] == u;
          assert last[i] == (leagues[n], u);
        }
      }
      earlier + last
  }

  /** The first problem that a check finds in a list. */
  function FirstProblem<T>(items: seq<T>, check: T -> Option<Failure>): Option<Failure> {
    if items == [] then None
    else
      var earlier := FirstProblem(items[..|items| - 1], check);
      if earlier.Some? then earlier else check(items[|items| - 1])
  }

  lemma {:induction false} NoProblemExactly<T>(items: seq<T>, check: T -> Option<Failure>)
    ensures FirstProblem(items, check).None? <==> forall x :: x in items ==> check(x).None?
  {
    if items != [] {
      NoProblemExactly(items[..|items| - 1], check);
      assert items == items[..|items| - 1] + [items[|items| - 1]];
    }
  }

  /** The league's pointer must name an active commissioner of that league who is no administrator. */
  function LeagueProblem(a: Authority, l: Id): Option<Failure>
    requires l in a.leagues
  {
    var pointer := a.leagues[l].pointer;
    if pointer.None? || pointer.value !in Commissioners(a.memberships, l) then Some(PointerInvalid)
    else if a.memberships[pointer.value].user in a.administrators then Some(AdministratorCommissioner)
    else None
  }

  function LeagueCheck(a: Authority): Id -> Option<Failure> {
    l => if l in a.leagues then LeagueProblem(a, l) else None
  }

  function MembershipsOf(ms: Memberships, l: Id, u: Id): set<Identifier> {
    set id | id in ms && ms[id].league == l && ms[id].user == u
  }

  function ActiveOf(ms: Memberships, l: Id, u: Id): set<Identifier> {
    set id | id in ms && IsActive(ms[id], l, u)
  }

  lemma NoneActive(ms: Memberships, l: Id, u: Id)
    ensures HasActive(ms, l, u) <==> ActiveOf(ms, l, u) != {}
  {
    if HasActive(ms, l, u) {
      var id :| id in ms && IsActive(ms[id], l, u);
      assert id in ActiveOf(ms, l, u);
    }
  }

  function CoverageProblem(a: Authority, b: Binding, p: (Id, Id)): Option<Failure> {
    var (l, u) := p;
    if |ActiveOf(a.memberships, l, u)| > 1 then Some(AdministratorMembershipDuplicate)
    else if ActiveOf(a.memberships, l, u) != {} then None
    else if |MembershipsOf(a.memberships, l, u)| > 1 then Some(AdministratorHistoryAmbiguous)
    else if AdministratorMembership(b.databaseId, b.releaseId, l, u) in a.memberships then Some(DeterministicIdConflict)
    else None
  }

  function CoverageCheck(a: Authority, b: Binding): ((Id, Id)) -> Option<Failure> {
    p => CoverageProblem(a, b, p)
  }

  function CurrentAssignments(a: Authority, id: Identifier, m: Membership): set<Id> {
    set i | i in a.assignments && a.assignments[i].league == m.league && a.assignments[i].user == m.user
            && a.assignments[i].membership == id && a.assignments[i].status == Accepted && a.assignments[i].ended.None?
  }

  function DemotionFor(a: Authority, id: Identifier): Demotion
    requires id in a.memberships
  {
    var m := a.memberships[id];
    var current := CurrentAssignments(a, id, m);
    Demotion(m.league, m.user, if current != {} then Manager else Member, current, m.version, Max(m.created, m.updated))
  }

  function NormalizationFor(a: Authority, id: Identifier): Normalization
    requires id in a.memberships
  {
    var m := a.memberships[id];
    Normalization(m.league, m.user, m.category, CurrentAssignments(a, id, m), m.joined, m.created, m.version,
                  Max(m.created, m.updated))
  }

  /** An active commissioner of a live league that the league does not point at. */
  predicate Surplus(a: Authority, id: Identifier)
    requires id in a.memberships
  {
    var m := a.memberships[id];
    m.league in Live(a) && Commissions(m, m.league) && Some(id) != a.leagues[m.league].pointer
  }

  predicate Irregular(a: Authority, id: Identifier)
    requires id in a.memberships
  {
    var m := a.memberships[id];
    m.league in Live(a) && m.user in a.administrators && m.status == Active && !Canonical(m)
  }

  function DemotionsOf(a: Authority): map<Identifier, Demotion> {
    map id | id in a.memberships && Surplus(a, id) :: DemotionFor(a, id)
  }

  function NormalizationsOf(a: Authority): map<Identifier, Normalization> {
    map id | id in a.memberships && Irregular(a, id) :: NormalizationFor(a, id)
  }

  /** Pairs of an administrator and a live league without an active membership. */
  function Uncovered(a: Authority, pairs: set<(Id, Id)>): set<(Id, Id)> {
    set p | p in pairs && !HasActive(a.memberships, p.0, p.1)
  }

  function ProvisionsOf(b: Binding, uncovered: set<(Id, Id)>): map<Identifier, Provision> {
    map p | p in uncovered :: AdministratorMembership(b.databaseId, b.releaseId, p.0, p.1) := Provision(p.0, p.1)
  }

  function CoveragePairs(a: Authority): seq<(Id, Id)> {
    Pairs(Ordered(Live(a)), Ordered(a.administrators))
  }

  function PlanOf(a: Authority, b: Binding): Result<Plan, Failure> {
    if exists l | l in a.leagues :: a.leagues[l].deleted && |Commissioners(a.memberships, l)| > 1 then
      Err(DeletedLeagueCommissionersDuplicate)
    else if Preview(a).duplicateTransfers != {} then Err(PendingTransfersAmbiguous)
    else
      match FirstProblem(Ordered(Live(a)), LeagueCheck(a))
      case Some(e) => Err(e)
      case None =>
        if exists id | id in a.memberships ::
             && a.memberships[id].league in Live(a) && Commissions(a.memberships[id], a.memberships[id].league)
             && a.memberships[id].user in a.administrators then Err(AdministratorCommissioner)
        else
          match FirstProblem(CoveragePairs(a), CoverageCheck(a, b))
          case Some(e) => Err(e)
          case None =>
            Ok(Plan(DemotionsOf(a), ProvisionsOf(b, Uncovered(a, set p | p in CoveragePairs(a))), NormalizationsOf(a)))
  }

  // ---------- writing ----------

  predicate DemotionMatches(ms: Memberships, id: Identifier, d: Demotion) {
    && id in ms && ms[id].league == d.league && ms[id].user == d.user
    && ms[id].category == Commissioner && ms[id].status == Active && ms[id].version == d.version
  }

  predicate NormalizationMatches(ms: Memberships, id: Identifier, n: Normalization) {
    && id in ms && ms[id].league == n.league && ms[id].user == n.user
    && ms[id].status == Active && ms[id].version == n.version
  }

  function Demoted(m: Membership, d: Demotion, now: int): Membership {
    m.(category := d.category, updated := Max(now, d.minimumUpdated), version := m.version + 1)
  }

  function Provisioned(p: Provision, now: int): Membership {
    Membership(p.league, p.user, Member, Active, Some(now), None, now, now, 1)
  }

  function Normalized(m: Membership, n: Normalization, now: int): Membership {
    m.(category := Member,
       joined := if m.joined.Some? then m.joined else if n.joined.Some? then n.joined else Some(n.created),
       ended := None, updated := Max(now, n.minimumUpdated), version := m.version + 1)
  }

  function AfterDemotions(ms: Memberships, demotions: map<Identifier, Demotion>, now: int): Memberships {
    map id | id in ms :: if id in demotions then Demoted(ms[id], demotions[id], now) else ms[id]
  }

  function AfterProvisions(ms: Memberships, provisions: map<Identifier, Provision>, now: int): Memberships {
    ms + map id | id in provisions :: Provisioned(provisions[id], now)
  }

  function AfterNormalizations(ms: Memberships, normalizations: map<Identifier, Normalization>, now: int): Memberships {
    map id | id in ms :: if id in normalizations then Normalized(ms[id], normalizations[id], now) else ms[id]
  }

  predicate DemotionsMatch(ms: Memberships, demotions: map<Identifier, Demotion>) {
    forall id | id in demotions :: DemotionMatches(ms, id, demotions[id])
  }

  /** Each new key is free and each new pair has no active membership, in the table or among the new rows. */
  predicate ProvisionsFit(ms: Memberships, provisions: map<Identifier, Provision>) {
    && (forall id | id in provisions :: id !in ms && !HasActive(ms, provisions[id].league, provisions[id].user))
    && (forall id, id' | id in provisions && id' in provisions :: provisions[id] == provisions[id'] ==> id == id')
  }

  predicate NormalizationsMatch(ms: Memberships, normalizations: map<Identifier, Normalization>) {
    forall id | id in normalizations :: NormalizationMatches(ms, id, normalizations[id])
  }

  /** The three write loops, or the failure of the one that stops. */
  function Rewritten(ms: Memberships, plan: Plan, now: int): Result<Memberships, Failure> {
    if !DemotionsMatch(ms, plan.demotions) then Err(PostcheckFailed)
    else
      var demoted := AfterDemotions(ms, plan.demotions, now);
      if !ProvisionsFit(demoted, plan.provisions) then Err(ConstraintFailed)
      else
        var provisioned := AfterProvisions(demoted, plan.provisions, now);
        if !NormalizationsMatch(provisioned, plan.normalizations) then Err(PostcheckFailed)
        else Ok(AfterNormalizations(provisioned, plan.normalizations, now))
  }

  // ---------- the audit record ----------

  datatype ReportCode = AuthorityReconciled | OtherCode(n: nat)

  /** What a completed reconciliation reports and stores; `binding` stands for its identity digest. */
  datatype Report = Report(code: ReportCode, releaseId: nat, staging: bool, binding: Binding, schemaVersion: int,
                           auditEventId: Identifier, totalChangeCount: int, authorityMutationCount: int,
                           before: Findings, changes: Plan, after: Findings)

  datatype Metadata = Metadata(contractVersion: int, releaseId: nat, staging: bool, environmentId: nat,
                               databaseId: nat, result: Option<Report>)

  /** A row of the audit log; `metadata` is None when its text does not parse. */
  datatype AuditEvent = AuditEvent(reconciled: bool, success: bool, actor: Option<Id>, league: Option<Id>,
                                   releaseId: nat, reason: ReportCode, metadata: Option<Metadata>)

  datatype Database = Database(authority: Authority, audit: map<Identifier, AuditEvent>)

  datatype Arguments = Arguments(binding: Binding, wellFormed: bool, schemaVersion: int, nowMs: int)

  datatype Outcome = Completed(report: Report, replayed: bool, changesThisRun: int) | Failed(failure: Failure)

  predicate ArgumentsValid(q: Arguments) {
    q.wellFormed && q.schemaVersion in SUPPORTED_SCHEMA_VERSIONS && IsSafe(q.nowMs) && q.nowMs >= 0
  }

  predicate SameIdentity(b: Binding, c: Binding) {
    b.environmentId == c.environmentId && b.databaseId == c.databaseId
  }

  /** The stored event is this release's own, completed record. */
  predicate Replayable(e: AuditEvent, b: Binding, auditEventId: Identifier) {
    && e.reconciled && e.success && e.actor.None? && e.league.None? && e.releaseId == b.releaseId
    && e.reason == AuthorityReconciled
    && e.metadata.Some?
    && var m := e.metadata.value;
    && m.contractVersion == CONTRACT_VERSION && m.releaseId == b.releaseId && m.staging
    && m.environmentId == b.environmentId && m.databaseId == b.databaseId
    && m.result.Some?
    && var r := m.result.value;
    && r.code == AuthorityReconciled && r.releaseId == b.releaseId && r.staging && r.auditEventId == auditEventId
    && SameIdentity(r.binding, b) && IsSafe(r.totalChangeCount) && r.totalChangeCount >= 1
  }

  /** The stored result of this release, if it has one. */
  function ReadAuditReplay(db: Database, b: Binding, auditEventId: Identifier): Result<Option<Report>, Failure> {
    if auditEventId !in db.audit then Ok(None)
    else if Replayable(db.audit[auditEventId], b, auditEventId) then
      Ok(Some(db.audit[auditEventId].metadata.value.result.value))
    else Err(AuditConflict)
  }

  predicate Clean(a: Authority) {
    !MutationRequired(Preview(a)) && Preview(a).cardinality == {} && Preview(a).pointers == {}
  }

  function MutationCount(plan: Plan): nat {
    |plan.demotions| + |plan.provisions| + |plan.normalizations|
  }

  function ReportOf(a: Authority, a': Authority, q: Arguments, plan: Plan, auditEventId: Identifier): Report {
    Report(AuthorityReconciled, q.binding.releaseId, true, q.binding, q.schemaVersion, auditEventId,
           MutationCount(plan) + 1, MutationCount(plan), Preview(a), plan, Preview(a'))
  }

  function EventOf(q: Arguments, report: Report): AuditEvent {
    AuditEvent(true, true, None, None, q.binding.releaseId, AuthorityReconciled,
               Some(Metadata(CONTRACT_VERSION, q.binding.releaseId, true, q.binding.environmentId,
                             q.binding.databaseId, Some(report))))
  }

  /** A first run of a release, given its plan. */
  function Execute(db: Database, q: Arguments, plan: Plan, auditEventId: Identifier): (Database, Outcome) {
    match Rewritten(db.authority.memberships, plan, q.nowMs)
    case Err(e) => (db, Failed(e))
    case Ok(ms) =>
      var a := db.authority.(memberships := ms);
      if !Clean(a) then (db, Failed(PostcheckFailed))
      else
        var report := ReportOf(db.authority, a, q, plan, auditEventId);
        (Database(a, db.audit[auditEventId := EventOf(q, report)]), Completed(report, false, report.totalChangeCount))
  }

  function Reconcile(db: Database, q: Arguments): (Database, Outcome) {
    if !ArgumentsValid(q) then (db, Failed(ArgumentInvalid))
    else
      var auditEventId := AuditId(q.binding.databaseId, q.binding.releaseId);
      match ReadAuditReplay(db, q.binding, auditEventId)
      case Err(e) => (db, Failed(e))
      case Ok(Some(report)) => (db, if Clean(db.authority) then Completed(report, true, 0) else Failed(PostcheckFailed))
      case Ok(None) =>
        match PlanOf(db.authority, q.binding)
        case Err(e) => (db, Failed(e))
        case Ok(plan) => Execute(db, q, plan, auditEventId)
  }
}

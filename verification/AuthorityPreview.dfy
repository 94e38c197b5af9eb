/** Who holds authority in the stored leagues, and what a read-only preview finds wrong with it. */
module AuthorityPreview {
  import opened Collections

  /**
   * A text identifier. The deterministic ones are digests of what they are made from, and the
   * digest is injective, so they are kept as what they are made from.
   */
  datatype Identifier =
    | Given(n: nat)
    | AdministratorMembership(databaseId: nat, releaseId: nat, leagueId: Id, userId: Id)
    | AuditId(databaseId: nat, releaseId: nat)

  datatype Category = Commissioner | Manager | Member

  datatype MembershipStatus = Invited | Active | Ended | Suspended

  datatype Membership = Membership(league: Id, user: Id, category: Category, status: MembershipStatus,
                                   joined: Option<int>, ended: Option<int>, created: int, updated: int, version: int)

  type Memberships = map<Identifier, Membership>

  datatype League = League(deleted: bool, pointer: Option<Identifier>)

  datatype AssignmentStatus = Pending | Accepted | OtherAssignment

  datatype Assignment = Assignment(league: Id, user: Id, membership: Identifier, team: Id,
                                   status: AssignmentStatus, ended: Option<int>)

  /**
   * The rows that authority is read from. `administrators` are the users with an active
   * platform role (there is at most one such row each); `transfers` the pending commissioner
   * transfers, with their leagues.
   */
  datatype Authority = Authority(leagues: map<Id, League>, memberships: Memberships, administrators: set<Id>,
                                 assignments: map<Id, Assignment>, transfers: map<Id, Id>)

  function Live(a: Authority): set<Id> {
    set l | l in a.leagues && !a.leagues[l].deleted
  }

  predicate IsActive(m: Membership, l: Id, u: Id) {
    m.league == l && m.user == u && m.status == Active
  }

  predicate HasActive(ms: Memberships, l: Id, u: Id) {
    exists id | id in ms :: IsActive(ms[id], l, u)
  }

  /** What an administrator's active membership has to look like. */
  predicate Canonical(m: Membership) {
    m.category == Member && m.joined.Some? && m.ended.None?
  }

  predicate Commissions(m: Membership, l: Id) {
    m.league == l && m.category == Commissioner && m.status == Active
  }

  function Commissioners(ms: Memberships, l: Id): set<Identifier> {
    set id | id in ms && Commissions(ms[id], l)
  }

  function TransfersOf(a: Authority, l: Id): set<Id> {
    set i | i in a.transfers && a.transfers[i] == l
  }

  datatype Findings = Findings(missing: set<(Id, Id)>, nonCanonical: set<Identifier>, protectedAssignments: set<Id>,
                               cardinality: set<Id>, pointers: set<Id>, duplicateTransfers: set<Id>)

  function Preview(a: Authority): Findings {
    var ms := a.memberships;
    Findings(
      set l, u | l in Live(a) && u in a.administrators && !HasActive(ms, l, u) :: (l, u),
      set id | id in ms && ms[id].user in a.administrators && ms[id].league in Live(a)
               && ms[id].status == Active && !Canonical(ms[id]),
      set i | i in a.assignments && a.assignments[i].user in a.administrators
              && (a.assignments[i].status == Pending || a.assignments[i].status == Accepted)
              && a.assignments[i].ended.None?,
      set l | l in Live(a) && |Commissioners(ms, l)| != 1,
      set l | l in Live(a) && (a.leagues[l].pointer.None? || a.leagues[l].pointer.value !in Commissioners(ms, l)),
      set i | i in a.transfers && |TransfersOf(a, a.transfers[i])| > 1 :: a.transfers[i])
  }

  predicate MutationRequired(f: Findings) {
    f.missing != {} || f.nonCanonical != {} || f.cardinality != {} || f.pointers != {} || f.duplicateTransfers != {}
  }

  // ---------- what the preview means ----------

  /** One active commissioner, and it is the one the league points at. */
  ghost predicate OneCommissioner(a: Authority, l: Id)
    requires l in a.leagues
  {
    a.leagues[l].pointer.Some? && Commissioners(a.memberships, l) == {a.leagues[l].pointer.value}
  }

  /** An active membership in this league, and nothing active that is not canonical. */
  ghost predicate Covered(a: Authority, l: Id, u: Id) {
    && HasActive(a.memberships, l, u)
    && forall id :: id in a.memberships && IsActive(a.memberships[id], l, u) ==> Canonical(a.memberships[id])
  }

  ghost predicate InOrder(a: Authority) {
    && (forall l :: l in Live(a) ==> OneCommissioner(a, l))
    && (forall l, u :: l in Live(a) && u in a.administrators ==> Covered(a, l, u))
    && (forall i, j :: i in a.transfers && j in a.transfers && a.transfers[i] == a.transfers[j] ==> i == j)
  }

  lemma SingletonsOnly<T>(s: set<T>, x: T)
    requires x in s
    ensures |s| == 1 <==> s == {x}
  {
    if |s| == 1 {
      assert |s - {x}| == 0;
      assert s == {x} + (s - {x});
    }
  }

  lemma AtMostOne<T>(s: set<T>)
    ensures |s| <= 1 <==> forall x, y :: x in s && y in s ==> x == y
  {
    if s != {} {
      var x :| x in s;
      SingletonsOnly(s, x);
      if forall x, y :: x in s && y in s ==> x == y { assert s == {x}; }
    }
  }

  lemma CommissionersInOrder(a: Authority)
    ensures Preview(a).cardinality == {} && Preview(a).pointers == {} <==>
              forall l :: l in Live(a) ==> OneCommissioner(a, l)
  {
    hide HasActive, Canonical, Commissioners, TransfersOf;
    var f := Preview(a);
    forall l | l in Live(a)
      ensures OneCommissioner(a, l) <==> l !in f.cardinality && l !in f.pointers
    {
      var pointer := a.leagues[l].pointer;
      if pointer.Some? && pointer.value in Commissioners(a.memberships, l) {
        SingletonsOnly(Commissioners(a.memberships, l), pointer.value);
      }
    }
    if forall l :: l in Live(a) ==> OneCommissioner(a, l) {
      assert f.cardinality == {} && f.pointers == {};
    }
  }

  lemma CoverageInOrder(a: Authority)
    ensures Preview(a).missing == {} && Preview(a).nonCanonical == {} <==>
              forall l, u :: l in Live(a) && u in a.administrators ==> Covered(a, l, u)
  {
    hide Commissioners, TransfersOf, Canonical;
    var f, ms := Preview(a), a.memberships;
    assert forall l, u :: (l, u) in f.missing <==> l in Live(a) && u in a.administrators && !HasActive(ms, l, u);
    if f.missing == {} && f.nonCanonical == {} {
      forall l, u | l in Live(a) && u in a.administrators ensures Covered(a, l, u) {
        assert (l, u) !in f.missing;
        assert forall id :: id in ms && IsActive(ms[id], l, u) ==> (id in f.nonCanonical <==> !Canonical(ms[id]));
      }
    }
    if id :| id in f.nonCanonical {
      assert IsActive(ms[id], ms[id].league, ms[id].user);
      assert !Covered(a, ms[id].league, ms[id].user);
    }
    if p :| p in f.missing {
      assert !Covered(a, p.0, p.1);
    }
  }

  lemma TransfersInOrder(a: Authority)
    ensures Preview(a).duplicateTransfers == {} <==>
              forall i, j :: i in a.transfers && j in a.transfers && a.transfers[i] == a.transfers[j] ==> i == j
  {
    hide HasActive, Canonical, Commissioners;
    var f := Preview(a);
    forall l ensures |TransfersOf(a, l)| <= 1 <==>
                       forall i, j :: i in TransfersOf(a, l) && j in TransfersOf(a, l) ==> i == j
    {
      AtMostOne(TransfersOf(a, l));
    }
    if f.duplicateTransfers == {} {
      forall i, j | i in a.transfers && j in a.transfers && a.transfers[i] == a.transfers[j] ensures i == j {
        var l := a.transfers[i];
        assert i in TransfersOf(a, l) && j in TransfersOf(a, l);
        assert l in f.duplicateTransfers <==> |TransfersOf(a, l)| > 1;
      }
    } else {
      var l :| l in f.duplicateTransfers;
      var i, j :| i in TransfersOf(a, l) && j in TransfersOf(a, l) && i != j;
    }
  }

  /**
   * The preview asks for no change exactly when every live league has one active commissioner,
   * the one it points at; every administrator has an active membership in every live league,
   * each of them canonical; and no league has two pending commissioner transfers.
   */
  lemma NoMutationExactlyInOrder(a: Authority)
    ensures !MutationRequired(Preview(a)) <==> InOrder(a)
  {
    CommissionersInOrder(a);
    CoverageInOrder(a);
    TransfersInOrder(a);
    hide Live, Preview, OneCommissioner, Covered;
  }
}

/** The one-off reset of a named league after its draft, and the restore that undoes it. */
module GoonReset {
  import opened Collections
  import opened Store
  import opened LeagueTables

  const SCHEMA: int := 66
  const CLEAR_TABLES: nat := 66
  const OPEN_CARDS: nat := 8

  const JOB_RUN: Column := OtherColumn(0)
  const REMINDER_JOB_RUN: Column := OtherColumn(1)
  const DEADLINE_JOB_RUN: Column := OtherColumn(2)
  const DRAFT: Column := OtherColumn(3)
  const OPERATION: Column := OtherColumn(4)
  const OPENED: Column := OtherColumn(5)
  const HELP_OPENS: Column := OtherColumn(6)

  const SUCCEEDED: Value := Word(OtherStatus(0))
  const CARDS_OPEN: Value := Word(OtherStatus(1))

  /** `Scoped` and `ReadinessOperations` have a league column and are not changed; `Unscoped` have none. */
  datatype GoonTable =
    | Cleared(n: nat)
    | CandidateCards | FreeAgentDrafts | GoonSeasons | JobRuns | IdempotencyRequests
    | ReadinessOperations | Scoped(n: nat)
    | Unscoped(n: nat)

  type Content = map<GoonTable, Rows>

  predicate IsCleared(t: GoonTable) {
    t.Cleared? && t.n < CLEAR_TABLES
  }

  predicate IsChanged(t: GoonTable) {
    IsCleared(t) || t == CandidateCards || t == FreeAgentDrafts || t == GoonSeasons
    || t == JobRuns || t == IdempotencyRequests
  }

  /** Tables with a league column. */
  predicate IsScoped(t: GoonTable) {
    !t.Unscoped?
  }

  function ChangedTables(): seq<GoonTable> {
    seq(CLEAR_TABLES, i requires 0 <= i < CLEAR_TABLES => Cleared(i))
    + [CandidateCards, FreeAgentDrafts, GoonSeasons, JobRuns, IdempotencyRequests]
  }

  lemma ChangedTablesAre(t: GoonTable)
    ensures t in ChangedTables() <==> IsChanged(t)
  {
    var cleared := seq(CLEAR_TABLES, i requires 0 <= i < CLEAR_TABLES => Cleared(i));
    if IsCleared(t) { assert cleared[t.n] == t; }
    assert t in ChangedTables() <==>
           t in cleared || t in [CandidateCards, FreeAgentDrafts, GoonSeasons, JobRuns, IdempotencyRequests];
  }

  /** The league, its season and its draft, fixed in the code, and the operations whose requests are forgotten. */
  datatype Target = Target(league: Id, season: Id, draft: Id, forgotten: set<Value>)

  function RowsOf(db: Content, t: GoonTable): Rows {
    if t in db then db[t] else []
  }

  function MineIn(db: Content, t: GoonTable, league: Id): Rows {
    Mine(RowsOf(db, t), LeagueColumn, league)
  }

  function OthersIn(db: Content, t: GoonTable, league: Id): Rows {
    Others(RowsOf(db, t), LeagueColumn, league)
  }

  /** What the league fingerprint is taken of. The hash is injective, so fingerprints are compared by value. */
  type Fingerprint = map<GoonTable, Rows>

  function FingerprintOf(db: Content, league: Id): Fingerprint {
    map t | t in db && IsScoped(t) :: MineIn(db, t, league)
  }

  datatype Failure =
    | Unavailable | NotReady | AlreadyApplied | ChangedSinceReview | UnfinishedJobs | ReferenceConflict
    | ProtectedRecordChanged | CardsMissing | ArchiveRejected | SourceNotRestored

  /** `supported` is the schema version and settings; `ready` the name, team, job and delivery checks. */
  datatype Environment = Environment(supported: bool, ready: bool, references: Content -> bool)

  // ---------- the statements of the reset ----------

  type Statement = Row -> Option<Row>

  function DropMine(league: Id): Statement {
    row => if IsMine(row, LeagueColumn, league) then None else Some(row)
  }

  /** The jobs that readiness operations of the league refer to, NULL included where one refers to none. */
  function ExemptJobs(operations: Rows): set<Value> {
    (set row | row in operations :: Cell(row, JOB_RUN))
    + (set row | row in operations :: Cell(row, REMINDER_JOB_RUN))
    + (set row | row in operations :: Cell(row, DEADLINE_JOB_RUN))
  }

  /** `id NOT IN (...)` is true of no row at all once the list holds a NULL. */
  predicate NotIn(v: Value, exempt: set<Value>) {
    v !in exempt && Null !in exempt
  }

  function DropJobs(league: Id, exempt: set<Value>): Statement {
    row => if IsMine(row, LeagueColumn, league) && NotIn(Cell(row, IdColumn), exempt) then None else Some(row)
  }

  function DropRequests(league: Id, forgotten: set<Value>): Statement {
    row => if IsMine(row, LeagueColumn, league) && Cell(row, OPERATION) in forgotten then None else Some(row)
  }

  function Plus(v: Value): Value {
    match v
    case Num(n) => Num(n + 1)
    case _ => Null
  }

  /** Rewrites the rows of the league that have this value in a column. */
  function Amend(league: Id, c: Column, v: Value, change: Row, now: int): Statement {
    row =>
      if IsMine(row, LeagueColumn, league) && Cell(row, c) == v then
        Some(row + (change - {LeagueColumn})
             + map[UpdatedColumn := Num(now), VersionColumn := Plus(Cell(row, VersionColumn))])
      else Some(row)
  }

  const INCOMPLETE: Value := Word(OtherStatus(2))
  const COMPLIANT: Value := Word(OtherStatus(3))
  const ELIGIBLE: Value := Word(OtherStatus(4))

  /**
   * A reopened card: open, incomplete, no mandatory position filled and 18 missing, no bench filled
   * and 4 empty, no conflicts, no cap in use, compliant, eligible without exclusion, not locked.
   */
  const REOPENED_CARD: Row := map[
      StatusColumn := Word(Open), OtherColumn(10) := INCOMPLETE, OtherColumn(11) := Num(0), OtherColumn(12) := Num(18),
      OtherColumn(13) := Num(0), OtherColumn(14) := Num(4), OtherColumn(15) := Num(0), OtherColumn(16) := Num(0),
      OtherColumn(17) := Num(0), OtherColumn(18) := Num(0), OtherColumn(19) := COMPLIANT, OtherColumn(20) := ELIGIBLE,
      OtherColumn(21) := Null, OtherColumn(22) := Null]

  /**
   * A reopened draft: cards open, its dates, weeks and recovery unset, no creation cutoff, rollovers
   * every 15 minutes.
   */
  const REOPENED_DRAFT: Row := map[
      StatusColumn := CARDS_OPEN, DateColumn(0) := Null, DateColumn(1) := Null, DateColumn(2) := Null,
      DateColumn(3) := Null, DateColumn(4) := Null, OtherColumn(30) := Null, OtherColumn(31) := Null,
      OtherColumn(32) := Null, OtherColumn(33) := Null, OtherColumn(34) := Num(0), OtherColumn(35) := Num(15)]

  const UNDATED_SEASON: Row := map[DateColumn(0) := Null, DateColumn(1) := Null, DateColumn(2) := Null,
                                   DateColumn(3) := Null, DateColumn(4) := Null]

  /** The reopened draft's help opens when the draft itself was opened. */
  function ReopenDraft(league: Id, draft: Id, now: int): Statement {
    row =>
      match Amend(league, IdColumn, Text(draft), REOPENED_DRAFT, now)(row)
      case None => None
      case Some(amended) =>
        if IsMine(row, LeagueColumn, league) && Cell(row, IdColumn) == Text(draft) then
          Some(amended[HELP_OPENS := Cell(row, OPENED)])
        else Some(amended)
  }

  function AfterReset(t: GoonTable, rows: Rows, target: Target, exempt: set<Value>, now: int): Rows {
    match t
    case Cleared(n) => if n < CLEAR_TABLES then Collect(rows, DropMine(target.league)) else rows
    case JobRuns => Collect(rows, DropJobs(target.league, exempt))
    case IdempotencyRequests => Collect(rows, DropRequests(target.league, target.forgotten))
    case CandidateCards => Collect(rows, Amend(target.league, DRAFT, Text(target.draft), REOPENED_CARD, now))
    case FreeAgentDrafts => Collect(rows, ReopenDraft(target.league, target.draft, now))
    case GoonSeasons => Collect(rows, Amend(target.league, IdColumn, Text(target.season), UNDATED_SEASON, now))
    case _ => rows
  }

  function ResetContent(db: Content, target: Target, now: int): Content {
    var exempt := ExemptJobs(MineIn(db, ReadinessOperations, target.league));
    map t | t in db :: AfterReset(t, db[t], target, exempt, now)
  }

  /** The protected fingerprint reads rows in key order, so it compares what rows there are. */
  predicate RestProtected(before: Content, after: Content, league: Id) {
    && before.Keys == after.Keys
    && forall t | t in before ::
         if IsChanged(t) then multiset(OthersIn(after, t, league)) == multiset(OthersIn(before, t, league))
         else multiset(after[t]) == multiset(before[t])
  }

  predicate DraftCompleted(db: Content, target: Target) {
    match IndexOf(MineIn(db, FreeAgentDrafts, target.league), IdColumn, Text(target.draft))
    case None => false
    case Some(i) => Cell(MineIn(db, FreeAgentDrafts, target.league)[i], StatusColumn) == Word(Completed)
  }

  predicate JobsFinished(db: Content, league: Id) {
    forall row | row in MineIn(db, JobRuns, league) ::
      Cell(row, StatusColumn) == SUCCEEDED || Cell(row, StatusColumn) == Word(Cancelled)
  }

  function OpenCards(db: Content, league: Id): Rows {
    Collect(MineIn(db, CandidateCards, league),
            (row: Row) => if Cell(row, StatusColumn) == Word(Open) then Some(row) else None)
  }

  function Reset(db: Content, env: Environment, target: Target, now: int, expected: Fingerprint)
    : Result<Content, Failure>
  {
    var after := ResetContent(db, target, now);
    if !env.supported then Err(Unavailable)
    else if !DraftCompleted(db, target) then Err(AlreadyApplied)
    else if !env.ready then Err(NotReady)
    else if FingerprintOf(db, target.league) != expected then Err(ChangedSinceReview)
    else if !JobsFinished(after, target.league) then Err(UnfinishedJobs)
    else if !env.references(after) then Err(ReferenceConflict)
    else if !RestProtected(db, after, target.league) then Err(ProtectedRecordChanged)
    else if |OpenCards(after, target.league)| != OPEN_CARDS then Err(CardsMissing)
    else Ok(after)
  }

  // ---------- capture and restore ----------

  datatype Snapshot = Snapshot(schema: int, leagueId: Id, source: Fingerprint, tables: map<GoonTable, Rows>)

  function Capture(db: Content, league: Id): Snapshot {
    Snapshot(SCHEMA, league, FingerprintOf(db, league), map t | t in ChangedTables() :: MineIn(db, t, league))
  }

  function RestoreTable(rows: Rows, news: Rows, league: Id): Option<Rows> {
    InsertAll(Collect(rows, DropMine(league)), IdColumn, news)
  }

  function NewsFor(snapshot: Snapshot, t: GoonTable): Rows {
    if t in snapshot.tables then snapshot.tables[t] else []
  }

  predicate InScope(snapshot: Snapshot) {
    forall t | t in snapshot.tables :: forall row | row in snapshot.tables[t] ::
      IsMine(row, LeagueColumn, snapshot.leagueId)
  }

  function RestoredContent(db: Content, snapshot: Snapshot): Option<Content> {
    if exists t | t in db && IsChanged(t) :: RestoreTable(db[t], NewsFor(snapshot, t), snapshot.leagueId).None?
    then None
    else
      Some(map t | t in db ::
             if IsChanged(t) then RestoreTable(db[t], NewsFor(snapshot, t), snapshot.leagueId).value else db[t])
  }

  function Restore(db: Content, env: Environment, snapshot: Snapshot, expected: Fingerprint): Result<Content, Failure> {
    if !env.supported || snapshot.schema != SCHEMA || snapshot.tables.Keys != (set t | t in ChangedTables()) then
      Err(Unavailable)
    else if FingerprintOf(db, snapshot.leagueId) != expected then Err(ChangedSinceReview)
    else if !InScope(snapshot) then Err(ArchiveRejected)
    else
      match RestoredContent(db, snapshot)
      case None => Err(ArchiveRejected)
      case Some(after) =>
        if !env.references(after) then Err(ReferenceConflict)
        else if !RestProtected(db, after, snapshot.leagueId) then Err(ProtectedRecordChanged)
        else if FingerprintOf(after, snapshot.leagueId) != snapshot.source then Err(SourceNotRestored)
        else Ok(after)
  }

  // ---------- what the reset leaves alone ----------

  lemma ReopenDraftIsConfined(league: Id, draft: Id, now: int)
    ensures Confined(ReopenDraft(league, draft, now), LeagueColumn, league)
  {
    var amend := Amend(league, IdColumn, Text(draft), REOPENED_DRAFT, now);
    forall row: Row
      ensures IsMine(row, LeagueColumn, league) ==>
                ReopenDraft(league, draft, now)(row).Some?
                && IsMine(ReopenDraft(league, draft, now)(row).value, LeagueColumn, league)
      ensures !IsMine(row, LeagueColumn, league) ==> ReopenDraft(league, draft, now)(row) == Some(row)
    {
      assert amend(row).Some?;
      assert IsMine(row, LeagueColumn, league) ==> IsMine(amend(row).value, LeagueColumn, league);
    }
  }

  lemma StatementsAreConfined(target: Target, exempt: set<Value>, now: int, c: Column, v: Value, change: Row)
    ensures Confined(DropMine(target.league), LeagueColumn, target.league)
    ensures Confined(DropJobs(target.league, exempt), LeagueColumn, target.league)
    ensures Confined(DropRequests(target.league, target.forgotten), LeagueColumn, target.league)
    ensures Confined(Amend(target.league, c, v, change, now), LeagueColumn, target.league)
    ensures Confined(ReopenDraft(target.league, target.draft, now), LeagueColumn, target.league)
  {
    ReopenDraftIsConfined(target.league, target.draft, now);
  }

  lemma ResetSplits(t: GoonTable, rows: Rows, target: Target, exempt: set<Value>, now: int)
    ensures Mine(AfterReset(t, rows, target, exempt, now), LeagueColumn, target.league)
            == AfterReset(t, Mine(rows, LeagueColumn, target.league), target, exempt, now)
    ensures Others(AfterReset(t, rows, target, exempt, now), LeagueColumn, target.league)
            == Others(rows, LeagueColumn, target.league)
    ensures !IsChanged(t) ==> AfterReset(t, rows, target, exempt, now) == rows
  {
    var league, draft := target.league, Text(target.draft);
    StatementsAreConfined(target, exempt, now, DRAFT, draft, REOPENED_CARD);
    StatementsAreConfined(target, exempt, now, IdColumn, Text(target.season), UNDATED_SEASON);
    hide Confined, Mine, Others, Collect, Amend, ReopenDraft, DropMine, DropJobs, DropRequests;
    match t
    case Cleared(_) => StatementSplits(rows, DropMine(league), LeagueColumn, league);
    case JobRuns => StatementSplits(rows, DropJobs(league, exempt), LeagueColumn, league);
    case IdempotencyRequests => StatementSplits(rows, DropRequests(league, target.forgotten), LeagueColumn, league);
    case CandidateCards => StatementSplits(rows, Amend(league, DRAFT, draft, REOPENED_CARD, now), LeagueColumn, league);
    case FreeAgentDrafts => StatementSplits(rows, ReopenDraft(league, target.draft, now), LeagueColumn, league);
    case GoonSeasons =>
      StatementSplits(rows, Amend(league, IdColumn, Text(target.season), UNDATED_SEASON, now), LeagueColumn, league);
    case ReadinessOperations =>
    case Scoped(_) =>
    case Unscoped(_) =>
  }

  /** Whatever the reset does to its own league, every other row of every table is left as it was, in order. */
  lemma ResetProtectsTheRest(db: Content, target: Target, now: int)
    ensures
      var after := ResetContent(db, target, now);
      && RestProtected(db, after, target.league)
      && (forall t :: t in db && IsChanged(t) ==> OthersIn(after, t, target.league) == OthersIn(db, t, target.league))
      && (forall t :: t in db && !IsChanged(t) ==> after[t] == db[t])
  {
    var exempt := ExemptJobs(MineIn(db, ReadinessOperations, target.league));
    forall t | t in db
      ensures OthersIn(ResetContent(db, target, now), t, target.league) == OthersIn(db, t, target.league)
      ensures !IsChanged(t) ==> ResetContent(db, target, now)[t] == db[t]
    {
      hide Mine, Others, AfterReset;
      ResetSplits(t, db[t], target, exempt, now);
    }
    hide OthersIn;
  }

  lemma {:induction false} KeepsAll(rows: Rows, f: Statement)
    requires forall row :: f(row) == Some(row)
    ensures Collect(rows, f) == rows
  {
    if rows != [] {
      KeepsAll(rows[..|rows| - 1], f);
    }
  }

  /** A readiness operation that refers to no reminder job, deadline job or job keeps every job of the league. */
  lemma NullReferenceKeepsAllJobs(db: Content, target: Target, now: int, operation: Row)
    requires JobRuns in db && operation in MineIn(db, ReadinessOperations, target.league)
    requires Cell(operation, JOB_RUN) == Null || Cell(operation, REMINDER_JOB_RUN) == Null
             || Cell(operation, DEADLINE_JOB_RUN) == Null
    ensures ResetContent(db, target, now)[JobRuns] == db[JobRuns]
  {
    var exempt := ExemptJobs(MineIn(db, ReadinessOperations, target.league));
    assert Null in exempt;
    hide MineIn, ExemptJobs;
    KeepsAll(db[JobRuns], DropJobs(target.league, exempt));
  }

  /** Otherwise the jobs of the league that are left are exactly those referred to. */
  lemma UnreferencedJobsGo(db: Content, target: Target, now: int, row: Row)
    requires JobRuns in db && Null !in ExemptJobs(MineIn(db, ReadinessOperations, target.league))
    ensures row in MineIn(ResetContent(db, target, now), JobRuns, target.league) <==>
              row in MineIn(db, JobRuns, target.league)
              && Cell(row, IdColumn) in ExemptJobs(MineIn(db, ReadinessOperations, target.league))
  {
    var exempt := ExemptJobs(MineIn(db, ReadinessOperations, target.league));
    var league := target.league;
    ResetSplits(JobRuns, db[JobRuns], target, exempt, now);
    var mine := Mine(db[JobRuns], LeagueColumn, league);
    CollectMember(mine, DropJobs(league, exempt), row);
    MineAreMine(db[JobRuns], LeagueColumn, league);
    hide ExemptJobs, Mine, Collect;
    if row in mine && Cell(row, IdColumn) in exempt {
      assert DropJobs(league, exempt)(row) == Some(row);
    }
  }

  lemma NotCompleted(db: Content, target: Target)
    requires forall row :: row in MineIn(db, FreeAgentDrafts, target.league) &&
                                 Cell(row, IdColumn) == Text(target.draft) ==>
                             Cell(row, StatusColumn) == CARDS_OPEN
    ensures !DraftCompleted(db, target)
  {
  }

  lemma ReopenedRow(target: Target, now: int, was: Row, row: Row)
    requires ReopenDraft(target.league, target.draft, now)(was) == Some(row)
    requires IsMine(row, LeagueColumn, target.league) && Cell(row, IdColumn) == Text(target.draft)
    ensures Cell(row, StatusColumn) == CARDS_OPEN
  {
    assert IdColumn !in REOPENED_DRAFT && LeagueColumn !in REOPENED_DRAFT;
    assert StatusColumn in REOPENED_DRAFT && REOPENED_DRAFT[StatusColumn] == CARDS_OPEN;
    var amended := Amend(target.league, IdColumn, Text(target.draft), REOPENED_DRAFT, now)(was).value;
    assert Cell(amended, IdColumn) == Cell(was, IdColumn) && Cell(amended, LeagueColumn) == Cell(was, LeagueColumn);
    assert Cell(row, IdColumn) == Cell(amended, IdColumn) && Cell(row, LeagueColumn) == Cell(amended, LeagueColumn);
  }

  lemma DraftReopened(db: Content, target: Target, now: int, row: Row)
    requires row in MineIn(ResetContent(db, target, now), FreeAgentDrafts, target.league)
    requires Cell(row, IdColumn) == Text(target.draft)
    ensures Cell(row, StatusColumn) == CARDS_OPEN
  {
    var f := ReopenDraft(target.league, target.draft, now);
    MineAreMine(RowsOf(ResetContent(db, target, now), FreeAgentDrafts), LeagueColumn, target.league);
    assert RowsOf(ResetContent(db, target, now), FreeAgentDrafts) == Collect(RowsOf(db, FreeAgentDrafts), f) by {
      hide Collect, ReopenDraft;
    }
    hide Mine, Collect, ReopenDraft, ResetContent, MineIn, RowsOf;
    CollectMember(RowsOf(db, FreeAgentDrafts), f, row);
    var was :| f(was) == Some(row);
    ReopenedRow(target, now, was, row);
  }

  /** A completed reset reopens the draft, so it cannot be applied a second time. */
  lemma ResetIsAppliedOnce(db: Content, env: Environment, target: Target, now: int, expected: Fingerprint,
                           again: int, reviewed: Fingerprint)
    requires Reset(db, env, target, now, expected).Ok?
    ensures Reset(Reset(db, env, target, now, expected).value, env, target, again, reviewed) == Err(AlreadyApplied)
  {
    var after := ResetContent(db, target, now);
    forall row | row in MineIn(after, FreeAgentDrafts, target.league) && Cell(row, IdColumn) == Text(target.draft)
      ensures Cell(row, StatusColumn) == CARDS_OPEN
    {
      hide MineIn, Reset, ResetContent;
      DraftReopened(db, target, now, row);
    }
    NotCompleted(after, target);
    hide ResetContent, MineIn, FingerprintOf, OpenCards, JobsFinished, RestProtected, DraftCompleted;
  }

  // ---------- reset and restore together ----------

  /** Keys are still unique, and no other league has come to hold the key of a captured row. */
  ghost predicate KeysStayOurs(before: Content, now: Content, league: Id) {
    forall t :: IsChanged(t) ==> t in now && Unique(MineIn(before, t, league), IdColumn)
                                 && NoKeyOf(OthersIn(now, t, league), MineIn(before, t, league), IdColumn)
  }

  lemma {:induction false} DroppedLeavesOthers(rows: Rows, league: Id)
    ensures Collect(rows, DropMine(league)) == Others(rows, LeagueColumn, league)
  {
    if rows != [] {
      DroppedLeavesOthers(rows[..|rows| - 1], league);
    }
  }

  /** Deleting a league's rows and inserting the captured ones gives back its rows in their order. */
  lemma TableRestored(now: Rows, mine: Rows, league: Id)
    requires Unique(mine, IdColumn) && (forall row :: row in mine ==> IsMine(row, LeagueColumn, league))
    requires NoKeyOf(Others(now, LeagueColumn, league), mine, IdColumn)
    ensures
      var r := RestoreTable(now, mine, league);
      && r.Some? && Mine(r.value, LeagueColumn, league) == mine
      && Others(r.value, LeagueColumn, league) == Others(now, LeagueColumn, league)
  {
    var others := Others(now, LeagueColumn, league);
    DroppedLeavesOthers(now, league);
    InsertAllAppends(others, IdColumn, mine);
    SplitConcat(others, mine, LeagueColumn, league);
    forall row | row in others ensures !IsMine(row, LeagueColumn, league) {
      SplitMembers(now, LeagueColumn, league, row);
    }
    NoneMine(others, LeagueColumn, league);
    AllMine(mine, LeagueColumn, league);
    hide Mine, Others, InsertAll, Unique, NoKeyOf;
    assert [] + mine == mine && others + [] == others;
  }

  ghost predicate TableComesBack(before: Content, now: Content, league: Id, t: GoonTable) {
    && t in now && t in ChangedTables()
    && var r := RestoreTable(now[t], MineIn(before, t, league), league);
    && r.Some? && Mine(r.value, LeagueColumn, league) == MineIn(before, t, league)
    && Others(r.value, LeagueColumn, league) == OthersIn(now, t, league)
  }

  lemma TablesComeBack(before: Content, now: Content, league: Id)
    requires KeysStayOurs(before, now, league)
    ensures forall t :: IsChanged(t) ==> TableComesBack(before, now, league, t)
  {
    forall t | IsChanged(t) ensures TableComesBack(before, now, league, t) {
      ChangedTablesAre(t);
      MineAreMine(RowsOf(before, t), LeagueColumn, league);
      hide Mine, Others, RestoreTable, ChangedTables;
      TableRestored(now[t], MineIn(before, t, league), league);
    }
  }

  /** Restored, every changed table holds the captured rows in their order, and the other leagues' as they stand now. */
  ghost predicate ComesBack(before: Content, now: Content, after: Content, league: Id) {
    && after.Keys == now.Keys
    && (forall t :: IsChanged(t) ==> MineIn(after, t, league) == MineIn(before, t, league)
                                     && OthersIn(after, t, league) == OthersIn(now, t, league))
    && (forall t :: t in now && !IsChanged(t) ==> after[t] == now[t])
  }

  lemma RestoredContentIs(now: Content, snapshot: Snapshot)
    requires forall t :: IsChanged(t) ==>
                           t in now && RestoreTable(now[t], NewsFor(snapshot, t), snapshot.leagueId).Some?
    ensures
      var r := RestoredContent(now, snapshot);
      && r.Some? && r.value.Keys == now.Keys
      && forall t :: t in now ==>
                       r.value[t] == if IsChanged(t)
                                     then RestoreTable(now[t], NewsFor(snapshot, t), snapshot.leagueId).value
                                     else now[t]
  {
  }

  lemma ComesBackFrom(before: Content, now: Content, after: Content, league: Id)
    requires after.Keys == now.Keys
    requires forall t :: IsChanged(t) ==> MineIn(after, t, league) == MineIn(before, t, league)
    requires forall t :: IsChanged(t) ==> OthersIn(after, t, league) == OthersIn(now, t, league)
    requires forall t :: t in now && !IsChanged(t) ==> after[t] == now[t]
    ensures ComesBack(before, now, after, league)
  {
  }

  lemma ContentComesBack(before: Content, now: Content, league: Id)
    requires KeysStayOurs(before, now, league)
    ensures
      var r := RestoredContent(now, Capture(before, league));
      r.Some? && ComesBack(before, now, r.value, league)
  {
    var snapshot := Capture(before, league);
    TablesComeBack(before, now, league);
    forall t | IsChanged(t)
      ensures t in now && NewsFor(snapshot, t) == MineIn(before, t, league)
    {
      assert TableComesBack(before, now, league, t);
    }
    assert snapshot.leagueId == league;
    hide Capture, KeysStayOurs, ChangedTables, NewsFor, RestoreTable, IsChanged, Mine, Others, RestoredContent,
      ComesBack;
    forall t | IsChanged(t) ensures t in now && RestoreTable(now[t], NewsFor(snapshot, t), league).Some? {
      assert TableComesBack(before, now, league, t);
    }
    RestoredContentIs(now, snapshot);
    var after := RestoredContent(now, snapshot).value;
    forall t | IsChanged(t)
      ensures MineIn(after, t, league) == MineIn(before, t, league)
      ensures OthersIn(after, t, league) == OthersIn(now, t, league)
    {
      assert TableComesBack(before, now, league, t);
    }
    hide TableComesBack, MineIn, OthersIn;
    assert ComesBack(before, now, after, league) by { ComesBackFrom(before, now, after, league); }
  }

  /** Every league-scoped table that a reset does not change has this league's rows as at capture. */
  ghost predicate RestUnchanged(before: Content, now: Content, league: Id) {
    forall t :: t in now && IsScoped(t) && !IsChanged(t) ==> MineIn(now, t, league) == MineIn(before, t, league)
  }

  lemma SourceIsRestoredExactly(before: Content, now: Content, after: Content, league: Id)
    requires before.Keys == now.Keys && ComesBack(before, now, after, league)
    ensures FingerprintOf(after, league) == FingerprintOf(before, league) <==> RestUnchanged(before, now, league)
  {
    hide Mine, OthersIn;
    if FingerprintOf(after, league) == FingerprintOf(before, league) {
      forall t | t in now && IsScoped(t) && !IsChanged(t) ensures MineIn(now, t, league) == MineIn(before, t, league) {
        assert FingerprintOf(after, league)[t] == FingerprintOf(before, league)[t];
      }
    }
  }

  lemma CaptureIsInScope(db: Content, league: Id)
    ensures
      var snapshot := Capture(db, league);
      && snapshot.schema == SCHEMA && snapshot.leagueId == league && snapshot.source == FingerprintOf(db, league)
      && snapshot.tables.Keys == (set t | t in ChangedTables()) && InScope(snapshot)
  {
    var snapshot := Capture(db, league);
    forall t | t in snapshot.tables
      ensures forall row :: row in snapshot.tables[t] ==> IsMine(row, LeagueColumn, league)
    {
      MineAreMine(RowsOf(db, t), LeagueColumn, league);
    }
    hide Mine, ChangedTables;
  }

  lemma OrderKept(before: Content, now: Content, after: Content, league: Id)
    requires ComesBack(before, now, after, league) && forall t :: IsChanged(t) ==> t in now
    ensures RestProtected(now, after, league)
  {
  }

  /**
   * The restore deletes and reinserts, so it gives back the captured rows in their order. From any
   * later state that it was told to expect, it succeeds exactly when the foreign keys hold and
   * the tables a reset does not change have the league's rows as at capture.
   */
  lemma RestoreSucceedsExactly(before: Content, env: Environment, now: Content, league: Id) returns (after: Content)
    requires env.supported && before.Keys == now.Keys && KeysStayOurs(before, now, league)
    ensures ComesBack(before, now, after, league)
    ensures Restore(now, env, Capture(before, league), FingerprintOf(now, league)) ==
            if !env.references(after) then Err(ReferenceConflict)
            else if RestUnchanged(before, now, league) then Ok(after) else Err(SourceNotRestored)
  {
    ContentComesBack(before, now, league);
    after := RestoredContent(now, Capture(before, league)).value;
    CaptureIsInScope(before, league);
    SourceIsRestoredExactly(before, now, after, league);
    OrderKept(before, now, after, league);
    hide Capture, InScope, RestoredContent, FingerprintOf, RestUnchanged, ComesBack, RestProtected, KeysStayOurs,
      ChangedTables;
  }

  /**
   * After a reset, as long as the league's fingerprint is the one the reset left, a restore fails
   * for nothing but foreign keys, and the league is then row for row and in order what it was,
   * whatever the other leagues did meanwhile.
   */
  lemma ResetIsAlwaysRestorable(before: Content, env: Environment, target: Target, resetMs: int, expected: Fingerprint,
                                now: Content) returns (after: Content)
    requires Reset(before, env, target, resetMs, expected).Ok? && before.Keys == now.Keys
    requires FingerprintOf(now, target.league) ==
             FingerprintOf(Reset(before, env, target, resetMs, expected).value, target.league)
    requires KeysStayOurs(before, now, target.league)
    ensures ComesBack(before, now, after, target.league)
    ensures FingerprintOf(after, target.league) == FingerprintOf(before, target.league)
    ensures Restore(now, env, Capture(before, target.league), FingerprintOf(now, target.league)) ==
            if env.references(after) then Ok(after) else Err(ReferenceConflict)
  {
    var league := target.league;
    var reset := Reset(before, env, target, resetMs, expected).value;
    assert reset == ResetContent(before, target, resetMs) && env.supported;
    ResetProtectsTheRest(before, target, resetMs);
    hide Reset, ResetContent, Mine, OthersIn, Capture, Restore, KeysStayOurs;
    forall t | t in now && IsScoped(t) && !IsChanged(t) ensures MineIn(now, t, league) == MineIn(before, t, league) {
      assert FingerprintOf(now, league)[t] == FingerprintOf(reset, league)[t];
    }
    after := RestoreSucceedsExactly(before, env, now, league);
    SourceIsRestoredExactly(before, now, after, league);
    hide FingerprintOf, ComesBack;
  }

  // ---------- a job that the reset leaves behind ----------

  const EXAMPLE_TARGET: Target := Target(1, 2, 3, {})

  function ExampleDraft(): Row {
    map[IdColumn := Text(3), LeagueColumn := Text(1), StatusColumn := Word(Completed), OPENED := Num(0),
        VersionColumn := Num(1)]
  }

  function ExampleCard(n: nat): Row {
    map[IdColumn := Text(100 + n), LeagueColumn := Text(1), DRAFT := Text(3), StatusColumn := Word(Frozen),
        VersionColumn := Num(1)]
  }

  function ExampleJob(): Row {
    map[IdColumn := Text(50), LeagueColumn := Text(1), StatusColumn := SUCCEEDED]
  }

  /** A readiness operation that never had a reminder. */
  function ExampleOperation(): Row {
    map[IdColumn := Text(60), LeagueColumn := Text(1), JOB_RUN := Text(51), REMINDER_JOB_RUN := Null,
        DEADLINE_JOB_RUN := Text(52)]
  }

  function ExampleRows(t: GoonTable): Rows {
    match t
    case FreeAgentDrafts => [ExampleDraft()]
    case CandidateCards => seq(OPEN_CARDS, n requires 0 <= n < OPEN_CARDS => ExampleCard(n))
    case JobRuns => [ExampleJob()]
    case ReadinessOperations => [ExampleOperation()]
    case _ => []
  }

  /** A league after its draft, with eight cards and one finished job. */
  function Example(): Content {
    map t | t in {FreeAgentDrafts, CandidateCards, JobRuns, ReadinessOperations} :: ExampleRows(t)
  }

  lemma ExampleRowsAreMine(t: GoonTable)
    ensures Mine(ExampleRows(t), LeagueColumn, 1) == ExampleRows(t)
  {
    forall row | row in ExampleRows(t) ensures IsMine(row, LeagueColumn, 1) {
    }
    AllMine(ExampleRows(t), LeagueColumn, 1);
  }

  lemma ExampleDraftIsCompleted()
    ensures DraftCompleted(Example(), EXAMPLE_TARGET)
  {
    ExampleRowsAreMine(FreeAgentDrafts);
    hide Mine;
    assert MineIn(Example(), FreeAgentDrafts, 1) == [ExampleDraft()];
  }

  lemma ExampleCardReopens(n: nat, now: int)
    ensures
      var card := Amend(1, DRAFT, Text(3), REOPENED_CARD, now)(ExampleCard(n));
      card.Some? && IsMine(card.value, LeagueColumn, 1) && Cell(card.value, StatusColumn) == Word(Open)
  {
    assert StatusColumn in REOPENED_CARD && REOPENED_CARD[StatusColumn] == Word(Open);
  }

  lemma ExampleCardsReopen(rows: Rows, now: int)
    requires rows == Collect(ExampleRows(CandidateCards), Amend(1, DRAFT, Text(3), REOPENED_CARD, now))
    ensures |rows| == OPEN_CARDS
    ensures forall row :: row in rows ==> IsMine(row, LeagueColumn, 1) && Cell(row, StatusColumn) == Word(Open)
  {
    var f := Amend(1, DRAFT, Text(3), REOPENED_CARD, now);
    var cards := ExampleRows(CandidateCards);
    assert |cards| == OPEN_CARDS && forall i :: 0 <= i < |cards| ==> cards[i] == ExampleCard(i);
    hide Amend, ExampleCard, ExampleRows, IsMine, Cell, Collect;
    forall i | 0 <= i < |cards|
      ensures f(cards[i]).Some? && IsMine(f(cards[i]).value, LeagueColumn, 1)
              && Cell(f(cards[i]).value, StatusColumn) == Word(Open)
    {
      ExampleCardReopens(i, now);
    }
    CollectAll(cards, f);
  }

  lemma ExampleHasOpenCards(now: int)
    ensures |OpenCards(ResetContent(Example(), EXAMPLE_TARGET, now), 1)| == OPEN_CARDS
  {
    var after := ResetContent(Example(), EXAMPLE_TARGET, now);
    var rows := after[CandidateCards];
    hide Mine, Collect, Amend;
    ExampleCardsReopen(rows, now);
    AllMine(rows, LeagueColumn, 1);
    CollectAll(rows, (row: Row) => if Cell(row, StatusColumn) == Word(Open) then Some(row) else None);
  }

  lemma ExampleOperationIsMine()
    ensures MineIn(Example(), ReadinessOperations, 1) == [ExampleOperation()]
    ensures MineIn(Example(), JobRuns, 1) == Example()[JobRuns] == [ExampleJob()]
  {
    ExampleRowsAreMine(ReadinessOperations);
    ExampleRowsAreMine(JobRuns);
    hide Mine;
  }

  lemma ExampleJobIsUnreferenced()
    ensures Cell(ExampleJob(), IdColumn) !in ExemptJobs(MineIn(Example(), ReadinessOperations, 1))
    ensures Cell(ExampleOperation(), REMINDER_JOB_RUN) == Null && Cell(ExampleJob(), StatusColumn) == SUCCEEDED
  {
    ExampleOperationIsMine();
    hide MineIn, Example;
  }

  lemma ExampleJobStays(now: int)
    ensures
      var after := ResetContent(Example(), EXAMPLE_TARGET, now);
      JobsFinished(after, 1) && ExampleJob() in MineIn(after, JobRuns, 1)
  {
    assert JobRuns in Example();
    hide Mine, ResetContent, Example, ExampleJob, ExampleOperation, ExampleRows, Cell;
    ExampleOperationIsMine();
    ExampleJobIsUnreferenced();
    NullReferenceKeepsAllJobs(Example(), EXAMPLE_TARGET, now, ExampleOperation());
    assert RowsOf(ResetContent(Example(), EXAMPLE_TARGET, now), JobRuns) == RowsOf(Example(), JobRuns);
    hide RowsOf;
  }

  /** The reset succeeds, and a finished job that nothing refers to is still there. */
  lemma UnreferencedJobLeftBehind(env: Environment, now: int)
    requires env.supported && env.ready && forall c :: env.references(c)
    ensures
      var done := Reset(Example(), env, EXAMPLE_TARGET, now, FingerprintOf(Example(), 1));
      && done.Ok? && ExampleJob() in MineIn(done.value, JobRuns, 1)
      && Cell(ExampleJob(), IdColumn) !in ExemptJobs(MineIn(Example(), ReadinessOperations, 1))
  {
    hide Example, Mine, ResetContent, RestProtected, OpenCards, DraftCompleted, FingerprintOf, ExampleJob,
      ExampleOperation,
      JobsFinished, ExemptJobs;
    var after := ResetContent(Example(), EXAMPLE_TARGET, now);
    ExampleDraftIsCompleted();
    ExampleHasOpenCards(now);
    ResetProtectsTheRest(Example(), EXAMPLE_TARGET, now);
    ExampleJobIsUnreferenced();
    ExampleJobStays(now);
  }
}

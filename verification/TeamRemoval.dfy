/**
 * The exceptional removal of teams from a league before competition, and the guarded
 * compensation that can take it back while other work goes on.
 */
module TeamRemoval {
  import opened Collections
  import opened Store
  import opened WriteFence

  const ROLLBACK_WINDOW_MS: int := 15 * 60000

  /** The reviewed operation; `survivors` is the number of teams that stay. */
  datatype Operation = Operation(leagueId: Id, seasonId: Id, teamIds: set<Id>, survivors: nat)

  /** The rows an operation captures before it writes, by table. */
  datatype Snapshot = Snapshot(teams: Table, assignments: Table, ownerships: Table, contracts: Table,
                               years: Table, display: Table, picks: Table, matches: Table, calendar: Table)

  /** A reviewed preview. Hashes are injective, so it is compared by value. */
  datatype Manifest = Manifest(before: Snapshot, createdAtMs: int, expiresAtMs: int)

  /** The private receipt of an applied operation. */
  datatype Receipt = Receipt(manifest: Manifest, before: Snapshot, newMatches: Table, appliedAtMs: int)

  /** `reversed` says whether the rollback event of this operation has been recorded. */
  datatype State = State(db: Database, receipt: Option<Receipt>, reversed: bool)

  /**
   * What a caller brings. `guardsHold` stands for the read-only guards over tables this model
   * does not carry (no job in flight, players not reacquired, deadlines far enough); `commits`
   * for the foreign-key check and the lock-time limit at the end of the transaction. The new
   * schedule and the audit records are rows of their own tables.
   */
  datatype Request = Request(manifest: Manifest, nowMs: int, authorized: bool, guardsHold: bool, commits: bool,
                             newMatches: Table, records: Table)

  datatype Refusal =
    | NotAuthorized | AlreadyReversed | ReplayConflict | StalePreview | StateChanged | WriteFailed
    | NotVerified | DidNotCommit | ReceiptMissing | WindowExpired

  datatype Outcome = Done | Replayed | Refused(reason: Refusal)

  // ---------- what is captured ----------

  predicate InLeague(op: Operation, row: Row) {
    Cell(row, LeagueColumn) == Text(op.leagueId)
  }

  predicate OfTeams(op: Operation, row: Row) {
    InLeague(op, row) && Cell(row, TeamColumn).Text? && Cell(row, TeamColumn).id in op.teamIds
  }

  predicate OfSeason(op: Operation, row: Row) {
    InLeague(op, row) && Cell(row, SeasonColumn) == Text(op.seasonId)
  }

  predicate RefersTo(row: Row, c: Column, keys: set<Id>) {
    Cell(row, c).Text? && Cell(row, c).id in keys
  }

  function LeagueTeams(op: Operation, db: Database): Table {
    var t := TableOf(db, Teams);
    map k | k in t && InLeague(op, t[k]) && Cell(t[k], StatusColumn) != Word(Erased) :: t[k]
  }

  function TeamRows(op: Operation, t: Table): Table {
    map k | k in t && OfTeams(op, t[k]) :: t[k]
  }

  function SeasonRows(op: Operation, t: Table): Table {
    map k | k in t && OfSeason(op, t[k]) :: t[k]
  }

  function ActiveRows(t: Table): Table {
    map k | k in t && Cell(t[k], StatusColumn) == Word(Active) :: t[k]
  }

  function ReferringRows(op: Operation, t: Table, c: Column, keys: set<Id>): Table {
    map k | k in t && InLeague(op, t[k]) && RefersTo(t[k], c, keys) :: t[k]
  }

  function Capture(op: Operation, db: Database): Snapshot {
    var ownerships := TeamRows(op, TableOf(db, Ownerships));
    var contracts := ActiveRows(TeamRows(op, TableOf(db, Contracts)));
    Snapshot(LeagueTeams(op, db),
             TeamRows(op, TableOf(db, ManagerAssignments)),
             ownerships,
             contracts,
             ReferringRows(op, TableOf(db, ContractYears), ContractColumn, contracts.Keys),
             ReferringRows(op, TableOf(db, DisplayOrder), OwnershipColumn, ownerships.Keys),
             TeamRows(op, TableOf(db, DraftPicks)),
             SeasonRows(op, TableOf(db, Matchups)),
             SeasonRows(op, TableOf(db, Protected(0))))
  }

  /** The checks on captured rows; the remaining ones are in `guardsHold`. */
  predicate Inspected(op: Operation, x: Snapshot) {
    && op.teamIds <= x.teams.Keys
    && |x.teams| == op.survivors + |op.teamIds|
    && (forall k | k in x.teams :: Cell(x.teams[k], StatusColumn) == Word(Active))
    && (forall k | k in x.assignments :: Cell(x.assignments[k], StatusColumn) != Word(Pending))
    && (forall k | k in x.picks :: Cell(x.picks[k], StatusColumn) == Word(Unused))
    && (forall k | k in x.matches :: Cell(x.matches[k], StatusColumn) == Word(Scheduled))
  }

  function Targets(op: Operation, x: Snapshot): Table {
    map k | k in x.teams && k in op.teamIds :: x.teams[k]
  }

  function Survivors(op: Operation, x: Snapshot): Table {
    map k | k in x.teams && k !in op.teamIds :: x.teams[k]
  }

  /** Assignments still in force when captured. */
  function Live(x: Snapshot): Table {
    map k | k in x.assignments && Cell(x.assignments[k], StatusColumn) == Word(Accepted)
            && Cell(x.assignments[k], EndedColumn) == Null :: x.assignments[k]
  }

  /** Contract years the removal can eliminate: those current or future. */
  function Eliminable(x: Snapshot): Table {
    map k | k in x.years && (Cell(x.years[k], StatusColumn) == Word(Current)
                             || Cell(x.years[k], StatusColumn) == Word(Future)) :: x.years[k]
  }

  // ---------- row changes ----------

  function Bumped(row: Row, amount: int): Value {
    match Cell(row, VersionColumn)
    case Num(n) => Num(n + amount)
    case v => v
  }

  datatype Change = TeamChange | AssignmentChange | ContractChange | YearChange | PickChange

  function FieldsOf(change: Change): set<Column> {
    match change
    case AssignmentChange => {StatusColumn, EndedColumn, VersionColumn}
    case YearChange => {StatusColumn, RolloverColumn}
    case _ => {StatusColumn, UpdatedColumn, VersionColumn}
  }

  function RemovalWrites(change: Change, row: Row, at: int): (changes: Row)
    ensures changes.Keys == FieldsOf(change)
  {
    match change
    case TeamChange => map[StatusColumn := Word(Erased), UpdatedColumn := Num(at), VersionColumn := Bumped(row, 1)]
    case AssignmentChange => map[StatusColumn := Word(Ended), EndedColumn := Num(at), VersionColumn := Bumped(row, 1)]
    case ContractChange =>
      map[StatusColumn := Word(Cancelled), UpdatedColumn := Num(at), VersionColumn := Bumped(row, 1)]
    case YearChange => map[StatusColumn := Word(Eliminated), RolloverColumn := Num(at)]
    case PickChange => map[StatusColumn := Word(Forfeited), UpdatedColumn := Num(at), VersionColumn := Bumped(row, 1)]
  }

  function CompensationWrites(change: Change, row: Row, now: int): (changes: Row)
    ensures changes.Keys == FieldsOf(change)
  {
    match change
    case TeamChange =>
      map[StatusColumn := Cell(row, StatusColumn), UpdatedColumn := Num(now), VersionColumn := Bumped(row, 2)]
    case AssignmentChange => map[StatusColumn := Word(Accepted), EndedColumn := Null, VersionColumn := Bumped(row, 2)]
    case ContractChange => map[StatusColumn := Word(Active), UpdatedColumn := Num(now), VersionColumn := Bumped(row, 2)]
    case YearChange => map[StatusColumn := Cell(row, StatusColumn), RolloverColumn := Cell(row, RolloverColumn)]
    case PickChange => map[StatusColumn := Word(Unused), UpdatedColumn := Num(now), VersionColumn := Bumped(row, 2)]
  }

  /** The row as the removal leaves it. */
  function Removed(change: Change, row: Row, at: int): Row {
    row + RemovalWrites(change, row, at)
  }

  /** The removed row with the columns that the compensation writes. */
  function Compensated(change: Change, row: Row, at: int, now: int): Row {
    Removed(change, row, at) + CompensationWrites(change, row, now)
  }

  /** A deleted row as it is put back. */
  function Reinserted(row: Row, now: int): Row {
    row + map[VersionColumn := Bumped(row, 1), UpdatedColumn := Num(now)]
  }

  function RemovedRows(change: Change, rows: Table, at: int): Table {
    map k | k in rows :: Removed(change, rows[k], at)
  }

  function CompensatedRows(change: Change, rows: Table, at: int, now: int): Table {
    map k | k in rows :: Compensated(change, rows[k], at, now)
  }

  function ReinsertedRows(rows: Table, now: int): Table {
    map k | k in rows :: Reinserted(rows[k], now)
  }

  // ---------- the two write scopes ----------

  function UpdateScopes(op: Operation, x: Snapshot): map<TableName, UpdateScope> {
    map[Teams := UpdateScope(op.teamIds, FieldsOf(TeamChange)),
        ManagerAssignments := UpdateScope(Live(x).Keys, FieldsOf(AssignmentChange)),
        Contracts := UpdateScope(x.contracts.Keys, FieldsOf(ContractChange)),
        ContractYears := UpdateScope(x.years.Keys, FieldsOf(YearChange)),
        DraftPicks := UpdateScope(x.picks.Keys, FieldsOf(PickChange))]
  }

  function ApplyScope(op: Operation, x: Snapshot, newMatches: Table, records: Table): Scope {
    Scope(op.leagueId,
          map[Evidence(0) := records.Keys, Matchups := newMatches.Keys],
          UpdateScopes(op, x),
          map[Ownerships := x.ownerships.Keys, DisplayOrder := x.display.Keys, Matchups := x.matches.Keys])
  }

  function RollbackScope(op: Operation, x: Snapshot, newMatches: Table): Scope {
    Scope(op.leagueId,
          map[Ownerships := x.ownerships.Keys, DisplayOrder := x.display.Keys, Matchups := x.matches.Keys],
          UpdateScopes(op, x),
          map[Matchups := newMatches.Keys])
  }

  /** Neither direction may update an id or a league, which is what its fence needs to be sound. */
  lemma ScopesPinIdentity(op: Operation, x: Snapshot, newMatches: Table, records: Table, schema: Schema)
    ensures PinsIdentity(ApplyScope(op, x, newMatches, records), schema)
    ensures PinsIdentity(RollbackScope(op, x, newMatches), schema)
  {
    hide Live;
    assert forall change: Change :: IdColumn !in FieldsOf(change) && LeagueColumn !in FieldsOf(change);
  }

  // ---------- specification ----------

  /** The tables an operation writes. */
  datatype Written = Written(teams: Table, assignments: Table, contracts: Table, years: Table, ownerships: Table,
                             display: Table, picks: Table, matches: Table, evidence: Table)

  /** The database with its written tables in place of the old ones. */
  function StoreTables(db: Database, w: Written): Database {
    map t | t in db ::
      match t
      case Teams => w.teams
      case ManagerAssignments => w.assignments
      case Contracts => w.contracts
      case ContractYears => w.years
      case Ownerships => w.ownerships
      case DisplayOrder => w.display
      case DraftPicks => w.picks
      case Matchups => w.matches
      case Evidence(n) => if n == 0 then w.evidence else db[t]
      case Protected(_) => db[t]
      case OtherTable(_) => db[t]
  }

  /** The tables after the removal's writes. */
  function RemovalWritten(op: Operation, db: Database, x: Snapshot, newMatches: Table, records: Table,
                          now: int): Written {
    Written(
      TableOf(db, Teams) + RemovedRows(TeamChange, Targets(op, x), now),
      TableOf(db, ManagerAssignments) + RemovedRows(AssignmentChange, Live(x), now),
      TableOf(db, Contracts) + RemovedRows(ContractChange, x.contracts, now),
      TableOf(db, ContractYears) + RemovedRows(YearChange, Eliminable(x), now),
      TableOf(db, Ownerships) - x.ownerships.Keys,
      TableOf(db, DisplayOrder) - x.display.Keys,
      TableOf(db, DraftPicks) + RemovedRows(PickChange, x.picks, now),
      TableOf(db, Matchups) - x.matches.Keys + newMatches,
      TableOf(db, Evidence(0)) + records)
  }

  function RemovalOf(op: Operation, db: Database, x: Snapshot, newMatches: Table, records: Table, now: int): Database {
    StoreTables(db, RemovalWritten(op, db, x, newMatches, records, now))
  }

  /** The tables after the compensation's writes. */
  function CompensationWritten(op: Operation, db: Database, r: Receipt, now: int): Written {
    var x, at := r.before, r.appliedAtMs;
    Written(
      TableOf(db, Teams) + CompensatedRows(TeamChange, Targets(op, x), at, now),
      TableOf(db, ManagerAssignments) + CompensatedRows(AssignmentChange, Live(x), at, now),
      TableOf(db, Contracts) + CompensatedRows(ContractChange, x.contracts, at, now),
      TableOf(db, ContractYears) + CompensatedRows(YearChange, x.years, at, now),
      TableOf(db, Ownerships) + ReinsertedRows(x.ownerships, now),
      TableOf(db, DisplayOrder) + x.display,
      TableOf(db, DraftPicks) + CompensatedRows(PickChange, x.picks, at, now),
      TableOf(db, Matchups) - r.newMatches.Keys + ReinsertedRows(x.matches, now),
      TableOf(db, Evidence(0)))
  }

  function CompensationOf(op: Operation, db: Database, r: Receipt, now: int): Database {
    StoreTables(db, CompensationWritten(op, db, r, now))
  }

  /** The rows of `expected` stand in the table exactly so. */
  predicate Stand(table: Table, expected: Table) {
    forall k | k in expected :: k in table && table[k] == expected[k]
  }

  /** `verifyApplied`: the removal's effects are all still in place. */
  predicate Verified(op: Operation, db: Database, r: Receipt) {
    && SeasonRows(op, TableOf(db, Protected(0))) == r.before.calendar
    && SeasonRows(op, TableOf(db, Matchups)) == r.newMatches
    && |ActiveRows(LeagueTeams(op, db))| == op.survivors
    && TeamRows(op, TableOf(db, Ownerships)) == map[]
    && ActiveRows(TeamRows(op, TableOf(db, Contracts))) == map[]
    && (forall k | k in TeamRows(op, TableOf(db, DraftPicks)) ::
          Cell(TableOf(db, DraftPicks)[k], StatusColumn) == Word(Forfeited))
    && Stand(TableOf(db, ManagerAssignments),
             r.before.assignments + RemovedRows(AssignmentChange, Live(r.before), r.appliedAtMs))
    && Stand(TableOf(db, Teams), Survivors(op, r.before))
  }

  /** Every row the compensation rewrites is as the removal left it, and every row it puts back is absent. */
  predicate Compensable(op: Operation, db: Database, r: Receipt) {
    var x, at := r.before, r.appliedAtMs;
    && Stand(TableOf(db, Teams), RemovedRows(TeamChange, Targets(op, x), at))
    && Stand(TableOf(db, ManagerAssignments), RemovedRows(AssignmentChange, Live(x), at))
    && Stand(TableOf(db, Contracts), RemovedRows(ContractChange, x.contracts, at))
    && Stand(TableOf(db, ContractYears), RemovedRows(YearChange, x.years, at))
    && x.ownerships.Keys !! TableOf(db, Ownerships).Keys
    && x.display.Keys !! TableOf(db, DisplayOrder).Keys
    && Stand(TableOf(db, DraftPicks), RemovedRows(PickChange, x.picks, at))
    && x.matches.Keys !! (TableOf(db, Matchups).Keys - r.newMatches.Keys)
  }

  /** The writes of a removal, its verification and the end of its transaction. */
  function Remove(op: Operation, s: State, q: Request): (State, Outcome) {
    var x := Capture(op, s.db);
    if !(q.records.Keys !! TableOf(s.db, Evidence(0)).Keys)
       || !(q.newMatches.Keys !! (TableOf(s.db, Matchups).Keys - x.matches.Keys)) then (s, Refused(WriteFailed))
    else
      var r := Receipt(q.manifest, x, q.newMatches, q.nowMs);
      var db := RemovalOf(op, s.db, x, q.newMatches, q.records, q.nowMs);
      if !Verified(op, db, r) then (s, Refused(NotVerified))
      else if !q.commits then (s, Refused(DidNotCommit))
      else (State(db, Some(r), false), Done)
  }

  function Apply(op: Operation, s: State, q: Request): (State, Outcome) {
    var x := Capture(op, s.db);
    if !q.authorized then (s, Refused(NotAuthorized))
    else if s.reversed then (s, Refused(AlreadyReversed))
    else if s.receipt.Some? then
      (s, if s.receipt.value.manifest == q.manifest then Replayed else Refused(ReplayConflict))
    else if q.nowMs < q.manifest.createdAtMs || q.nowMs > q.manifest.expiresAtMs then (s, Refused(StalePreview))
    else if !q.guardsHold || !Inspected(op, x) || x != q.manifest.before then (s, Refused(StateChanged))
    else Remove(op, s, q)
  }

  /** The writes of a compensation and the end of its transaction. */
  function Compensate(op: Operation, s: State, r: Receipt, q: Request): (State, Outcome) {
    if !Compensable(op, s.db, r) then (s, Refused(WriteFailed))
    else if !q.commits then (s, Refused(DidNotCommit))
    else (State(CompensationOf(op, s.db, r, q.nowMs), s.receipt, true), Done)
  }

  function Rollback(op: Operation, s: State, q: Request): (State, Outcome) {
    if !q.authorized then (s, Refused(NotAuthorized))
    else if s.reversed then (s, Replayed)
    else if s.receipt.None? then (s, Refused(ReceiptMissing))
    else
      var r := s.receipt.value;
      if q.nowMs < r.appliedAtMs || q.nowMs > r.appliedAtMs + ROLLBACK_WINDOW_MS then (s, Refused(WindowExpired))
      else if !Verified(op, s.db, r) then (s, Refused(NotVerified))
      else if !q.guardsHold then (s, Refused(StateChanged))
      else Compensate(op, s, r, q)
  }
}

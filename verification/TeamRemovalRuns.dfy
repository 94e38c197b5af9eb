/** Removal and compensation among other writers: what holds over every run of calls and foreign steps. */
module TeamRemovalRuns {
  import opened Collections
  import opened Store
  import opened TeamRemoval

  /** A foreign step may leave any database behind; the operation's own receipts are append-only evidence. */
  datatype Event = CallApply(q: Request) | CallRollback(q: Request) | ForeignStep(db: Database)

  function After(op: Operation, s: State, e: Event): State {
    match e
    case CallApply(q) => Apply(op, s, q).0
    case CallRollback(q) => Rollback(op, s, q).0
    case ForeignStep(db) => s.(db := db)
  }

  function AfterAll(op: Operation, s: State, events: seq<Event>): State {
    if events == [] then s
    else After(op, AfterAll(op, s, events[..|events| - 1]), events[|events| - 1])
  }

  datatype Phase = Absent | Applied | Reversed

  function PhaseOf(s: State): Phase {
    if s.reversed then Reversed else if s.receipt.Some? then Applied else Absent
  }

  function Rank(p: Phase): nat {
    match p case Absent => 0 case Applied => 1 case Reversed => 2
  }

  // ---------- one call ----------

  /**
   * A call that is refused or answered from the record writes nothing at all. The only calls
   * that write take an absent operation to applied, or an applied one to reversed.
   */
  lemma OnlyTwoCallsWrite(op: Operation, s: State, q: Request)
    ensures
      var (s', outcome) := Apply(op, s, q);
      && (outcome != Done ==> s' == s)
      && (outcome == Done ==> PhaseOf(s) == Absent && PhaseOf(s') == Applied
                              && s'.receipt == Some(Receipt(q.manifest, Capture(op, s.db), q.newMatches, q.nowMs)))
      && (outcome == Replayed <==> q.authorized && PhaseOf(s) == Applied && s.receipt.value.manifest == q.manifest)
    ensures
      var (s', outcome) := Rollback(op, s, q);
      && (outcome != Done ==> s' == s)
      && (outcome == Done ==> PhaseOf(s) == Applied && PhaseOf(s') == Reversed && s'.receipt == s.receipt)
      && (outcome == Replayed <==> q.authorized && PhaseOf(s) == Reversed)
  {
    hide Capture, Verified, RemovalOf, CompensationOf, Compensable, Inspected;
  }

  // ---------- whole runs ----------

  /** Over any run the phase only advances, and a receipt once written never changes. */
  lemma {:induction false} PhasesOnlyAdvance(op: Operation, s: State, events: seq<Event>, i: nat)
    requires i <= |events|
    ensures Rank(PhaseOf(AfterAll(op, s, events[..i]))) <= Rank(PhaseOf(AfterAll(op, s, events)))
    ensures AfterAll(op, s, events[..i]).receipt.Some? ==>
              AfterAll(op, s, events).receipt == AfterAll(op, s, events[..i]).receipt
    decreases |events|
  {
    if i == |events| {
      assert events[..i] == events;
    } else {
      var n := |events| - 1;
      assert events[..n][..i] == events[..i];
      PhasesOnlyAdvance(op, s, events[..n], i);
      hide Apply, Rollback;
      match events[n] {
        case CallApply(q) => OnlyTwoCallsWrite(op, AfterAll(op, s, events[..n]), q);
        case CallRollback(q) => OnlyTwoCallsWrite(op, AfterAll(op, s, events[..n]), q);
        case ForeignStep(_) =>
      }
    }
  }

  lemma {:induction false} ReversedHasReceipt(op: Operation, s: State, events: seq<Event>)
    requires PhaseOf(s) == Absent
    ensures AfterAll(op, s, events).reversed ==> AfterAll(op, s, events).receipt.Some?
  {
    if events != [] {
      var n := |events| - 1;
      ReversedHasReceipt(op, s, events[..n]);
      hide Apply, Rollback;
      match events[n] {
        case CallApply(q) => OnlyTwoCallsWrite(op, AfterAll(op, s, events[..n]), q);
        case CallRollback(q) => OnlyTwoCallsWrite(op, AfterAll(op, s, events[..n]), q);
        case ForeignStep(_) =>
      }
    }
  }

  /** In a run that starts without the operation, the receipt is the capture of one moment of that run. */
  lemma {:induction false} ReceiptIsACapture(op: Operation, s: State, events: seq<Event>) returns (i: nat)
    requires PhaseOf(s) == Absent && s.receipt.None? && AfterAll(op, s, events).receipt.Some?
    ensures i < |events| && events[i].CallApply?
    ensures
      var then' := AfterAll(op, s, events[..i]);
      var r := AfterAll(op, s, events).receipt.value;
      && PhaseOf(then') == Absent && Apply(op, then', events[i].q).1 == Done
      && r.before == Capture(op, then'.db) && Inspected(op, r.before)
      && r.newMatches == events[i].q.newMatches && r.appliedAtMs == events[i].q.nowMs
  {
    var n := |events| - 1;
    var mid := AfterAll(op, s, events[..n]);
    if mid.receipt.Some? {
      i := ReceiptIsACapture(op, s, events[..n]);
      assert events[..n][..i] == events[..i];
      PhasesOnlyAdvance(op, s, events, n);
    } else {
      hide Capture, Verified, RemovalOf, CompensationOf, Compensable, Inspected;
      i := n;
      ReversedHasReceipt(op, s, events[..n]);
      match events[n] {
        case CallApply(q) => OnlyTwoCallsWrite(op, mid, q);
        case CallRollback(q) => OnlyTwoCallsWrite(op, mid, q); assert false;
        case ForeignStep(_) => assert false;
      }
    }
  }

  // ---------- what the compensation restores ----------

  /** Every column as it was, except the version, which has grown, and the time of the last update. */
  ghost predicate RestoredRow(was: Row, now: Row) {
    && (forall c :: c != VersionColumn && c != UpdatedColumn ==> Cell(now, c) == Cell(was, c))
    && (Cell(was, VersionColumn).Num? ==>
          Cell(now, VersionColumn).Num? && Cell(now, VersionColumn).n > Cell(was, VersionColumn).n)
  }

  ghost predicate RestoredTable(was: Table, table: Table) {
    forall k :: k in was ==> k in table && RestoredRow(was[k], table[k])
  }

  /** Every column as it was, the version included. */
  ghost predicate SameRows(was: Table, table: Table) {
    forall k :: k in was ==> k in table && forall c :: Cell(table[k], c) == Cell(was[k], c)
  }

  /** What capture and inspection guarantee of the statuses that compensation writes back. */
  predicate CapturedStatuses(x: Snapshot) {
    && (forall k | k in x.contracts :: Cell(x.contracts[k], StatusColumn) == Word(Active))
    && (forall k | k in x.picks :: Cell(x.picks[k], StatusColumn) == Word(Unused))
  }

  lemma CaptureHasStatuses(op: Operation, db: Database)
    requires Inspected(op, Capture(op, db))
    ensures CapturedStatuses(Capture(op, db))
  {
    hide OfTeams, InLeague, RefersTo, OfSeason;
  }

  /** The status a change wrote over is the one compensation puts back. */
  predicate PutsBack(change: Change, row: Row) {
    match change
    case AssignmentChange => Cell(row, StatusColumn) == Word(Accepted) && Cell(row, EndedColumn) == Null
    case ContractChange => Cell(row, StatusColumn) == Word(Active)
    case PickChange => Cell(row, StatusColumn) == Word(Unused)
    case _ => true
  }

  lemma CompensatedRowIsRestored(change: Change, row: Row, at: int, now: int)
    requires PutsBack(change, row) && change != YearChange
    ensures RestoredRow(row, Compensated(change, row, at, now))
  {
    match change
    case TeamChange => case AssignmentChange => case ContractChange => case PickChange =>
  }

  lemma CompensatedRowsAreRestored(change: Change, rows: Table, table: Table, at: int, now: int)
    requires change != YearChange && forall k :: k in rows ==> PutsBack(change, rows[k])
    ensures RestoredTable(rows, table + CompensatedRows(change, rows, at, now))
  {
    hide RestoredRow, Compensated, PutsBack;
    forall k | k in rows ensures RestoredRow(rows[k], Compensated(change, rows[k], at, now)) {
      CompensatedRowIsRestored(change, rows[k], at, now);
    }
  }

  lemma CompensatedYearsAreRestored(rows: Table, table: Table, at: int, now: int)
    ensures SameRows(rows, table + CompensatedRows(YearChange, rows, at, now))
  {
    forall k | k in rows ensures forall c :: Cell(Compensated(YearChange, rows[k], at, now), c) == Cell(rows[k], c) {
    }
  }

  lemma ReinsertedRowsAreRestored(rows: Table, table: Table, now: int)
    ensures RestoredTable(rows, table + ReinsertedRows(rows, now))
  {
    forall k | k in rows ensures RestoredRow(rows[k], Reinserted(rows[k], now)) {
    }
  }

  /** The state after a successful rollback, table by table against the captured rows. */
  ghost predicate Restored(op: Operation, x: Snapshot, db: Database) {
    && RestoredTable(Targets(op, x), TableOf(db, Teams))
    && SameRows(Survivors(op, x), TableOf(db, Teams))
    && RestoredTable(Live(x), TableOf(db, ManagerAssignments))
    && (forall k :: k in x.assignments && k !in Live(x) ==>
                      k in TableOf(db, ManagerAssignments) && TableOf(db, ManagerAssignments)[k] == x.assignments[k])
    && RestoredTable(x.contracts, TableOf(db, Contracts))
    && SameRows(x.years, TableOf(db, ContractYears))
    && RestoredTable(x.ownerships, TableOf(db, Ownerships))
    && SameRows(x.display, TableOf(db, DisplayOrder))
    && RestoredTable(x.picks, TableOf(db, DraftPicks))
    && RestoredTable(x.matches, TableOf(db, Matchups))
  }

  /** Every table the operation knows about is stored. */
  predicate HasTables(db: Database) {
    {Teams, ManagerAssignments, Contracts, ContractYears, Ownerships, DisplayOrder, DraftPicks, Matchups} <= db.Keys
  }

  lemma StoredTeams(db: Database, w: Written)
    requires HasTables(db)
    ensures TableOf(StoreTables(db, w), Teams) == w.teams
    ensures TableOf(StoreTables(db, w), ManagerAssignments) == w.assignments
  {
  }

  lemma StoredContracts(db: Database, w: Written)
    requires HasTables(db)
    ensures TableOf(StoreTables(db, w), Contracts) == w.contracts
    ensures TableOf(StoreTables(db, w), ContractYears) == w.years
  {
  }

  lemma StoredOwnerships(db: Database, w: Written)
    requires HasTables(db)
    ensures TableOf(StoreTables(db, w), Ownerships) == w.ownerships
    ensures TableOf(StoreTables(db, w), DisplayOrder) == w.display
  {
  }

  lemma StoredPicks(db: Database, w: Written)
    requires HasTables(db)
    ensures TableOf(StoreTables(db, w), DraftPicks) == w.picks
    ensures TableOf(StoreTables(db, w), Matchups) == w.matches
  {
  }

  lemma StoredTables(db: Database, w: Written)
    requires HasTables(db)
    ensures
      var db' := StoreTables(db, w);
      && TableOf(db', Teams) == w.teams && TableOf(db', ManagerAssignments) == w.assignments
      && TableOf(db', Contracts) == w.contracts && TableOf(db', ContractYears) == w.years
      && TableOf(db', Ownerships) == w.ownerships && TableOf(db', DisplayOrder) == w.display
      && TableOf(db', DraftPicks) == w.picks && TableOf(db', Matchups) == w.matches
  {
    hide StoreTables, TableOf, HasTables;
    StoredTeams(db, w);
    StoredContracts(db, w);
    StoredOwnerships(db, w);
    StoredPicks(db, w);
  }

  lemma DisplayRestored(rows: Table, table: Table)
    ensures SameRows(rows, table + rows)
  {
  }

  lemma TargetsAndLivePutBack(op: Operation, x: Snapshot)
    requires CapturedStatuses(x)
    ensures forall k :: k in Targets(op, x) ==> PutsBack(TeamChange, Targets(op, x)[k])
    ensures forall k :: k in Live(x) ==> PutsBack(AssignmentChange, Live(x)[k])
    ensures forall k :: k in x.contracts ==> PutsBack(ContractChange, x.contracts[k])
    ensures forall k :: k in x.picks ==> PutsBack(PickChange, x.picks[k])
  {
  }

  lemma WrittenRowsAreRestored(op: Operation, db: Database, r: Receipt, now: int)
    requires CapturedStatuses(r.before)
    ensures
      var x, w := r.before, CompensationWritten(op, db, r, now);
      && RestoredTable(Targets(op, x), w.teams) && RestoredTable(Live(x), w.assignments)
      && RestoredTable(x.contracts, w.contracts) && SameRows(x.years, w.years)
      && RestoredTable(x.ownerships, w.ownerships) && SameRows(x.display, w.display)
      && RestoredTable(x.picks, w.picks) && RestoredTable(x.matches, w.matches)
  {
    var x, at := r.before, r.appliedAtMs;
    hide TableOf, CompensatedRows, ReinsertedRows, Targets, Live, RestoredTable, SameRows, CapturedStatuses, PutsBack;
    TargetsAndLivePutBack(op, x);
    CompensatedRowsAreRestored(TeamChange, Targets(op, x), TableOf(db, Teams), at, now);
    CompensatedRowsAreRestored(AssignmentChange, Live(x), TableOf(db, ManagerAssignments), at, now);
    CompensatedRowsAreRestored(ContractChange, x.contracts, TableOf(db, Contracts), at, now);
    CompensatedYearsAreRestored(x.years, TableOf(db, ContractYears), at, now);
    ReinsertedRowsAreRestored(x.ownerships, TableOf(db, Ownerships), now);
    DisplayRestored(x.display, TableOf(db, DisplayOrder));
    CompensatedRowsAreRestored(PickChange, x.picks, TableOf(db, DraftPicks), at, now);
    ReinsertedRowsAreRestored(x.matches, TableOf(db, Matchups) - r.newMatches.Keys, now);
  }

  lemma VerifiedRows(op: Operation, db: Database, r: Receipt)
    requires Verified(op, db, r)
    ensures Stand(TableOf(db, Teams), Survivors(op, r.before))
    ensures forall k :: k in r.before.assignments && k !in Live(r.before) ==>
                          k in TableOf(db, ManagerAssignments)
                          && TableOf(db, ManagerAssignments)[k] == r.before.assignments[k]
  {
    hide SeasonRows, ActiveRows, LeagueTeams, TeamRows, Survivors, Live, Removed;
  }

  lemma RowsBesidePatch(table: Table, patch: Table, rows: Table)
    requires Stand(table, rows) && patch.Keys !! rows.Keys
    ensures SameRows(rows, table + patch)
  {
  }

  /** Teams that stay and assignments already over were verified unchanged and are not written. */
  lemma StandingRowsKept(op: Operation, db: Database, r: Receipt, now: int)
    requires HasTables(db) && Verified(op, db, r)
    ensures
      var x, db' := r.before, CompensationOf(op, db, r, now);
      && SameRows(Survivors(op, x), TableOf(db', Teams))
      && (forall k :: k in x.assignments && k !in Live(x) ==>
                        k in TableOf(db', ManagerAssignments)
                        && TableOf(db', ManagerAssignments)[k] == x.assignments[k])
  {
    hide StoreTables, Compensated, Cell, HasTables;
    var x := r.before;
    VerifiedRows(op, db, r);
    hide Verified;
    StoredTables(db, CompensationWritten(op, db, r, now));
    hide TableOf, Removed;
    RowsBesidePatch(TableOf(db, Teams), CompensatedRows(TeamChange, Targets(op, x), r.appliedAtMs, now),
                    Survivors(op, x));
  }

  lemma CompensationRestores(op: Operation, db: Database, r: Receipt, now: int)
    requires HasTables(db) && CapturedStatuses(r.before) && Verified(op, db, r)
    ensures Restored(op, r.before, CompensationOf(op, db, r, now))
  {
    hide Verified, StoreTables, TableOf, CompensationWritten, Targets, Live, Survivors, RestoredTable, SameRows,
      HasTables, CapturedStatuses;
    StandingRowsKept(op, db, r, now);
    StoredTables(db, CompensationWritten(op, db, r, now));
    WrittenRowsAreRestored(op, db, r, now);
  }

  /**
   * A rollback that succeeds has given every captured row back, whatever happened in between:
   * all columns equal, except that versions have grown and update times have moved.
   */
  lemma RollbackRestores(op: Operation, s: State, q: Request)
    requires HasTables(s.db) && s.receipt.Some? && CapturedStatuses(s.receipt.value.before)
    requires Rollback(op, s, q).1 == Done
    ensures Restored(op, s.receipt.value.before, Rollback(op, s, q).0.db)
  {
    hide Restored, Verified, CompensationOf, Compensable, HasTables, CapturedStatuses;
    CompensationRestores(op, s.db, s.receipt.value, q.nowMs);
  }

  // ---------- what the compensation leaves alone ----------

  /** The rows a receipt entitles its rollback to write. */
  predicate Entitled(op: Operation, r: Receipt, t: TableName, k: Id) {
    match t
    case Teams => k in Targets(op, r.before)
    case ManagerAssignments => k in Live(r.before)
    case Contracts => k in r.before.contracts
    case ContractYears => k in r.before.years
    case Ownerships => k in r.before.ownerships
    case DisplayOrder => k in r.before.display
    case DraftPicks => k in r.before.picks
    case Matchups => k in r.before.matches || k in r.newMatches
    case _ => false
  }

  /** The rows an applied removal writes, which is what its receipt will cover, and its records. */
  predicate Removable(op: Operation, r: Receipt, records: Table, t: TableName, k: Id) {
    Entitled(op, r, t, k) || (t == Evidence(0) && k in records)
  }

  lemma PatchesSpare(op: Operation, db: Database, r: Receipt, records: Table, t: TableName, k: Id)
    requires !Removable(op, r, records, t, k)
    requires t.Teams? || t.ManagerAssignments? || t.Contracts? || t.ContractYears? || t.DraftPicks?
    ensures
      var db' := RemovalOf(op, db, r.before, r.newMatches, records, r.appliedAtMs);
      && (k in TableOf(db', t) <==> k in TableOf(db, t))
      && (k in TableOf(db', t) ==> TableOf(db', t)[k] == TableOf(db, t)[k])
  {
    hide Targets, Live, Removed, Cell;
  }

  lemma RestIsSpared(op: Operation, db: Database, r: Receipt, records: Table, t: TableName, k: Id)
    requires !Removable(op, r, records, t, k)
    requires !(t.Teams? || t.ManagerAssignments? || t.Contracts? || t.ContractYears? || t.DraftPicks?)
    ensures
      var db' := RemovalOf(op, db, r.before, r.newMatches, records, r.appliedAtMs);
      && (k in TableOf(db', t) <==> k in TableOf(db, t))
      && (k in TableOf(db', t) ==> TableOf(db', t)[k] == TableOf(db, t)[k])
      && (t.Protected? || t.OtherTable? ==> TableOf(db', t) == TableOf(db, t))
  {
    hide Targets, Live, Removed, Cell;
    if t in db {
      match t
      case Ownerships => case DisplayOrder => case Matchups => case Evidence(_) => case Protected(_) =>
      case OtherTable(_) => case _ =>
    }
  }

  lemma RemovalSpares(op: Operation, db: Database, r: Receipt, records: Table, t: TableName, k: Id)
    requires !Removable(op, r, records, t, k)
    ensures
      var db' := RemovalOf(op, db, r.before, r.newMatches, records, r.appliedAtMs);
      && (k in TableOf(db', t) <==> k in TableOf(db, t))
      && (k in TableOf(db', t) ==> TableOf(db', t)[k] == TableOf(db, t)[k])
      && (t.Protected? || t.OtherTable? ==> TableOf(db', t) == TableOf(db, t))
  {
    hide RemovalOf, Removable, TableOf;
    if t.Teams? || t.ManagerAssignments? || t.Contracts? || t.ContractYears? || t.DraftPicks? {
      PatchesSpare(op, db, r, records, t, k);
    } else {
      RestIsSpared(op, db, r, records, t, k);
    }
  }

  /** The removal leaves every other row of every table, and the protected tables, as they stood. */
  lemma ForeignRowsSurviveRemoval(op: Operation, s: State, q: Request, t: TableName, k: Id)
    requires !Removable(op, Receipt(q.manifest, Capture(op, s.db), q.newMatches, q.nowMs), q.records, t, k)
    ensures
      var db' := Apply(op, s, q).0.db;
      && (k in TableOf(db', t) <==> k in TableOf(s.db, t))
      && (k in TableOf(db', t) ==> TableOf(db', t)[k] == TableOf(s.db, t)[k])
    ensures t.Protected? || t.OtherTable? ==> TableOf(Apply(op, s, q).0.db, t) == TableOf(s.db, t)
  {
    hide Verified, Capture, RemovalOf, Removable, Inspected;
    RemovalSpares(op, s.db, Receipt(q.manifest, Capture(op, s.db), q.newMatches, q.nowMs), q.records, t, k);
  }

  lemma CompensationSpares(op: Operation, db: Database, r: Receipt, now: int, t: TableName, k: Id)
    requires !Entitled(op, r, t, k)
    ensures
      var db' := CompensationOf(op, db, r, now);
      && (k in TableOf(db', t) <==> k in TableOf(db, t))
      && (k in TableOf(db', t) ==> TableOf(db', t)[k] == TableOf(db, t)[k])
    ensures t.Protected? || t.OtherTable? ==> TableOf(CompensationOf(op, db, r, now), t) == TableOf(db, t)
  {
    hide Targets, Live, Compensated, Reinserted;
    if t in db {
      match t
      case Teams => case ManagerAssignments => case Contracts => case ContractYears => case Ownerships =>
      case DisplayOrder => case DraftPicks => case Matchups => case Evidence(_) => case Protected(_) =>
      case OtherTable(_) =>
    }
  }

  /**
   * Whatever other writers did before the rollback survives it: outside the captured rows and
   * the replaced schedule every row of every table is left exactly as it stood, and the
   * protected tables are left whole.
   */
  lemma ForeignWritesSurviveRollback(op: Operation, s: State, q: Request, t: TableName, k: Id)
    requires s.receipt.Some? && !Entitled(op, s.receipt.value, t, k)
    ensures
      var db' := Rollback(op, s, q).0.db;
      && (k in TableOf(db', t) <==> k in TableOf(s.db, t))
      && (k in TableOf(db', t) ==> TableOf(db', t)[k] == TableOf(s.db, t)[k])
    ensures t.Protected? || t.OtherTable? ==> TableOf(Rollback(op, s, q).0.db, t) == TableOf(s.db, t)
  {
    hide Verified, Compensable, CompensationOf, Entitled;
    CompensationSpares(op, s.db, s.receipt.value, q.nowMs, t, k);
  }

  /**
   * Compensation under concurrency: run the operation's calls and foreign steps in any order
   * from a state without the operation. If a rollback then succeeds, there was one moment of
   * that run at which the removal was applied, and the rows captured then are all restored.
   */
  lemma CompensationUnderConcurrency(op: Operation, s: State, events: seq<Event>, q: Request) returns (i: nat)
    requires PhaseOf(s) == Absent && s.receipt.None?
    requires HasTables(AfterAll(op, s, events).db)
    requires Rollback(op, AfterAll(op, s, events), q).1 == Done
    ensures i < |events| && events[i].CallApply?
    ensures
      var applied := AfterAll(op, s, events[..i]);
      && Apply(op, applied, events[i].q).1 == Done
      && Restored(op, Capture(op, applied.db), Rollback(op, AfterAll(op, s, events), q).0.db)
  {
    var last := AfterAll(op, s, events);
    assert last.receipt.Some? by {
      hide Apply, Rollback;
      OnlyTwoCallsWrite(op, last, q);
    }
    hide Apply, Rollback, Restored, Capture, Inspected, AfterAll;
    i := ReceiptIsACapture(op, s, events);
    CaptureHasStatuses(op, AfterAll(op, s, events[..i]).db);
    RollbackRestores(op, last, q);
  }

  // ---------- when compensation is possible at all ----------

  /** Years the removal leaves unlike what the rollback expects: neither current nor future, nor eliminated just so. */
  predicate YearsCanBeRestored(x: Snapshot, at: int) {
    forall k | k in x.years :: k in Eliminable(x) || x.years[k] == Removed(YearChange, x.years[k], at)
  }

  lemma StandAfter(table: Table, rows: Table)
    ensures Stand(table + rows, rows)
  {
  }

  lemma GoneAfter(table: Table, gone: set<Id>, added: Table)
    ensures gone !! ((table - gone + added).Keys - added.Keys)
  {
  }

  lemma YearsStand(op: Operation, db: Database)
    ensures Stand(TableOf(db, ContractYears), Capture(op, db).years)
  {
  }

  lemma YearsInPlace(op: Operation, db: Database, at: int)
    ensures
      var x := Capture(op, db);
      Stand(TableOf(db, ContractYears) + RemovedRows(YearChange, Eliminable(x), at),
            RemovedRows(YearChange, x.years, at))
      <==> YearsCanBeRestored(x, at)
  {
    var x := Capture(op, db);
    YearsStand(op, db);
    hide Capture, Removed, TableOf;
    var table := TableOf(db, ContractYears) + RemovedRows(YearChange, Eliminable(x), at);
    forall k | k in x.years
      ensures k in table && table[k] == if k in Eliminable(x) then Removed(YearChange, x.years[k], at) else x.years[k]
    {
    }
  }

  lemma WritesLeaveItCompensable(op: Operation, db: Database, q: Request)
    requires HasTables(db)
    ensures
      var x, at := Capture(op, db), q.nowMs;
      Compensable(op, RemovalOf(op, db, x, q.newMatches, q.records, at), Receipt(q.manifest, x, q.newMatches, at))
      <==> YearsCanBeRestored(x, at)
  {
    var x, at := Capture(op, db), q.nowMs;
    YearsInPlace(op, db, at);
    hide Capture, StoreTables, RemovedRows, TableOf, Targets, Live, Eliminable, Stand, HasTables, YearsCanBeRestored;
    StoredTables(db, RemovalWritten(op, db, x, q.newMatches, q.records, at));
    StandAfter(TableOf(db, Teams), RemovedRows(TeamChange, Targets(op, x), at));
    StandAfter(TableOf(db, ManagerAssignments), RemovedRows(AssignmentChange, Live(x), at));
    StandAfter(TableOf(db, Contracts), RemovedRows(ContractChange, x.contracts, at));
    StandAfter(TableOf(db, DraftPicks), RemovedRows(PickChange, x.picks, at));
    GoneAfter(TableOf(db, Matchups), x.matches.Keys, q.newMatches);
  }

  /** Nothing but the year rows can stand in the way of a rollback made straight after the removal. */
  lemma RemovalLeavesItCompensable(op: Operation, s: State, q: Request)
    requires HasTables(s.db)
    requires Apply(op, s, q).1 == Done
    ensures
      var s' := Apply(op, s, q).0;
      && s'.receipt.Some?
      && (Compensable(op, s'.db, s'.receipt.value) <==> YearsCanBeRestored(s'.receipt.value.before, q.nowMs))
  {
    hide Capture, RemovalOf, Compensable, YearsCanBeRestored, Verified, Inspected;
    WritesLeaveItCompensable(op, s.db, q);
  }

  lemma RollbackDoneExactly(op: Operation, s: State, q: Request)
    requires !s.reversed && s.receipt.Some? && q.authorized && q.guardsHold && q.commits
    requires s.receipt.value.appliedAtMs <= q.nowMs <= s.receipt.value.appliedAtMs + ROLLBACK_WINDOW_MS
    ensures Rollback(op, s, q).1 == Done <==>
              Verified(op, s.db, s.receipt.value) && Compensable(op, s.db, s.receipt.value)
  {
  }

  lemma AppliedState(op: Operation, s: State, q: Request)
    requires Apply(op, s, q).1 == Done
    ensures
      var s' := Apply(op, s, q).0;
      && !s'.reversed && s'.receipt.Some? && Verified(op, s'.db, s'.receipt.value)
      && s'.receipt.value.before == Capture(op, s.db) && s'.receipt.value.appliedAtMs == q.nowMs
  {
    hide Capture, Verified, RemovalOf, Inspected;
  }

  /**
   * A rollback straight after the removal, in time and with its guards, succeeds exactly when
   * every captured contract year was current or future (or already read as eliminated at that
   * very instant).
   */
  lemma ImmediateRollbackSucceedsExactly(op: Operation, s: State, q: Request, back: Request)
    requires HasTables(s.db) && Apply(op, s, q).1 == Done
    requires back.authorized && back.guardsHold && back.commits
    requires q.nowMs <= back.nowMs <= q.nowMs + ROLLBACK_WINDOW_MS
    ensures
      Rollback(op, Apply(op, s, q).0, back).1 == Done <==> YearsCanBeRestored(Capture(op, s.db), q.nowMs)
  {
    hide Apply, Rollback, Capture, Compensable, Verified, YearsCanBeRestored, HasTables;
    RemovalLeavesItCompensable(op, s, q);
    AppliedState(op, s, q);
    RollbackDoneExactly(op, Apply(op, s, q).0, back);
  }

  // ---------- a completed year ----------

  predicate IsFinished(year: Row) {
    var status := Cell(year, StatusColumn);
    status != Word(Current) && status != Word(Future) && status != Word(Eliminated)
  }

  predicate YearStands(db: Database, k: Id, year: Row) {
    k in TableOf(db, ContractYears) && TableOf(db, ContractYears)[k] == year
  }

  /** A captured year that was neither current nor future nor eliminated still stands as captured. */
  predicate FinishedYearStands(op: Operation, s: State, k: Id) {
    && s.receipt.Some? && !s.reversed && k in s.receipt.value.before.years
    && YearStands(s.db, k, s.receipt.value.before.years[k]) && IsFinished(s.receipt.value.before.years[k])
  }

  lemma FinishedYearStopsRollback(op: Operation, s: State, q: Request, k: Id)
    requires FinishedYearStands(op, s, k)
    ensures Rollback(op, s, q).1 != Done && Rollback(op, s, q).0 == s && Apply(op, s, q).0 == s
  {
    var r := s.receipt.value;
    var removed := RemovedRows(YearChange, r.before.years, r.appliedAtMs);
    assert Cell(removed[k], StatusColumn) == Word(Eliminated);
    assert !Stand(TableOf(s.db, ContractYears), removed);
    hide Verified, Capture, RemovedRows, Stand, TableOf, CompensationOf, RemovalOf;
  }

  lemma FinishedYearIsLeft(op: Operation, db: Database, k: Id, at: int)
    requires k in Capture(op, db).years && IsFinished(Capture(op, db).years[k])
    ensures
      var table := TableOf(db, ContractYears) + RemovedRows(YearChange, Eliminable(Capture(op, db)), at);
      k in table && table[k] == Capture(op, db).years[k]
  {
    YearsStand(op, db);
    assert k !in Eliminable(Capture(op, db));
    hide Capture, TableOf, Eliminable, Removed;
  }

  lemma RemovalWasWritten(op: Operation, s: State, q: Request)
    requires Apply(op, s, q).1 == Done
    ensures
      var x := Capture(op, s.db);
      && !s.reversed
      && Apply(op, s, q).0 == State(RemovalOf(op, s.db, x, q.newMatches, q.records, q.nowMs),
                                    Some(Receipt(q.manifest, x, q.newMatches, q.nowMs)), false)
  {
    hide Capture, Verified, RemovalOf, Inspected;
  }

  lemma RemovalKeepsFinishedYear(op: Operation, s: State, q: Request, k: Id)
    requires HasTables(s.db) && Apply(op, s, q).1 == Done
    requires k in Capture(op, s.db).years && IsFinished(Capture(op, s.db).years[k])
    ensures FinishedYearStands(op, Apply(op, s, q).0, k)
  {
    hide Apply, Capture, IsFinished, HasTables, StoreTables, Eliminable, RemovedRows, Live, Targets;
    RemovalWasWritten(op, s, q);
    FinishedYearIsLeft(op, s.db, k, q.nowMs);
    StoredContracts(s.db, RemovalWritten(op, s.db, Capture(op, s.db), q.newMatches, q.records, q.nowMs));
  }

  lemma OneMore(op: Operation, s: State, events: seq<Event>)
    requires events != []
    ensures AfterAll(op, s, events) == After(op, AfterAll(op, s, events[..|events| - 1]), events[|events| - 1])
  {
  }

  /** Such a year stays so through any calls, and through foreign steps that leave it alone. */
  lemma {:induction false} FinishedYearStays(op: Operation, s: State, events: seq<Event>, k: Id)
    requires FinishedYearStands(op, s, k)
    requires forall e | e in events :: e.ForeignStep? ==> YearStands(e.db, k, s.receipt.value.before.years[k])
    ensures FinishedYearStands(op, AfterAll(op, s, events), k)
    ensures AfterAll(op, s, events).receipt == s.receipt
  {
    if events != [] {
      var n := |events| - 1;
      FinishedYearStays(op, s, events[..n], k);
      var mid := AfterAll(op, s, events[..n]);
      assert events[n] in events;
      hide Apply, Rollback, AfterAll, IsFinished;
      match events[n] {
        case CallApply(q) => FinishedYearStopsRollback(op, mid, q, k);
        case CallRollback(q) => FinishedYearStopsRollback(op, mid, q, k);
        case ForeignStep(db) =>
      }
      OneMore(op, s, events);
    }
  }

  /**
   * Once a completed year was captured, every rollback is refused, however many calls and foreign
   * steps come between, as long as none of those steps changes that year.
   */
  lemma FinishedYearStopsEveryRollback(op: Operation, s: State, q: Request, k: Id, events: seq<Event>, back: Request)
    requires HasTables(s.db) && Apply(op, s, q).1 == Done
    requires k in Capture(op, s.db).years && IsFinished(Capture(op, s.db).years[k])
    requires forall e | e in events :: e.ForeignStep? ==> YearStands(e.db, k, Capture(op, s.db).years[k])
    ensures
      var last := AfterAll(op, Apply(op, s, q).0, events);
      && PhaseOf(last) == Applied && last.receipt == Apply(op, s, q).0.receipt
      && Rollback(op, last, back).1 != Done && Rollback(op, last, back).0 == last
  {
    hide Apply, Rollback, Capture, IsFinished, AfterAll;
    AppliedState(op, s, q);
    RemovalKeepsFinishedYear(op, s, q, k);
    FinishedYearStays(op, Apply(op, s, q).0, events, k);
    FinishedYearStopsRollback(op, AfterAll(op, Apply(op, s, q).0, events), back, k);
  }

  // ---------- a removal that cannot be taken back ----------

  /** Team 10 of league 1 is to go, and one team stays. */
  const EXAMPLE_OPERATION: Operation := Operation(1, 2, {10}, 1)

  function ExampleTeam(id: Id): Row {
    map[IdColumn := Text(id), LeagueColumn := Text(1), StatusColumn := Word(Active), VersionColumn := Num(1)]
  }

  function ExampleContract(): Row {
    map[IdColumn := Text(20), LeagueColumn := Text(1), TeamColumn := Text(10), StatusColumn := Word(Active),
        VersionColumn := Num(1)]
  }

  function ExampleYear(): Row {
    map[IdColumn := Text(30), LeagueColumn := Text(1), ContractColumn := Text(20), StatusColumn := Word(Completed),
        RolloverColumn := Num(5)]
  }

  function ExampleTable(t: TableName): Table {
    match t
    case Teams => map[10 := ExampleTeam(10), 11 := ExampleTeam(11)]
    case Contracts => map[20 := ExampleContract()]
    case ContractYears => map[30 := ExampleYear()]
    case _ => map[]
  }

  /** One active contract whose first year is over. */
  function ExampleDatabase(): Database {
    map t | t in {Teams, ManagerAssignments, Contracts, ContractYears, Ownerships, DisplayOrder, DraftPicks, Matchups,
                  Evidence(0), Protected(0)} :: ExampleTable(t)
  }

  function ExampleCapture(): Snapshot {
    Snapshot(ExampleTable(Teams), map[], map[], ExampleTable(Contracts), ExampleTable(ContractYears), map[], map[],
             map[], map[])
  }

  function ExampleRequest(): Request {
    Request(Manifest(ExampleCapture(), 0, 1000), 500, true, true, true, map[], map[])
  }

  lemma ExampleTables(t: TableName)
    ensures TableOf(ExampleDatabase(), t) == ExampleTable(t)
    ensures HasTables(ExampleDatabase())
  {
  }

  lemma NoRows(op: Operation, c: Column, keys: set<Id>)
    ensures TeamRows(op, map[]) == SeasonRows(op, map[]) == ActiveRows(map[])
            == ReferringRows(op, map[], c, keys) == map[]
  {
  }

  lemma ExampleTeamsCaptured()
    ensures LeagueTeams(EXAMPLE_OPERATION, ExampleDatabase()) == ExampleTable(Teams)
  {
    ExampleTables(Teams);
    hide ExampleDatabase, TableOf;
  }

  lemma ExampleContractsCaptured()
    ensures ActiveRows(TeamRows(EXAMPLE_OPERATION, ExampleTable(Contracts))) == ExampleTable(Contracts)
    ensures ReferringRows(EXAMPLE_OPERATION, ExampleTable(ContractYears), ContractColumn, ExampleTable(Contracts).Keys)
            == ExampleTable(ContractYears)
  {
    assert TeamRows(EXAMPLE_OPERATION, ExampleTable(Contracts)) == ExampleTable(Contracts);
  }

  lemma ExampleIsCaptured()
    ensures Capture(EXAMPLE_OPERATION, ExampleDatabase()) == ExampleCapture()
  {
    assert forall t :: t !in {Teams, Contracts, ContractYears} ==> ExampleTable(t) == map[];
    hide ExampleDatabase, ExampleTable, TableOf, TeamRows, SeasonRows, ActiveRows, ReferringRows, LeagueTeams;
    ExampleTeamsCaptured();
    ExampleContractsCaptured();
    NoRows(EXAMPLE_OPERATION, OwnershipColumn, {});
    forall t ensures TableOf(ExampleDatabase(), t) == ExampleTable(t) {
      ExampleTables(t);
    }
  }

  /** The example after its removal: team 10 erased, the contract cancelled, the year as it was. */
  function ExampleRemoved(): Database {
    RemovalOf(EXAMPLE_OPERATION, ExampleDatabase(), ExampleCapture(), map[], map[], 500)
  }

  lemma OneRowRemoved(change: Change, k: Id, row: Row, at: int)
    ensures RemovedRows(change, map[k := row], at) == map[k := Removed(change, row, at)]
    ensures RemovedRows(change, map[], at) == map[]
  {
  }

  lemma ExampleTargets()
    ensures Targets(EXAMPLE_OPERATION, ExampleCapture()) == map[10 := ExampleTeam(10)]
    ensures Survivors(EXAMPLE_OPERATION, ExampleCapture()) == map[11 := ExampleTeam(11)]
    ensures Live(ExampleCapture()) == map[]
  {
  }

  lemma NothingWritten()
    ensures
      var none: Table := map[];
      none + none == none && none - none.Keys == none && none - none.Keys + none == none
  {
  }

  lemma RowOverwritten(k: Id, row: Row, row': Row)
    ensures map[k := row] + map[k := row'] == map[k := row']
  {
  }

  lemma ExampleIsMostlyEmpty()
    ensures forall t :: t !in {Teams, Contracts, ContractYears} ==> ExampleTable(t) == map[]
    ensures ExampleTable(Contracts) == map[20 := ExampleContract()]
    ensures
      var x := ExampleCapture();
      && x.assignments == x.ownerships == x.display == x.picks == x.matches == x.calendar == map[]
      && x.contracts == map[20 := ExampleContract()]
  {
  }

  /** What the removal makes of the tables that are not empty, and that the others stay empty. */
  lemma ExampleWritten()
    ensures
      var w := RemovalWritten(EXAMPLE_OPERATION, ExampleDatabase(), ExampleCapture(), map[], map[], 500);
      && w.teams == ExampleTable(Teams) + map[10 := Removed(TeamChange, ExampleTeam(10), 500)]
      && w.contracts == map[20 := Removed(ContractChange, ExampleContract(), 500)]
      && w.assignments == w.ownerships == w.picks == w.matches == map[]
  {
    hide TableOf, ExampleDatabase, RemovedRows, Removed, Targets, Live, Eliminable, ExampleContract, ExampleTable,
      ExampleTeam, ExampleCapture;
    ExampleTargets();
    ExampleIsMostlyEmpty();
    forall t ensures TableOf(ExampleDatabase(), t) == ExampleTable(t) {
      ExampleTables(t);
    }
    OneRowRemoved(TeamChange, 10, ExampleTeam(10), 500);
    OneRowRemoved(ContractChange, 20, ExampleContract(), 500);
    OneRowRemoved(AssignmentChange, 20, ExampleContract(), 500);
    OneRowRemoved(PickChange, 20, ExampleContract(), 500);
    RowOverwritten(20, ExampleContract(), Removed(ContractChange, ExampleContract(), 500));
    NothingWritten();
  }

  lemma ExampleStoredTables()
    ensures TableOf(ExampleRemoved(), Teams)
            == ExampleTable(Teams) + map[10 := Removed(TeamChange, ExampleTeam(10), 500)]
    ensures TableOf(ExampleRemoved(), Contracts) == map[20 := Removed(ContractChange, ExampleContract(), 500)]
    ensures TableOf(ExampleRemoved(), Matchups) == TableOf(ExampleRemoved(), Ownerships) == map[]
    ensures TableOf(ExampleRemoved(), DraftPicks) == TableOf(ExampleRemoved(), ManagerAssignments) == map[]
  {
    hide TableOf, ExampleDatabase, ExampleCapture, ExampleTable, RemovalWritten, StoreTables, HasTables, Removed;
    ExampleTables(Teams);
    ExampleWritten();
    StoredTables(ExampleDatabase(),
                 RemovalWritten(EXAMPLE_OPERATION, ExampleDatabase(), ExampleCapture(), map[], map[], 500));
  }

  lemma StoredCalendar(db: Database, w: Written)
    ensures TableOf(StoreTables(db, w), Protected(0)) == TableOf(db, Protected(0))
  {
  }

  lemma ExampleCalendarStays()
    ensures TableOf(ExampleRemoved(), Protected(0)) == map[]
  {
    hide ExampleDatabase, RemovalWritten, StoreTables;
    StoredCalendar(ExampleDatabase(),
                   RemovalWritten(EXAMPLE_OPERATION, ExampleDatabase(), ExampleCapture(), map[], map[], 500));
    ExampleTables(Protected(0));
  }

  lemma ExampleTeamsLeft(db: Database)
    requires TableOf(db, Teams) == ExampleTable(Teams) + map[10 := Removed(TeamChange, ExampleTeam(10), 500)]
    ensures ActiveRows(LeagueTeams(EXAMPLE_OPERATION, db)) == map[11 := ExampleTeam(11)]
    ensures Stand(TableOf(db, Teams), map[11 := ExampleTeam(11)])
  {
    hide TableOf;
    var erased := Removed(TeamChange, ExampleTeam(10), 500);
    assert Cell(erased, StatusColumn) == Word(Erased);
    hide Removed;
    assert LeagueTeams(EXAMPLE_OPERATION, db) == map[11 := ExampleTeam(11)];
  }

  lemma ExampleContractsLeft(table: Table)
    requires table == map[20 := Removed(ContractChange, ExampleContract(), 500)]
    ensures ActiveRows(TeamRows(EXAMPLE_OPERATION, table)) == map[]
  {
    var cancelled := Removed(ContractChange, ExampleContract(), 500);
    assert Cell(cancelled, StatusColumn) == Word(Cancelled);
    hide Removed;
  }

  lemma ExampleIsVerified()
    ensures Verified(EXAMPLE_OPERATION, ExampleRemoved(),
                     Receipt(ExampleRequest().manifest, ExampleCapture(), map[], 500))
  {
    hide ExampleRemoved, LeagueTeams, ActiveRows, TeamRows, SeasonRows, Survivors, TableOf, Live, Stand, Removed,
      RemovedRows, ExampleTable, ExampleCapture;
    ExampleIsMostlyEmpty();
    NothingWritten();
    NoRows(EXAMPLE_OPERATION, OwnershipColumn, {});
    ExampleStoredTables();
    ExampleCalendarStays();
    ExampleTeamsLeft(ExampleRemoved());
    ExampleContractsLeft(TableOf(ExampleRemoved(), Contracts));
    ExampleTargets();
    OneRowRemoved(AssignmentChange, 10, ExampleTeam(10), 500);
    StandAfter(map[], map[]);
  }

  lemma ExampleIsInspected()
    ensures Inspected(EXAMPLE_OPERATION, ExampleCapture())
  {
    assert ExampleTable(Teams).Keys == {10, 11};
  }

  lemma ExampleIsApplied()
    ensures Apply(EXAMPLE_OPERATION, State(ExampleDatabase(), None, false), ExampleRequest()).1 == Done
  {
    hide Capture, Verified, RemovalOf, Inspected, ExampleDatabase, ExampleCapture;
    ExampleIsCaptured();
    ExampleIsVerified();
    ExampleIsInspected();
  }

  /** The removal goes through, and no rollback ever does while the completed year stays as it is. */
  lemma RemovalThatCannotBeTakenBack(events: seq<Event>, back: Request)
    requires forall e | e in events :: e.ForeignStep? ==> YearStands(e.db, 30, ExampleYear())
    ensures
      var s := State(ExampleDatabase(), None, false);
      var applied := Apply(EXAMPLE_OPERATION, s, ExampleRequest());
      applied.1 == Done && Rollback(EXAMPLE_OPERATION, AfterAll(EXAMPLE_OPERATION, applied.0, events), back).1 != Done
  {
    assert 30 in ExampleCapture().years && ExampleCapture().years[30] == ExampleYear() && IsFinished(ExampleYear());
    hide Capture, Apply, Rollback, ExampleDatabase, ExampleCapture, IsFinished, YearStands, AfterAll, HasTables;
    ExampleIsApplied();
    ExampleIsCaptured();
    ExampleTables(Teams);
    FinishedYearStopsEveryRollback(EXAMPLE_OPERATION, State(ExampleDatabase(), None, false), ExampleRequest(), 30,
                                   events, back);
  }
}

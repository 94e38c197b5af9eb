/** The removal and its compensation row by row, inside one transaction and under their fence. */
module TeamRemovalDatabase {
  import opened Collections
  import opened Store
  import opened WriteFence
  import opened TeamRemoval

  predicate RowBelongs(schema: Schema, league: Id, t: TableName, k: Id, row: Row) {
    FitsSchema(schema, t, k, row) && Cell(row, IdColumn) == Text(k) && Cell(row, LeagueColumn) == Text(league)
  }

  /** Rows filed under their ids, of one league, with columns their table has. */
  ghost predicate RowsBelong(schema: Schema, league: Id, t: TableName, rows: Table) {
    forall k :: k in rows ==> RowBelongs(schema, league, t, k, rows[k])
  }

  /** Every table of the operation exists and has the columns it writes. */
  predicate Carries(schema: Schema) {
    && Teams in schema && ManagerAssignments in schema && Contracts in schema && ContractYears in schema
    && Ownerships in schema && DisplayOrder in schema && DraftPicks in schema && Matchups in schema
    && Evidence(0) in schema
    && IdColumn in schema[Teams] * schema[ManagerAssignments] * schema[Contracts] * schema[ContractYears]
                   * schema[Ownerships] * schema[DisplayOrder] * schema[DraftPicks] * schema[Matchups]
    && FieldsOf(TeamChange) <= schema[Teams] && FieldsOf(AssignmentChange) <= schema[ManagerAssignments]
    && FieldsOf(ContractChange) <= schema[Contracts] && FieldsOf(YearChange) <= schema[ContractYears]
    && FieldsOf(PickChange) <= schema[DraftPicks]
    && {UpdatedColumn, VersionColumn} <= schema[Ownerships] && {UpdatedColumn, VersionColumn} <= schema[Matchups]
  }

  ghost predicate SnapshotBelongs(schema: Schema, op: Operation, x: Snapshot) {
    && RowsBelong(schema, op.leagueId, Teams, x.teams)
    && RowsBelong(schema, op.leagueId, ManagerAssignments, x.assignments)
    && RowsBelong(schema, op.leagueId, Ownerships, x.ownerships)
    && RowsBelong(schema, op.leagueId, Contracts, x.contracts)
    && RowsBelong(schema, op.leagueId, ContractYears, x.years)
    && RowsBelong(schema, op.leagueId, DisplayOrder, x.display)
    && RowsBelong(schema, op.leagueId, DraftPicks, x.picks)
    && RowsBelong(schema, op.leagueId, Matchups, x.matches)
  }

  ghost predicate RequestBelongs(schema: Schema, op: Operation, q: Request) {
    RowsBelong(schema, op.leagueId, Matchups, q.newMatches) && RowsBelong(schema, op.leagueId, Evidence(0), q.records)
  }

  ghost predicate StateFits(schema: Schema, op: Operation, s: State) {
    && schema.Keys <= s.db.Keys && RowsFit(s.db, schema)
    && (s.receipt.Some? ==> SnapshotBelongs(schema, op, s.receipt.value.before))
  }

  lemma CaptureBelongs(schema: Schema, op: Operation, db: Database)
    requires Carries(schema) && RowsFit(db, schema)
    ensures SnapshotBelongs(schema, op, Capture(op, db))
  {
  }

  /** What the fence asks of an updated row. */
  predicate Reviewed(scope: Scope, schema: Schema, t: TableName, k: Id, row: Row, old': Row)
    requires t in schema
  {
    && t in scope.updates && k in scope.updates[t].ids
    && FitsSchema(schema, t, k, row) && Cell(row, IdColumn) == Text(k)
    && Cell(row, LeagueColumn) == Text(scope.leagueId)
    && forall c | c in schema[t] - scope.updates[t].fields :: Cell(row, c) == Cell(old', c)
  }

  lemma ReviewedUpdatePasses(scope: Scope, schema: Schema, triggers: Triggers, t: TableName, k: Id, row: Row, old': Row)
    requires t in schema && Fenced(triggers, schema, scope) && Reviewed(scope, schema, t, k, row, old')
    ensures Passes(triggers, t, OnUpdate, row, old')
  {
  }

  /** A removed or compensated row keeps its identity and everything but the listed fields. */
  lemma ChangedRowIsReviewed(scope: Scope, schema: Schema, t: TableName, k: Id, change: Change, row: Row, at: int,
                             now: int)
    requires t in schema && FieldsOf(change) <= schema[t]
    requires t in scope.updates && k in scope.updates[t].ids && scope.updates[t].fields == FieldsOf(change)
    requires FitsSchema(schema, t, k, row) && Cell(row, IdColumn) == Text(k)
             && Cell(row, LeagueColumn) == Text(scope.leagueId)
    ensures Reviewed(scope, schema, t, k, Removed(change, row, at), row)
    ensures Reviewed(scope, schema, t, k, Compensated(change, row, at, now), Removed(change, row, at))
    ensures RowBelongs(schema, scope.leagueId, t, k, Removed(change, row, at))
    ensures RowBelongs(schema, scope.leagueId, t, k, Compensated(change, row, at, now))
  {
    hide RemovalWrites, CompensationWrites;
    assert IdColumn !in FieldsOf(change) && LeagueColumn !in FieldsOf(change);
  }

  lemma PassingUpdate(table: Table, scope: Scope, schema: Schema, triggers: Triggers, t: TableName, k: Id, row: Row)
    requires t in schema && k in table && Fenced(triggers, schema, scope)
    requires Reviewed(scope, schema, t, k, row, table[k])
    ensures StepTable(table, schema, triggers, Update(t, k, k, row)) == Some(table[k := row])
  {
    ReviewedUpdatePasses(scope, schema, triggers, t, k, row, table[k]);
    assert (table - {k})[k := row] == table[k := row];
  }

  /** Rewrites rows that are present; the fence lets each of them pass. */
  method UpdateAll(table: Table, schema: Schema, triggers: Triggers, ghost scope: Scope, t: TableName, rows: Table)
    returns (table': Table)
    requires t in schema && Fenced(triggers, schema, scope) && rows.Keys <= table.Keys
    requires forall k :: k in rows ==> Reviewed(scope, schema, t, k, rows[k], table[k])
    ensures table' == table + rows
  {
    hide StepTable, Reviewed, Fenced;
    table' := table;
    var todo := rows.Keys;
    while todo != {}
      invariant todo <= rows.Keys && table'.Keys == table.Keys
      invariant forall k :: k in table ==> table'[k] == if k in rows && k !in todo then rows[k] else table[k]
    {
      var k :| k in todo;
      PassingUpdate(table', scope, schema, triggers, t, k, rows[k]);
      var next := StepTable(table', schema, triggers, Update(t, k, k, rows[k]));
      table', todo := next.value, todo - {k};
    }
  }

  /** The reviewed scope covers these captured rows of a table, which still stand. */
  ghost predicate Patchable(scope: Scope, schema: Schema, t: TableName, change: Change, rows: Table) {
    && t in schema && FieldsOf(change) <= schema[t]
    && t in scope.updates && rows.Keys <= scope.updates[t].ids && scope.updates[t].fields == FieldsOf(change)
    && RowsBelong(schema, scope.leagueId, t, rows)
  }

  lemma PatchedRowsAreReviewed(scope: Scope, schema: Schema, t: TableName, change: Change, rows: Table, at: int,
                               now: int)
    requires Patchable(scope, schema, t, change, rows)
    ensures t in schema
    ensures forall k :: k in rows ==> Reviewed(scope, schema, t, k, RemovedRows(change, rows, at)[k], rows[k])
    ensures forall k :: k in rows ==>
                          Reviewed(scope, schema, t, k, CompensatedRows(change, rows, at, now)[k],
                                   RemovedRows(change, rows, at)[k])
  {
    hide Reviewed, FitsSchema, Removed, Compensated;
    forall k | k in rows
      ensures Reviewed(scope, schema, t, k, RemovedRows(change, rows, at)[k], rows[k])
      ensures Reviewed(scope, schema, t, k, CompensatedRows(change, rows, at, now)[k], RemovedRows(change, rows, at)[k])
    {
      ChangedRowIsReviewed(scope, schema, t, k, change, rows[k], at, now);
    }
  }

  /** Applies one kind of change to captured rows that still stand. */
  method PatchAll(table: Table, schema: Schema, triggers: Triggers, ghost scope: Scope, t: TableName,
                  change: Change, rows: Table, at: int)
    returns (table': Table)
    requires Fenced(triggers, schema, scope) && Patchable(scope, schema, t, change, rows) && Stand(table, rows)
    ensures table' == table + RemovedRows(change, rows, at)
  {
    PatchedRowsAreReviewed(scope, schema, t, change, rows, at, at);
    hide Reviewed, Fenced, Patchable, Removed;
    table' := UpdateAll(table, schema, triggers, scope, t, RemovedRows(change, rows, at));
  }

  /**
   * Restores rows one after the other, each only if it is still exactly as expected; the
   * first that is not stops everything.
   */
  method RestoreAll(table: Table, schema: Schema, triggers: Triggers, ghost scope: Scope, t: TableName,
                    expected: Table, restored: Table)
    returns (ok: bool, table': Table)
    requires t in schema && Fenced(triggers, schema, scope) && expected.Keys == restored.Keys
    requires forall k :: k in expected ==> Reviewed(scope, schema, t, k, restored[k], expected[k])
    ensures ok <==> Stand(table, expected)
    ensures ok ==> table' == table + restored
  {
    hide StepTable, Reviewed, Fenced;
    ok, table' := true, table;
    var todo := expected.Keys;
    while todo != {}
      invariant todo <= expected.Keys && table'.Keys == table.Keys
      invariant forall k :: k in expected && k !in todo ==> k in table && table[k] == expected[k]
      invariant forall k :: k in table ==>
                              table'[k] == if k in restored && k !in todo then restored[k] else table[k]
    {
      var k :| k in todo;
      if k !in table' || table'[k] != expected[k] { return false, table'; }
      PassingUpdate(table', scope, schema, triggers, t, k, restored[k]);
      var next := StepTable(table', schema, triggers, Update(t, k, k, restored[k]));
      table', todo := next.value, todo - {k};
    }
    assert table' == table + restored;
  }

  /** Takes one kind of change back from captured rows, if each is as the change left it. */
  method UnpatchAll(table: Table, schema: Schema, triggers: Triggers, ghost scope: Scope, t: TableName,
                    change: Change, rows: Table, at: int, now: int)
    returns (ok: bool, table': Table)
    requires Fenced(triggers, schema, scope) && Patchable(scope, schema, t, change, rows)
    ensures ok <==> Stand(table, RemovedRows(change, rows, at))
    ensures ok ==> table' == table + CompensatedRows(change, rows, at, now)
  {
    PatchedRowsAreReviewed(scope, schema, t, change, rows, at, now);
    hide Reviewed, Fenced, Patchable, Removed, Compensated;
    ok, table' := RestoreAll(table, schema, triggers, scope, t, RemovedRows(change, rows, at),
                             CompensatedRows(change, rows, at, now));
  }

  lemma PassingInsert(table: Table, scope: Scope, schema: Schema, triggers: Triggers, t: TableName, k: Id, row: Row)
    requires t in schema && k !in table && Fenced(triggers, schema, scope) && k in AllowedIds(scope, t, OnInsert)
    requires FitsSchema(schema, t, k, row) && Cell(row, IdColumn) == Text(k)
             && Cell(row, LeagueColumn) == Text(scope.leagueId)
    ensures StepTable(table, schema, triggers, Insert(t, k, row)) == Some(table[k := row])
  {
  }

  ghost predicate Insertable(scope: Scope, schema: Schema, t: TableName, rows: Table) {
    t in schema && rows.Keys <= AllowedIds(scope, t, OnInsert) && RowsBelong(schema, scope.leagueId, t, rows)
  }

  /** Inserts rows one after the other; a primary key that is taken stops everything. */
  method InsertAll(table: Table, schema: Schema, triggers: Triggers, ghost scope: Scope, t: TableName, rows: Table)
    returns (ok: bool, table': Table)
    requires Fenced(triggers, schema, scope) && Insertable(scope, schema, t, rows)
    ensures ok <==> rows.Keys !! table.Keys
    ensures ok ==> table' == table + rows
  {
    hide StepTable, Fenced, FitsSchema, AllowedIds;
    ok, table' := true, table;
    var todo := rows.Keys;
    while todo != {}
      invariant todo <= rows.Keys
      invariant forall k :: k in table' <==> k in table || (k in rows && k !in todo)
      invariant forall k :: k in rows && k !in todo ==> k !in table && table'[k] == rows[k]
      invariant forall k :: k in table ==> table'[k] == table[k]
    {
      var k :| k in todo;
      if k in table' { return false, table'; }
      PassingInsert(table', scope, schema, triggers, t, k, rows[k]);
      var next := StepTable(table', schema, triggers, Insert(t, k, rows[k]));
      table', todo := next.value, todo - {k};
    }
    assert table' == table + rows;
  }

  lemma PassingDelete(table: Table, scope: Scope, schema: Schema, triggers: Triggers, t: TableName, k: Id)
    requires t in schema && k in table && Fenced(triggers, schema, scope) && k in AllowedIds(scope, t, OnDelete)
    requires Cell(table[k], IdColumn) == Text(k) && Cell(table[k], LeagueColumn) == Text(scope.leagueId)
    ensures StepTable(table, schema, triggers, Delete(t, k)) == Some(table - {k})
  {
  }

  ghost predicate Deletable(scope: Scope, schema: Schema, t: TableName, rows: Table) {
    t in schema && rows.Keys <= AllowedIds(scope, t, OnDelete) && RowsBelong(schema, scope.leagueId, t, rows)
  }

  /** Deletes reviewed rows that stand. */
  method DeleteAll(table: Table, schema: Schema, triggers: Triggers, ghost scope: Scope, t: TableName, rows: Table)
    returns (table': Table)
    requires Fenced(triggers, schema, scope) && Deletable(scope, schema, t, rows) && Stand(table, rows)
    ensures table' == table - rows.Keys
  {
    hide StepTable, Fenced, AllowedIds, Cell, FitsSchema;
    table' := table;
    var todo := rows.Keys;
    while todo != {}
      invariant todo <= rows.Keys && table' == table - (rows.Keys - todo)
    {
      var k :| k in todo;
      PassingDelete(table', scope, schema, triggers, t, k);
      var next := StepTable(table', schema, triggers, Delete(t, k));
      table', todo := next.value, todo - {k};
    }
  }

  /** Every update that either direction makes is covered by its write scope. */
  lemma UpdatesAreCovered(schema: Schema, op: Operation, x: Snapshot, scope: Scope)
    requires Carries(schema) && SnapshotBelongs(schema, op, x)
    requires scope.updates == UpdateScopes(op, x) && scope.leagueId == op.leagueId
    ensures Patchable(scope, schema, Teams, TeamChange, Targets(op, x))
    ensures Patchable(scope, schema, ManagerAssignments, AssignmentChange, Live(x))
    ensures Patchable(scope, schema, Contracts, ContractChange, x.contracts)
    ensures Patchable(scope, schema, ContractYears, YearChange, x.years)
    ensures Patchable(scope, schema, ContractYears, YearChange, Eliminable(x))
    ensures Patchable(scope, schema, DraftPicks, PickChange, x.picks)
  {
  }

  lemma RemovalIsCovered(schema: Schema, op: Operation, x: Snapshot, q: Request)
    requires Carries(schema) && SnapshotBelongs(schema, op, x) && RequestBelongs(schema, op, q)
    ensures
      var scope := ApplyScope(op, x, q.newMatches, q.records);
      && Deletable(scope, schema, DisplayOrder, x.display) && Deletable(scope, schema, Ownerships, x.ownerships)
      && Deletable(scope, schema, Matchups, x.matches)
      && Insertable(scope, schema, Matchups, q.newMatches) && Insertable(scope, schema, Evidence(0), q.records)
  {
    hide RowsBelong, Live;
  }

  /** The captured rows stand in their tables at the time of capture. */
  lemma CaptureStands(op: Operation, db: Database)
    ensures
      var x := Capture(op, db);
      && Stand(TableOf(db, Teams), Targets(op, x))
      && Stand(TableOf(db, ManagerAssignments), x.assignments) && Stand(TableOf(db, ManagerAssignments), Live(x))
      && Stand(TableOf(db, Contracts), x.contracts) && Stand(TableOf(db, ContractYears), Eliminable(x))
      && Stand(TableOf(db, DraftPicks), x.picks) && Stand(TableOf(db, Ownerships), x.ownerships)
      && Stand(TableOf(db, DisplayOrder), x.display) && Stand(TableOf(db, Matchups), x.matches)
  {
  }

  /** All that the writes of a removal need, at the moment its rows were captured. */
  ghost predicate RemovalReady(schema: Schema, op: Operation, db: Database, x: Snapshot, q: Request, scope: Scope) {
    && Patchable(scope, schema, Teams, TeamChange, Targets(op, x)) && Stand(TableOf(db, Teams), Targets(op, x))
    && Patchable(scope, schema, ManagerAssignments, AssignmentChange, Live(x))
    && Stand(TableOf(db, ManagerAssignments), Live(x))
    && Patchable(scope, schema, Contracts, ContractChange, x.contracts) && Stand(TableOf(db, Contracts), x.contracts)
    && Patchable(scope, schema, ContractYears, YearChange, Eliminable(x))
    && Stand(TableOf(db, ContractYears), Eliminable(x))
    && Patchable(scope, schema, DraftPicks, PickChange, x.picks) && Stand(TableOf(db, DraftPicks), x.picks)
    && Deletable(scope, schema, DisplayOrder, x.display) && Stand(TableOf(db, DisplayOrder), x.display)
    && Deletable(scope, schema, Ownerships, x.ownerships) && Stand(TableOf(db, Ownerships), x.ownerships)
    && Deletable(scope, schema, Matchups, x.matches) && Stand(TableOf(db, Matchups), x.matches)
    && Insertable(scope, schema, Matchups, q.newMatches) && Insertable(scope, schema, Evidence(0), q.records)
  }

  lemma RemovalIsReady(schema: Schema, op: Operation, s: State, q: Request)
    requires Carries(schema) && StateFits(schema, op, s) && RequestBelongs(schema, op, q)
    ensures
      var x := Capture(op, s.db);
      RemovalReady(schema, op, s.db, x, q, ApplyScope(op, x, q.newMatches, q.records))
  {
    var x := Capture(op, s.db);
    var scope := ApplyScope(op, x, q.newMatches, q.records);
    hide Capture, Carries, RequestBelongs, SnapshotBelongs, RowsFit, Patchable, Deletable, Insertable, Stand, TableOf,
      Targets, Live, Eliminable, UpdateScopes;
    CaptureBelongs(schema, op, s.db);
    CaptureStands(op, s.db);
    UpdatesAreCovered(schema, op, x, scope);
    RemovalIsCovered(schema, op, x, q);
  }

  /** Everything the writes of a compensation need, once the removal has been verified. */
  ghost predicate CompensationReady(schema: Schema, op: Operation, db: Database, r: Receipt, now: int, scope: Scope) {
    var x := r.before;
    && Patchable(scope, schema, Teams, TeamChange, Targets(op, x))
    && Patchable(scope, schema, ManagerAssignments, AssignmentChange, Live(x))
    && Patchable(scope, schema, Contracts, ContractChange, x.contracts)
    && Patchable(scope, schema, ContractYears, YearChange, x.years)
    && Patchable(scope, schema, DraftPicks, PickChange, x.picks)
    && Insertable(scope, schema, Ownerships, ReinsertedRows(x.ownerships, now))
    && Insertable(scope, schema, DisplayOrder, x.display)
    && Insertable(scope, schema, Matchups, ReinsertedRows(x.matches, now))
    && Deletable(scope, schema, Matchups, r.newMatches) && Stand(TableOf(db, Matchups), r.newMatches)
  }

  lemma ReinsertedBelong(schema: Schema, league: Id, t: TableName, rows: Table, now: int)
    requires t in schema && {UpdatedColumn, VersionColumn} <= schema[t] && RowsBelong(schema, league, t, rows)
    ensures RowsBelong(schema, league, t, ReinsertedRows(rows, now))
  {
  }

  lemma NewMatchesBelong(schema: Schema, op: Operation, db: Database, newMatches: Table)
    requires RowsFit(db, schema) && Matchups in schema && IdColumn in schema[Matchups]
    requires SeasonRows(op, TableOf(db, Matchups)) == newMatches
    ensures RowsBelong(schema, op.leagueId, Matchups, newMatches) && Stand(TableOf(db, Matchups), newMatches)
  {
  }

  lemma ReinsertionsAreCovered(schema: Schema, op: Operation, r: Receipt, now: int)
    requires Carries(schema) && SnapshotBelongs(schema, op, r.before)
    requires RowsBelong(schema, op.leagueId, Matchups, r.newMatches)
    ensures
      var scope := RollbackScope(op, r.before, r.newMatches);
      && Insertable(scope, schema, Ownerships, ReinsertedRows(r.before.ownerships, now))
      && Insertable(scope, schema, DisplayOrder, r.before.display)
      && Insertable(scope, schema, Matchups, ReinsertedRows(r.before.matches, now))
      && Deletable(scope, schema, Matchups, r.newMatches)
  {
    ReinsertedBelong(schema, op.leagueId, Ownerships, r.before.ownerships, now);
    ReinsertedBelong(schema, op.leagueId, Matchups, r.before.matches, now);
    hide RowsBelong, UpdateScopes, Reinserted;
  }

  lemma CompensationIsReady(schema: Schema, op: Operation, s: State, now: int)
    requires Carries(schema) && StateFits(schema, op, s) && s.receipt.Some?
    requires Verified(op, s.db, s.receipt.value)
    ensures CompensationReady(schema, op, s.db, s.receipt.value, now,
                              RollbackScope(op, s.receipt.value.before, s.receipt.value.newMatches))
  {
    var r := s.receipt.value;
    assert SeasonRows(op, TableOf(s.db, Matchups)) == r.newMatches;
    hide Verified, Carries, SnapshotBelongs, RowsFit, Patchable, Deletable, Insertable, Stand, TableOf, Targets, Live,
      Eliminable, UpdateScopes, SeasonRows, RowsBelong;
    NewMatchesBelong(schema, op, s.db, r.newMatches);
    UpdatesAreCovered(schema, op, r.before, RollbackScope(op, r.before, r.newMatches));
    ReinsertionsAreCovered(schema, op, r, now);
  }

  // ---------- the rows keep fitting their tables ----------

  ghost predicate TableFits(schema: Schema, t: TableName, table: Table) {
    forall k :: k in table ==> FitsSchema(schema, t, k, table[k])
  }

  lemma TableOfFits(schema: Schema, db: Database, t: TableName)
    requires RowsFit(db, schema)
    ensures TableFits(schema, t, TableOf(db, t))
  {
  }

  lemma EditedTableFits(schema: Schema, league: Id, t: TableName, table: Table, gone: set<Id>, rows: Table)
    requires TableFits(schema, t, table) && RowsBelong(schema, league, t, rows)
    ensures TableFits(schema, t, table + rows) && TableFits(schema, t, table - gone)
    ensures TableFits(schema, t, table - gone + rows)
  {
  }

  lemma PatchedRowsBelong(scope: Scope, schema: Schema, t: TableName, change: Change, rows: Table, at: int, now: int)
    requires Patchable(scope, schema, t, change, rows)
    ensures RowsBelong(schema, scope.leagueId, t, RemovedRows(change, rows, at))
    ensures RowsBelong(schema, scope.leagueId, t, CompensatedRows(change, rows, at, now))
  {
    hide FitsSchema, Removed, Compensated, Reviewed;
    forall k | k in rows
      ensures RowBelongs(schema, scope.leagueId, t, k, Removed(change, rows[k], at))
      ensures RowBelongs(schema, scope.leagueId, t, k, Compensated(change, rows[k], at, now))
    {
      ChangedRowIsReviewed(scope, schema, t, k, change, rows[k], at, now);
    }
  }

  /** A table of the database with some rows taken away and some rewritten or added. */
  function Edited(db: Database, t: TableName, gone: set<Id>, rows: Table): Table {
    TableOf(db, t) - gone + rows
  }

  lemma EditedFits(schema: Schema, league: Id, db: Database, t: TableName, gone: set<Id>, rows: Table)
    requires RowsFit(db, schema) && RowsBelong(schema, league, t, rows)
    ensures TableFits(schema, t, Edited(db, t, gone, rows))
    ensures TableFits(schema, t, TableOf(db, t) + rows) && TableFits(schema, t, TableOf(db, t) - gone)
  {
    hide RowsFit, TableFits, RowsBelong;
    TableOfFits(schema, db, t);
    EditedTableFits(schema, league, t, TableOf(db, t), gone, rows);
  }

  lemma NoRowsBelong(schema: Schema, league: Id, t: TableName)
    ensures RowsBelong(schema, league, t, map[])
  {
  }

  /** Storing tables that fit keeps the database fitting its schema. */
  lemma StoreFits(schema: Schema, db: Database, w: Written)
    requires RowsFit(db, schema)
    requires TableFits(schema, Teams, w.teams) && TableFits(schema, ManagerAssignments, w.assignments)
    requires TableFits(schema, Contracts, w.contracts) && TableFits(schema, ContractYears, w.years)
    requires TableFits(schema, Ownerships, w.ownerships) && TableFits(schema, DisplayOrder, w.display)
    requires TableFits(schema, DraftPicks, w.picks) && TableFits(schema, Matchups, w.matches)
    requires TableFits(schema, Evidence(0), w.evidence)
    ensures RowsFit(StoreTables(db, w), schema) && StoreTables(db, w).Keys == db.Keys
  {
    var db' := StoreTables(db, w);
    forall t ensures TableFits(schema, t, TableOf(db', t)) {
      hide FitsSchema, RowsFit, TableFits;
      TableOfFits(schema, db, t);
      if t !in db { assert TableOf(db', t) == TableOf(db, t); }
    }
    hide FitsSchema, StoreTables;
  }

  lemma PatchedTableFits(scope: Scope, schema: Schema, db: Database, t: TableName, change: Change, rows: Table,
                         at: int, now: int)
    requires RowsFit(db, schema) && Patchable(scope, schema, t, change, rows)
    ensures TableFits(schema, t, TableOf(db, t) + RemovedRows(change, rows, at))
    ensures TableFits(schema, t, TableOf(db, t) + CompensatedRows(change, rows, at, now))
  {
    hide RowsFit, RowsBelong, TableFits, Patchable;
    PatchedRowsBelong(scope, schema, t, change, rows, at, now);
    EditedFits(schema, scope.leagueId, db, t, {}, RemovedRows(change, rows, at));
    EditedFits(schema, scope.leagueId, db, t, {}, CompensatedRows(change, rows, at, now));
  }

  lemma RemovalFits(schema: Schema, op: Operation, s: State, q: Request)
    requires Carries(schema) && StateFits(schema, op, s) && RequestBelongs(schema, op, q)
    ensures
      var x := Capture(op, s.db);
      var db := RemovalOf(op, s.db, x, q.newMatches, q.records, q.nowMs);
      StateFits(schema, op, State(db, Some(Receipt(q.manifest, x, q.newMatches, q.nowMs)), false))
  {
    var x, db, now, league := Capture(op, s.db), s.db, q.nowMs, op.leagueId;
    var scope := ApplyScope(op, x, q.newMatches, q.records);
    CaptureBelongs(schema, op, db);
    hide Capture, Patchable, RowsFit, RowsBelong, TableOf, RemovedRows, Targets, Live, Eliminable, TableFits, Carries,
      SnapshotBelongs, UpdateScopes, StoreTables;
    UpdatesAreCovered(schema, op, x, scope);
    PatchedTableFits(scope, schema, db, Teams, TeamChange, Targets(op, x), now, now);
    PatchedTableFits(scope, schema, db, ManagerAssignments, AssignmentChange, Live(x), now, now);
    PatchedTableFits(scope, schema, db, Contracts, ContractChange, x.contracts, now, now);
    PatchedTableFits(scope, schema, db, ContractYears, YearChange, Eliminable(x), now, now);
    PatchedTableFits(scope, schema, db, DraftPicks, PickChange, x.picks, now, now);
    NoRowsBelong(schema, league, DisplayOrder);
    NoRowsBelong(schema, league, Ownerships);
    EditedFits(schema, league, db, DisplayOrder, x.display.Keys, map[]);
    EditedFits(schema, league, db, Ownerships, x.ownerships.Keys, map[]);
    EditedFits(schema, league, db, Matchups, x.matches.Keys, q.newMatches);
    EditedFits(schema, league, db, Evidence(0), {}, q.records);
    StoreFits(schema, db, RemovalWritten(op, db, x, q.newMatches, q.records, now));
  }

  lemma CompensationFits(schema: Schema, op: Operation, s: State, now: int)
    requires Carries(schema) && StateFits(schema, op, s) && s.receipt.Some?
    ensures StateFits(schema, op, State(CompensationOf(op, s.db, s.receipt.value, now), s.receipt, true))
  {
    var r, db, league := s.receipt.value, s.db, op.leagueId;
    var x, at := r.before, r.appliedAtMs;
    var scope := RollbackScope(op, x, r.newMatches);
    ReinsertedBelong(schema, league, Ownerships, x.ownerships, now);
    ReinsertedBelong(schema, league, Matchups, x.matches, now);
    assert RowsBelong(schema, league, DisplayOrder, x.display);
    hide Patchable, RowsFit, RowsBelong, TableOf, CompensatedRows, Targets, Live, TableFits, Carries, SnapshotBelongs,
      UpdateScopes, ReinsertedRows, StoreTables;
    UpdatesAreCovered(schema, op, x, scope);
    PatchedTableFits(scope, schema, db, Teams, TeamChange, Targets(op, x), at, now);
    PatchedTableFits(scope, schema, db, ManagerAssignments, AssignmentChange, Live(x), at, now);
    PatchedTableFits(scope, schema, db, Contracts, ContractChange, x.contracts, at, now);
    PatchedTableFits(scope, schema, db, ContractYears, YearChange, x.years, at, now);
    PatchedTableFits(scope, schema, db, DraftPicks, PickChange, x.picks, at, now);
    EditedFits(schema, league, db, Ownerships, {}, ReinsertedRows(x.ownerships, now));
    EditedFits(schema, league, db, DisplayOrder, {}, x.display);
    EditedFits(schema, league, db, Matchups, r.newMatches.Keys, ReinsertedRows(x.matches, now));
    TableOfFits(schema, db, Evidence(0));
    StoreFits(schema, db, CompensationWritten(op, db, r, now));
  }

  lemma ReinsertedKeys(rows: Table, now: int)
    ensures ReinsertedRows(rows, now).Keys == rows.Keys
  {
  }

  class RecoveryDatabase {
    const op: Operation
    const schema: Schema
    const tables: seq<TableName>
    var db: Database
    var receipt: Option<Receipt>
    var reversed: bool

    function State(): State reads this {
      TeamRemoval.State(db, receipt, reversed)
    }

    ghost predicate Valid() reads this {
      && Carries(schema) && StateFits(schema, op, State())
      && (forall i, j :: 0 <= i < j < |tables| ==> tables[i] != tables[j])
      && (forall t :: t in schema <==> t in tables)
    }

    method Fence(scope: Scope) returns (triggers: Triggers)
      requires Valid()
      ensures Fenced(triggers, schema, scope)
    {
      var made, live, complete := CreateAll(map[], tables, schema, scope, {});
      EveryNameFenced(map[], scope, schema, tables);
      return live;
    }

    /** The removal's writes, table by table; false when an insert finds its key taken. */
    method WriteRemoval(x: Snapshot, q: Request) returns (ok: bool)
      requires Valid() && x == Capture(op, db) && RequestBelongs(schema, op, q)
      modifies this`db
      ensures ok <==> && q.records.Keys !! TableOf(old(db), Evidence(0)).Keys
                      && q.newMatches.Keys !! (TableOf(old(db), Matchups).Keys - x.matches.Keys)
      ensures db == if ok then RemovalOf(op, old(db), x, q.newMatches, q.records, q.nowMs) else old(db)
    {
      hide Capture, Patchable, Deletable, Insertable, Stand, Fenced, ApplyScope, TableOf, RemovedRows, Live, Targets,
        Eliminable, RequestBelongs, StateFits, Carries, StoreTables;
      RemovalIsReady(schema, op, State(), q);
      var scope := ApplyScope(op, x, q.newMatches, q.records);
      var triggers := Fence(scope);
      var now := q.nowMs;
      var contracts := PatchAll(TableOf(db, Contracts), schema, triggers, scope, Contracts, ContractChange,
                                x.contracts, now);
      var years := PatchAll(TableOf(db, ContractYears), schema, triggers, scope, ContractYears, YearChange,
                            Eliminable(x), now);
      var display := DeleteAll(TableOf(db, DisplayOrder), schema, triggers, scope, DisplayOrder, x.display);
      var ownerships := DeleteAll(TableOf(db, Ownerships), schema, triggers, scope, Ownerships, x.ownerships);
      var teams := PatchAll(TableOf(db, Teams), schema, triggers, scope, Teams, TeamChange, Targets(op, x), now);
      var assignments := PatchAll(TableOf(db, ManagerAssignments), schema, triggers, scope, ManagerAssignments,
                                  AssignmentChange, Live(x), now);
      var picks := PatchAll(TableOf(db, DraftPicks), schema, triggers, scope, DraftPicks, PickChange, x.picks, now);
      var cleared := DeleteAll(TableOf(db, Matchups), schema, triggers, scope, Matchups, x.matches);
      var matches;
      ok, matches := InsertAll(cleared, schema, triggers, scope, Matchups, q.newMatches);
      if !ok { return; }
      var records;
      ok, records := InsertAll(TableOf(db, Evidence(0)), schema, triggers, scope, Evidence(0), q.records);
      if !ok { return; }
      db := StoreTables(db,
                        Written(teams, assignments, contracts, years, ownerships, display, picks, matches, records));
    }

    /** The compensation's writes; false as soon as a row is not as the removal left it, or a key is taken. */
    method WriteCompensation(r: Receipt, now: int) returns (ok: bool)
      requires Valid() && receipt == Some(r) && Verified(op, db, r)
      modifies this`db
      ensures ok <==> Compensable(op, old(db), r)
      ensures db == if ok then CompensationOf(op, old(db), r, now) else old(db)
    {
      hide Patchable, Deletable, Insertable, Stand, Fenced, RollbackScope, TableOf, RemovedRows, CompensatedRows,
        ReinsertedRows, Live, Targets, StateFits, Carries, Verified, StoreTables;
      CompensationIsReady(schema, op, State(), now);
      var x, at := r.before, r.appliedAtMs;
      var scope := RollbackScope(op, x, r.newMatches);
      var triggers := Fence(scope);
      var teams, assignments, contracts, years, ownerships, display, picks, matches;
      ok, teams := UnpatchAll(TableOf(db, Teams), schema, triggers, scope, Teams, TeamChange, Targets(op, x), at, now);
      if !ok { return; }
      ok, assignments := UnpatchAll(TableOf(db, ManagerAssignments), schema, triggers, scope, ManagerAssignments,
                                    AssignmentChange, Live(x), at, now);
      if !ok { return; }
      ok, contracts := UnpatchAll(TableOf(db, Contracts), schema, triggers, scope, Contracts, ContractChange,
                                  x.contracts, at, now);
      if !ok { return; }
      ok, years := UnpatchAll(TableOf(db, ContractYears), schema, triggers, scope, ContractYears, YearChange, x.years,
                              at, now);
      if !ok { return; }
      ReinsertedKeys(x.ownerships, now);
      ok, ownerships := InsertAll(TableOf(db, Ownerships), schema, triggers, scope, Ownerships,
                                  ReinsertedRows(x.ownerships, now));
      if !ok { return; }
      ok, display := InsertAll(TableOf(db, DisplayOrder), schema, triggers, scope, DisplayOrder, x.display);
      if !ok { return; }
      ok, picks := UnpatchAll(TableOf(db, DraftPicks), schema, triggers, scope, DraftPicks, PickChange, x.picks, at,
                              now);
      if !ok { return; }
      var cleared := DeleteAll(TableOf(db, Matchups), schema, triggers, scope, Matchups, r.newMatches);
      ReinsertedKeys(x.matches, now);
      ok, matches := InsertAll(cleared, schema, triggers, scope, Matchups, ReinsertedRows(x.matches, now));
      if !ok { return; }
      db := StoreTables(db, Written(teams, assignments, contracts, years, ownerships, display, picks, matches,
                              TableOf(db, Evidence(0))));
    }

    /** The removal's writes as one transaction: all of them are kept, or none. */
    method Remove(x: Snapshot, q: Request) returns (outcome: Outcome)
      requires Valid() && receipt.None? && !reversed && x == Capture(op, db) && RequestBelongs(schema, op, q)
      modifies this
      ensures Valid()
      ensures (State(), outcome) == TeamRemoval.Remove(op, old(State()), q)
    {
      hide Capture, Verified, RemovalOf, StateFits, RequestBelongs, Carries, TableOf;
      var saved := db;
      var ok := WriteRemoval(x, q);
      if !ok { return Refused(WriteFailed); }
      var r := Receipt(q.manifest, x, q.newMatches, q.nowMs);
      if !Verified(op, db, r) { db := saved; return Refused(NotVerified); }
      if !q.commits { db := saved; return Refused(DidNotCommit); }
      RemovalFits(schema, op, old(State()), q);
      receipt := Some(r);
      return Done;
    }

    method Apply(q: Request) returns (outcome: Outcome)
      requires Valid() && RequestBelongs(schema, op, q)
      modifies this
      ensures Valid()
      ensures (State(), outcome) == TeamRemoval.Apply(op, old(State()), q)
    {
      hide Capture, TeamRemoval.Remove, StateFits, RequestBelongs, Carries, Inspected;
      if !q.authorized { return Refused(NotAuthorized); }
      if reversed { return Refused(AlreadyReversed); }
      if receipt.Some? { return if receipt.value.manifest == q.manifest then Replayed else Refused(ReplayConflict); }
      if q.nowMs < q.manifest.createdAtMs || q.nowMs > q.manifest.expiresAtMs { return Refused(StalePreview); }
      var x := Capture(op, db);
      if !q.guardsHold || !Inspected(op, x) || x != q.manifest.before { return Refused(StateChanged); }
      outcome := Remove(x, q);
    }

    /** The compensation's writes as one transaction: all of them are kept, or none. */
    method Compensate(r: Receipt, q: Request) returns (outcome: Outcome)
      requires Valid() && receipt == Some(r) && !reversed && Verified(op, db, r)
      modifies this
      ensures Valid()
      ensures (State(), outcome) == TeamRemoval.Compensate(op, old(State()), r, q)
    {
      hide Verified, CompensationOf, StateFits, Carries, Compensable;
      var saved := db;
      var ok := WriteCompensation(r, q.nowMs);
      if !ok { return Refused(WriteFailed); }
      if !q.commits { db := saved; return Refused(DidNotCommit); }
      CompensationFits(schema, op, old(State()), q.nowMs);
      reversed := true;
      return Done;
    }

    method Rollback(q: Request) returns (outcome: Outcome)
      requires Valid()
      modifies this
      ensures Valid()
      ensures (State(), outcome) == TeamRemoval.Rollback(op, old(State()), q)
    {
      hide Verified, TeamRemoval.Compensate, StateFits, Carries;
      if !q.authorized { return Refused(NotAuthorized); }
      if reversed { return Replayed; }
      if receipt.None? { return Refused(ReceiptMissing); }
      var r := receipt.value;
      if q.nowMs < r.appliedAtMs || q.nowMs > r.appliedAtMs + ROLLBACK_WINDOW_MS { return Refused(WindowExpired); }
      if !Verified(op, db, r) { return Refused(NotVerified); }
      if !q.guardsHold { return Refused(StateChanged); }
      outcome := Compensate(r, q);
    }
  }
}

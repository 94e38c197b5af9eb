/** What a removal and its compensation write, column by column and row by row. */
module TeamRemovalEffects {
  import opened Collections
  import opened RowChanges
  import opened Store
  import opened TeamRemoval
  import opened TeamRemovalRuns

  // ---------- rows ----------

  /** The same keys; the rows with these ids became as stated, all others are as they were. */
  ghost predicate Rewritten(before: Table, after: Table, ids: set<Id>, cells: map<Column, Value>, steps: int) {
    && after.Keys == before.Keys
    && forall k :: k in before ==>
                     if k in ids then Became(before[k], after[k], cells, steps) else after[k] == before[k]
  }

  /** What a removal writes in the rows of one kind. */
  function RemovalCells(change: Change, at: int): map<Column, Value> {
    match change
    case TeamChange => map[StatusColumn := Word(Erased), UpdatedColumn := Num(at)]
    case AssignmentChange => map[StatusColumn := Word(Ended), EndedColumn := Num(at)]
    case ContractChange => map[StatusColumn := Word(Cancelled), UpdatedColumn := Num(at)]
    case PickChange => map[StatusColumn := Word(Forfeited), UpdatedColumn := Num(at)]
    case YearChange => map[StatusColumn := Word(Eliminated), RolloverColumn := Num(at)]
  }

  function Steps(change: Change): int {
    if change == YearChange then 0 else 1
  }

  lemma RemovedRowBecame(change: Change, row: Row, at: int)
    ensures Became(row, Removed(change, row, at), RemovalCells(change, at), Steps(change))
  {
    var cells := RemovalCells(change, at);
    assert VersionColumn !in cells;
    if change == YearChange {
      assert RemovalWrites(change, row, at) == cells;
      Overlaid(row, cells);
    } else {
      assert RemovalWrites(change, row, at) == cells[VersionColumn := Bumped(row, 1)];
      OverlaidWithVersion(row, cells, Bumped(row, 1), 1);
    }
    hide Became;
  }

  lemma PatchRewrites(table: Table, rows: Table, change: Change, at: int, ids: set<Id>)
    requires rows.Keys == ids <= table.Keys && forall k :: k in ids ==> rows[k] == table[k]
    ensures Rewritten(table, table + RemovedRows(change, rows, at), ids, RemovalCells(change, at), Steps(change))
  {
    hide Became, Removed;
    forall k | k in ids
      ensures Became(table[k], Removed(change, rows[k], at), RemovalCells(change, at), Steps(change))
    {
      RemovedRowBecame(change, table[k], at);
    }
  }

  // ---------- which rows ----------

  /** The row belongs to the league and to one of the teams that go. */
  predicate OfTheTeams(op: Operation, row: Row) {
    && Cell(row, LeagueColumn) == Text(op.leagueId)
    && exists team | team in op.teamIds :: Cell(row, TeamColumn) == Text(team)
  }

  function LiveAssignments(op: Operation, db: Database): set<Id> {
    var t := TableOf(db, ManagerAssignments);
    set k | k in t && OfTheTeams(op, t[k]) && Cell(t[k], StatusColumn) == Word(Accepted)
            && Cell(t[k], EndedColumn) == Null
  }

  function ActiveContracts(op: Operation, db: Database): set<Id> {
    var t := TableOf(db, Contracts);
    set k | k in t && OfTheTeams(op, t[k]) && Cell(t[k], StatusColumn) == Word(Active)
  }

  /** Current and future years of those contracts. */
  function OpenYears(op: Operation, db: Database): set<Id> {
    var t := TableOf(db, ContractYears);
    set k | k in t && Cell(t[k], LeagueColumn) == Text(op.leagueId)
            && (exists c | c in ActiveContracts(op, db) :: Cell(t[k], ContractColumn) == Text(c))
            && (Cell(t[k], StatusColumn) == Word(Current) || Cell(t[k], StatusColumn) == Word(Future))
  }

  function TeamPicks(op: Operation, db: Database): set<Id> {
    var t := TableOf(db, DraftPicks);
    set k | k in t && OfTheTeams(op, t[k])
  }

  function TeamOwnerships(op: Operation, db: Database): set<Id> {
    var t := TableOf(db, Ownerships);
    set k | k in t && OfTheTeams(op, t[k])
  }

  function OwnershipDisplay(op: Operation, db: Database): set<Id> {
    var t := TableOf(db, DisplayOrder);
    set k | k in t && Cell(t[k], LeagueColumn) == Text(op.leagueId)
            && exists o | o in TeamOwnerships(op, db) :: Cell(t[k], OwnershipColumn) == Text(o)
  }

  function SeasonMatches(op: Operation, db: Database): set<Id> {
    var t := TableOf(db, Matchups);
    set k | k in t && Cell(t[k], LeagueColumn) == Text(op.leagueId) && Cell(t[k], SeasonColumn) == Text(op.seasonId)
  }

  lemma TeamsAreTheirs(op: Operation, row: Row)
    ensures OfTeams(op, row) <==> OfTheTeams(op, row)
  {
  }

  lemma RefersMeans(row: Row, c: Column, keys: set<Id>)
    ensures RefersTo(row, c, keys) <==> exists k | k in keys :: Cell(row, c) == Text(k)
  {
  }

  /** The captured rows are the stored rows with these ids. */
  ghost predicate AreRows(rows: Table, table: Table, ids: set<Id>) {
    rows.Keys == ids <= table.Keys && forall k :: k in ids ==> rows[k] == table[k]
  }

  lemma TeamRowsAre(op: Operation, t: Table)
    ensures AreRows(TeamRows(op, t), t, set k | k in t && OfTheTeams(op, t[k]))
    ensures AreRows(ActiveRows(TeamRows(op, t)), t,
                    set k | k in t && OfTheTeams(op, t[k]) && Cell(t[k], StatusColumn) == Word(Active))
  {
    forall k | k in t ensures OfTeams(op, t[k]) <==> OfTheTeams(op, t[k]) {
      TeamsAreTheirs(op, t[k]);
    }
    hide OfTeams, OfTheTeams;
  }

  lemma LiveAre(op: Operation, db: Database)
    ensures AreRows(Live(Capture(op, db)), TableOf(db, ManagerAssignments), LiveAssignments(op, db))
  {
    TeamRowsAre(op, TableOf(db, ManagerAssignments));
    hide TeamRows, OfTheTeams, TableOf, ActiveRows, LeagueTeams, SeasonRows, ReferringRows;
  }

  lemma ContractsAre(op: Operation, db: Database)
    ensures AreRows(Capture(op, db).contracts, TableOf(db, Contracts), ActiveContracts(op, db))
    ensures AreRows(Capture(op, db).picks, TableOf(db, DraftPicks), TeamPicks(op, db))
    ensures AreRows(Capture(op, db).ownerships, TableOf(db, Ownerships), TeamOwnerships(op, db))
  {
    TeamRowsAre(op, TableOf(db, Contracts));
    TeamRowsAre(op, TableOf(db, DraftPicks));
    TeamRowsAre(op, TableOf(db, Ownerships));
    hide TeamRows, OfTheTeams, TableOf, ActiveRows, LeagueTeams, SeasonRows, ReferringRows, AreRows;
  }

  lemma ReferringAre(op: Operation, t: Table, c: Column, keys: set<Id>)
    ensures AreRows(ReferringRows(op, t, c, keys), t,
                    set k | k in t && Cell(t[k], LeagueColumn) == Text(op.leagueId)
                            && exists key | key in keys :: Cell(t[k], c) == Text(key))
  {
    forall k | k in t ensures RefersTo(t[k], c, keys) <==> exists key | key in keys :: Cell(t[k], c) == Text(key) {
      RefersMeans(t[k], c, keys);
    }
    hide RefersTo;
  }

  lemma YearsAre(op: Operation, db: Database)
    ensures AreRows(Eliminable(Capture(op, db)), TableOf(db, ContractYears), OpenYears(op, db))
  {
    ContractsAre(op, db);
    ReferringAre(op, TableOf(db, ContractYears), ContractColumn, ActiveContracts(op, db));
    hide TeamRows, TableOf, ActiveRows, LeagueTeams, SeasonRows, ReferringRows, ActiveContracts;
  }

  lemma DisplayIs(op: Operation, db: Database)
    ensures AreRows(Capture(op, db).display, TableOf(db, DisplayOrder), OwnershipDisplay(op, db))
  {
    ContractsAre(op, db);
    ReferringAre(op, TableOf(db, DisplayOrder), OwnershipColumn, TeamOwnerships(op, db));
    hide TeamRows, TableOf, ActiveRows, LeagueTeams, SeasonRows, ReferringRows, TeamOwnerships;
  }

  lemma MatchesAre(op: Operation, db: Database)
    ensures AreRows(Capture(op, db).matches, TableOf(db, Matchups), SeasonMatches(op, db))
  {
    hide TeamRows, TableOf, ActiveRows, LeagueTeams, ReferringRows;
  }

  lemma TargetsAre(op: Operation, db: Database)
    requires op.teamIds <= LeagueTeams(op, db).Keys
    ensures AreRows(Targets(op, Capture(op, db)), TableOf(db, Teams), op.teamIds)
  {
    hide TeamRows, ActiveRows, SeasonRows, ReferringRows, TableOf;
  }

  // ---------- the removal ----------

  /** The removal, written out: which rows of which tables, and what becomes of them. */
  ghost predicate RemovalIs(op: Operation, before: Database, after: Database, q: Request) {
    var at := Num(q.nowMs);
    && Rewritten(TableOf(before, Teams), TableOf(after, Teams), op.teamIds,
                 map[StatusColumn := Word(Erased), UpdatedColumn := at], 1)
    && Rewritten(TableOf(before, ManagerAssignments), TableOf(after, ManagerAssignments), LiveAssignments(op, before),
                 map[StatusColumn := Word(Ended), EndedColumn := at], 1)
    && Rewritten(TableOf(before, Contracts), TableOf(after, Contracts), ActiveContracts(op, before),
                 map[StatusColumn := Word(Cancelled), UpdatedColumn := at], 1)
    && Rewritten(TableOf(before, ContractYears), TableOf(after, ContractYears), OpenYears(op, before),
                 map[StatusColumn := Word(Eliminated), RolloverColumn := at], 0)
    && Rewritten(TableOf(before, DraftPicks), TableOf(after, DraftPicks), TeamPicks(op, before),
                 map[StatusColumn := Word(Forfeited), UpdatedColumn := at], 1)
    && TableOf(after, Ownerships) == TableOf(before, Ownerships) - TeamOwnerships(op, before)
    && TableOf(after, DisplayOrder) == TableOf(before, DisplayOrder) - OwnershipDisplay(op, before)
    && TableOf(after, Matchups) == TableOf(before, Matchups) - SeasonMatches(op, before) + q.newMatches
    && TableOf(after, Evidence(0)) == TableOf(before, Evidence(0)) + q.records
  }

  lemma StoredEvidence(db: Database, w: Written)
    requires Evidence(0) in db
    ensures TableOf(StoreTables(db, w), Evidence(0)) == w.evidence
  {
  }

  lemma PeopleRewritten(op: Operation, db: Database, x: Snapshot, at: int)
    requires x == Capture(op, db) && op.teamIds <= LeagueTeams(op, db).Keys
    ensures Rewritten(TableOf(db, Teams), TableOf(db, Teams) + RemovedRows(TeamChange, Targets(op, x), at), op.teamIds,
                      map[StatusColumn := Word(Erased), UpdatedColumn := Num(at)], 1)
    ensures Rewritten(TableOf(db, ManagerAssignments),
                      TableOf(db, ManagerAssignments) + RemovedRows(AssignmentChange, Live(x), at),
                      LiveAssignments(op, db), map[StatusColumn := Word(Ended), EndedColumn := Num(at)], 1)
  {
    TargetsAre(op, db);
    LiveAre(op, db);
    hide Capture, TableOf, Rewritten, RemovedRows, Targets, Live, LiveAssignments, LeagueTeams;
    PatchRewrites(TableOf(db, Teams), Targets(op, x), TeamChange, at, op.teamIds);
    PatchRewrites(TableOf(db, ManagerAssignments), Live(x), AssignmentChange, at, LiveAssignments(op, db));
  }

  lemma ContractsRewritten(op: Operation, db: Database, x: Snapshot, at: int)
    requires x == Capture(op, db)
    ensures Rewritten(TableOf(db, Contracts), TableOf(db, Contracts) + RemovedRows(ContractChange, x.contracts, at),
                      ActiveContracts(op, db), map[StatusColumn := Word(Cancelled), UpdatedColumn := Num(at)], 1)
    ensures Rewritten(TableOf(db, ContractYears),
                      TableOf(db, ContractYears) + RemovedRows(YearChange, Eliminable(x), at),
                      OpenYears(op, db), map[StatusColumn := Word(Eliminated), RolloverColumn := Num(at)], 0)
    ensures Rewritten(TableOf(db, DraftPicks), TableOf(db, DraftPicks) + RemovedRows(PickChange, x.picks, at),
                      TeamPicks(op, db), map[StatusColumn := Word(Forfeited), UpdatedColumn := Num(at)], 1)
  {
    ContractsAre(op, db);
    YearsAre(op, db);
    hide Capture, TableOf, Rewritten, RemovedRows, Eliminable, ActiveContracts, OpenYears, TeamPicks, TeamOwnerships;
    PatchRewrites(TableOf(db, Contracts), x.contracts, ContractChange, at, ActiveContracts(op, db));
    PatchRewrites(TableOf(db, ContractYears), Eliminable(x), YearChange, at, OpenYears(op, db));
    PatchRewrites(TableOf(db, DraftPicks), x.picks, PickChange, at, TeamPicks(op, db));
  }

  lemma WritesAreTheRemoval(op: Operation, db: Database, q: Request)
    requires HasTables(db) && Evidence(0) in db && op.teamIds <= LeagueTeams(op, db).Keys
    ensures RemovalIs(op, db, RemovalOf(op, db, Capture(op, db), q.newMatches, q.records, q.nowMs), q)
  {
    var x, at := Capture(op, db), q.nowMs;
    var w := RemovalWritten(op, db, x, q.newMatches, q.records, at);
    ContractsAre(op, db);
    DisplayIs(op, db);
    MatchesAre(op, db);
    hide Capture, TableOf, StoreTables, Rewritten, RemovedRows, Targets, Live, Eliminable, HasTables, LiveAssignments,
      ActiveContracts, OpenYears, TeamPicks, TeamOwnerships, OwnershipDisplay, SeasonMatches, LeagueTeams;
    PeopleRewritten(op, db, x, at);
    ContractsRewritten(op, db, x, at);
    StoredTables(db, w);
    StoredEvidence(db, w);
  }

  lemma TeamsWereThere(op: Operation, s: State, q: Request)
    requires Apply(op, s, q).1 == Done
    ensures op.teamIds <= LeagueTeams(op, s.db).Keys
  {
    hide LeagueTeams, Verified, RemovalOf, TeamRows, ActiveRows, SeasonRows, ReferringRows;
  }

  /**
   * A removal is done only for an authorized caller while its preview is valid and describes the
   * rows there are, and then the database is the one described, with a receipt of what it was.
   */
  lemma RemovalDoes(op: Operation, s: State, q: Request)
    requires HasTables(s.db) && Evidence(0) in s.db && Apply(op, s, q).1 == Done
    ensures RemovalIs(op, s.db, Apply(op, s, q).0.db, q)
    ensures
      && q.authorized && q.guardsHold && q.commits && q.manifest.createdAtMs <= q.nowMs <= q.manifest.expiresAtMs
      && q.manifest.before == Capture(op, s.db)
  {
    hide Capture, RemovalIs, RemovalOf, Verified, HasTables, LeagueTeams;
    RemovalWasWritten(op, s, q);
    TeamsWereThere(op, s, q);
    WritesAreTheRemoval(op, s.db, q);
  }

  /** The teams of the league that are not erased. */
  function StandingTeams(op: Operation, db: Database): set<Id> {
    var t := TableOf(db, Teams);
    set k | k in t && Cell(t[k], LeagueColumn) == Text(op.leagueId) && Cell(t[k], StatusColumn) != Word(Erased)
  }

  function ActiveTeams(op: Operation, db: Database): set<Id> {
    var t := TableOf(db, Teams);
    set k | k in t && Cell(t[k], LeagueColumn) == Text(op.leagueId) && Cell(t[k], StatusColumn) == Word(Active)
  }

  lemma ActiveTeamsAre(op: Operation, db: Database)
    ensures ActiveRows(LeagueTeams(op, db)).Keys == ActiveTeams(op, db)
    ensures SeasonRows(op, TableOf(db, Matchups)).Keys == SeasonMatches(op, db)
  {
    hide TableOf;
  }

  lemma VerifiedMeans(op: Operation, db: Database, r: Receipt)
    requires Verified(op, db, r)
    ensures |ActiveTeams(op, db)| == op.survivors
    ensures TeamOwnerships(op, db) == {} && ActiveContracts(op, db) == {}
    ensures SeasonMatches(op, db) == r.newMatches.Keys
  {
    ActiveTeamsAre(op, db);
    TeamRowsAre(op, TableOf(db, Ownerships));
    TeamRowsAre(op, TableOf(db, Contracts));
    hide Removed, Survivors, Live, Stand, TeamRows, SeasonRows, LeagueTeams, ActiveRows, OfTheTeams, TableOf,
      ActiveTeams, SeasonMatches;
  }

  /** Afterwards the teams that stay are the active ones, and the season has the new matches and no others. */
  lemma RemovalWasVerified(op: Operation, s: State, q: Request)
    requires Apply(op, s, q).1 == Done
    ensures
      var after := Apply(op, s, q).0.db;
      && |ActiveTeams(op, after)| == op.survivors
      && TeamOwnerships(op, after) == {} && ActiveContracts(op, after) == {}
      && SeasonMatches(op, after) == q.newMatches.Keys
  {
    var after, r := Apply(op, s, q).0.db, Receipt(q.manifest, Capture(op, s.db), q.newMatches, q.nowMs);
    hide Capture, Verified, RemovalOf, Inspected, ActiveTeams, TeamOwnerships, ActiveContracts, SeasonMatches;
    assert Verified(op, after, r);
    VerifiedMeans(op, after, r);
  }

  // ---------- when a removal is done ----------

  /** The new matches are of the league and its season. */
  predicate MatchesBelong(op: Operation, newMatches: Table) {
    forall k | k in newMatches ::
      Cell(newMatches[k], LeagueColumn) == Text(op.leagueId) && Cell(newMatches[k], SeasonColumn) == Text(op.seasonId)
  }

  lemma SeasonAfterwards(op: Operation, before: Table, newMatches: Table)
    ensures SeasonRows(op, before - SeasonRows(op, before).Keys + newMatches) == newMatches
            <==> MatchesBelong(op, newMatches)
  {
    var after := before - SeasonRows(op, before).Keys + newMatches;
    if SeasonRows(op, after) == newMatches {
      forall k | k in newMatches ensures OfSeason(op, newMatches[k]) {
        assert k in SeasonRows(op, after);
      }
    }
  }

  lemma SurvivorsCount(op: Operation, teams: Table)
    requires op.teamIds <= teams.Keys
    ensures |teams.Keys - op.teamIds| == |teams| - |op.teamIds|
  {
    assert teams.Keys == op.teamIds + (teams.Keys - op.teamIds);
    assert |teams.Keys| == |teams|;
  }

  lemma StandingAfterwards(op: Operation, db: Database, after: Database, erased: Table)
    requires TableOf(after, Teams) == TableOf(db, Teams) + erased && erased.Keys == op.teamIds
    requires forall k :: k in erased ==> Cell(erased[k], StatusColumn) == Word(Erased)
    requires forall k :: k in LeagueTeams(op, db) ==> Cell(LeagueTeams(op, db)[k], StatusColumn) == Word(Active)
    ensures ActiveRows(LeagueTeams(op, after)).Keys == LeagueTeams(op, db).Keys - op.teamIds
  {
    hide TableOf;
  }

  lemma RemovedStatus(change: Change, row: Row, at: int)
    ensures Cell(Removed(change, row, at), StatusColumn) == RemovalCells(change, at)[StatusColumn]
  {
  }

  lemma ErasedTeams(op: Operation, x: Snapshot, at: int)
    requires op.teamIds <= x.teams.Keys
    ensures
      var erased := RemovedRows(TeamChange, Targets(op, x), at);
      erased.Keys == op.teamIds && forall k :: k in erased ==> Cell(erased[k], StatusColumn) == Word(Erased)
  {
    hide Removed;
    forall k | k in Targets(op, x) ensures Cell(Removed(TeamChange, x.teams[k], at), StatusColumn) == Word(Erased) {
      RemovedStatus(TeamChange, x.teams[k], at);
    }
  }

  lemma KeysCount<K, V>(m: map<K, V>)
    ensures |m.Keys| == |m|
  {
  }

  lemma ActiveTeamsAfterwards(op: Operation, db: Database, after: Database, at: int)
    requires Inspected(op, Capture(op, db))
    requires TableOf(after, Teams)
             == TableOf(db, Teams) + RemovedRows(TeamChange, Targets(op, Capture(op, db)), at)
    ensures |ActiveRows(LeagueTeams(op, after))| == op.survivors
  {
    var x := Capture(op, db);
    assert x.teams == LeagueTeams(op, db);
    hide Capture, TableOf, LeagueTeams, RemovedRows, Targets, ActiveRows;
    ErasedTeams(op, x, at);
    StandingAfterwards(op, db, after, RemovedRows(TeamChange, Targets(op, x), at));
    SurvivorsCount(op, x.teams);
    KeysCount(ActiveRows(LeagueTeams(op, after)));
  }

  lemma NoneActiveAfterwards(op: Operation, table: Table, cancelled: Table)
    requires cancelled.Keys == ActiveRows(TeamRows(op, table)).Keys
    requires forall k :: k in cancelled ==> Cell(cancelled[k], StatusColumn) == Word(Cancelled)
    ensures ActiveRows(TeamRows(op, table + cancelled)) == map[]
  {
    hide OfTeams;
  }

  lemma ContractsAfterwards(op: Operation, table: Table, at: int)
    ensures ActiveRows(TeamRows(op, table + RemovedRows(ContractChange, ActiveRows(TeamRows(op, table)), at))) == map[]
  {
    hide Removed, TeamRows, ActiveRows;
    var rows := ActiveRows(TeamRows(op, table));
    forall k | k in rows ensures Cell(Removed(ContractChange, rows[k], at), StatusColumn) == Word(Cancelled) {
      RemovedStatus(ContractChange, rows[k], at);
    }
    NoneActiveAfterwards(op, table, RemovedRows(ContractChange, rows, at));
  }

  lemma PicksAfterwards(op: Operation, table: Table, at: int)
    ensures
      var after := table + RemovedRows(PickChange, TeamRows(op, table), at);
      forall k :: k in TeamRows(op, after) ==> Cell(after[k], StatusColumn) == Word(Forfeited)
  {
    var rows := TeamRows(op, table);
    forall k | k in rows ensures Cell(Removed(PickChange, rows[k], at), StatusColumn) == Word(Forfeited) {
    }
    hide Removed, OfTeams;
  }

  lemma OwnershipsAfterwards(op: Operation, table: Table)
    ensures TeamRows(op, table - TeamRows(op, table).Keys) == map[]
  {
  }

  lemma AssignmentsAfterwards(table: Table, rows: Table, live: Table, at: int)
    requires Stand(table, rows) && live.Keys <= rows.Keys
    ensures Stand(table + RemovedRows(AssignmentChange, live, at), rows + RemovedRows(AssignmentChange, live, at))
  {
    hide Removed;
  }

  lemma SurvivorsAfterwards(op: Operation, table: Table, x: Snapshot, at: int)
    requires Stand(table, x.teams)
    ensures Stand(table + RemovedRows(TeamChange, Targets(op, x), at), Survivors(op, x))
  {
    hide Removed;
  }

  lemma CapturedStand(op: Operation, db: Database)
    ensures Stand(TableOf(db, Teams), Capture(op, db).teams)
    ensures Stand(TableOf(db, ManagerAssignments), Capture(op, db).assignments)
  {
  }

  /** Whatever passed inspection, the writes pass verification, as long as the new matches are the season's. */
  lemma VerifiedExactly(op: Operation, db: Database, q: Request)
    requires HasTables(db) && Inspected(op, Capture(op, db))
    ensures
      var x := Capture(op, db);
      Verified(op, RemovalOf(op, db, x, q.newMatches, q.records, q.nowMs),
               Receipt(q.manifest, x, q.newMatches, q.nowMs))
      <==> MatchesBelong(op, q.newMatches)
  {
    var x, at := Capture(op, db), q.nowMs;
    var w := RemovalWritten(op, db, x, q.newMatches, q.records, at);
    var after := StoreTables(db, w);
    CapturedStand(op, db);
    assert x.calendar == SeasonRows(op, TableOf(db, Protected(0)));
    assert x.matches == SeasonRows(op, TableOf(db, Matchups)) && x.ownerships == TeamRows(op, TableOf(db, Ownerships));
    assert x.contracts == ActiveRows(TeamRows(op, TableOf(db, Contracts)));
    assert x.picks == TeamRows(op, TableOf(db, DraftPicks)) && Live(x).Keys <= x.assignments.Keys;
    hide Capture, Inspected, HasTables, StoreTables, TableOf, SeasonRows, TeamRows, ActiveRows, LeagueTeams, Removed,
      RemovedRows, Targets, Live, Eliminable, Survivors, Stand, MatchesBelong;
    StoredTables(db, w);
    StoredCalendar(db, w);
    ActiveTeamsAfterwards(op, db, after, at);
    SeasonAfterwards(op, TableOf(db, Matchups), q.newMatches);
    ContractsAfterwards(op, TableOf(db, Contracts), at);
    PicksAfterwards(op, TableOf(db, DraftPicks), at);
    OwnershipsAfterwards(op, TableOf(db, Ownerships));
    AssignmentsAfterwards(TableOf(db, ManagerAssignments), x.assignments, Live(x), at);
    SurvivorsAfterwards(op, TableOf(db, Teams), x, at);
  }

  /** The teams, assignments, picks and matches of the league are as a removal expects them. */
  ghost predicate InPlace(op: Operation, db: Database) {
    && StandingTeams(op, db) == ActiveTeams(op, db) && op.teamIds <= ActiveTeams(op, db)
    && |ActiveTeams(op, db)| == op.survivors + |op.teamIds|
    && (forall k :: k in TableOf(db, ManagerAssignments) && OfTheTeams(op, TableOf(db, ManagerAssignments)[k]) ==>
                      Cell(TableOf(db, ManagerAssignments)[k], StatusColumn) != Word(Pending))
    && (forall k :: k in TeamPicks(op, db) ==> Cell(TableOf(db, DraftPicks)[k], StatusColumn) == Word(Unused))
    && (forall k :: k in SeasonMatches(op, db) ==> Cell(TableOf(db, Matchups)[k], StatusColumn) == Word(Scheduled))
  }

  lemma TeamsInPlace(op: Operation, db: Database)
    ensures
      var teams := LeagueTeams(op, db);
      && teams.Keys == StandingTeams(op, db) && |teams| == |StandingTeams(op, db)|
      && ((forall k | k in teams :: Cell(teams[k], StatusColumn) == Word(Active))
          <==> StandingTeams(op, db) == ActiveTeams(op, db))
  {
    var teams := LeagueTeams(op, db);
    assert teams.Keys == StandingTeams(op, db);
    KeysCount(teams);
    hide TableOf;
  }

  lemma AssignmentsInPlace(op: Operation, t: Table)
    ensures
      var rows := TeamRows(op, t);
      (forall k | k in rows :: Cell(rows[k], StatusColumn) != Word(Pending))
      <==> forall k :: k in t && OfTheTeams(op, t[k]) ==> Cell(t[k], StatusColumn) != Word(Pending)
  {
    TeamRowsAre(op, t);
    hide TeamRows, OfTheTeams;
  }

  lemma StatusInPlace(rows: Table, t: Table, ids: set<Id>, status: Status)
    requires AreRows(rows, t, ids)
    ensures (forall k | k in rows :: Cell(rows[k], StatusColumn) == Word(status))
            <==> forall k :: k in ids ==> Cell(t[k], StatusColumn) == Word(status)
  {
  }

  lemma InspectedMeans(op: Operation, db: Database)
    ensures Inspected(op, Capture(op, db)) <==> InPlace(op, db)
  {
    var x := Capture(op, db);
    assert x.teams == LeagueTeams(op, db) && x.assignments == TeamRows(op, TableOf(db, ManagerAssignments));
    hide Capture, LeagueTeams, TeamRows, OfTheTeams, TableOf, TeamPicks, SeasonMatches, TeamOwnerships, ActiveContracts,
      StandingTeams, ActiveTeams, Cell, AreRows;
    TeamsInPlace(op, db);
    AssignmentsInPlace(op, TableOf(db, ManagerAssignments));
    ContractsAre(op, db);
    StatusInPlace(x.picks, TableOf(db, DraftPicks), TeamPicks(op, db), Unused);
    MatchesAre(op, db);
    StatusInPlace(x.matches, TableOf(db, Matchups), SeasonMatches(op, db), Scheduled);
  }

  /**
   * A removal that was never applied is done exactly when an authorized caller brings a valid
   * preview of the rows there are, these are in place, its new keys are free, and its matches are the
   * season's; nothing that is checked afterwards can still stop it.
   */
  lemma RemovalDoneExactly(op: Operation, s: State, q: Request)
    requires HasTables(s.db) && s.receipt.None? && !s.reversed
    ensures
      Apply(op, s, q).1 == Done <==>
        && q.authorized && q.manifest.createdAtMs <= q.nowMs <= q.manifest.expiresAtMs
        && q.guardsHold && q.commits && q.manifest.before == Capture(op, s.db) && InPlace(op, s.db)
        && q.records.Keys !! TableOf(s.db, Evidence(0)).Keys
        && q.newMatches.Keys !! (TableOf(s.db, Matchups).Keys - SeasonMatches(op, s.db))
        && MatchesBelong(op, q.newMatches)
  {
    hide Capture, Inspected, InPlace, Verified, RemovalOf, TableOf, SeasonMatches, MatchesBelong, HasTables;
    InspectedMeans(op, s.db);
    MatchesAre(op, s.db);
    if Inspected(op, Capture(op, s.db)) { VerifiedExactly(op, s.db, q); }
  }

  // ---------- the compensation ----------

  /** The cells that a compensation does not give back as captured, versions aside. */
  function CompensationCells(change: Change, now: int): map<Column, Value> {
    if change == AssignmentChange || change == YearChange then map[] else map[UpdatedColumn := Num(now)]
  }

  lemma CompensatedVersion(change: Change, row: Row, at: int, now: int)
    requires change != YearChange
    ensures Cell(Compensated(change, row, at, now), VersionColumn) == Bumped(row, 2)
    ensures Cell(Compensated(change, row, at, now), UpdatedColumn)
            == if change == AssignmentChange then Cell(row, UpdatedColumn) else Num(now)
  {
  }

  lemma CompensatedYear(row: Row, at: int, now: int)
    ensures forall c :: Cell(Compensated(YearChange, row, at, now), c) == Cell(row, c)
  {
  }

  lemma CompensatedRowBecame(change: Change, row: Row, at: int, now: int)
    requires PutsBack(change, row)
    ensures Became(row, Compensated(change, row, at, now), CompensationCells(change, now), 2 * Steps(change))
  {
    if change == YearChange {
      CompensatedYear(row, at, now);
    } else {
      CompensatedVersion(change, row, at, now);
      CompensatedRowIsRestored(change, row, at, now);
    }
    hide Compensated, Cell, PutsBack;
  }

  /** Every captured row is in the table, and became as stated. */
  ghost predicate BackWith(captured: Table, table: Table, cells: map<Column, Value>, steps: int) {
    forall k :: k in captured ==> k in table && Became(captured[k], table[k], cells, steps)
  }

  lemma PatchGoesBack(table: Table, rows: Table, change: Change, at: int, now: int)
    requires forall k :: k in rows ==> PutsBack(change, rows[k])
    ensures BackWith(rows, table + CompensatedRows(change, rows, at, now), CompensationCells(change, now),
                     2 * Steps(change))
  {
    hide Became, Compensated, PutsBack;
    forall k | k in rows {
      CompensatedRowBecame(change, rows[k], at, now);
    }
  }

  lemma ReinsertedBecame(row: Row, now: int)
    ensures Became(row, Reinserted(row, now), map[UpdatedColumn := Num(now)], 1)
  {
    var cells := map[UpdatedColumn := Num(now)];
    assert Reinserted(row, now) == row + cells[VersionColumn := Bumped(row, 1)];
    OverlaidWithVersion(row, cells, Bumped(row, 1), 1);
    hide Became;
  }

  lemma ReinsertedGoBack(table: Table, rows: Table, now: int)
    ensures BackWith(rows, table + ReinsertedRows(rows, now), map[UpdatedColumn := Num(now)], 1)
  {
    hide Became, Reinserted;
    forall k | k in rows ensures Became(rows[k], Reinserted(rows[k], now), map[UpdatedColumn := Num(now)], 1) {
      ReinsertedBecame(rows[k], now);
    }
  }

  /** The captured rows are back, their versions moved on, with the time of the compensation; no new match is left. */
  ghost predicate CompensationIs(op: Operation, r: Receipt, after: Database, nowMs: int) {
    var x, now := r.before, map[UpdatedColumn := Num(nowMs)];
    && (forall k :: k in r.newMatches && k !in x.matches ==> k !in TableOf(after, Matchups))
    && BackWith(Targets(op, x), TableOf(after, Teams), now, 2)
    && BackWith(Live(x), TableOf(after, ManagerAssignments), map[], 2)
    && BackWith(x.contracts, TableOf(after, Contracts), now, 2)
    && BackWith(x.picks, TableOf(after, DraftPicks), now, 2)
    && BackWith(x.years, TableOf(after, ContractYears), map[], 0)
    && BackWith(x.ownerships, TableOf(after, Ownerships), now, 1)
    && BackWith(x.matches, TableOf(after, Matchups), now, 1)
    && BackWith(x.display, TableOf(after, DisplayOrder), map[], 0)
  }

  lemma RowsGoBackUnchanged(table: Table, rows: Table)
    ensures BackWith(rows, table + rows, map[], 0)
  {
  }

  lemma NewRowsGo(table: Table, gone: set<Id>, rows: Table, now: int)
    ensures forall k :: k in gone && k !in rows ==> k !in table - gone + ReinsertedRows(rows, now)
  {
  }

  lemma YearsPutBack(x: Snapshot)
    ensures forall k :: k in x.years ==> PutsBack(YearChange, x.years[k])
  {
  }

  lemma WritesAreTheCompensation(op: Operation, db: Database, r: Receipt, now: int)
    requires HasTables(db) && CapturedStatuses(r.before)
    ensures CompensationIs(op, r, CompensationOf(op, db, r, now), now)
  {
    var x, at := r.before, r.appliedAtMs;
    hide TableOf, StoreTables, HasTables, BackWith, CompensatedRows, ReinsertedRows, Targets, Live, PutsBack,
      CapturedStatuses;
    TargetsAndLivePutBack(op, x);
    StoredTables(db, CompensationWritten(op, db, r, now));
    YearsPutBack(x);
    PatchGoesBack(TableOf(db, Teams), Targets(op, x), TeamChange, at, now);
    PatchGoesBack(TableOf(db, ManagerAssignments), Live(x), AssignmentChange, at, now);
    PatchGoesBack(TableOf(db, Contracts), x.contracts, ContractChange, at, now);
    PatchGoesBack(TableOf(db, DraftPicks), x.picks, PickChange, at, now);
    PatchGoesBack(TableOf(db, ContractYears), x.years, YearChange, at, now);
    ReinsertedGoBack(TableOf(db, Ownerships), x.ownerships, now);
    ReinsertedGoBack(TableOf(db, Matchups) - r.newMatches.Keys, x.matches, now);
    RowsGoBackUnchanged(TableOf(db, DisplayOrder), x.display);
    NewRowsGo(TableOf(db, Matchups), r.newMatches.Keys, x.matches, now);
  }

  /** Each captured row stood as the removal had left it, and no deleted one had come back. */
  ghost predicate NothingIntervened(op: Operation, r: Receipt, before: Database) {
    var x, at := r.before, Num(r.appliedAtMs);
    && BackWith(Targets(op, x), TableOf(before, Teams), map[StatusColumn := Word(Erased), UpdatedColumn := at], 1)
    && BackWith(Live(x), TableOf(before, ManagerAssignments), map[StatusColumn := Word(Ended), EndedColumn := at], 1)
    && BackWith(x.contracts, TableOf(before, Contracts), map[StatusColumn := Word(Cancelled), UpdatedColumn := at], 1)
    && BackWith(x.picks, TableOf(before, DraftPicks), map[StatusColumn := Word(Forfeited), UpdatedColumn := at], 1)
    && BackWith(x.years, TableOf(before, ContractYears), map[StatusColumn := Word(Eliminated), RolloverColumn := at], 0)
    && x.ownerships.Keys !! TableOf(before, Ownerships).Keys && x.display.Keys !! TableOf(before, DisplayOrder).Keys
    && x.matches.Keys !! (TableOf(before, Matchups).Keys - r.newMatches.Keys)
  }

  lemma RemovedRowsStand(table: Table, rows: Table, change: Change, at: int)
    requires Stand(table, RemovedRows(change, rows, at))
    ensures BackWith(rows, table, RemovalCells(change, at), Steps(change))
  {
    hide Became, Removed;
    forall k | k in rows ensures k in table && Became(rows[k], table[k], RemovalCells(change, at), Steps(change)) {
      RemovedRowBecame(change, rows[k], at);
      assert k in RemovedRows(change, rows, at);
    }
  }

  lemma CompensableMeans(op: Operation, db: Database, r: Receipt)
    requires Compensable(op, db, r)
    ensures NothingIntervened(op, r, db)
  {
    var x, at := r.before, r.appliedAtMs;
    hide TableOf, BackWith, RemovedRows, Targets, Live, Stand;
    RemovedRowsStand(TableOf(db, Teams), Targets(op, x), TeamChange, at);
    RemovedRowsStand(TableOf(db, ManagerAssignments), Live(x), AssignmentChange, at);
    RemovedRowsStand(TableOf(db, Contracts), x.contracts, ContractChange, at);
    RemovedRowsStand(TableOf(db, DraftPicks), x.picks, PickChange, at);
    RemovedRowsStand(TableOf(db, ContractYears), x.years, YearChange, at);
  }

  /**
   * A compensation is done within fifteen minutes of the removal and only if nothing has touched
   * its rows, and then every captured row is back.
   */
  lemma CompensationDoes(op: Operation, s: State, q: Request)
    requires HasTables(s.db) && s.receipt.Some? && CapturedStatuses(s.receipt.value.before)
    requires Rollback(op, s, q).1 == Done
    ensures q.authorized && q.guardsHold && q.commits && !s.reversed
    ensures s.receipt.value.appliedAtMs <= q.nowMs <= s.receipt.value.appliedAtMs + 900_000
    ensures NothingIntervened(op, s.receipt.value, s.db)
    ensures CompensationIs(op, s.receipt.value, Rollback(op, s, q).0.db, q.nowMs)
  {
    var r := s.receipt.value;
    hide Compensable, Verified, CompensationOf, CompensationIs, NothingIntervened, HasTables, CapturedStatuses;
    CompensableMeans(op, s.db, r);
    WritesAreTheCompensation(op, s.db, r, q.nowMs);
  }

  /** A quarter of an hour after the removal it is too late. */
  lemma TooLateToCompensate(op: Operation, s: State, q: Request)
    requires s.receipt.Some? && !s.reversed && q.authorized && q.nowMs > s.receipt.value.appliedAtMs + 900_000
    ensures Rollback(op, s, q) == (s, Refused(WindowExpired))
  {
    hide Compensable, Verified, CompensationOf;
  }
}

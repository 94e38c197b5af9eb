/** What a guided reset changes, what its archive brings back, and when the restore refuses its own result. */
module GuidedResetProperties {
  import opened Collections
  import opened Store
  import opened LeagueTables
  import opened GuidedReset

  // ---------- the archive is lossless ----------

  lemma DecodeEncodes(row: Row)
    ensures Decode(Encode(row)) == row
  {
  }

  /** Decoding an encoded list gives it back, so two lists with the same encoding are the same. */
  lemma DecodeAllEncodes(rows: Rows)
    ensures DecodeAll(EncodeAll(rows)) == rows
  {
    forall i | 0 <= i < |rows| ensures Decode(Encode(rows[i])) == rows[i] {
      DecodeEncodes(rows[i]);
    }
    hide Decode, Encode;
  }

  lemma NewsAreTheRows(db: Content, league: Id, t: LeagueTable)
    requires IsChanged(t)
    ensures NewsFor(Capture(db, league), t) == MineIn(db, t, league)
  {
    ChangedTablesAre(t);
    DecodeAllEncodes(MineIn(db, t, league));
    hide MineIn, EncodeAll, DecodeAll, ChangedTables;
  }

  /** Captures are equal exactly when the league's rows are, in row order, in every changed table. */
  lemma SameCaptureExactly(a: Content, b: Content, league: Id)
    ensures Capture(a, league) == Capture(b, league) <==>
              forall t :: IsChanged(t) ==> MineIn(a, t, league) == MineIn(b, t, league)
  {
    if Capture(a, league) == Capture(b, league) {
      forall t | IsChanged(t) ensures MineIn(a, t, league) == MineIn(b, t, league) {
        NewsAreTheRows(a, league, t);
        NewsAreTheRows(b, league, t);
      }
    } else if forall t :: IsChanged(t) ==> MineIn(a, t, league) == MineIn(b, t, league) {
      forall t | t in ChangedTables() ensures MineIn(a, t, league) == MineIn(b, t, league) {
        ChangedTablesAre(t);
      }
      assert false;
    }
  }

  // ---------- what a reset does to one table ----------

  lemma StatementsAreConfined(t: LeagueTable, q: Request, season: Value)
    requires IsChanged(t)
    ensures IsCleared(t) ==> Confined(DropMine(t, q.league), LeagueColumnOf(t), q.league)
    ensures Confined(DropOtherSeasons(q.league, season), LeagueColumn, q.league)
    ensures Confined(Replan(q.league, season, q.nowMs), LeagueColumn, q.league)
    ensures Confined(ReturnTeams(q.league, q.nowMs), LeagueColumn, q.league)
    ensures Confined(UnsetDeadline(q.league, q.nowMs), LeagueColumn, q.league)
    ensures Confined(EndFreeze(q.league, q.actor, q.nowMs), LeagueColumn, q.league)
    ensures Confined(ReturnLeague(q.league, q.nowMs), IdColumn, q.league)
  {
  }

  /** A reset works on the league's rows of a table alone, and leaves the others as they are. */
  lemma ResetSplits(t: LeagueTable, rows: Rows, q: Request, season: Value)
    requires IsChanged(t)
    ensures
      var c := LeagueColumnOf(t);
      && Mine(AfterReset(t, rows, q, season), c, q.league) == AfterReset(t, Mine(rows, c, q.league), q, season)
      && Others(AfterReset(t, rows, q, season), c, q.league) == Others(rows, c, q.league)
  {
    StatementsAreConfined(t, q, season);
    hide Confined, Mine, Others, Collect, Replan, ReturnTeams, UnsetDeadline, EndFreeze, ReturnLeague, DropMine,
      DropOtherSeasons;
    match t
    case Cleared(_) => StatementSplits(rows, DropMine(t, q.league), LeagueColumn, q.league);
    case Seasons =>
      StatementSplits(rows, DropOtherSeasons(q.league, season), LeagueColumn, q.league);
      StatementSplits(Collect(rows, DropOtherSeasons(q.league, season)), Replan(q.league, season, q.nowMs),
                      LeagueColumn, q.league);
    case LeagueTeams => StatementSplits(rows, ReturnTeams(q.league, q.nowMs), LeagueColumn, q.league);
    case LeagueSettings => StatementSplits(rows, UnsetDeadline(q.league, q.nowMs), LeagueColumn, q.league);
    case LeagueFreezes => StatementSplits(rows, EndFreeze(q.league, q.actor, q.nowMs), LeagueColumn, q.league);
    case Leagues => StatementSplits(rows, ReturnLeague(q.league, q.nowMs), IdColumn, q.league);
    case _ => assert false;
  }

  lemma ContentProtected(db: Content, q: Request, season: Value)
    ensures RestProtected(db, ResetContent(db, q, season), q.league)
  {
    forall t | t in db
      ensures IsChanged(t) ==> OthersIn(ResetContent(db, q, season), t, q.league) == OthersIn(db, t, q.league)
      ensures !IsChanged(t) ==> ResetContent(db, q, season)[t] == db[t]
    {
      hide Mine, Others;
      if IsChanged(t) { ResetSplits(t, db[t], q, season); }
    }
    hide OthersIn;
  }

  /**
   * A reset never trips over its own protection check: it succeeds exactly when the league is
   * eligible and the foreign keys hold, and then other leagues' rows and all other tables are
   * as they were, row by row and in order.
   */
  lemma ResetProtectsTheRest(db: Content, env: Environment, q: Request)
    ensures Reset(db, env, q).Ok? <==>
              Eligibility(db, env, q).Ok? && env.references(ResetContent(db, q, Eligibility(db, env, q).value))
    ensures Reset(db, env, q) != Err(ProtectedRecordChanged)
    ensures Reset(db, env, q).Ok? ==>
              Reset(db, env, q).value == ResetContent(db, q, Eligibility(db, env, q).value)
              && RestProtected(db, Reset(db, env, q).value, q.league)
  {
    if Eligibility(db, env, q).Ok? {
      ContentProtected(db, q, Eligibility(db, env, q).value);
    }
    hide ResetContent, RestProtected, ActiveFreezes, Unplayed, CurrentSeason, Find;
  }

  lemma {:induction false} DroppedLeavesNone(t: LeagueTable, rows: Rows, league: Id)
    requires IsCleared(t) && forall row :: row in rows ==> IsMine(row, LeagueColumn, league)
    ensures Collect(rows, DropMine(t, league)) == []
  {
    if rows != [] {
      DroppedLeavesNone(t, rows[..|rows| - 1], league);
      assert rows[|rows| - 1] in rows;
    }
  }

  lemma ClearedIsEmpty(db: Content, q: Request, season: Value, t: LeagueTable)
    requires IsCleared(t)
    ensures MineIn(ResetContent(db, q, season), t, q.league) == []
  {
    if t in db {
      ResetSplits(t, db[t], q, season);
      MineAreMine(db[t], LeagueColumn, q.league);
      DroppedLeavesNone(t, Mine(db[t], LeagueColumn, q.league), q.league);
      hide Mine, Others, Collect;
    }
  }

  lemma LeagueIsInSetup(db: Content, q: Request, season: Value)
    ensures forall row :: row in RowsOf(ResetContent(db, q, season), Leagues) && IsMine(row, IdColumn, q.league) ==>
                            Cell(row, StatusColumn) == Word(Setup)
  {
    forall row | row in RowsOf(ResetContent(db, q, season), Leagues) && IsMine(row, IdColumn, q.league)
      ensures Cell(row, StatusColumn) == Word(Setup)
    {
      CollectMember(db[Leagues], ReturnLeague(q.league, q.nowMs), row);
      var was :| was in db[Leagues] && ReturnLeague(q.league, q.nowMs)(was) == Some(row);
    }
  }

  lemma NotFrozenIsIneligible(db: Content, env: Environment, q: Request)
    requires forall row :: row in RowsOf(db, Leagues) && IsMine(row, IdColumn, q.league) ==>
                             Cell(row, StatusColumn) == Word(Setup)
    ensures Eligibility(db, env, q).Err?
  {
  }

  /** A reset leaves the league in setup, so it cannot be reset again straight away. */
  lemma ResetLeavesSetup(db: Content, env: Environment, q: Request)
    requires Reset(db, env, q).Ok?
    ensures
      var after := Reset(db, env, q).value;
      && (forall t :: IsCleared(t) ==> MineIn(after, t, q.league) == [])
      && (forall row :: row in RowsOf(after, Leagues) && IsMine(row, IdColumn, q.league) ==>
                          Cell(row, StatusColumn) == Word(Setup))
      && Eligibility(after, env, q).Err?
  {
    ResetProtectsTheRest(db, env, q);
    var season, after := Eligibility(db, env, q).value, Reset(db, env, q).value;
    hide Reset, Eligibility, RestProtected, ResetContent, MineIn;
    forall t | IsCleared(t) ensures MineIn(after, t, q.league) == [] {
      ClearedIsEmpty(db, q, season, t);
    }
    LeagueIsInSetup(db, q, season);
    NotFrozenIsIneligible(after, env, q);
  }

  // ---------- what a restore makes of one table ----------

  /** The columns that a reset writes in a row it keeps. */
  function WrittenColumns(t: LeagueTable): set<Column> {
    match t
    case Seasons => {StatusColumn, UpdatedColumn, VersionColumn, DateColumn(0), DateColumn(1), DateColumn(2),
                     DateColumn(3), DateColumn(4)}
    case LeagueSettings => {TradeDeadlineColumn, UpdatedColumn, VersionColumn}
    case LeagueFreezes => {StatusColumn, EndedColumn, EndedByColumn, VersionColumn}
    case _ => {StatusColumn, UpdatedColumn, VersionColumn}
  }

  /** Keys are unique, and the rows that a reset keeps have keys and the columns it writes. */
  ghost predicate WellStored(t: LeagueTable, rows: Rows) {
    && Unique(rows, KeyOf(t))
    && (!IsCleared(t) ==>
          forall row :: row in rows ==> Cell(row, KeyOf(t)) != Null && WrittenColumns(t) <= row.Keys)
  }

  ghost predicate WellFormed(db: Content) {
    forall t :: IsChanged(t) ==> t in db && WellStored(t, db[t])
  }

  /** The league's rows as a restore leaves them, given where the kept season stood. */
  function RestoredRows(t: LeagueTable, rows: Rows, p: nat): Rows
    requires t == Seasons ==> p < |rows|
  {
    if t == Seasons then Around(rows[p], rows, p, |rows|) else rows
  }

  /** The kept season is the one at this position among the league's seasons. */
  predicate KeptAt(rows: Rows, season: Value, p: nat) {
    p < |rows| && Cell(rows[p], IdColumn) == season
  }

  lemma KeptRows(t: LeagueTable, rows: Rows, q: Request, season: Value)
    requires IsChanged(t) && !IsCleared(t) && t != Seasons && WellStored(t, rows)
    requires forall row :: row in rows ==> IsMine(row, LeagueColumnOf(t), q.league)
    ensures SameKeys(AfterReset(t, rows, q, season), rows, KeyOf(t))
    ensures forall j :: 0 <= j < |rows| ==> AfterReset(t, rows, q, season)[j].Keys <= rows[j].Keys
  {
    hide Collect, Unique;
    match t
    case LeagueTeams => StatementKeepsKeys(rows, ReturnTeams(q.league, q.nowMs), IdColumn);
    case LeagueSettings => StatementKeepsKeys(rows, UnsetDeadline(q.league, q.nowMs), LeagueColumn);
    case LeagueFreezes => StatementKeepsKeys(rows, EndFreeze(q.league, q.actor, q.nowMs), IdColumn);
    case Leagues => StatementKeepsKeys(rows, ReturnLeague(q.league, q.nowMs), IdColumn);
    case _ => assert false;
  }

  lemma OtherSeasonsDropped(rows: Rows, q: Request, season: Value, p: nat)
    requires WellStored(Seasons, rows) && KeptAt(rows, season, p)
    requires forall row :: row in rows ==> IsMine(row, LeagueColumn, q.league)
    ensures Collect(rows, DropOtherSeasons(q.league, season)) == [rows[p]]
  {
    var f := DropOtherSeasons(q.league, season);
    forall j | 0 <= j < |rows| ensures f(rows[j]) == if j == p then Some(rows[p]) else None {
      assert rows[j] in rows;
    }
    StatementKeepsOne(rows, f, p, |rows|);
    assert rows[..|rows|] == rows;
  }

  lemma ReplannedRow(row: Row, q: Request, season: Value)
    requires WrittenColumns(Seasons) <= row.Keys && Cell(row, IdColumn) == season
    ensures
      var after := Replan(q.league, season, q.nowMs)(row);
      after.Some? && Cell(after.value, IdColumn) == season && after.value.Keys <= row.Keys
  {
  }

  /** After a reset the league has one season, the kept one, with the columns it had. */
  lemma KeptSeason(rows: Rows, q: Request, season: Value, p: nat)
    requires WellStored(Seasons, rows) && KeptAt(rows, season, p)
    requires forall row :: row in rows ==> IsMine(row, LeagueColumn, q.league)
    ensures
      var after := AfterReset(Seasons, rows, q, season);
      |after| == 1 && Cell(after[0], IdColumn) == season && after[0].Keys <= rows[p].Keys
  {
    OtherSeasonsDropped(rows, q, season, p);
    ReplannedRow(rows[p], q, season);
    CollectSingle(rows[p], Replan(q.league, season, q.nowMs));
    hide Collect, Replan, DropOtherSeasons, Unique;
  }

  lemma AroundIgnoresKept<T>(x: T, y: T, s: seq<T>, p: nat)
    requires p < |s|
    ensures Around(x, s, p, |s|) == Around(y, s, p, |s|)
  {
  }

  /** Putting the archived rows back over what a reset left of them. */
  lemma PutOverReset(t: LeagueTable, rows: Rows, q: Request, season: Value, p: nat)
    requires IsChanged(t) && !IsCleared(t) && WellStored(t, rows) && (t == Seasons ==> KeptAt(rows, season, p))
    requires forall row :: row in rows ==> IsMine(row, LeagueColumnOf(t), q.league)
    ensures PutAll(AfterReset(t, rows, q, season), KeyOf(t), rows) == RestoredRows(t, rows, p)
  {
    assert Keyed(rows, KeyOf(t));
    assert rows[..|rows|] == rows;
    if t == Seasons {
      KeptSeason(rows, q, season, p);
      hide AfterReset, Unique, PutAll;
      var kept := AfterReset(t, rows, q, season)[0];
      assert AfterReset(t, rows, q, season) == [kept];
      PutAllAround(kept, IdColumn, rows, p, |rows|);
      AroundIgnoresKept(kept, rows[p], rows, p);
    } else {
      KeptRows(t, rows, q, season);
      hide AfterReset, Unique, PutAll;
      PutAllInPlace(AfterReset(t, rows, q, season), KeyOf(t), rows, |rows|);
      assert InPlace(AfterReset(t, rows, q, season), rows, |rows|) == rows;
    }
  }

  lemma MineIsWellStored(t: LeagueTable, rows: Rows, league: Id)
    requires WellStored(t, rows)
    ensures WellStored(t, Mine(rows, LeagueColumnOf(t), league))
    ensures forall row :: row in Mine(rows, LeagueColumnOf(t), league) ==> IsMine(row, LeagueColumnOf(t), league)
  {
    var c := LeagueColumnOf(t);
    SplitUnique(rows, KeyOf(t), c, league);
    forall row | row in Mine(rows, c, league) ensures row in rows && IsMine(row, c, league) {
      SplitMembers(rows, c, league, row);
    }
  }

  /** Deleting a league's rows leaves the others. */
  lemma {:induction false} DroppedLeavesOthers(t: LeagueTable, rows: Rows, league: Id)
    requires IsCleared(t)
    ensures Collect(rows, DropMine(t, league)) == Others(rows, LeagueColumn, league)
  {
    if rows != [] {
      DroppedLeavesOthers(t, rows[..|rows| - 1], league);
    }
  }

  lemma ClearedTableRestored(t: LeagueTable, now: Rows, mine: Rows, league: Id)
    requires IsCleared(t) && Unique(mine, KeyOf(t)) && (forall row :: row in mine ==> IsMine(row, LeagueColumn, league))
    requires NoKeyOf(Others(now, LeagueColumn, league), mine, KeyOf(t))
    ensures
      var r := RestoreTable(t, now, mine, league);
      && r.Some? && Mine(r.value, LeagueColumn, league) == mine
      && Others(r.value, LeagueColumn, league) == Others(now, LeagueColumn, league)
  {
    var others := Others(now, LeagueColumn, league);
    DroppedLeavesOthers(t, now, league);
    InsertAllAppends(others, KeyOf(t), mine);
    SplitConcat(others, mine, LeagueColumn, league);
    forall row | row in others ensures !IsMine(row, LeagueColumn, league) {
      SplitMembers(now, LeagueColumn, league, row);
    }
    NoneMine(others, LeagueColumn, league);
    AllMine(mine, LeagueColumn, league);
    hide Mine, Others, InsertAll, Unique, NoKeyOf;
    assert [] + mine == mine && others + [] == others;
  }

  /** Every row of another league keeps its place, and the league's rows come back. */
  lemma TableRestored(t: LeagueTable, was: Rows, now: Rows, q: Request, season: Value, p: nat)
    requires IsChanged(t) && WellStored(t, was) && Unique(now, KeyOf(t))
    requires Mine(now, LeagueColumnOf(t), q.league) ==
             AfterReset(t, Mine(was, LeagueColumnOf(t), q.league), q, season)
    requires NoKeyOf(Others(now, LeagueColumnOf(t), q.league), Mine(was, LeagueColumnOf(t), q.league), KeyOf(t))
    requires t == Seasons ==> KeptAt(Mine(was, LeagueColumn, q.league), season, p)
    ensures
      var c, mine := LeagueColumnOf(t), Mine(was, LeagueColumnOf(t), q.league);
      var r := RestoreTable(t, now, mine, q.league);
      && r.Some? && Mine(r.value, c, q.league) == RestoredRows(t, mine, p)
      && Others(r.value, c, q.league) == Others(now, c, q.league)
  {
    var c := LeagueColumnOf(t);
    var mine := Mine(was, c, q.league);
    MineIsWellStored(t, was, q.league);
    if IsCleared(t) {
      ClearedTableRestored(t, now, mine, q.league);
    } else {
      hide AfterReset, Unique;
      assert Restorable(now, KeyOf(t), mine, c, q.league);
      PutAllSplits(now, KeyOf(t), mine, c, q.league);
      PutOverReset(t, mine, q, season, p);
    }
  }

  // ---------- reset and restore together ----------

  /** The league, by every row and witness its scope hash covers, is as the reset left it; others may have changed. */
  ghost predicate Unaltered(before: Content, env: Environment, q: Request, now: Content) {
    && Reset(before, env, q).Ok?
    && now.Keys == before.Keys
    && ScopeOf(now, q.league) == ScopeOf(Reset(before, env, q).value, q.league)
  }

  /** Keys are still unique, and no other league has come to hold the key of an archived row. */
  ghost predicate KeysStayOurs(before: Content, now: Content, league: Id) {
    forall t :: IsChanged(t) ==> t in now && Unique(now[t], KeyOf(t))
                                 && NoKeyOf(OthersIn(now, t, league), MineIn(before, t, league), KeyOf(t))
  }

  /** The position of the season that an eligible league keeps. */
  lemma KeptSeasonPosition(db: Content, env: Environment, q: Request) returns (p: nat)
    requires Eligibility(db, env, q).Ok?
    ensures KeptAt(MineIn(db, Seasons, q.league), Eligibility(db, env, q).value, p)
  {
    hide MineIn, ActiveFreezes, Unplayed;
    var league := Find(RowsOf(db, Leagues), IdColumn, Text(q.league)).value;
    p := IndexOf(MineIn(db, Seasons, q.league), IdColumn, Cell(league, CurrentSeasonColumn)).value;
  }

  lemma UnalteredRows(before: Content, env: Environment, q: Request, now: Content, t: LeagueTable)
    requires Unaltered(before, env, q, now) && WellFormed(before) && IsChanged(t)
    ensures
      var season := Eligibility(before, env, q).value;
      && Eligibility(before, env, q).Ok?
      && MineIn(now, t, q.league) == AfterReset(t, MineIn(before, t, q.league), q, season)
  {
    var season := Eligibility(before, env, q).value;
    ResetProtectsTheRest(before, env, q);
    SameCaptureExactly(now, Reset(before, env, q).value, q.league);
    hide Reset, Eligibility, AfterReset, Capture, WellStored, RestProtected, Mine;
    ResetSplits(t, before[t], q, season);
  }

  /** The restored content, table by table, before the restore compares it with its archive. */
  ghost predicate ComesBack(before: Content, now: Content, after: Content, league: Id, p: nat) {
    && RestProtected(now, after, league)
    && forall t :: IsChanged(t) ==>
                     (t == Seasons ==> p < |MineIn(before, t, league)|)
                     && MineIn(after, t, league) == RestoredRows(t, MineIn(before, t, league), p)
  }

  ghost predicate TableComesBack(before: Content, now: Content, snapshot: Snapshot, p: nat, t: LeagueTable) {
    var c, mine := LeagueColumnOf(t), MineIn(before, t, snapshot.leagueId);
    && t in now
    && var r := RestoreTable(t, now[t], NewsFor(snapshot, t), snapshot.leagueId);
    && r.Some? && (t == Seasons ==> p < |mine|)
    && Mine(r.value, c, snapshot.leagueId) == RestoredRows(t, mine, p)
    && Others(r.value, c, snapshot.leagueId) == OthersIn(now, t, snapshot.leagueId)
  }

  lemma OneTableComesBack(before: Content, env: Environment, q: Request, now: Content, p: nat, t: LeagueTable)
    requires WellFormed(before) && Unaltered(before, env, q, now) && KeysStayOurs(before, now, q.league)
    requires Eligibility(before, env, q).Ok?
             && KeptAt(MineIn(before, Seasons, q.league), Eligibility(before, env, q).value, p)
    requires IsChanged(t)
    ensures TableComesBack(before, now, Capture(before, q.league), p, t)
  {
    UnalteredRows(before, env, q, now, t);
    NewsAreTheRows(before, q.league, t);
    assert Capture(before, q.league).leagueId == q.league;
    hide Unaltered, Eligibility, AfterReset, Capture, Mine, Others, RestoreTable, NewsFor, RestoredRows;
    TableRestored(t, before[t], now[t], q, Eligibility(before, env, q).value, p);
  }

  lemma TablesComeBack(before: Content, now: Content, snapshot: Snapshot, p: nat)
    requires forall t :: IsChanged(t) ==> TableComesBack(before, now, snapshot, p, t)
    ensures
      var r := RestoredContent(now, snapshot);
      r.Some? && ComesBack(before, now, r.value, snapshot.leagueId, p)
  {
  }

  lemma ContentComesBack(before: Content, env: Environment, q: Request, now: Content, p: nat)
    requires WellFormed(before) && Unaltered(before, env, q, now) && KeysStayOurs(before, now, q.league)
    requires Eligibility(before, env, q).Ok?
             && KeptAt(MineIn(before, Seasons, q.league), Eligibility(before, env, q).value, p)
    ensures
      var r := RestoredContent(now, Capture(before, q.league));
      r.Some? && ComesBack(before, now, r.value, q.league, p)
  {
    var snapshot := Capture(before, q.league);
    assert snapshot.leagueId == q.league;
    hide Capture, Unaltered, Eligibility, KeysStayOurs, WellFormed, TableComesBack, ComesBack, RestoredContent,
      IsChanged,
      KeptAt, MineIn;
    forall t | IsChanged(t) ensures TableComesBack(before, now, snapshot, p, t) {
      OneTableComesBack(before, env, q, now, p, t);
    }
    TablesComeBack(before, now, snapshot, p);
  }

  lemma SeasonsAreKeyed(db: Content, league: Id)
    requires WellFormed(db)
    ensures Keyed(MineIn(db, Seasons, league), IdColumn)
  {
    MineIsWellStored(Seasons, db[Seasons], league);
    hide Mine;
  }

  lemma SeasonsChange()
    ensures IsChanged(Seasons)
  {
  }

  lemma RowsComeBack(t: LeagueTable, rows: Rows, p: nat)
    requires t == Seasons ==> p < |rows| && Keyed(rows, IdColumn)
    ensures multiset(RestoredRows(t, rows, p)) == multiset(rows)
    ensures RestoredRows(t, rows, p) == rows <==> t != Seasons || p == 0
  {
    hide Around, Keyed;
    if t == Seasons { AroundKeepsOrderExactly(rows[p], IdColumn, rows, p); }
  }

  /** The rows come back whatever the order; the capture comes back exactly when the kept season was the first. */
  lemma CaptureComesBackExactly(before: Content, now: Content, after: Content, league: Id, p: nat)
    requires WellFormed(before) && ComesBack(before, now, after, league, p)
    ensures forall t :: IsChanged(t) ==> multiset(MineIn(after, t, league)) == multiset(MineIn(before, t, league))
    ensures forall t :: IsChanged(t) && t != Seasons ==> MineIn(after, t, league) == MineIn(before, t, league)
    ensures Capture(after, league) == Capture(before, league) <==> p == 0
  {
    SameCaptureExactly(after, before, league);
    hide Capture, MineIn, RestProtected, RestoredRows, IsChanged;
    forall t | IsChanged(t)
      ensures multiset(MineIn(after, t, league)) == multiset(MineIn(before, t, league))
      ensures MineIn(after, t, league) == MineIn(before, t, league) <==> t != Seasons || p == 0
    {
      if t == Seasons { SeasonsAreKeyed(before, league); }
      RowsComeBack(t, MineIn(before, t, league), p);
    }
    assert IsChanged(Seasons) by { SeasonsChange(); }
  }

  lemma CaptureIsAnArchive(db: Content, league: Id)
    ensures
      var snapshot := Capture(db, league);
      && snapshot.schemaVersion == SCHEMA_VERSION && snapshot.leagueId == league
      && snapshot.tables.Keys == (set t | t in ChangedTables()) && InScope(snapshot)
  {
    var snapshot := Capture(db, league);
    assert snapshot.tables.Keys == (set t | t in ChangedTables());
    forall t | t in ChangedTables() ensures TableInScope(snapshot, t) {
      ChangedTablesAre(t);
      NewsAreTheRows(db, league, t);
      MineAreMine(RowsOf(db, t), LeagueColumnOf(t), league);
    }
  }

  /**
   * Reset, then restore: however other leagues have changed since, every archived row is back in
   * its table, no row of another league has moved, and the restore accepts its result exactly
   * when the season it kept was the league's first in row order. Otherwise the seasons come back
   * with the kept one in front, and the restore refuses them.
   */
  lemma RestoreAfterReset(before: Content, env: Environment, q: Request, now: Content) returns (after: Content, p: nat)
    requires WellFormed(before) && Unaltered(before, env, q, now) && KeysStayOurs(before, now, q.league)
    ensures KeptAt(MineIn(before, Seasons, q.league), Eligibility(before, env, q).value, p)
    ensures RestoredContent(now, Capture(before, q.league)) == Some(after)
    ensures RestProtected(now, after, q.league)
    ensures forall t :: IsChanged(t) ==> multiset(MineIn(after, t, q.league)) == multiset(MineIn(before, t, q.league))
    ensures Restore(now, env, Capture(before, q.league)) ==
            if !env.references(after) then Err(ReferenceConflict)
            else if p == 0 then Ok(after) else Err(RestoreMismatch)
    ensures Capture(after, q.league) == Capture(before, q.league) <==> p == 0
  {
    ResetProtectsTheRest(before, env, q);
    assert env.supported && Eligibility(before, env, q).Ok? by {
      hide Find, ActiveFreezes, CurrentSeason, Unplayed;
    }
    p := KeptSeasonPosition(before, env, q);
    ContentComesBack(before, env, q, now, p);
    after := RestoredContent(now, Capture(before, q.league)).value;
    CaptureComesBackExactly(before, now, after, q.league, p);
    CaptureIsAnArchive(before, q.league);
    hide Capture, RestoredContent, RestProtected, InScope, ChangedTables, WellFormed, Unaltered, KeysStayOurs,
      Eligibility,
      MineIn;
  }

  // ---------- the rehearsal ----------

  /** The same rows in every table, in whatever order. */
  ghost predicate SameRows(a: Content, b: Content) {
    a.Keys == b.Keys && forall t :: t in a ==> multiset(a[t]) == multiset(b[t])
  }

  /** The foreign-key check looks at which rows there are, not at their order. */
  ghost predicate IgnoresOrder(references: Content -> bool) {
    forall a: Content, b: Content :: SameRows(a, b) ==> references(a) == references(b)
  }

  lemma ResetKeepsUnique(t: LeagueTable, rows: Rows, q: Request, season: Value)
    requires IsChanged(t) && WellStored(t, rows)
    ensures Unique(AfterReset(t, rows, q, season), KeyOf(t))
  {
    hide Collect, Unique;
    match t
    case Cleared(_) => StatementKeepsUnique(rows, DropMine(t, q.league), IdColumn);
    case Seasons =>
      StatementKeepsUnique(rows, DropOtherSeasons(q.league, season), IdColumn);
      StatementKeepsUnique(Collect(rows, DropOtherSeasons(q.league, season)), Replan(q.league, season, q.nowMs),
                           IdColumn);
    case LeagueTeams => StatementKeepsUnique(rows, ReturnTeams(q.league, q.nowMs), IdColumn);
    case LeagueSettings => StatementKeepsUnique(rows, UnsetDeadline(q.league, q.nowMs), LeagueColumn);
    case LeagueFreezes => StatementKeepsUnique(rows, EndFreeze(q.league, q.actor, q.nowMs), IdColumn);
    case Leagues => StatementKeepsUnique(rows, ReturnLeague(q.league, q.nowMs), IdColumn);
    case _ => assert false;
  }

  lemma ResetKeepsKeysOurs(db: Content, q: Request, season: Value)
    requires WellFormed(db)
    ensures KeysStayOurs(db, ResetContent(db, q, season), q.league)
  {
    forall t | IsChanged(t)
      ensures t in db && Unique(ResetContent(db, q, season)[t], KeyOf(t))
      ensures NoKeyOf(OthersIn(ResetContent(db, q, season), t, q.league), MineIn(db, t, q.league), KeyOf(t))
    {
      hide Mine, Others, Unique, NoKeyOf;
      ResetSplits(t, db[t], q, season);
      SplitUnique(db[t], KeyOf(t), LeagueColumnOf(t), q.league);
      ResetKeepsUnique(t, db[t], q, season);
    }
  }

  /** Straight after the reset the restored content has the rows it had, so its foreign keys hold again. */
  lemma ReferencesComeBack(before: Content, reset: Content, after: Content, env: Environment, league: Id, p: nat)
    requires WellFormed(before) && env.references(before) && IgnoresOrder(env.references)
    requires RestProtected(before, reset, league) && ComesBack(before, reset, after, league, p)
    ensures env.references(after)
  {
    CaptureComesBackExactly(before, reset, after, league, p);
    forall t | t in before ensures multiset(after[t]) == multiset(before[t]) {
      if IsChanged(t) {
        SplitMultiset(after[t], LeagueColumnOf(t), league);
        SplitMultiset(before[t], LeagueColumnOf(t), league);
        hide Mine, Others, RestoredRows;
        assert OthersIn(after, t, league) == OthersIn(reset, t, league) == OthersIn(before, t, league);
      }
    }
    assert SameRows(after, before);
  }

  /** A content just reset is what its rehearsal restores. */
  lemma JustReset(db: Content, env: Environment, q: Request)
    requires WellFormed(db) && Reset(db, env, q).Ok?
    ensures Unaltered(db, env, q, Reset(db, env, q).value) && KeysStayOurs(db, Reset(db, env, q).value, q.league)
    ensures RestProtected(db, Reset(db, env, q).value, q.league)
  {
    ResetProtectsTheRest(db, env, q);
    ResetKeepsKeysOurs(db, q, Eligibility(db, env, q).value);
    hide Eligibility, ScopeOf, KeysStayOurs, WellFormed, ResetContent;
  }

  lemma OneSeasonKept(seasons: Rows, season: Value, p: nat)
    requires Keyed(seasons, IdColumn) && KeptAt(seasons, season, p)
    ensures KeptAt(seasons, season, 0) <==> p == 0
  {
  }

  lemma ProtectedTwice(a: Content, b: Content, c: Content, league: Id)
    requires RestProtected(a, b, league) && RestProtected(b, c, league)
    ensures RestProtected(a, c, league)
  {
  }

  /** Restoring straight after the reset fails in one way only. */
  lemma ImmediateRestore(db: Content, env: Environment, q: Request)
    requires WellFormed(db) && env.references(db) && IgnoresOrder(env.references) && Reset(db, env, q).Ok?
    ensures
      var season := Eligibility(db, env, q);
      var r := Restore(Reset(db, env, q).value, env, Capture(db, q.league));
      && season.Ok?
      && (r.Ok? <==> KeptAt(MineIn(db, Seasons, q.league), season.value, 0))
      && (r.Err? ==> r.error == RestoreMismatch)
      && (r.Ok? ==> Capture(r.value, q.league) == Capture(db, q.league)
                    && RestProtected(db, r.value, q.league))
  {
    JustReset(db, env, q);
    ResetProtectsTheRest(db, env, q);
    var reset, season := Reset(db, env, q).value, Eligibility(db, env, q).value;
    var after, p := RestoreAfterReset(db, env, q, reset);
    ContentComesBack(db, env, q, reset, p);
    ReferencesComeBack(db, reset, after, env, q.league, p);
    SeasonsAreKeyed(db, q.league);
    OneSeasonKept(MineIn(db, Seasons, q.league), season, p);
    ProtectedTwice(db, reset, after, q.league);
    hide Reset, Restore, Eligibility, Capture, RestoredContent, WellFormed, Unaltered, KeysStayOurs, ComesBack,
      RestProtected, IgnoresOrder, MineIn;
  }

  lemma WitnessKept(a: Content, b: Content, league: Id, t: LeagueTable)
    requires RestProtected(a, b, league) && t in WitnessTables()
    ensures MineIn(a, t, league) == MineIn(b, t, league)
  {
  }

  lemma WitnessesKept(a: Content, b: Content, league: Id)
    requires RestProtected(a, b, league) && Capture(a, league) == Capture(b, league)
    ensures ScopeOf(a, league) == ScopeOf(b, league)
  {
    hide Capture, RestProtected, MineIn, EncodeAll, WitnessTables;
    forall t | t in WitnessTables() ensures MineIn(a, t, league) == MineIn(b, t, league) {
      WitnessKept(a, b, league, t);
    }
  }

  /** A rehearsal succeeds exactly when the reset does and the kept season is the league's first in row order. */
  lemma RehearsalSucceedsExactly(db: Content, env: Environment, q: Request)
    requires WellFormed(db) && env.references(db) && IgnoresOrder(env.references)
    ensures Rehearse(db, env, q).Ok? <==>
              Reset(db, env, q).Ok? && KeptAt(MineIn(db, Seasons, q.league), Eligibility(db, env, q).value, 0)
    ensures Rehearse(db, env, q).Ok? ==> Rehearse(db, env, q).value == ScopeOf(Reset(db, env, q).value, q.league)
    ensures Reset(db, env, q).Ok? ==> Eligibility(db, env, q).Ok?
  {
    if Reset(db, env, q).Ok? {
      ImmediateRestore(db, env, q);
      var back := Restore(Reset(db, env, q).value, env, Capture(db, q.league));
      if back.Ok? { WitnessesKept(db, back.value, q.league); }
      hide Reset, Restore, Eligibility, Capture, ScopeOf, WellFormed, RestProtected, IgnoresOrder, MineIn, KeptAt;
    }
  }

  /**
   * What a rehearsal is for: a reset that was rehearsed can be restored later, by the same
   * archive, for as long as the league's scope is what the reset left and references hold, and
   * the league is then row for row and in order what it was.
   */
  lemma RehearsedResetIsRestorable(before: Content, env: Environment, q: Request, now: Content) returns (after: Content)
    requires WellFormed(before) && env.references(before) && IgnoresOrder(env.references)
    requires Rehearse(before, env, q).Ok? && now.Keys == before.Keys
    requires ScopeOf(now, q.league) == Rehearse(before, env, q).value && KeysStayOurs(before, now, q.league)
    ensures RestoredContent(now, Capture(before, q.league)) == Some(after)
    ensures RehearseRestore(now, env, Capture(before, q.league), Rehearse(before, env, q).value) ==
            if env.references(after) then Ok(after) else Err(ReferenceConflict)
    ensures Capture(after, q.league) == Capture(before, q.league) && RestProtected(now, after, q.league)
  {
    RehearsalSucceedsExactly(before, env, q);
    var season := Eligibility(before, env, q).value;
    assert Capture(before, q.league).leagueId == q.league;
    hide Reset, Restore, Rehearse, Eligibility, Capture, ScopeOf, WellFormed, RestProtected, IgnoresOrder, KeysStayOurs;
    var p;
    after, p := RestoreAfterReset(before, env, q, now);
    SeasonsAreKeyed(before, q.league);
    OneSeasonKept(MineIn(before, Seasons, q.league), season, p);
  }

  // ---------- a league whose reset is refused for its row order alone ----------

  function ExampleSeason(id: Id, key: Id): Row {
    map[IdColumn := Text(id), LeagueColumn := Text(1), StatusColumn := Word(Planned), SeasonKeyColumn := Text(key),
        UpdatedColumn := Num(0), VersionColumn := Num(1), DateColumn(0) := Null, DateColumn(1) := Null,
        DateColumn(2) := Null, DateColumn(3) := Null, DateColumn(4) := Null]
  }

  function ExampleLeague(): Row {
    map[IdColumn := Text(1), StatusColumn := Word(Frozen), CurrentSeasonColumn := Text(10),
        UpdatedColumn := Num(0), VersionColumn := Num(1)]
  }

  function ExampleFreeze(): Row {
    map[IdColumn := Text(20), LeagueColumn := Text(1), StatusColumn := Word(Active),
        EndedColumn := Null, EndedByColumn := Null, VersionColumn := Num(1)]
  }

  /** A frozen league whose unused future season was stored before the current one. */
  function ExampleRows(t: LeagueTable): Rows {
    match t
    case Leagues => [ExampleLeague()]
    case LeagueFreezes => [ExampleFreeze()]
    case Seasons => [ExampleSeason(11, 2027), ExampleSeason(10, 2026)]
    case _ => []
  }

  function Example(): Content {
    map t | t in ChangedTables() :: ExampleRows(t)
  }

  lemma ExampleStored(t: LeagueTable)
    ensures IsChanged(t) ==> t in Example() && Example()[t] == RowsOf(Example(), t) == ExampleRows(t)
  {
    ChangedTablesAre(t);
    hide ChangedTables, ExampleRows;
  }

  lemma ExampleWellStored(t: LeagueTable)
    requires IsChanged(t)
    ensures WellStored(t, ExampleRows(t))
  {
    match t
    case Leagues =>
    case LeagueFreezes =>
    case Seasons =>
    case _ =>
  }

  lemma ExampleSeasons()
    ensures
      var seasons := ExampleRows(Seasons);
      && Mine(seasons, LeagueColumn, 1) == seasons
      && Find(seasons, IdColumn, Text(10)) == Some(ExampleSeason(10, 2026))
      && Unplayed(seasons, ExampleSeason(10, 2026)) && !KeptAt(seasons, Text(10), 0)
  {
    AllMine(ExampleRows(Seasons), LeagueColumn, 1);
  }

  lemma ExampleFreezes()
    ensures |ActiveFreezes(ExampleRows(LeagueFreezes), 1)| == 1
  {
  }

  lemma ExampleLeagueFound()
    ensures
      var league := ExampleLeague();
      && Find(ExampleRows(Leagues), IdColumn, Text(1)) == Some(league)
      && Cell(league, StatusColumn) == Word(Frozen) && Cell(league, CurrentSeasonColumn) == Text(10)
    ensures Cell(ExampleSeason(10, 2026), IdColumn) == Text(10)
  {
  }

  lemma ExampleCurrentSeason()
    ensures CurrentSeason(Example(), 1) == Some(ExampleSeason(10, 2026))
    ensures MineIn(Example(), Seasons, 1) == ExampleRows(Seasons)
  {
    assert IsChanged(Leagues) && IsChanged(Seasons);
    hide Example, RowsOf, IsChanged, Mine, ExampleRows, ExampleLeague, ExampleSeason, Cell, Find, Unplayed, KeptAt;
    ExampleStored(Leagues);
    ExampleStored(Seasons);
    ExampleLeagueFound();
    ExampleSeasons();
  }

  lemma ExampleIsEligible(env: Environment, nowMs: int)
    requires env.supported
    ensures Eligibility(Example(), env, Request(1, 2, nowMs, true)) == Ok(Text(10))
    ensures !KeptAt(MineIn(Example(), Seasons, 1), Text(10), 0)
  {
    assert IsChanged(Leagues) && IsChanged(LeagueFreezes);
    hide Example, RowsOf, ActiveFreezes, Unplayed, IsChanged, MineIn, Mine, KeptAt, ExampleRows, ExampleLeague,
      ExampleSeason, Cell, Find, CurrentSeason;
    ExampleStored(Leagues);
    ExampleStored(LeagueFreezes);
    ExampleLeagueFound();
    ExampleSeasons();
    ExampleFreezes();
    ExampleCurrentSeason();
  }

  lemma ExampleIsWellFormed()
    ensures WellFormed(Example())
  {
    hide ExampleRows, Example, WellStored, IsChanged;
    forall t ensures IsChanged(t) ==> t in Example() && WellStored(t, Example()[t]) {
      ExampleStored(t);
      if IsChanged(t) { ExampleWellStored(t); }
    }
  }

  lemma MismatchUnlessFirst(db: Content, env: Environment, q: Request)
    requires WellFormed(db) && (forall c :: env.references(c)) && Eligibility(db, env, q).Ok?
    requires !KeptAt(MineIn(db, Seasons, q.league), Eligibility(db, env, q).value, 0)
    ensures Reset(db, env, q).Ok? && Rehearse(db, env, q) == Err(RestoreMismatch)
  {
    ResetProtectsTheRest(db, env, q);
    ImmediateRestore(db, env, q);
    hide Eligibility, Reset, Restore, WellFormed, MineIn, KeptAt, Capture, RestProtected;
  }

  /** Such a league passes every check, and its rehearsal still ends in a mismatch: the archive comes back reordered. */
  lemma LaterSeasonStoredFirst(env: Environment, nowMs: int)
    requires env.supported && (forall c :: env.references(c))
    ensures Reset(Example(), env, Request(1, 2, nowMs, true)).Ok?
    ensures Rehearse(Example(), env, Request(1, 2, nowMs, true)) == Err(RestoreMismatch)
  {
    hide Example, Eligibility, Reset, Rehearse, WellFormed, MineIn, KeptAt;
    ExampleIsEligible(env, nowMs);
    ExampleIsWellFormed();
    MismatchUnlessFirst(Example(), env, Request(1, 2, nowMs, true));
  }
}

/** What a guided reset demands of a league and what it writes, row by row and column by column. */
module GuidedResetEffects {
  import opened Collections
  import opened GuidedReset
  import opened GuidedResetProperties
  import opened LeagueTables
  import opened RowChanges
  import opened Store

  // ---------- rows ----------

  /** An update time that never goes back. */
  function Latest(v: Value, nowMs: int): Value {
    match v
    case Num(n) => if n >= nowMs then Num(n) else Num(nowMs)
    case _ => Null
  }

  ghost predicate Has(row: Row, c: Column, v: Value) {
    Cell(row, c) == v
  }

  /** An active freeze of the league is ended now, by the one who resets it; other rows stay. */
  ghost predicate FreezeBecame(q: Request, was: Row, now: Row) {
    if Has(was, LeagueColumn, Text(q.league)) && Has(was, StatusColumn, Word(Active)) then
      Became(was, now, map[StatusColumn := Word(Ended), EndedColumn := Num(q.nowMs), EndedByColumn := Text(q.actor)], 1)
    else now == was
  }

  /** A team of the league that is active or in setup is in setup; other rows stay. */
  ghost predicate TeamBecame(q: Request, was: Row, now: Row) {
    if Has(was, LeagueColumn, Text(q.league))
       && (Has(was, StatusColumn, Word(Active)) || Has(was, StatusColumn, Word(Setup))) then
      Became(was, now, map[StatusColumn := Word(Setup), UpdatedColumn := Latest(Cell(was, UpdatedColumn), q.nowMs)], 1)
    else now == was
  }

  /** The league's settings have no trade deadline; other rows stay. */
  ghost predicate SettingsBecame(q: Request, was: Row, now: Row) {
    if Has(was, LeagueColumn, Text(q.league)) then
      Became(was, now, map[TradeDeadlineColumn := Null, UpdatedColumn := Latest(Cell(was, UpdatedColumn), q.nowMs)], 1)
    else now == was
  }

  /** The league is in setup; other rows stay. */
  ghost predicate LeagueBecame(q: Request, was: Row, now: Row) {
    if Has(was, IdColumn, Text(q.league)) then
      Became(was, now, map[StatusColumn := Word(Setup), UpdatedColumn := Latest(Cell(was, UpdatedColumn), q.nowMs)], 1)
    else now == was
  }

  /** The kept season is planned and none of its five dates is set. */
  ghost predicate SeasonBecame(q: Request, was: Row, now: Row) {
    Became(was, now, map[StatusColumn := Word(Planned), DateColumn(0) := Null, DateColumn(1) := Null,
                         DateColumn(2) := Null, DateColumn(3) := Null, DateColumn(4) := Null,
                         UpdatedColumn := Latest(Cell(was, UpdatedColumn), q.nowMs)], 1)
  }

  lemma FreezeRow(q: Request, row: Row)
    ensures
      var f := EndFreeze(q.league, q.actor, q.nowMs);
      f(row).Some? && FreezeBecame(q, row, f(row).value)
  {
    var cells := map[StatusColumn := Word(Ended), EndedColumn := Num(q.nowMs), EndedByColumn := Text(q.actor)];
    var version := Increased(Cell(row, VersionColumn));
    OverlaidWithVersion(row, cells, version, 1);
    assert cells[VersionColumn := version] == map[StatusColumn := Word(Ended), EndedColumn := Num(q.nowMs),
                                                  EndedByColumn := Text(q.actor), VersionColumn := version];
    hide Became;
  }

  lemma TeamRow(q: Request, row: Row)
    ensures
      var f := ReturnTeams(q.league, q.nowMs);
      f(row).Some? && TeamBecame(q, row, f(row).value)
  {
    var updated, version := Later(Cell(row, UpdatedColumn), q.nowMs), Increased(Cell(row, VersionColumn));
    var cells := map[StatusColumn := Word(Setup), UpdatedColumn := updated];
    OverlaidWithVersion(row, cells, version, 1);
    assert cells[VersionColumn := version]
           == map[StatusColumn := Word(Setup), UpdatedColumn := updated, VersionColumn := version];
    assert updated == Latest(Cell(row, UpdatedColumn), q.nowMs);
    hide Became;
  }

  lemma SettingsRow(q: Request, row: Row)
    ensures
      var f := UnsetDeadline(q.league, q.nowMs);
      f(row).Some? && SettingsBecame(q, row, f(row).value)
  {
    var updated, version := Later(Cell(row, UpdatedColumn), q.nowMs), Increased(Cell(row, VersionColumn));
    var cells := map[TradeDeadlineColumn := Null, UpdatedColumn := updated];
    OverlaidWithVersion(row, cells, version, 1);
    assert cells[VersionColumn := version]
           == map[TradeDeadlineColumn := Null, UpdatedColumn := updated, VersionColumn := version];
    assert updated == Latest(Cell(row, UpdatedColumn), q.nowMs);
    hide Became;
  }

  lemma LeagueRow(q: Request, row: Row)
    ensures
      var f := ReturnLeague(q.league, q.nowMs);
      f(row).Some? && LeagueBecame(q, row, f(row).value)
  {
    var updated, version := Later(Cell(row, UpdatedColumn), q.nowMs), Increased(Cell(row, VersionColumn));
    var cells := map[StatusColumn := Word(Setup), UpdatedColumn := updated];
    OverlaidWithVersion(row, cells, version, 1);
    assert cells[VersionColumn := version]
           == map[StatusColumn := Word(Setup), UpdatedColumn := updated, VersionColumn := version];
    assert updated == Latest(Cell(row, UpdatedColumn), q.nowMs);
    hide Became;
  }

  lemma SeasonRow(q: Request, season: Value, row: Row)
    requires IsMine(row, LeagueColumn, q.league) && Cell(row, IdColumn) == season
    ensures DropOtherSeasons(q.league, season)(row) == Some(row)
    ensures
      var f := Replan(q.league, season, q.nowMs);
      f(row).Some? && SeasonBecame(q, row, f(row).value)
  {
    var updated, version := Later(Cell(row, UpdatedColumn), q.nowMs), Increased(Cell(row, VersionColumn));
    var cells := map[StatusColumn := Word(Planned), DateColumn(0) := Null, DateColumn(1) := Null,
                     DateColumn(2) := Null, DateColumn(3) := Null, DateColumn(4) := Null, UpdatedColumn := updated];
    OverlaidWithVersion(row, cells, version, 1);
    assert cells[VersionColumn := version]
           == map[StatusColumn := Word(Planned), DateColumn(0) := Null, DateColumn(1) := Null,
                  DateColumn(2) := Null, DateColumn(3) := Null, DateColumn(4) := Null, UpdatedColumn := updated,
                  VersionColumn := version];
    assert updated == Latest(Cell(row, UpdatedColumn), q.nowMs);
    hide Became;
  }

  // ---------- tables ----------

  /** Freezes, teams, settings and leagues in their old order, each row as it should have become. */
  ghost predicate RowsBecame(q: Request, before: Content, after: Content) {
    && |RowsOf(after, LeagueFreezes)| == |RowsOf(before, LeagueFreezes)|
    && |RowsOf(after, LeagueTeams)| == |RowsOf(before, LeagueTeams)|
    && |RowsOf(after, LeagueSettings)| == |RowsOf(before, LeagueSettings)|
    && |RowsOf(after, Leagues)| == |RowsOf(before, Leagues)|
    && (forall i :: 0 <= i < |RowsOf(before, LeagueFreezes)| ==>
                      FreezeBecame(q, RowsOf(before, LeagueFreezes)[i], RowsOf(after, LeagueFreezes)[i]))
    && (forall i :: 0 <= i < |RowsOf(before, LeagueTeams)| ==>
                      TeamBecame(q, RowsOf(before, LeagueTeams)[i], RowsOf(after, LeagueTeams)[i]))
    && (forall i :: 0 <= i < |RowsOf(before, LeagueSettings)| ==>
                      SettingsBecame(q, RowsOf(before, LeagueSettings)[i], RowsOf(after, LeagueSettings)[i]))
    && (forall i :: 0 <= i < |RowsOf(before, Leagues)| ==>
                      LeagueBecame(q, RowsOf(before, Leagues)[i], RowsOf(after, Leagues)[i]))
  }

  lemma FreezesBecome(db: Content, q: Request, season: Value)
    ensures
      var before, after := RowsOf(db, LeagueFreezes), RowsOf(ResetContent(db, q, season), LeagueFreezes);
      |after| == |before| && forall i :: 0 <= i < |before| ==> FreezeBecame(q, before[i], after[i])
  {
    var rows, f := RowsOf(db, LeagueFreezes), EndFreeze(q.league, q.actor, q.nowMs);
    assert RowsOf(ResetContent(db, q, season), LeagueFreezes) == Collect(rows, f);
    hide EndFreeze, Collect, FreezeBecame, ResetContent;
    forall row: Row ensures f(row).Some? && FreezeBecame(q, row, f(row).value) {
      FreezeRow(q, row);
    }
    CollectAll(rows, f);
  }

  lemma TeamsBecome(db: Content, q: Request, season: Value)
    ensures
      var before, after := RowsOf(db, LeagueTeams), RowsOf(ResetContent(db, q, season), LeagueTeams);
      |after| == |before| && forall i :: 0 <= i < |before| ==> TeamBecame(q, before[i], after[i])
  {
    var rows, f := RowsOf(db, LeagueTeams), ReturnTeams(q.league, q.nowMs);
    assert RowsOf(ResetContent(db, q, season), LeagueTeams) == Collect(rows, f);
    hide ReturnTeams, Collect, TeamBecame, ResetContent;
    forall row: Row ensures f(row).Some? && TeamBecame(q, row, f(row).value) {
      TeamRow(q, row);
    }
    CollectAll(rows, f);
  }

  lemma SettingsBecome(db: Content, q: Request, season: Value)
    ensures
      var before, after := RowsOf(db, LeagueSettings), RowsOf(ResetContent(db, q, season), LeagueSettings);
      |after| == |before| && forall i :: 0 <= i < |before| ==> SettingsBecame(q, before[i], after[i])
  {
    var rows, f := RowsOf(db, LeagueSettings), UnsetDeadline(q.league, q.nowMs);
    assert RowsOf(ResetContent(db, q, season), LeagueSettings) == Collect(rows, f);
    hide UnsetDeadline, Collect, SettingsBecame, ResetContent;
    forall row: Row ensures f(row).Some? && SettingsBecame(q, row, f(row).value) {
      SettingsRow(q, row);
    }
    CollectAll(rows, f);
  }

  lemma LeaguesBecome(db: Content, q: Request, season: Value)
    ensures
      var before, after := RowsOf(db, Leagues), RowsOf(ResetContent(db, q, season), Leagues);
      |after| == |before| && forall i :: 0 <= i < |before| ==> LeagueBecame(q, before[i], after[i])
  {
    var rows, f := RowsOf(db, Leagues), ReturnLeague(q.league, q.nowMs);
    assert RowsOf(ResetContent(db, q, season), Leagues) == Collect(rows, f);
    hide ReturnLeague, Collect, LeagueBecame, ResetContent;
    forall row: Row ensures f(row).Some? && LeagueBecame(q, row, f(row).value) {
      LeagueRow(q, row);
    }
    CollectAll(rows, f);
  }

  /** Of the league's seasons the kept one is left, replanned, and no other. */
  ghost predicate SeasonsBecame(q: Request, before: Content, after: Content, season: Value) {
    && (forall row :: row in RowsOf(after, Seasons) && Has(row, LeagueColumn, Text(q.league)) ==>
                        exists was :: was in RowsOf(before, Seasons) && Has(was, LeagueColumn, Text(q.league))
                                      && Has(was, IdColumn, season) && SeasonBecame(q, was, row))
    && (forall was :: was in RowsOf(before, Seasons) && Has(was, LeagueColumn, Text(q.league))
                      && Has(was, IdColumn, season) ==>
                        exists row :: row in RowsOf(after, Seasons) && SeasonBecame(q, was, row))
  }

  /** A season that is left after the others are dropped, and is still of the league, is the kept one. */
  lemma KeptSeason(q: Request, season: Value, was: Row, row: Row)
    requires exists first :: DropOtherSeasons(q.league, season)(first) == Some(was)
    requires Replan(q.league, season, q.nowMs)(was) == Some(row) && Has(row, LeagueColumn, Text(q.league))
    ensures DropOtherSeasons(q.league, season)(was) == Some(was)
    ensures Has(was, LeagueColumn, Text(q.league)) && Has(was, IdColumn, season) && SeasonBecame(q, was, row)
  {
    SeasonRow(q, season, was);
  }

  lemma SeasonsStatements(db: Content, q: Request, season: Value)
    ensures RowsOf(ResetContent(db, q, season), Seasons)
            == Collect(Collect(RowsOf(db, Seasons), DropOtherSeasons(q.league, season)),
                       Replan(q.league, season, q.nowMs))
  {
    hide DropOtherSeasons, Replan;
  }

  lemma SeasonBefore(rows: Rows, q: Request, season: Value, row: Row) returns (was: Row)
    requires row in Collect(Collect(rows, DropOtherSeasons(q.league, season)), Replan(q.league, season, q.nowMs))
    requires Has(row, LeagueColumn, Text(q.league))
    ensures was in rows && Has(was, LeagueColumn, Text(q.league)) && Has(was, IdColumn, season)
    ensures SeasonBecame(q, was, row)
  {
    var drop, plan := DropOtherSeasons(q.league, season), Replan(q.league, season, q.nowMs);
    var kept := Collect(rows, drop);
    hide Collect, SeasonBecame;
    CollectMember(kept, plan, row);
    was :| was in kept && plan(was) == Some(row);
    CollectMember(rows, drop, was);
    KeptSeason(q, season, was, row);
    var first :| first in rows && drop(first) == Some(was);
  }

  lemma SeasonAfter(rows: Rows, q: Request, season: Value, was: Row) returns (row: Row)
    requires was in rows && Has(was, LeagueColumn, Text(q.league)) && Has(was, IdColumn, season)
    ensures row in Collect(Collect(rows, DropOtherSeasons(q.league, season)), Replan(q.league, season, q.nowMs))
    ensures SeasonBecame(q, was, row)
  {
    var drop, plan := DropOtherSeasons(q.league, season), Replan(q.league, season, q.nowMs);
    hide Collect, SeasonBecame;
    SeasonRow(q, season, was);
    row := plan(was).value;
    CollectMember(rows, drop, was);
    CollectMember(Collect(rows, drop), plan, row);
  }

  lemma SeasonsBecome(db: Content, q: Request, season: Value)
    ensures SeasonsBecame(q, db, ResetContent(db, q, season), season)
  {
    var rows := RowsOf(db, Seasons);
    var drop, plan := DropOtherSeasons(q.league, season), Replan(q.league, season, q.nowMs);
    var kept := Collect(rows, drop);
    var after := ResetContent(db, q, season);
    SeasonsStatements(db, q, season);
    hide Collect, SeasonBecame, ResetContent, RowsOf, Has;
    forall row | row in RowsOf(after, Seasons) && Has(row, LeagueColumn, Text(q.league))
      ensures exists was :: was in rows && Has(was, LeagueColumn, Text(q.league)) && Has(was, IdColumn, season)
                            && SeasonBecame(q, was, row)
    {
      var was := SeasonBefore(rows, q, season, row);
    }
    forall was | was in rows && Has(was, LeagueColumn, Text(q.league)) && Has(was, IdColumn, season)
      ensures exists row :: row in RowsOf(after, Seasons) && SeasonBecame(q, was, row)
    {
      var row := SeasonAfter(rows, q, season, was);
    }
  }

  // ---------- the league before ----------

  /** The league is frozen, points at this season, and has not played it. */
  ghost predicate MayBeReset(q: Request, db: Content, season: Value) {
    && (exists league :: league in RowsOf(db, Leagues) && Has(league, IdColumn, Text(q.league))
                         && Has(league, StatusColumn, Word(Frozen)) && Has(league, CurrentSeasonColumn, season))
    && (exists freeze :: freeze in RowsOf(db, LeagueFreezes) && Has(freeze, LeagueColumn, Text(q.league))
                         && Has(freeze, StatusColumn, Word(Active)))
    && (exists row :: row in RowsOf(db, Seasons) && Has(row, LeagueColumn, Text(q.league)) && Has(row, IdColumn, season)
                      && (Has(row, StatusColumn, Word(Planned)) || Has(row, StatusColumn, Word(Active)))
                      && forall other :: other in RowsOf(db, Seasons) && Has(other, LeagueColumn, Text(q.league))
                                         && !Has(other, IdColumn, season) ==>
                                           Has(other, StatusColumn, Word(Planned))
                                           && !(Cell(other, SeasonKeyColumn).Text? && Cell(row, SeasonKeyColumn).Text?
                                                && Cell(other, SeasonKeyColumn).id <= Cell(row, SeasonKeyColumn).id))
    && q.quiet && season != Null
  }

  lemma ActiveFreezeExists(rows: Rows, league: Id)
    requires |ActiveFreezes(rows, league)| == 1
    ensures exists freeze :: freeze in rows && Has(freeze, LeagueColumn, Text(league))
                             && Has(freeze, StatusColumn, Word(Active))
  {
    var f := (row: Row) => if Cell(row, StatusColumn) == Word(Active) then Some(row) else None;
    var mine := Mine(rows, LeagueColumn, league);
    var row := ActiveFreezes(rows, league)[0];
    assert ActiveFreezes(rows, league) == Collect(mine, f);
    assert row in ActiveFreezes(rows, league);
    hide Collect, Mine;
    CollectMember(mine, f, row);
    var was :| was in mine && f(was) == Some(row);
    SplitMembers(rows, LeagueColumn, league, was);
  }

  lemma EligibleMeans(db: Content, env: Environment, q: Request)
    requires Eligibility(db, env, q).Ok?
    ensures MayBeReset(q, db, Eligibility(db, env, q).value)
  {
    var rows := RowsOf(db, Seasons);
    var season := CurrentSeason(db, q.league).value;
    ActiveFreezeExists(RowsOf(db, LeagueFreezes), q.league);
    forall row ensures row in MineIn(db, Seasons, q.league) <==> row in rows && Has(row, LeagueColumn, Text(q.league)) {
      SplitMembers(rows, LeagueColumn, q.league, row);
    }
    hide Mine, ActiveFreezes, IndexOf, MineIn;
    assert season in MineIn(db, Seasons, q.league);
    var league := Find(RowsOf(db, Leagues), IdColumn, Text(q.league)).value;
    assert league in RowsOf(db, Leagues);
  }

  // ---------- the reset ----------

  lemma NotAmongMine(db: Content, t: LeagueTable, league: Id, row: Row)
    requires IsCleared(t) && row in RowsOf(db, t) && MineIn(db, t, league) == []
    ensures !Has(row, LeagueColumn, Text(league))
  {
    SplitMembers(RowsOf(db, t), LeagueColumn, league, row);
  }

  /**
   * A reset is done only for a frozen league that has not played its current season. It ends the
   * freeze, keeps and replans that season, returns teams and league to setup, unsets the trade
   * deadline and empties the cleared tables of the league.
   */
  lemma ResetDoes(db: Content, env: Environment, q: Request) returns (season: Value)
    requires Reset(db, env, q).Ok?
    ensures env.supported && MayBeReset(q, db, season)
    ensures RowsBecame(q, db, Reset(db, env, q).value)
    ensures SeasonsBecame(q, db, Reset(db, env, q).value, season)
    ensures forall t, row :: IsCleared(t) && row in RowsOf(Reset(db, env, q).value, t) ==>
                               !Has(row, LeagueColumn, Text(q.league))
  {
    season := Eligibility(db, env, q).value;
    var after := Reset(db, env, q).value;
    ResetProtectsTheRest(db, env, q);
    EligibleMeans(db, env, q);
    assert env.supported by { hide ResetContent, CurrentSeason, ActiveFreezes; }
    hide Reset, Eligibility, RestProtected, ResetContent, MineIn, MayBeReset, FreezeBecame, TeamBecame, SettingsBecame,
      LeagueBecame, SeasonsBecame;
    FreezesBecome(db, q, season);
    TeamsBecome(db, q, season);
    SettingsBecome(db, q, season);
    LeaguesBecome(db, q, season);
    SeasonsBecome(db, q, season);
    forall t, row | IsCleared(t) && row in RowsOf(after, t) ensures !Has(row, LeagueColumn, Text(q.league)) {
      ClearedIsEmpty(db, q, season, t);
      NotAmongMine(after, t, q.league, row);
    }
  }

  ghost predicate IsActiveOf(q: Request, row: Row) {
    Has(row, LeagueColumn, Text(q.league)) && Has(row, StatusColumn, Word(Active))
  }

  lemma NoLongerActive(q: Request, was: Row, now: Row)
    requires FreezeBecame(q, was, now) || TeamBecame(q, was, now)
    ensures !IsActiveOf(q, now)
  {
  }

  /** No freeze and no team of the league is active any more. */
  lemma NothingIsActive(db: Content, env: Environment, q: Request)
    requires Reset(db, env, q).Ok?
    ensures
      var after := Reset(db, env, q).value;
      && (forall row :: row in RowsOf(after, LeagueFreezes) ==> !IsActiveOf(q, row))
      && (forall row :: row in RowsOf(after, LeagueTeams) ==> !IsActiveOf(q, row))
  {
    var season := ResetDoes(db, env, q);
    var before, after := db, Reset(db, env, q).value;
    hide Reset, FreezeBecame, TeamBecame, Has, RowsOf;
    forall row | row in RowsOf(after, LeagueFreezes) ensures !IsActiveOf(q, row) {
      var i :| 0 <= i < |RowsOf(after, LeagueFreezes)| && RowsOf(after, LeagueFreezes)[i] == row;
      NoLongerActive(q, RowsOf(before, LeagueFreezes)[i], row);
    }
    forall row | row in RowsOf(after, LeagueTeams) ensures !IsActiveOf(q, row) {
      var i :| 0 <= i < |RowsOf(after, LeagueTeams)| && RowsOf(after, LeagueTeams)[i] == row;
      NoLongerActive(q, RowsOf(before, LeagueTeams)[i], row);
    }
  }

  // ---------- the restore ----------

  /** An archive of this schema that covers the changed tables and holds rows of its league only. */
  ghost predicate IsArchive(snapshot: Snapshot) {
    && snapshot.schemaVersion == 88
    && (forall t :: t in snapshot.tables <==> IsChanged(t))
    && forall t, row :: IsChanged(t) && row in DecodeAll(snapshot.tables[t]) ==>
                          Has(row, if t == Leagues then IdColumn else LeagueColumn, Text(snapshot.leagueId))
  }

  lemma InScopeOf(snapshot: Snapshot, t: LeagueTable)
    requires InScope(snapshot) && IsChanged(t)
    ensures TableInScope(snapshot, t)
  {
    ChangedTablesAre(t);
    hide ChangedTables;
  }

  lemma ArchiveMeans(snapshot: Snapshot)
    requires snapshot.tables.Keys == (set t | t in ChangedTables()) && InScope(snapshot)
    requires snapshot.schemaVersion == 88
    ensures IsArchive(snapshot)
  {
    forall t: LeagueTable ensures t in snapshot.tables <==> IsChanged(t) {
      ChangedTablesAre(t);
      assert t in snapshot.tables <==> t in (set u | u in ChangedTables());
    }
    hide ChangedTables, DecodeAll, InScope;
    forall t, row | IsChanged(t) && row in DecodeAll(snapshot.tables[t])
      ensures Has(row, if t == Leagues then IdColumn else LeagueColumn, Text(snapshot.leagueId))
    {
      InScopeOf(snapshot, t);
      assert t in snapshot.tables && row in NewsFor(snapshot, t);
      assert IsMine(row, LeagueColumnOf(t), snapshot.leagueId);
    }
  }

  /**
   * A restore is done only from such an archive, and only if references hold, other rows are as they
   * were and the league's rows are again those of the archive.
   */
  lemma RestoreDoes(db: Content, env: Environment, snapshot: Snapshot) returns (after: Content)
    requires Restore(db, env, snapshot).Ok?
    ensures Restore(db, env, snapshot) == Ok(after) && env.supported && IsArchive(snapshot) && env.references(after)
    ensures RestProtected(db, after, snapshot.leagueId)
    ensures forall t :: IsChanged(t) ==> MineIn(after, t, snapshot.leagueId) == DecodeAll(snapshot.tables[t])
  {
    after := Restore(db, env, snapshot).value;
    assert snapshot.tables.Keys == (set t | t in ChangedTables()) && InScope(snapshot) && env.references(after)
           && RestProtected(db, after, snapshot.leagueId) && Capture(after, snapshot.leagueId) == snapshot by {
      hide ChangedTables, InScope, RestoredContent, RestProtected, Capture;
    }
    hide Restore, InScope, RestProtected;
    ArchiveMeans(snapshot);
    forall t | IsChanged(t) ensures MineIn(after, t, snapshot.leagueId) == DecodeAll(snapshot.tables[t]) {
      NewsAreTheRows(after, snapshot.leagueId, t);
      ChangedTablesAre(t);
    }
  }

  /** A rehearsed reset is restored only while its scope is the one the rehearsal left. */
  lemma AlteredScopeIsRefused(db: Content, env: Environment, snapshot: Snapshot, expected: GuidedReset.Scope)
    ensures ScopeOf(db, snapshot.leagueId) != expected ==>
              RehearseRestore(db, env, snapshot, expected) == Err(ScopeChanged)
    ensures ScopeOf(db, snapshot.leagueId) == expected ==>
              RehearseRestore(db, env, snapshot, expected) == Restore(db, env, snapshot)
  {
    hide ScopeOf, Restore;
  }
}

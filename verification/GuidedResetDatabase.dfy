/** The reset and its restore as they run, statement by statement and row by row in one transaction. */
module GuidedResetDatabase {
  import opened Collections
  import opened Store
  import opened LeagueTables
  import opened GuidedReset

  /** Archived rows put back one by one: inserted into a cleared table, updated or appended in another. */
  function PutSome(t: LeagueTable, rows: Rows, news: Rows): Option<Rows> {
    if IsCleared(t) then InsertAll(rows, KeyOf(t), news) else Some(PutAll(rows, KeyOf(t), news))
  }

  function PutOne(t: LeagueTable, rows: Rows, row: Row): Option<Rows> {
    if !IsCleared(t) then Some(PutRow(rows, KeyOf(t), row))
    else if Cell(row, KeyOf(t)) != Null && IndexOf(rows, KeyOf(t), Cell(row, KeyOf(t))).Some? then None
    else Some(rows + [row])
  }

  lemma PutSomeStep(t: LeagueTable, rows: Rows, news: Rows, i: nat)
    requires i < |news| && PutSome(t, rows, news[..i]).Some?
    ensures PutSome(t, rows, news[..i + 1]) == PutOne(t, PutSome(t, rows, news[..i]).value, news[i])
    ensures PutSome(t, rows, news[..i + 1]).None? ==> PutSome(t, rows, news).None?
  {
    assert news[..i + 1][..i] == news[..i];
    if PutSome(t, rows, news[..i + 1]).None? { InsertAllPersists(rows, KeyOf(t), news, i + 1); }
    hide PutRow, IndexOf;
  }

  predicate AllMineIn(t: LeagueTable, rows: Rows, league: Id) {
    forall row | row in rows :: IsMine(row, LeagueColumnOf(t), league)
  }

  /** Puts archived rows back into one table, one by one, until one does not belong or does not fit. */
  method PutBack(t: LeagueTable, rows: Rows, archived: seq<EncodedRow>, league: Id) returns (ok: bool, rows': Rows)
    ensures ok <==> AllMineIn(t, DecodeAll(archived), league) && PutSome(t, rows, DecodeAll(archived)).Some?
    ensures ok ==> rows' == PutSome(t, rows, DecodeAll(archived)).value
  {
    ghost var news := DecodeAll(archived);
    ok, rows' := true, rows;
    assert news[..0] == [];
    for i := 0 to |archived|
      invariant PutSome(t, rows, news[..i]) == Some(rows')
      invariant forall j :: 0 <= j < i ==> IsMine(news[j], LeagueColumnOf(t), league)
    {
      hide PutSome, PutOne, Decode, IsMine;
      var row := Decode(archived[i]);
      assert row == news[i];
      if !IsMine(row, LeagueColumnOf(t), league) { return false, rows'; }
      PutSomeStep(t, rows, news, i);
      var next := PutOne(t, rows', row);
      if next.None? { return false, rows'; }
      rows' := next.value;
    }
    assert news[..|archived|] == news;
  }

  /** The rows that a restore starts from in one table: a cleared table is emptied of the league first. */
  function Base(t: LeagueTable, rows: Rows, league: Id): Rows {
    if IsCleared(t) then Collect(rows, DropMine(t, league)) else rows
  }

  /** The content with one table replaced. */
  function WithTable(db: Content, t: LeagueTable, rows: Rows): Content {
    map s | s in db :: if s == t then rows else db[s]
  }

  /** The content after one DELETE or UPDATE over a table. */
  function Executed(db: Content, t: LeagueTable, f: Statement): Content {
    WithTable(db, t, Collect(RowsOf(db, t), f))
  }

  function Emptied(db: Content, league: Id): Content {
    map t | t in db :: Base(t, db[t], league)
  }

  /** A reset's statements, one after the other. */
  function Rewritten(db: Content, q: Request, season: Value): Content {
    var cleared := Emptied(db, q.league);
    var kept := Executed(cleared, Seasons, DropOtherSeasons(q.league, season));
    var replanned := Executed(kept, Seasons, Replan(q.league, season, q.nowMs));
    var returned := Executed(replanned, LeagueTeams, ReturnTeams(q.league, q.nowMs));
    var unset := Executed(returned, LeagueSettings, UnsetDeadline(q.league, q.nowMs));
    var ended := Executed(unset, LeagueFreezes, EndFreeze(q.league, q.actor, q.nowMs));
    Executed(ended, Leagues, ReturnLeague(q.league, q.nowMs))
  }

  lemma ExecutedTable(db: Content, t: LeagueTable, f: Statement, s: LeagueTable)
    ensures Executed(db, t, f).Keys == db.Keys
    ensures RowsOf(Executed(db, t, f), s) == if s == t && s in db then Collect(RowsOf(db, s), f) else RowsOf(db, s)
  {
  }

  lemma EmptiedTable(db: Content, league: Id, s: LeagueTable)
    ensures Emptied(db, league).Keys == db.Keys
    ensures s in db ==> RowsOf(Emptied(db, league), s) == Base(s, db[s], league)
  {
  }

  lemma RewrittenTable(db: Content, q: Request, season: Value, t: LeagueTable)
    ensures Rewritten(db, q, season).Keys == db.Keys
    ensures t in db ==> RowsOf(Rewritten(db, q, season), t) == AfterReset(t, db[t], q, season)
  {
    hide Executed, Emptied, RowsOf, Collect, DropMine, DropOtherSeasons, Replan, ReturnTeams, UnsetDeadline, EndFreeze,
      ReturnLeague;
    var cleared := Emptied(db, q.league);
    var kept := Executed(cleared, Seasons, DropOtherSeasons(q.league, season));
    var replanned := Executed(kept, Seasons, Replan(q.league, season, q.nowMs));
    var returned := Executed(replanned, LeagueTeams, ReturnTeams(q.league, q.nowMs));
    var unset := Executed(returned, LeagueSettings, UnsetDeadline(q.league, q.nowMs));
    var ended := Executed(unset, LeagueFreezes, EndFreeze(q.league, q.actor, q.nowMs));
    EmptiedTable(db, q.league, t);
    ExecutedTable(cleared, Seasons, DropOtherSeasons(q.league, season), t);
    ExecutedTable(kept, Seasons, Replan(q.league, season, q.nowMs), t);
    ExecutedTable(replanned, LeagueTeams, ReturnTeams(q.league, q.nowMs), t);
    ExecutedTable(returned, LeagueSettings, UnsetDeadline(q.league, q.nowMs), t);
    ExecutedTable(unset, LeagueFreezes, EndFreeze(q.league, q.actor, q.nowMs), t);
    ExecutedTable(ended, Leagues, ReturnLeague(q.league, q.nowMs), t);
  }

  /** The statements together make of every table what the reset is specified to make of it. */
  lemma StatementsMakeTheReset(db: Content, q: Request, season: Value)
    ensures Rewritten(db, q, season) == ResetContent(db, q, season)
  {
    hide Rewritten, AfterReset;
    RewrittenTable(db, q, season, Seasons);
    forall t | t in db ensures Rewritten(db, q, season)[t] == AfterReset(t, db[t], q, season) {
      RewrittenTable(db, q, season, t);
    }
  }

  /** What a restore makes of one table that is there. */
  function Restored(db: Content, snapshot: Snapshot, t: LeagueTable): Option<Rows> {
    if t in db then RestoreTable(t, db[t], NewsFor(snapshot, t), snapshot.leagueId) else None
  }

  lemma PutBackRestores(db: Content, snapshot: Snapshot, t: LeagueTable)
    requires t in db && t in snapshot.tables
    ensures Restored(db, snapshot, t) == PutSome(t, Base(t, db[t], snapshot.leagueId), DecodeAll(snapshot.tables[t]))
    ensures TableInScope(snapshot, t) <==> AllMineIn(t, DecodeAll(snapshot.tables[t]), snapshot.leagueId)
  {
  }

  lemma TablesDiffer(i: nat)
    requires i < |ChangedTables()|
    ensures ChangedTables()[i] !in ChangedTables()[..i]
  {
  }

  lemma NotRestored(db: Content, snapshot: Snapshot, t: LeagueTable)
    requires t in db && t in ChangedTables()
    ensures Restored(db, snapshot, t).None? ==> RestoredContent(db, snapshot).None?
    ensures !TableInScope(snapshot, t) ==> !InScope(snapshot)
  {
  }

  ghost predicate TableBack(before: Content, now: Content, snapshot: Snapshot, back: bool, t: LeagueTable) {
    if back then TableInScope(snapshot, t) && t in now && Restored(before, snapshot, t) == Some(now[t])
    else t in now && t in before ==> now[t] == Base(t, before[t], snapshot.leagueId)
  }

  ghost predicate TableBackAt(before: Content, now: Content, snapshot: Snapshot, i: nat, t: LeagueTable)
    requires i <= |ChangedTables()|
  {
    TableBack(before, now, snapshot, t in ChangedTables()[..i], t)
  }

  /** How far a restore has come: the first tables are back, the others as it started with them. */
  ghost predicate BackSoFar(before: Content, now: Content, snapshot: Snapshot, i: nat)
    requires i <= |ChangedTables()|
  {
    && now.Keys == before.Keys
    && forall t :: TableBackAt(before, now, snapshot, i, t)
  }

  lemma OneTableBack(before: Content, now: Content, snapshot: Snapshot, t: LeagueTable, rows: Rows, back: bool,
                     s: LeagueTable)
    requires TableBack(before, now, snapshot, back, s) && t in now && TableInScope(snapshot, t)
    requires Restored(before, snapshot, t) == Some(rows)
    ensures TableBack(before, WithTable(now, t, rows), snapshot, back || s == t, s)
  {
  }

  lemma PrefixStep(i: nat, t: LeagueTable)
    requires i < |ChangedTables()|
    ensures t in ChangedTables()[..i + 1] <==> t in ChangedTables()[..i] || t == ChangedTables()[i]
  {
  }

  lemma OneMoreBack(before: Content, now: Content, snapshot: Snapshot, i: nat, rows: Rows)
    requires i < |ChangedTables()| && BackSoFar(before, now, snapshot, i)
    requires ChangedTables()[i] in before && TableInScope(snapshot, ChangedTables()[i])
    requires Restored(before, snapshot, ChangedTables()[i]) == Some(rows)
    ensures BackSoFar(before, WithTable(now, ChangedTables()[i], rows), snapshot, i + 1)
  {
    hide ChangedTables, TableInScope, Restored, TableBack;
    var next := ChangedTables()[i];
    var more, n := WithTable(now, next, rows), i + 1;
    forall t ensures TableBackAt(before, more, snapshot, n, t) {
      assert TableBackAt(before, now, snapshot, i, t);
      PrefixStep(i, t);
      OneTableBack(before, now, snapshot, next, rows, t in ChangedTables()[..i], t);
    }
  }

  lemma AllTablesBack(before: Content, now: Content, snapshot: Snapshot, t: LeagueTable)
    requires BackSoFar(before, now, snapshot, |ChangedTables()|) && forall t :: IsChanged(t) ==> t in before
    ensures IsChanged(t) ==> TableInScope(snapshot, t) && t in now && Restored(before, snapshot, t) == Some(now[t])
    ensures !IsChanged(t) && t in now ==> now[t] == before[t]
  {
    ChangedTablesAre(t);
    assert ChangedTables()[..|ChangedTables()|] == ChangedTables();
    hide ChangedTables, TableInScope, Restored, Collect;
    assert TableBackAt(before, now, snapshot, |ChangedTables()|, t);
  }

  lemma AllBack(before: Content, now: Content, snapshot: Snapshot)
    requires BackSoFar(before, now, snapshot, |ChangedTables()|) && forall t :: IsChanged(t) ==> t in before
    ensures InScope(snapshot) && RestoredContent(before, snapshot) == Some(now)
  {
    assert now.Keys == before.Keys;
    forall t
      ensures IsChanged(t) ==>
                TableInScope(snapshot, t) && t in before && Restored(before, snapshot, t) == Some(now[t])
      ensures !IsChanged(t) && t in now ==> now[t] == before[t]
    {
      AllTablesBack(before, now, snapshot, t);
    }
    forall t | t in ChangedTables() ensures IsChanged(t) {
      ChangedTablesAre(t);
    }
    hide ChangedTables, IsChanged, RestoreTable, NewsFor, TableInScope, BackSoFar;
    RestoredContentIs(before, snapshot);
    hide RestoredContent;
    var content := RestoredContent(before, snapshot).value;
    forall t | t in now ensures now[t] == content[t] {
    }
    assert now == content;
  }

  lemma StillToCome(before: Content, now: Content, snapshot: Snapshot, i: nat)
    requires i < |ChangedTables()| && BackSoFar(before, now, snapshot, i) && forall t :: IsChanged(t) ==> t in before
    ensures
      var t := ChangedTables()[i];
      t in ChangedTables() && t in before && t in now && now[t] == Base(t, before[t], snapshot.leagueId)
  {
    TablesDiffer(i);
    ChangedTablesAre(ChangedTables()[i]);
    hide ChangedTables, Restored, Base, TableInScope;
    assert TableBackAt(before, now, snapshot, i, ChangedTables()[i]);
  }

  /** The tables of one database file. */
  class LeagueStore {
    var content: Content
    const env: Environment

    constructor (content: Content, env: Environment)
      ensures this.content == content && this.env == env
    {
      this.content, this.env := content, env;
    }

    /** One DELETE or UPDATE over a table. */
    method Execute(t: LeagueTable, f: Statement)
      modifies this
      ensures content == Executed(old(content), t, f)
    {
      content := WithTable(content, t, Collect(RowsOf(content, t), f));
    }

    /** Deletes the league's rows from every cleared table. */
    method Clear(league: Id)
      modifies this
      ensures content == Emptied(old(content), league)
    {
      hide Collect, Executed;
      for n := 0 to CLEAR_TABLES
        invariant content.Keys == old(content).Keys
        invariant forall t :: t in content ==>
                                content[t] == if t.Cleared? && t.n < n
                                              then Collect(old(content)[t], DropMine(t, league))
                                              else old(content)[t]
      {
        ghost var was := content;
        Execute(Cleared(n), DropMine(Cleared(n), league));
        forall t | t in was
          ensures t in content
          ensures content[t] == if t == Cleared(n) then Collect(was[t], DropMine(t, league)) else was[t]
        {
          ExecutedTable(was, Cleared(n), DropMine(Cleared(n), league), t);
        }
        ExecutedTable(was, Cleared(n), DropMine(Cleared(n), league), Seasons);
      }
    }

    /** The checks at the end of a rewrite; on failure everything is as before. */
    method Finish(saved: Content, league: Id) returns (failure: Option<Failure>)
      modifies this
      ensures failure == Checked(saved, old(content), env, league)
      ensures content == if failure.Some? then saved else old(content)
    {
      if !env.references(content) {
        content := saved;
        return Some(ReferenceConflict);
      }
      if !RestProtected(saved, content, league) {
        content := saved;
        return Some(ProtectedRecordChanged);
      }
      return None;
    }

    /** The statements of a reset. */
    method RewriteForSetup(q: Request, season: Value)
      modifies this
      ensures content == ResetContent(old(content), q, season)
    {
      hide Executed, Emptied, ResetContent;
      Clear(q.league);
      Execute(Seasons, DropOtherSeasons(q.league, season));
      Execute(Seasons, Replan(q.league, season, q.nowMs));
      Execute(LeagueTeams, ReturnTeams(q.league, q.nowMs));
      Execute(LeagueSettings, UnsetDeadline(q.league, q.nowMs));
      Execute(LeagueFreezes, EndFreeze(q.league, q.actor, q.nowMs));
      Execute(Leagues, ReturnLeague(q.league, q.nowMs));
      StatementsMakeTheReset(old(content), q, season);
    }

    method Reset(q: Request) returns (failure: Option<Failure>)
      modifies this
      ensures match GuidedReset.Reset(old(content), env, q)
              case Ok(after) => failure == None && content == after
              case Err(e) => failure == Some(e) && content == old(content)
    {
      hide ResetContent, Checked, Find, ActiveFreezes, CurrentSeason, Unplayed;
      var season := Eligibility(content, env, q);
      if season.Err? { return Some(season.error); }
      var saved := content;
      RewriteForSetup(q, season.value);
      failure := Finish(saved, q.league);
    }

    /** Puts every changed table back from the archive, table by table. */
    method PutAllBack(snapshot: Snapshot) returns (ok: bool)
      requires snapshot.tables.Keys == (set t | t in ChangedTables()) && forall t :: IsChanged(t) ==> t in content
      modifies this
      ensures ok <==> InScope(snapshot) && RestoredContent(old(content), snapshot).Some?
      ensures ok ==> content == RestoredContent(old(content), snapshot).value
    {
      ghost var before := content;
      var tables := ChangedTables();
      Clear(snapshot.leagueId);
      assert ChangedTables()[..0] == [];
      assert BackSoFar(before, content, snapshot, 0);
      hide ChangedTables, IsChanged, BackSoFar, InScope, RestoredContent, Restored, TableInScope, AllMineIn, PutSome,
        Base,
        DecodeAll, WithTable;
      for i := 0 to |tables|
        invariant BackSoFar(before, content, snapshot, i)
      {
        var t := tables[i];
        StillToCome(before, content, snapshot, i);
        PutBackRestores(before, snapshot, t);
        NotRestored(before, snapshot, t);
        var rows;
        ok, rows := PutBack(t, content[t], snapshot.tables[t], snapshot.leagueId);
        if !ok { return false; }
        OneMoreBack(before, content, snapshot, i, rows);
        content := WithTable(content, t, rows);
      }
      AllBack(before, content, snapshot);
      return true;
    }

    method Restore(snapshot: Snapshot) returns (failure: Option<Failure>)
      requires forall t :: IsChanged(t) ==> t in content
      modifies this
      ensures match GuidedReset.Restore(old(content), env, snapshot)
              case Ok(after) => failure == None && content == after
              case Err(e) => failure == Some(e) && content == old(content)
    {
      hide InScope, RestoredContent, Checked, Capture, ChangedTables, IsChanged;
      if !env.supported { return Some(Unavailable); }
      if snapshot.schemaVersion != SCHEMA_VERSION || snapshot.tables.Keys != (set t | t in ChangedTables()) {
        return Some(ArchiveInvalid);
      }
      var saved := content;
      var ok := PutAllBack(snapshot);
      if !ok {
        content := saved;
        return Some(ArchiveRejected);
      }
      failure := Finish(saved, snapshot.leagueId);
      if failure.None? && Capture(content, snapshot.leagueId) != snapshot {
        content := saved;
        failure := Some(RestoreMismatch);
      }
    }
  }
}

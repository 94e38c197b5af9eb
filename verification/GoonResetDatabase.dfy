/** The named league's reset and restore as they run, table by table in one transaction. */
module GoonResetDatabase {
  import opened Collections
  import opened Store
  import opened LeagueTables
  import opened GoonReset

  /** The content with one table replaced. */
  function WithTable(db: Content, t: GoonTable, rows: Rows): Content {
    map s | s in db :: if s == t then rows else db[s]
  }

  /** The content after one DELETE or UPDATE over a table. */
  function Executed(db: Content, t: GoonTable, f: Statement): Content {
    WithTable(db, t, Collect(RowsOf(db, t), f))
  }

  lemma ExecutedTable(db: Content, t: GoonTable, f: Statement, s: GoonTable)
    ensures Executed(db, t, f).Keys == db.Keys
    ensures RowsOf(Executed(db, t, f), s) == if s == t && s in db then Collect(RowsOf(db, s), f) else RowsOf(db, s)
  {
  }

  lemma {:induction false} SplitCounts(rows: Rows, league: Id)
    ensures |rows| == |Mine(rows, LeagueColumn, league)| + |Others(rows, LeagueColumn, league)|
  {
    if rows != [] {
      SplitCounts(rows[..|rows| - 1], league);
    }
  }

  /** The league's rows deleted from the first tables of a list. */
  function Emptied(db: Content, league: Id, tables: seq<GoonTable>): Content {
    if tables == [] then db
    else Executed(Emptied(db, league, tables[..|tables| - 1]), tables[|tables| - 1], DropMine(league))
  }

  predicate Distinct(tables: seq<GoonTable>) {
    forall i, j | 0 <= i < j < |tables| :: tables[i] != tables[j]
  }

  lemma NotStored(db: Content, t: GoonTable, league: Id)
    ensures t !in db ==> RowsOf(db, t) == [] == Collect(RowsOf(db, t), DropMine(league))
  {
  }

  lemma {:induction false} EmptiedTable(db: Content, league: Id, tables: seq<GoonTable>, t: GoonTable)
    requires Distinct(tables)
    ensures Emptied(db, league, tables).Keys == db.Keys
    ensures RowsOf(Emptied(db, league, tables), t) ==
            if t in tables then Collect(RowsOf(db, t), DropMine(league)) else RowsOf(db, t)
  {
    if tables != [] {
      var n := |tables| - 1;
      EmptiedTable(db, league, tables[..n], t);
      assert tables == tables[..n] + [tables[n]];
      assert t == tables[n] ==> t !in tables[..n];
      ExecutedTable(Emptied(db, league, tables[..n]), tables[n], DropMine(league), t);
      hide Executed, Collect, RowsOf;
      NotStored(db, t, league);
    }
  }

  function ClearTables(): seq<GoonTable> {
    seq(CLEAR_TABLES, i requires 0 <= i < CLEAR_TABLES => Cleared(i))
  }

  /** The reset's statements, one after the other. */
  function Rewritten(db: Content, target: Target, exempt: set<Value>, now: int): Content {
    var cleared := Emptied(db, target.league, ClearTables());
    var jobs := Executed(cleared, JobRuns, DropJobs(target.league, exempt));
    var requests := Executed(jobs, IdempotencyRequests, DropRequests(target.league, target.forgotten));
    var cards := Executed(requests, CandidateCards,
                          Amend(target.league, DRAFT, Text(target.draft), REOPENED_CARD, now));
    var drafts := Executed(cards, FreeAgentDrafts, ReopenDraft(target.league, target.draft, now));
    Executed(drafts, GoonSeasons, Amend(target.league, IdColumn, Text(target.season), UNDATED_SEASON, now))
  }

  lemma ClearTablesAre(t: GoonTable)
    ensures t in ClearTables() <==> IsCleared(t)
    ensures Distinct(ClearTables())
  {
    if IsCleared(t) { assert ClearTables()[t.n] == t; }
  }

  lemma RewrittenTable(db: Content, target: Target, exempt: set<Value>, now: int, t: GoonTable)
    ensures Rewritten(db, target, exempt, now).Keys == db.Keys
    ensures t in db ==> RowsOf(Rewritten(db, target, exempt, now), t) == AfterReset(t, db[t], target, exempt, now)
  {
    hide Executed, Emptied, Collect, DropMine, DropJobs, DropRequests, Amend, ReopenDraft;
    var card := Amend(target.league, DRAFT, Text(target.draft), REOPENED_CARD, now);
    var season := Amend(target.league, IdColumn, Text(target.season), UNDATED_SEASON, now);
    var cleared := Emptied(db, target.league, ClearTables());
    var jobs := Executed(cleared, JobRuns, DropJobs(target.league, exempt));
    var requests := Executed(jobs, IdempotencyRequests, DropRequests(target.league, target.forgotten));
    var cards := Executed(requests, CandidateCards, card);
    var drafts := Executed(cards, FreeAgentDrafts, ReopenDraft(target.league, target.draft, now));
    ClearTablesAre(t);
    EmptiedTable(db, target.league, ClearTables(), t);
    hide ClearTables;
    ExecutedTable(cleared, JobRuns, DropJobs(target.league, exempt), t);
    ExecutedTable(jobs, IdempotencyRequests, DropRequests(target.league, target.forgotten), t);
    ExecutedTable(requests, CandidateCards, card, t);
    ExecutedTable(cards, FreeAgentDrafts, ReopenDraft(target.league, target.draft, now), t);
    ExecutedTable(drafts, GoonSeasons, season, t);
  }

  /** The statements together make of every table what the reset is specified to make of it. */
  lemma StatementsMakeTheReset(db: Content, target: Target, now: int)
    ensures Rewritten(db, target, ExemptJobs(MineIn(db, ReadinessOperations, target.league)), now)
            == ResetContent(db, target, now)
  {
    hide Rewritten, AfterReset, ExemptJobs, MineIn;
    var exempt := ExemptJobs(MineIn(db, ReadinessOperations, target.league));
    RewrittenTable(db, target, exempt, now, JobRuns);
    forall t | t in db ensures Rewritten(db, target, exempt, now)[t] == AfterReset(t, db[t], target, exempt, now) {
      RewrittenTable(db, target, exempt, now, t);
    }
  }

  /** Readiness operations are not among the cleared tables, so their references can be read after clearing. */
  lemma ReferencesAfterClearing(db: Content, league: Id)
    ensures MineIn(Emptied(db, league, ClearTables()), ReadinessOperations, league)
            == MineIn(db, ReadinessOperations, league)
  {
    ClearTablesAre(ReadinessOperations);
    EmptiedTable(db, league, ClearTables(), ReadinessOperations);
  }

  // ---------- reinserting ----------

  /** Inserts a table's captured rows one by one, until one does not belong or its key is taken. */
  method InsertBack(rows: Rows, news: Rows, league: Id) returns (ok: bool, rows': Rows)
    ensures ok <==> && (forall row :: row in news ==> IsMine(row, LeagueColumn, league))
                    && InsertAll(rows, IdColumn, news).Some?
    ensures ok ==> InsertAll(rows, IdColumn, news) == Some(rows')
  {
    ok, rows' := true, rows;
    for i := 0 to |news|
      invariant InsertAll(rows, IdColumn, news[..i]) == Some(rows')
      invariant forall j :: 0 <= j < i ==> IsMine(news[j], LeagueColumn, league)
    {
      hide IsMine;
      var row := news[i];
      assert news[..i + 1][..i] == news[..i];
      if !IsMine(row, LeagueColumn, league) { return false, rows'; }
      if Cell(row, IdColumn) != Null && IndexOf(rows', IdColumn, Cell(row, IdColumn)).Some? {
        InsertAllPersists(rows, IdColumn, news, i + 1);
        return false, rows';
      }
      rows' := rows' + [row];
    }
    assert news[..|news|] == news;
  }

  /** The captured rows inserted into the first tables of a list. */
  function PutBack(base: Content, snapshot: Snapshot, tables: seq<GoonTable>): Option<Content> {
    if tables == [] then Some(base)
    else
      var t := tables[|tables| - 1];
      match PutBack(base, snapshot, tables[..|tables| - 1])
      case None => None
      case Some(content) =>
        match InsertAll(RowsOf(content, t), IdColumn, NewsFor(snapshot, t))
        case None => None
        case Some(rows) => Some(WithTable(content, t, rows))
  }

  lemma {:induction false} PutBackTable(base: Content, snapshot: Snapshot, tables: seq<GoonTable>, t: GoonTable)
    requires Distinct(tables) && (forall s :: s in tables ==> s in base) && PutBack(base, snapshot, tables).Some?
    ensures
      var after := PutBack(base, snapshot, tables).value;
      && after.Keys == base.Keys
      && (t !in tables ==> RowsOf(after, t) == RowsOf(base, t))
      && (t in tables ==> InsertAll(RowsOf(base, t), IdColumn, NewsFor(snapshot, t)) == Some(RowsOf(after, t)))
  {
    hide InsertAll, NewsFor;
    if tables != [] {
      var n := |tables| - 1;
      assert tables == tables[..n] + [tables[n]];
      assert tables[n] !in tables[..n];
      PutBackTable(base, snapshot, tables[..n], t);
    }
  }

  lemma {:induction false} PutBackFails(base: Content, snapshot: Snapshot,
                                        tables: seq<GoonTable>) returns (t: GoonTable)
    requires Distinct(tables) && (forall s :: s in tables ==> s in base) && PutBack(base, snapshot, tables).None?
    ensures t in tables && InsertAll(RowsOf(base, t), IdColumn, NewsFor(snapshot, t)).None?
  {
    hide InsertAll, NewsFor;
    var n := |tables| - 1;
    assert tables == tables[..n] + [tables[n]];
    if PutBack(base, snapshot, tables[..n]).None? {
      t := PutBackFails(base, snapshot, tables[..n]);
    } else {
      t := tables[n];
      assert t !in tables[..n];
      PutBackTable(base, snapshot, tables[..n], t);
    }
  }

  lemma {:induction false} PutBackPersists(base: Content, snapshot: Snapshot, tables: seq<GoonTable>, i: nat)
    requires i <= |tables| && PutBack(base, snapshot, tables[..i]).None?
    ensures PutBack(base, snapshot, tables).None?
    decreases |tables|
  {
    hide InsertAll, NewsFor, RowsOf;
    if i == |tables| {
      assert tables[..i] == tables;
    } else {
      assert tables[..|tables| - 1][..i] == tables[..i];
      PutBackPersists(base, snapshot, tables[..|tables| - 1], i);
    }
  }

  lemma PutBackStep(base: Content, snapshot: Snapshot, tables: seq<GoonTable>, i: nat)
    requires i < |tables| && PutBack(base, snapshot, tables[..i]).Some?
    ensures
      var so := PutBack(base, snapshot, tables[..i]).value;
      var r := InsertAll(RowsOf(so, tables[i]), IdColumn, NewsFor(snapshot, tables[i]));
      && (r.None? ==> PutBack(base, snapshot, tables).None?)
      && (r.Some? ==> PutBack(base, snapshot, tables[..i + 1]) == Some(WithTable(so, tables[i], r.value)))
  {
    hide InsertAll, NewsFor, RowsOf;
    assert tables[..i + 1][..i] == tables[..i];
    if PutBack(base, snapshot, tables[..i + 1]).None? { PutBackPersists(base, snapshot, tables, i + 1); }
  }

  lemma ChangedAreDistinct()
    ensures Distinct(ChangedTables())
  {
  }

  lemma EmptiedForRestore(db: Content, snapshot: Snapshot, t: GoonTable)
    requires forall t :: IsChanged(t) ==> t in db
    ensures
      var base := Emptied(db, snapshot.leagueId, ChangedTables());
      && (IsChanged(t) <==> t in ChangedTables()) && base.Keys == db.Keys && (t in ChangedTables() ==> t in base)
      && (t in ChangedTables() ==>
            RestoreTable(db[t], NewsFor(snapshot, t), snapshot.leagueId)
            == InsertAll(RowsOf(base, t), IdColumn, NewsFor(snapshot, t)))
      && (t !in ChangedTables() ==> RowsOf(base, t) == RowsOf(db, t))
  {
    ChangedAreDistinct();
    ChangedTablesAre(t);
    hide ChangedTables, Emptied, InsertAll, Collect, IsChanged, Distinct;
    EmptiedTable(db, snapshot.leagueId, ChangedTables(), t);
  }

  lemma OnePutBack(db: Content, snapshot: Snapshot, t: GoonTable)
    requires (forall t :: IsChanged(t) ==> t in db) && t in db
    requires PutBack(Emptied(db, snapshot.leagueId, ChangedTables()), snapshot, ChangedTables()).Some?
    ensures
      var after := PutBack(Emptied(db, snapshot.leagueId, ChangedTables()), snapshot, ChangedTables()).value;
      && after.Keys == db.Keys
      && (IsChanged(t) ==> RestoreTable(db[t], NewsFor(snapshot, t), snapshot.leagueId) == Some(after[t]))
      && (!IsChanged(t) ==> after[t] == db[t])
  {
    var tables := ChangedTables();
    var base := Emptied(db, snapshot.leagueId, tables);
    ChangedAreDistinct();
    hide ChangedTables, Emptied, InsertAll, RestoreTable, NewsFor, IsChanged, Distinct, PutBack;
    forall t ensures t in tables ==> t in base {
      EmptiedForRestore(db, snapshot, t);
    }
    EmptiedForRestore(db, snapshot, t);
    PutBackTable(base, snapshot, tables, t);
  }

  lemma AllPutBack(db: Content, snapshot: Snapshot)
    requires forall t :: IsChanged(t) ==> t in db
    requires PutBack(Emptied(db, snapshot.leagueId, ChangedTables()), snapshot, ChangedTables()).Some?
    ensures PutBack(Emptied(db, snapshot.leagueId, ChangedTables()), snapshot, ChangedTables())
            == RestoredContent(db, snapshot)
  {
    hide ChangedTables, Emptied, RestoreTable, NewsFor, PutBack, RestoredContent;
    var after := PutBack(Emptied(db, snapshot.leagueId, ChangedTables()), snapshot, ChangedTables()).value;
    assert IsChanged(JobRuns);
    OnePutBack(db, snapshot, JobRuns);
    hide IsChanged;
    forall t | t in db
      ensures IsChanged(t) ==> RestoreTable(db[t], NewsFor(snapshot, t), snapshot.leagueId) == Some(after[t])
      ensures !IsChanged(t) ==> after[t] == db[t]
    {
      OnePutBack(db, snapshot, t);
    }
    RestoredContentIs(db, snapshot);
    var restored := RestoredContent(db, snapshot).value;
    forall t | t in db ensures after[t] == restored[t] {
    }
    assert after == restored;
  }

  /** Deleting all changed tables and reinserting them all is what the restore is specified to do. */
  lemma PutBackRestores(db: Content, snapshot: Snapshot)
    requires forall t :: IsChanged(t) ==> t in db
    ensures PutBack(Emptied(db, snapshot.leagueId, ChangedTables()), snapshot, ChangedTables())
            == RestoredContent(db, snapshot)
  {
    var tables := ChangedTables();
    var base := Emptied(db, snapshot.leagueId, tables);
    ChangedAreDistinct();
    hide ChangedTables, Emptied, InsertAll, RestoreTable, NewsFor, IsChanged, Distinct, PutBack;
    forall t ensures t in tables ==> t in base && t in db && IsChanged(t) {
      EmptiedForRestore(db, snapshot, t);
    }
    if PutBack(base, snapshot, tables).None? {
      var t := PutBackFails(base, snapshot, tables);
      EmptiedForRestore(db, snapshot, t);
    } else {
      AllPutBack(db, snapshot);
    }
  }

  predicate TableInScope(snapshot: Snapshot, t: GoonTable) {
    forall row | row in NewsFor(snapshot, t) :: IsMine(row, LeagueColumn, snapshot.leagueId)
  }

  lemma NewsAre(snapshot: Snapshot, t: GoonTable)
    requires t in snapshot.tables
    ensures NewsFor(snapshot, t) == snapshot.tables[t]
    ensures TableInScope(snapshot, t) <==> forall row :: row in snapshot.tables[t] ==>
              IsMine(row, LeagueColumn, snapshot.leagueId)
  {
  }

  lemma OutOfScope(snapshot: Snapshot, t: GoonTable)
    requires t in snapshot.tables
    ensures !TableInScope(snapshot, t) ==> !InScope(snapshot)
  {
  }

  lemma AllInScope(snapshot: Snapshot)
    requires snapshot.tables.Keys == (set t | t in ChangedTables())
    requires forall j :: 0 <= j < |ChangedTables()| ==> TableInScope(snapshot, ChangedTables()[j])
    ensures InScope(snapshot)
  {
  }

  lemma EmptiedStep(db: Content, league: Id, tables: seq<GoonTable>, i: nat)
    requires i < |tables|
    ensures Emptied(db, league, tables[..i + 1])
            == Executed(Emptied(db, league, tables[..i]), tables[i], DropMine(league))
  {
    assert tables[..i + 1][..i] == tables[..i];
  }

  lemma CountRemoved(rows: Rows, league: Id)
    ensures |rows| - |Collect(rows, DropMine(league))| == |Mine(rows, LeagueColumn, league)|
  {
  }

  class GoonStore {
    var content: Content
    const env: Environment
    const target: Target

    constructor (content: Content, env: Environment, target: Target)
      ensures this.content == content && this.env == env && this.target == target
    {
      this.content, this.env, this.target := content, env, target;
    }

    /** One DELETE or UPDATE over a table; counts the rows that went. */
    method Execute(t: GoonTable, f: Statement) returns (removed: int)
      modifies this
      ensures content == Executed(old(content), t, f)
      ensures removed == |RowsOf(old(content), t)| - |Collect(RowsOf(old(content), t), f)|
    {
      var rows := Collect(RowsOf(content, t), f);
      removed := |RowsOf(content, t)| - |rows|;
      content := WithTable(content, t, rows);
    }

    /** Deletes the league's rows from a list of tables, and counts them by table. */
    method Empty(tables: seq<GoonTable>) returns (removed: map<GoonTable, int>)
      requires Distinct(tables)
      modifies this
      ensures content == Emptied(old(content), target.league, tables)
      ensures removed.Keys == (set t | t in tables)
      ensures forall t :: t in tables ==> removed[t] == |MineIn(old(content), t, target.league)|
    {
      removed := map[];
      for i := 0 to |tables|
        invariant content == Emptied(old(content), target.league, tables[..i])
        invariant removed.Keys == (set t | t in tables[..i])
        invariant forall t :: t in tables[..i] ==> removed[t] == |MineIn(old(content), t, target.league)|
      {
        var t := tables[i];
        assert tables[..i + 1][..i] == tables[..i] && tables[..i + 1] == tables[..i] + [t];
        EmptiedTable(old(content), target.league, tables[..i], t);
        assert t !in tables[..i];
        hide Emptied, Executed, Mine, Collect;
        var n := Execute(t, DropMine(target.league));
        CountRemoved(RowsOf(old(content), t), target.league);
        removed := removed[t := n];
        EmptiedStep(old(content), target.league, tables, i);
      }
      assert tables[..|tables|] == tables;
    }

    /** The statements of the reset. */
    method RewriteForReset(now: int) returns (removed: map<GoonTable, int>)
      modifies this
      ensures content == ResetContent(old(content), target, now)
      ensures removed.Keys == (set t | t in ClearTables())
      ensures forall t :: t in ClearTables() ==> removed[t] == |MineIn(old(content), t, target.league)|
    {
      hide Executed, Emptied, ResetContent, MineIn, ExemptJobs, Collect, RowsOf;
      ClearTablesAre(JobRuns);
      hide ClearTables, Distinct;
      removed := Empty(ClearTables());
      ReferencesAfterClearing(old(content), target.league);
      var exempt := ExemptJobs(MineIn(content, ReadinessOperations, target.league));
      var _ := Execute(JobRuns, DropJobs(target.league, exempt));
      var _ := Execute(IdempotencyRequests, DropRequests(target.league, target.forgotten));
      var _ := Execute(CandidateCards, Amend(target.league, DRAFT, Text(target.draft), REOPENED_CARD, now));
      var _ := Execute(FreeAgentDrafts, ReopenDraft(target.league, target.draft, now));
      var _ := Execute(GoonSeasons, Amend(target.league, IdColumn, Text(target.season), UNDATED_SEASON, now));
      StatementsMakeTheReset(old(content), target, now);
    }

    /** Leaves the content reset and reports what was deleted, or fails and leaves it as it was. */
    method Reset(now: int, expected: Fingerprint) returns (failure: Option<Failure>, removed: map<GoonTable, int>)
      modifies this
      ensures match GoonReset.Reset(old(content), env, target, now, expected)
              case Ok(after) =>
                failure == None && content == after && removed.Keys == (set t | t in ClearTables())
                && forall t :: t in ClearTables() ==> removed[t] == |MineIn(old(content), t, target.league)|
              case Err(e) => failure == Some(e) && content == old(content)
    {
      hide ResetContent, DraftCompleted, FingerprintOf, JobsFinished, RestProtected, OpenCards, MineIn, ClearTables;
      removed := map[];
      if !env.supported { return Some(Unavailable), removed; }
      if !DraftCompleted(content, target) { return Some(AlreadyApplied), removed; }
      if !env.ready { return Some(NotReady), removed; }
      if FingerprintOf(content, target.league) != expected { return Some(ChangedSinceReview), removed; }
      var saved := content;
      removed := RewriteForReset(now);
      failure :=
        if !JobsFinished(content, target.league) then Some(UnfinishedJobs)
        else if !env.references(content) then Some(ReferenceConflict)
        else if !RestProtected(saved, content, target.league) then Some(ProtectedRecordChanged)
        else if |OpenCards(content, target.league)| != OPEN_CARDS then Some(CardsMissing)
        else None;
      if failure.Some? { content := saved; }
    }

    /** Deletes every changed table's league rows and reinserts the captured ones. */
    method Reinsert(snapshot: Snapshot) returns (ok: bool)
      requires snapshot.tables.Keys == (set t | t in ChangedTables()) && forall t :: IsChanged(t) ==> t in content
      requires snapshot.leagueId == target.league
      modifies this
      ensures ok <==> InScope(snapshot) && RestoredContent(old(content), snapshot).Some?
      ensures ok ==> RestoredContent(old(content), snapshot) == Some(content)
    {
      ghost var before := content;
      var tables := ChangedTables();
      ChangedAreDistinct();
      PutBackRestores(before, snapshot);
      hide ChangedTables, Emptied, RestoredContent, IsChanged, WithTable, InsertAll, Distinct, NewsFor, InScope;
      var _ := Empty(tables);
      ghost var base := content;
      for i := 0 to |tables|
        invariant PutBack(base, snapshot, tables[..i]) == Some(content)
        invariant forall j :: 0 <= j < i ==> TableInScope(snapshot, tables[j])
      {
        hide PutBack, RowsOf, TableInScope;
        var t := tables[i];
        NewsAre(snapshot, t);
        PutBackStep(base, snapshot, tables, i);
        OutOfScope(snapshot, t);
        var rows;
        ok, rows := InsertBack(RowsOf(content, t), snapshot.tables[t], snapshot.leagueId);
        if !ok { return false; }
        content := WithTable(content, t, rows);
      }
      assert tables[..|tables|] == tables;
      AllInScope(snapshot);
      return true;
    }

    method Restore(snapshot: Snapshot, expected: Fingerprint) returns (failure: Option<Failure>)
      requires snapshot.leagueId == target.league && forall t :: IsChanged(t) ==> t in content
      modifies this
      ensures match GoonReset.Restore(old(content), env, snapshot, expected)
              case Ok(after) => failure == None && content == after
              case Err(e) => failure == Some(e) && content == old(content)
    {
      hide InScope, RestoredContent, FingerprintOf, RestProtected, ChangedTables, IsChanged;
      if !env.supported || snapshot.schema != SCHEMA || snapshot.tables.Keys != (set t | t in ChangedTables()) {
        return Some(Unavailable);
      }
      if FingerprintOf(content, snapshot.leagueId) != expected { return Some(ChangedSinceReview); }
      var saved := content;
      var ok := Reinsert(snapshot);
      failure :=
        if !ok then Some(ArchiveRejected)
        else if !env.references(content) then Some(ReferenceConflict)
        else if !RestProtected(saved, content, snapshot.leagueId) then Some(ProtectedRecordChanged)
        else if FingerprintOf(content, snapshot.leagueId) != snapshot.source then Some(SourceNotRestored)
        else None;
      if failure.Some? { content := saved; }
    }
  }
}

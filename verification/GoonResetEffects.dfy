/** What the one-off reset demands and what it writes, row by row and column by column. */
module GoonResetEffects {
  import opened Collections
  import opened GoonReset
  import opened LeagueTables
  import opened RowChanges
  import opened Store

  ghost predicate Has(row: Row, c: Column, v: Value) {
    Cell(row, c) == v
  }

  /**
   * A card of the draft: open and incomplete, 0 of its mandatory positions filled and 18 missing,
   * 0 of its bench filled and 4 empty, no conflict of three kinds, no cap in use, compliant,
   * eligible without exclusion, not locked. Other rows stay.
   */
  ghost predicate CardBecame(target: Target, nowMs: int, was: Row, now: Row) {
    if Has(was, LeagueColumn, Text(target.league)) && Has(was, DRAFT, Text(target.draft)) then
      Became(was, now,
             map[StatusColumn := Word(Open), OtherColumn(10) := INCOMPLETE, OtherColumn(11) := Num(0),
                 OtherColumn(12) := Num(18), OtherColumn(13) := Num(0), OtherColumn(14) := Num(4),
                 OtherColumn(15) := Num(0), OtherColumn(16) := Num(0), OtherColumn(17) := Num(0),
                 OtherColumn(18) := Num(0), OtherColumn(19) := COMPLIANT, OtherColumn(20) := ELIGIBLE,
                 OtherColumn(21) := Null, OtherColumn(22) := Null, UpdatedColumn := Num(nowMs)], 1)
    else now == was
  }

  /**
   * The draft: cards open, none of its dates, weeks and recoveries set, no creation cutoff, rollovers
   * every 15 minutes, help open since the draft was opened. Other rows stay.
   */
  ghost predicate DraftBecame(target: Target, nowMs: int, was: Row, now: Row) {
    if Has(was, LeagueColumn, Text(target.league)) && Has(was, IdColumn, Text(target.draft)) then
      Became(was, now,
             map[StatusColumn := CARDS_OPEN, DateColumn(0) := Null, DateColumn(1) := Null, DateColumn(2) := Null,
                 DateColumn(3) := Null, DateColumn(4) := Null, OtherColumn(30) := Null, OtherColumn(31) := Null,
                 OtherColumn(32) := Null, OtherColumn(33) := Null, OtherColumn(34) := Num(0),
                 OtherColumn(35) := Num(15), HELP_OPENS := Cell(was, OPENED), UpdatedColumn := Num(nowMs)], 1)
    else now == was
  }

  /** The season has none of its five dates set. Other rows stay. */
  ghost predicate SeasonBecame(target: Target, nowMs: int, was: Row, now: Row) {
    if Has(was, LeagueColumn, Text(target.league)) && Has(was, IdColumn, Text(target.season)) then
      Became(was, now,
             map[DateColumn(0) := Null, DateColumn(1) := Null, DateColumn(2) := Null, DateColumn(3) := Null,
                 DateColumn(4) := Null, UpdatedColumn := Num(nowMs)], 1)
    else now == was
  }

  lemma OverlaysAddUp(row: Row, change: Row, updated: Value, version: Value)
    requires LeagueColumn !in change
    ensures row + (change - {LeagueColumn}) + map[UpdatedColumn := updated, VersionColumn := version]
            == row + change[UpdatedColumn := updated][VersionColumn := version]
  {
    assert change - {LeagueColumn} == change;
  }

  lemma AmendedRow(league: Id, c: Column, v: Value, change: Row, nowMs: int, row: Row)
    requires VersionColumn !in change && LeagueColumn !in change
    ensures
      var f := Amend(league, c, v, change, nowMs);
      && f(row).Some?
      && if Has(row, LeagueColumn, Text(league)) && Has(row, c, v) then
           Became(row, f(row).value, change[UpdatedColumn := Num(nowMs)], 1)
         else f(row).value == row
  {
    var cells := change[UpdatedColumn := Num(nowMs)];
    var version := Plus(Cell(row, VersionColumn));
    assert VersionColumn !in cells;
    hide Became;
    OverlaidWithVersion(row, cells, version, 1);
    OverlaysAddUp(row, change, Num(nowMs), version);
    hide Plus;
  }

  lemma CardRow(target: Target, nowMs: int, row: Row)
    ensures
      var f := Amend(target.league, DRAFT, Text(target.draft), REOPENED_CARD, nowMs);
      f(row).Some? && CardBecame(target, nowMs, row, f(row).value)
  {
    AmendedRow(target.league, DRAFT, Text(target.draft), REOPENED_CARD, nowMs, row);
    hide Became, Amend;
  }

  lemma SeasonRow(target: Target, nowMs: int, row: Row)
    ensures
      var f := Amend(target.league, IdColumn, Text(target.season), UNDATED_SEASON, nowMs);
      f(row).Some? && SeasonBecame(target, nowMs, row, f(row).value)
  {
    AmendedRow(target.league, IdColumn, Text(target.season), UNDATED_SEASON, nowMs, row);
    hide Became, Amend;
  }

  lemma OneMoreCell(was: Row, now: Row, cells: map<Column, Value>, c: Column, v: Value)
    requires Became(was, now, cells, 1) && c != VersionColumn && c !in cells
    ensures Became(was, now[c := v], cells[c := v], 1)
  {
  }

  lemma DraftCells(nowMs: int, since: Value)
    ensures REOPENED_DRAFT[UpdatedColumn := Num(nowMs)][HELP_OPENS := since]
            == map[StatusColumn := CARDS_OPEN, DateColumn(0) := Null, DateColumn(1) := Null, DateColumn(2) := Null,
                   DateColumn(3) := Null, DateColumn(4) := Null, OtherColumn(30) := Null, OtherColumn(31) := Null,
                   OtherColumn(32) := Null, OtherColumn(33) := Null, OtherColumn(34) := Num(0),
                   OtherColumn(35) := Num(15), HELP_OPENS := since, UpdatedColumn := Num(nowMs)]
  {
  }

  lemma DraftRow(target: Target, nowMs: int, row: Row)
    ensures
      var f := ReopenDraft(target.league, target.draft, nowMs);
      f(row).Some? && DraftBecame(target, nowMs, row, f(row).value)
  {
    AmendedRow(target.league, IdColumn, Text(target.draft), REOPENED_DRAFT, nowMs, row);
    var amended := Amend(target.league, IdColumn, Text(target.draft), REOPENED_DRAFT, nowMs)(row).value;
    var cells := REOPENED_DRAFT[UpdatedColumn := Num(nowMs)];
    hide Became, Amend;
    if Has(row, LeagueColumn, Text(target.league)) && Has(row, IdColumn, Text(target.draft)) {
      assert HELP_OPENS !in cells;
      OneMoreCell(row, amended, cells, HELP_OPENS, Cell(row, OPENED));
      DraftCells(nowMs, Cell(row, OPENED));
    }
  }

  // ---------- tables ----------

  /** Cards, drafts and seasons in their old order, each row as it should have become. */
  ghost predicate RowsBecame(target: Target, nowMs: int, before: Content, after: Content) {
    && |RowsOf(after, CandidateCards)| == |RowsOf(before, CandidateCards)|
    && |RowsOf(after, FreeAgentDrafts)| == |RowsOf(before, FreeAgentDrafts)|
    && |RowsOf(after, GoonSeasons)| == |RowsOf(before, GoonSeasons)|
    && (forall i :: 0 <= i < |RowsOf(before, CandidateCards)| ==>
                      CardBecame(target, nowMs, RowsOf(before, CandidateCards)[i], RowsOf(after, CandidateCards)[i]))
    && (forall i :: 0 <= i < |RowsOf(before, FreeAgentDrafts)| ==>
                      DraftBecame(target, nowMs, RowsOf(before, FreeAgentDrafts)[i], RowsOf(after, FreeAgentDrafts)[i]))
    && (forall i :: 0 <= i < |RowsOf(before, GoonSeasons)| ==>
                      SeasonBecame(target, nowMs, RowsOf(before, GoonSeasons)[i], RowsOf(after, GoonSeasons)[i]))
  }

  lemma CardsBecome(db: Content, target: Target, nowMs: int)
    ensures
      var before, after := RowsOf(db, CandidateCards), RowsOf(ResetContent(db, target, nowMs), CandidateCards);
      |after| == |before| && forall i :: 0 <= i < |before| ==> CardBecame(target, nowMs, before[i], after[i])
  {
    var rows, f := RowsOf(db, CandidateCards), Amend(target.league, DRAFT, Text(target.draft), REOPENED_CARD, nowMs);
    assert RowsOf(ResetContent(db, target, nowMs), CandidateCards) == Collect(rows, f);
    hide Amend, Collect, CardBecame, ResetContent;
    forall row: Row ensures f(row).Some? && CardBecame(target, nowMs, row, f(row).value) {
      CardRow(target, nowMs, row);
    }
    CollectAll(rows, f);
  }

  lemma DraftsBecome(db: Content, target: Target, nowMs: int)
    ensures
      var before, after := RowsOf(db, FreeAgentDrafts), RowsOf(ResetContent(db, target, nowMs), FreeAgentDrafts);
      |after| == |before| && forall i :: 0 <= i < |before| ==> DraftBecame(target, nowMs, before[i], after[i])
  {
    var rows, f := RowsOf(db, FreeAgentDrafts), ReopenDraft(target.league, target.draft, nowMs);
    assert RowsOf(ResetContent(db, target, nowMs), FreeAgentDrafts) == Collect(rows, f);
    hide ReopenDraft, Collect, DraftBecame, ResetContent;
    forall row: Row ensures f(row).Some? && DraftBecame(target, nowMs, row, f(row).value) {
      DraftRow(target, nowMs, row);
    }
    CollectAll(rows, f);
  }

  lemma SeasonsStatement(db: Content, target: Target, nowMs: int)
    ensures RowsOf(ResetContent(db, target, nowMs), GoonSeasons)
            == Collect(RowsOf(db, GoonSeasons),
                       Amend(target.league, IdColumn, Text(target.season), UNDATED_SEASON, nowMs))
  {
    hide Amend, Mine;
  }

  lemma SeasonsBecome(db: Content, target: Target, nowMs: int)
    ensures
      var before, after := RowsOf(db, GoonSeasons), RowsOf(ResetContent(db, target, nowMs), GoonSeasons);
      |after| == |before| && forall i :: 0 <= i < |before| ==> SeasonBecame(target, nowMs, before[i], after[i])
  {
    var rows := RowsOf(db, GoonSeasons);
    var f := Amend(target.league, IdColumn, Text(target.season), UNDATED_SEASON, nowMs);
    hide Amend, Collect, SeasonBecame, ResetContent, RowsOf;
    SeasonsStatement(db, target, nowMs);
    forall row: Row ensures f(row).Some? && SeasonBecame(target, nowMs, row, f(row).value) {
      SeasonRow(target, nowMs, row);
    }
    CollectAll(rows, f);
  }

  lemma ResetWrites(db: Content, target: Target, nowMs: int)
    ensures RowsBecame(target, nowMs, db, ResetContent(db, target, nowMs))
  {
    CardsBecome(db, target, nowMs);
    DraftsBecome(db, target, nowMs);
    SeasonsBecome(db, target, nowMs);
    hide RowsOf, ResetContent, CardBecame, DraftBecame, SeasonBecame;
  }

  // ---------- rows that go ----------

  lemma ClearedRowsGo(db: Content, target: Target, nowMs: int, t: GoonTable, row: Row)
    requires IsCleared(t)
    ensures row in RowsOf(ResetContent(db, target, nowMs), t) <==>
              row in RowsOf(db, t) && !Has(row, LeagueColumn, Text(target.league))
  {
    CollectMember(RowsOf(db, t), DropMine(target.league), row);
    assert RowsOf(ResetContent(db, target, nowMs), t) == Collect(RowsOf(db, t), DropMine(target.league));
    hide Collect, ResetContent;
    assert !Has(row, LeagueColumn, Text(target.league)) ==> DropMine(target.league)(row) == Some(row);
  }

  lemma RequestsGo(db: Content, target: Target, nowMs: int, row: Row)
    ensures row in RowsOf(ResetContent(db, target, nowMs), IdempotencyRequests) <==>
              row in RowsOf(db, IdempotencyRequests)
              && !(Has(row, LeagueColumn, Text(target.league)) && Cell(row, OPERATION) in target.forgotten)
  {
    var rows, f := RowsOf(db, IdempotencyRequests), DropRequests(target.league, target.forgotten);
    CollectMember(rows, f, row);
    assert RowsOf(ResetContent(db, target, nowMs), IdempotencyRequests) == Collect(rows, f);
    hide Collect, ResetContent;
    if !(Has(row, LeagueColumn, Text(target.league)) && Cell(row, OPERATION) in target.forgotten) {
      assert f(row) == Some(row);
    }
  }

  /** The jobs that readiness operations of the league refer to, in any of their three columns. */
  ghost predicate Referred(db: Content, target: Target, v: Value) {
    exists operation :: operation in RowsOf(db, ReadinessOperations)
                        && Has(operation, LeagueColumn, Text(target.league))
                        && (Has(operation, JOB_RUN, v) || Has(operation, REMINDER_JOB_RUN, v)
                            || Has(operation, DEADLINE_JOB_RUN, v))
  }

  lemma ReferredMeans(db: Content, target: Target, v: Value)
    ensures v in ExemptJobs(MineIn(db, ReadinessOperations, target.league)) <==> Referred(db, target, v)
  {
    var operations := MineIn(db, ReadinessOperations, target.league);
    forall row ensures row in operations <==> row in RowsOf(db, ReadinessOperations)
                                              && Has(row, LeagueColumn, Text(target.league))
    {
      SplitMembers(RowsOf(db, ReadinessOperations), LeagueColumn, target.league, row);
    }
    hide Mine, MineIn, RowsOf;
  }

  /** A job of the league goes exactly when no operation refers to it and none refers to no job. */
  lemma JobsGo(db: Content, target: Target, nowMs: int, row: Row)
    ensures row in RowsOf(ResetContent(db, target, nowMs), JobRuns) <==>
              row in RowsOf(db, JobRuns)
              && !(Has(row, LeagueColumn, Text(target.league))
                   && !Referred(db, target, Cell(row, IdColumn)) && !Referred(db, target, Null))
  {
    var exempt := ExemptJobs(MineIn(db, ReadinessOperations, target.league));
    var rows, f := RowsOf(db, JobRuns), DropJobs(target.league, exempt);
    ReferredMeans(db, target, Cell(row, IdColumn));
    ReferredMeans(db, target, Null);
    CollectMember(rows, f, row);
    assert RowsOf(ResetContent(db, target, nowMs), JobRuns) == Collect(rows, f);
    hide Collect, ResetContent, Referred, ExemptJobs, MineIn;
    if f(row).Some? { assert f(row) == Some(row); }
  }

  // ---------- the reset ----------

  /** The league's draft is completed. */
  ghost predicate DraftIsCompleted(db: Content, target: Target) {
    exists draft :: draft in RowsOf(db, FreeAgentDrafts) && Has(draft, LeagueColumn, Text(target.league))
                    && Has(draft, IdColumn, Text(target.draft)) && Has(draft, StatusColumn, Word(Completed))
  }

  lemma CompletionMeans(db: Content, target: Target)
    requires DraftCompleted(db, target)
    ensures DraftIsCompleted(db, target)
  {
    var mine := MineIn(db, FreeAgentDrafts, target.league);
    var i := IndexOf(mine, IdColumn, Text(target.draft)).value;
    SplitMembers(RowsOf(db, FreeAgentDrafts), LeagueColumn, target.league, mine[i]);
    hide Mine, IndexOf;
  }

  lemma ResetPassed(db: Content, env: Environment, target: Target, nowMs: int, expected: Fingerprint)
    requires Reset(db, env, target, nowMs, expected).Ok?
    ensures
      var after := Reset(db, env, target, nowMs, expected).value;
      && after == ResetContent(db, target, nowMs) && DraftCompleted(db, target) && JobsFinished(after, target.league)
      && env.supported && env.ready && env.references(after) && FingerprintOf(db, target.league) == expected
      && |OpenCards(after, target.league)| == 8
  {
    hide ResetContent, DraftCompleted, JobsFinished, FingerprintOf, RestProtected, OpenCards;
  }

  lemma FinishedMeans(db: Content, league: Id)
    requires JobsFinished(db, league)
    ensures forall row :: row in RowsOf(db, JobRuns) && Has(row, LeagueColumn, Text(league)) ==>
                            Has(row, StatusColumn, SUCCEEDED) || Has(row, StatusColumn, Word(Cancelled))
  {
    forall row | row in RowsOf(db, JobRuns) && Has(row, LeagueColumn, Text(league))
      ensures row in MineIn(db, JobRuns, league)
    {
      SplitMembers(RowsOf(db, JobRuns), LeagueColumn, league, row);
    }
    hide MineIn, RowsOf;
  }

  /**
   * The reset is done only for a completed draft that has not changed since it was reviewed, and if
   * it leaves no unfinished job and eight open cards. Then rows became and went as stated.
   */
  lemma ResetDoes(db: Content, env: Environment, target: Target, nowMs: int, expected: Fingerprint)
    returns (after: Content)
    requires Reset(db, env, target, nowMs, expected).Ok?
    ensures Reset(db, env, target, nowMs, expected) == Ok(after)
    ensures
      && env.supported && env.ready && env.references(after) && FingerprintOf(db, target.league) == expected
      && DraftIsCompleted(db, target) && RowsBecame(target, nowMs, db, after)
      && |OpenCards(after, target.league)| == 8
      && (forall row :: row in RowsOf(after, JobRuns) && Has(row, LeagueColumn, Text(target.league)) ==>
                          Has(row, StatusColumn, SUCCEEDED) || Has(row, StatusColumn, Word(Cancelled)))
      && (forall t, row :: IsCleared(t) ==>
                             (row in RowsOf(after, t) <==>
                                row in RowsOf(db, t) && !Has(row, LeagueColumn, Text(target.league))))
  {
    after := Reset(db, env, target, nowMs, expected).value;
    ResetPassed(db, env, target, nowMs, expected);
    hide Reset, ResetContent, DraftCompleted, JobsFinished, FingerprintOf, OpenCards, RowsBecame, DraftIsCompleted,
      RowsOf, Has;
    CompletionMeans(db, target);
    ResetWrites(db, target, nowMs);
    FinishedMeans(after, target.league);
    forall t, row | IsCleared(t)
      ensures row in RowsOf(after, t) <==> row in RowsOf(db, t) && !Has(row, LeagueColumn, Text(target.league))
    {
      ClearedRowsGo(db, target, nowMs, t, row);
    }
  }

  // ---------- the restore ----------

  /**
   * A restore is done only for an archive of this schema that covers the changed tables and holds rows
   * of its league only, while the league is as expected; then references hold, other rows are as they
   * were, and the league is fingerprinted as when it was archived.
   */
  lemma RestoreDoes(db: Content, env: Environment, snapshot: Snapshot, expected: Fingerprint) returns (after: Content)
    requires Restore(db, env, snapshot, expected).Ok?
    ensures Restore(db, env, snapshot, expected) == Ok(after)
    ensures env.supported && snapshot.schema == 66 && (forall t :: t in snapshot.tables <==> IsChanged(t))
    ensures FingerprintOf(db, snapshot.leagueId) == expected
    ensures forall t, row :: t in snapshot.tables && row in snapshot.tables[t] ==>
                               Has(row, LeagueColumn, Text(snapshot.leagueId))
    ensures env.references(after) && RestProtected(db, after, snapshot.leagueId)
    ensures FingerprintOf(after, snapshot.leagueId) == snapshot.source
  {
    after := Restore(db, env, snapshot, expected).value;
    assert InScope(snapshot) && snapshot.tables.Keys == (set t | t in ChangedTables()) by {
      hide ChangedTables, FingerprintOf, InScope, RestoredContent, RestProtected;
    }
    forall t ensures t in snapshot.tables <==> IsChanged(t) {
      ChangedTablesAre(t);
    }
    hide ChangedTables, FingerprintOf, RestoredContent, RestProtected, IsChanged;
  }
}

/** Returning one league to preseason setup, and restoring it from the archive taken before. */
module GuidedReset {
  import opened Collections
  import opened Store
  import opened LeagueTables

  const SCHEMA_VERSION: int := 88

  /** How many tables a reset clears, and how many it only reads to witness who has access. */
  const CLEAR_TABLES: nat := 85
  const WITNESS_TABLES: nat := 4

  datatype LeagueTable =
    | Cleared(n: nat)
    | LeagueFreezes | LeagueSettings | Leagues | Seasons | LeagueTeams
    | Witness(n: nat)
    | Untouched(n: nat)

  type Content = map<LeagueTable, Rows>

  predicate IsCleared(t: LeagueTable) {
    t.Cleared? && t.n < CLEAR_TABLES
  }

  predicate IsChanged(t: LeagueTable) {
    IsCleared(t) || t == LeagueFreezes || t == LeagueSettings || t == Leagues || t == Seasons || t == LeagueTeams
  }

  function ClearedTables(): seq<LeagueTable> {
    seq(CLEAR_TABLES, i requires 0 <= i < CLEAR_TABLES => Cleared(i))
  }

  /** The changed tables; the order in which they are visited does not matter, since they do not overlap. */
  function ChangedTables(): seq<LeagueTable> {
    ClearedTables() + [LeagueFreezes, LeagueSettings, Leagues, Seasons, LeagueTeams]
  }

  lemma ChangedTablesAre(t: LeagueTable)
    ensures t in ChangedTables() <==> IsChanged(t)
  {
    if IsCleared(t) {
      assert ClearedTables()[t.n] == t;
      assert ChangedTables()[t.n] == t;
    }
    var rest := [LeagueFreezes, LeagueSettings, Leagues, Seasons, LeagueTeams];
    assert t in ChangedTables() <==> t in ClearedTables() || t in rest;
  }

  function WitnessTables(): seq<LeagueTable> {
    seq(WITNESS_TABLES, i requires 0 <= i < WITNESS_TABLES => Witness(i))
  }

  function RowsOf(db: Content, t: LeagueTable): Rows {
    if t in db then db[t] else []
  }

  /** The column that says whose row it is. */
  function LeagueColumnOf(t: LeagueTable): Column {
    if t == Leagues then IdColumn else LeagueColumn
  }

  function KeyOf(t: LeagueTable): Column {
    if t == LeagueSettings then LeagueColumn else IdColumn
  }

  function MineIn(db: Content, t: LeagueTable, league: Id): Rows {
    Mine(RowsOf(db, t), LeagueColumnOf(t), league)
  }

  function OthersIn(db: Content, t: LeagueTable, league: Id): Rows {
    Others(RowsOf(db, t), LeagueColumnOf(t), league)
  }

  // ---------- the archive ----------

  /** A stored value as JSON: bytes become a tagged base64 text, which is kept as the bytes it stands for. */
  datatype Encoded = Plain(value: Value) | Binary(base64: seq<nat>)

  type EncodedRow = map<Column, Encoded>

  function EncodeValue(v: Value): Encoded {
    match v
    case Blob(bytes) => Binary(bytes)
    case _ => Plain(v)
  }

  function DecodeValue(e: Encoded): Value {
    match e
    case Binary(base64) => Blob(base64)
    case Plain(v) => v
  }

  function Encode(row: Row): EncodedRow {
    map c | c in row :: EncodeValue(row[c])
  }

  function Decode(row: EncodedRow): Row {
    map c | c in row :: DecodeValue(row[c])
  }

  function EncodeAll(rows: Rows): seq<EncodedRow> {
    seq(|rows|, i requires 0 <= i < |rows| => Encode(rows[i]))
  }

  function DecodeAll(rows: seq<EncodedRow>): Rows {
    seq(|rows|, i requires 0 <= i < |rows| => Decode(rows[i]))
  }

  datatype Snapshot = Snapshot(schemaVersion: int, leagueId: Id, tables: map<LeagueTable, seq<EncodedRow>>)

  function Capture(db: Content, league: Id): Snapshot {
    Snapshot(SCHEMA_VERSION, league, map t | t in ChangedTables() :: EncodeAll(MineIn(db, t, league)))
  }

  /** What a scope hash is taken of. The hash is injective, so scopes are compared by value. */
  datatype Scope = Scope(snapshot: Snapshot, witnesses: map<LeagueTable, seq<EncodedRow>>)

  function ScopeOf(db: Content, league: Id): Scope {
    Scope(Capture(db, league), map t | t in WitnessTables() :: EncodeAll(MineIn(db, t, league)))
  }

  // ---------- eligibility ----------

  /** `ArchiveRejected`: an archived row belongs to another league, or its key is taken. */
  datatype Failure =
    | Unavailable | NotFound | Conflict | ReferenceConflict | ProtectedRecordChanged
    | ArchiveInvalid | ArchiveRejected | RestoreMismatch | RehearsalRestoreFailed | ScopeChanged

  /**
   * `quiet` stands for the reads of tables this model does not carry: nothing played, locked,
   * leased, undelivered or unfinished, and a draft to restart. `references` is the foreign-key
   * check, `supported` the schema version and the foreign-key setting.
   */
  datatype Request = Request(league: Id, actor: Id, nowMs: int, quiet: bool)

  datatype Environment = Environment(supported: bool, references: Content -> bool)

  /** The row that has this value in a column. */
  function Find(rows: Rows, c: Column, v: Value): Option<Row> {
    match IndexOf(rows, c, v)
    case None => None
    case Some(i) => Some(rows[i])
  }

  function ActiveFreezes(rows: Rows, league: Id): Rows {
    Collect(Mine(rows, LeagueColumn, league),
            (row: Row) => if Cell(row, StatusColumn) == Word(Active) then Some(row) else None)
  }

  function CurrentSeason(db: Content, league: Id): Option<Row> {
    match Find(RowsOf(db, Leagues), IdColumn, Text(league))
    case None => None
    case Some(row) =>
      if Cell(row, CurrentSeasonColumn) == Null then None
      else Find(MineIn(db, Seasons, league), IdColumn, Cell(row, CurrentSeasonColumn))
  }

  /** Season keys are texts, compared by their ranks. */
  predicate NotAfter(v: Value, w: Value) {
    v.Text? && w.Text? && v.id <= w.id
  }

  /** A planned or active season, every other one planned and later. */
  predicate Unplayed(seasons: Rows, season: Row) {
    && (Cell(season, StatusColumn) == Word(Planned) || Cell(season, StatusColumn) == Word(Active))
    && forall s | s in seasons :: Cell(s, IdColumn) == Cell(season, IdColumn)
                                  || (Cell(s, StatusColumn) == Word(Planned)
                                      && !NotAfter(Cell(s, SeasonKeyColumn), Cell(season, SeasonKeyColumn)))
  }

  /** The season a reset keeps, if the league may be reset. */
  function Eligibility(db: Content, env: Environment, q: Request): Result<Value, Failure> {
    if !env.supported then Err(Unavailable)
    else
      match Find(RowsOf(db, Leagues), IdColumn, Text(q.league))
      case None => Err(NotFound)
      case Some(league) =>
        if Cell(league, StatusColumn) != Word(Frozen) then Err(Conflict)
        else if |ActiveFreezes(RowsOf(db, LeagueFreezes), q.league)| != 1 then Err(Conflict)
        else
          match CurrentSeason(db, q.league)
          case None => Err(Conflict)
          case Some(season) =>
            if !Unplayed(MineIn(db, Seasons, q.league), season) || !q.quiet then Err(Conflict)
            else Ok(Cell(season, IdColumn))
  }

  // ---------- the statements of a reset ----------

  function Increased(v: Value): Value {
    match v
    case Num(n) => Num(n + 1)
    case _ => Null
  }

  function Later(v: Value, now: int): Value {
    match v
    case Num(n) => Num(Max(n, now))
    case _ => Null
  }

  type Statement = Row -> Option<Row>

  function DropMine(t: LeagueTable, league: Id): Statement {
    row => if IsMine(row, LeagueColumnOf(t), league) then None else Some(row)
  }

  function DropOtherSeasons(league: Id, season: Value): Statement {
    row => if IsMine(row, LeagueColumn, league) && Cell(row, IdColumn) != season then None else Some(row)
  }

  function Replan(league: Id, season: Value, now: int): Statement {
    row =>
      if IsMine(row, LeagueColumn, league) && Cell(row, IdColumn) == season then
        Some(row + map[StatusColumn := Word(Planned), DateColumn(0) := Null, DateColumn(1) := Null,
                       DateColumn(2) := Null, DateColumn(3) := Null, DateColumn(4) := Null,
                       UpdatedColumn := Later(Cell(row, UpdatedColumn), now),
                       VersionColumn := Increased(Cell(row, VersionColumn))])
      else Some(row)
  }

  function ReturnTeams(league: Id, now: int): Statement {
    row =>
      if IsMine(row, LeagueColumn, league)
         && (Cell(row, StatusColumn) == Word(Active) || Cell(row, StatusColumn) == Word(Setup)) then
        Some(row + map[StatusColumn := Word(Setup), UpdatedColumn := Later(Cell(row, UpdatedColumn), now),
                       VersionColumn := Increased(Cell(row, VersionColumn))])
      else Some(row)
  }

  function UnsetDeadline(league: Id, now: int): Statement {
    row =>
      if IsMine(row, LeagueColumn, league) then
        Some(row + map[TradeDeadlineColumn := Null, UpdatedColumn := Later(Cell(row, UpdatedColumn), now),
                       VersionColumn := Increased(Cell(row, VersionColumn))])
      else Some(row)
  }

  function EndFreeze(league: Id, actor: Id, now: int): Statement {
    row =>
      if IsMine(row, LeagueColumn, league) && Cell(row, StatusColumn) == Word(Active) then
        Some(row + map[StatusColumn := Word(Ended), EndedColumn := Num(now), EndedByColumn := Text(actor),
                       VersionColumn := Increased(Cell(row, VersionColumn))])
      else Some(row)
  }

  function ReturnLeague(league: Id, now: int): Statement {
    row =>
      if IsMine(row, IdColumn, league) then
        Some(row + map[StatusColumn := Word(Setup), UpdatedColumn := Later(Cell(row, UpdatedColumn), now),
                       VersionColumn := Increased(Cell(row, VersionColumn))])
      else Some(row)
  }

  function AfterReset(t: LeagueTable, rows: Rows, q: Request, season: Value): Rows {
    match t
    case Cleared(n) => if n < CLEAR_TABLES then Collect(rows, DropMine(t, q.league)) else rows
    case Seasons => Collect(Collect(rows, DropOtherSeasons(q.league, season)), Replan(q.league, season, q.nowMs))
    case LeagueTeams => Collect(rows, ReturnTeams(q.league, q.nowMs))
    case LeagueSettings => Collect(rows, UnsetDeadline(q.league, q.nowMs))
    case LeagueFreezes => Collect(rows, EndFreeze(q.league, q.actor, q.nowMs))
    case Leagues => Collect(rows, ReturnLeague(q.league, q.nowMs))
    case _ => rows
  }

  function ResetContent(db: Content, q: Request, season: Value): Content {
    map t | t in db :: AfterReset(t, db[t], q, season)
  }

  /** Rows of other leagues, and tables a reset does not change, are the same. */
  predicate RestProtected(before: Content, after: Content, league: Id) {
    && before.Keys == after.Keys
    && forall t | t in before ::
         if IsChanged(t) then OthersIn(after, t, league) == OthersIn(before, t, league) else after[t] == before[t]
  }

  /** The checks at the end of a rewrite. */
  function Checked(before: Content, after: Content, env: Environment, league: Id): Option<Failure> {
    if !env.references(after) then Some(ReferenceConflict)
    else if !RestProtected(before, after, league) then Some(ProtectedRecordChanged)
    else None
  }

  /** A reset is one transaction: it leaves the new content, or fails and leaves the old one. */
  function Reset(db: Content, env: Environment, q: Request): Result<Content, Failure> {
    match Eligibility(db, env, q)
    case Err(e) => Err(e)
    case Ok(season) =>
      var after := ResetContent(db, q, season);
      match Checked(db, after, env, q.league)
      case Some(e) => Err(e)
      case None => Ok(after)
  }

  // ---------- restoring ----------

  function RestoreTable(t: LeagueTable, rows: Rows, news: Rows, league: Id): Option<Rows> {
    if IsCleared(t) then InsertAll(Collect(rows, DropMine(t, league)), KeyOf(t), news)
    else Some(PutAll(rows, KeyOf(t), news))
  }

  function NewsFor(snapshot: Snapshot, t: LeagueTable): Rows {
    if t in snapshot.tables then DecodeAll(snapshot.tables[t]) else []
  }

  predicate TableInScope(snapshot: Snapshot, t: LeagueTable) {
    forall row | row in NewsFor(snapshot, t) :: IsMine(row, LeagueColumnOf(t), snapshot.leagueId)
  }

  predicate InScope(snapshot: Snapshot) {
    forall t | t in ChangedTables() :: TableInScope(snapshot, t)
  }

  /** The content with every changed table restored; None when an insert finds its key taken. */
  function RestoredContent(db: Content, snapshot: Snapshot): Option<Content> {
    if exists t | t in db && IsChanged(t) :: RestoreTable(t, db[t], NewsFor(snapshot, t), snapshot.leagueId).None?
    then None
    else
      Some(map t | t in db ::
             if IsChanged(t) then RestoreTable(t, db[t], NewsFor(snapshot, t), snapshot.leagueId).value else db[t])
  }

  lemma RestoredContentIs(now: Content, snapshot: Snapshot)
    requires forall t :: IsChanged(t) ==>
                           t in now && RestoreTable(t, now[t], NewsFor(snapshot, t), snapshot.leagueId).Some?
    ensures
      var r := RestoredContent(now, snapshot);
      && r.Some? && r.value.Keys == now.Keys
      && forall t :: t in now ==>
                       r.value[t] == if IsChanged(t) then
                                       RestoreTable(t, now[t], NewsFor(snapshot, t), snapshot.leagueId).value
                                     else now[t]
  {
  }

  function Restore(db: Content, env: Environment, snapshot: Snapshot): Result<Content, Failure> {
    if !env.supported then Err(Unavailable)
    else if snapshot.schemaVersion != SCHEMA_VERSION || snapshot.tables.Keys != (set t | t in ChangedTables()) then
      Err(ArchiveInvalid)
    else if !InScope(snapshot) then Err(ArchiveRejected)
    else
      match RestoredContent(db, snapshot)
      case None => Err(ArchiveRejected)
      case Some(after) =>
        match Checked(db, after, env, snapshot.leagueId)
        case Some(e) => Err(e)
        case None => if Capture(after, snapshot.leagueId) == snapshot then Ok(after) else Err(RestoreMismatch)
  }

  /** A trial on a detached copy: reset, restore, and compare. Yields the scope a reset will leave. */
  function Rehearse(db: Content, env: Environment, q: Request): Result<Scope, Failure> {
    match Reset(db, env, q)
    case Err(e) => Err(e)
    case Ok(after) =>
      match Restore(after, env, Capture(db, q.league))
      case Err(e) => Err(e)
      case Ok(back) =>
        if ScopeOf(back, q.league) == ScopeOf(db, q.league) then Ok(ScopeOf(after, q.league))
        else Err(RehearsalRestoreFailed)
  }

  /** A trial of the restore alone, refused when the scope is not the expected one any more. */
  function RehearseRestore(db: Content, env: Environment, snapshot: Snapshot,
                           expected: Scope): Result<Content, Failure> {
    if ScopeOf(db, snapshot.leagueId) != expected then Err(ScopeChanged) else Restore(db, env, snapshot)
  }
}

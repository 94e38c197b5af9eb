/** Temporary triggers that confine an operation to reviewed rows and columns. */
module WriteFence {
  import opened Collections
  import opened Store

  datatype UpdateScope = UpdateScope(ids: set<Id>, fields: set<Column>)

  datatype Scope = Scope(leagueId: Id, inserts: map<TableName, set<Id>>, updates: map<TableName, UpdateScope>,
                         deletes: map<TableName, set<Id>>)

  /** The condition a trigger checks; `frozen` columns must keep their old value. */
  datatype Permission = Never | Allow(leagueId: Id, ids: set<Id>, frozen: set<Column>)

  type Trigger = (TableName, Kind)

  type Triggers = map<Trigger, Permission>

  function IdsAt(m: map<TableName, set<Id>>, t: TableName): set<Id> {
    if t in m then m[t] else {}
  }

  function AllowedIds(scope: Scope, t: TableName, kind: Kind): set<Id> {
    match kind
    case OnInsert => IdsAt(scope.inserts, t)
    case OnDelete => IdsAt(scope.deletes, t)
    case OnUpdate => if t in scope.updates then scope.updates[t].ids else {}
  }

  function PermissionFor(scope: Scope, schema: Schema, t: TableName, kind: Kind): Permission {
    var ids := AllowedIds(scope, t, kind);
    if ids == {} then Never
    else if kind.OnUpdate? && t in scope.updates && t in schema then
      Allow(scope.leagueId, ids, schema[t] - scope.updates[t].fields)
    else Allow(scope.leagueId, ids, {})
  }

  /** NULL never equals anything, so a missing league or id is refused; `IS` compares NULLs. */
  predicate Permits(p: Permission, row: Row, old': Row) {
    match p
    case Never => false
    case Allow(league, ids, frozen) =>
      && Cell(row, LeagueColumn) == Text(league)
      && Cell(row, IdColumn).Text? && Cell(row, IdColumn).id in ids
      && forall c | c in frozen :: Cell(row, c) == Cell(old', c)
  }

  /** Whether the trigger on this table and kind of write, if there is one, lets it pass. */
  predicate Passes(triggers: Triggers, t: TableName, kind: Kind, row: Row, old': Row) {
    (t, kind) in triggers ==> Permits(triggers[(t, kind)], row, old')
  }

  /** A row filed under a key has columns of its table only, and its id, if the table has one, is the key. */
  predicate FitsSchema(schema: Schema, t: TableName, key: Id, row: Row) {
    t in schema && row.Keys <= schema[t] && (IdColumn in schema[t] ==> Cell(row, IdColumn) == Text(key))
  }

  /** One row-level write to its table; None when the statement aborts. */
  function StepTable(table: Table, schema: Schema, triggers: Triggers, a: Action): Option<Table> {
    match a
    case Insert(t, key, row) =>
      if !FitsSchema(schema, t, key, row) || key in table || !Passes(triggers, t, OnInsert, row, row) then None
      else Some(table[key := row])
    case Update(t, key, newKey, row) =>
      if key !in table then Some(table)
      else if !FitsSchema(schema, t, newKey, row) || !Passes(triggers, t, OnUpdate, row, table[key]) then None
      else if newKey != key && newKey in table then None
      else Some((table - {key})[newKey := row])
    case Delete(t, key) =>
      if key !in table then Some(table)
      else if !Passes(triggers, t, OnDelete, table[key], table[key]) then None
      else Some(table - {key})
  }

  function Step(db: Database, schema: Schema, triggers: Triggers, a: Action): Option<Database> {
    match StepTable(TableOf(db, a.table), schema, triggers, a)
    case None => None
    case Some(table) => Some(db[a.table := table])
  }

  function Run(db: Database, schema: Schema, triggers: Triggers, actions: seq<Action>): Option<Database> {
    if actions == [] then Some(db)
    else
      match Run(db, schema, triggers, actions[..|actions| - 1])
      case None => None
      case Some(db') => Step(db', schema, triggers, actions[|actions| - 1])
  }

  /** Every table of the schema is fenced for every kind of write. */
  predicate Fenced(triggers: Triggers, schema: Schema, scope: Scope) {
    && (forall t | t in schema ::
          && (t, OnInsert) in triggers && triggers[(t, OnInsert)] == PermissionFor(scope, schema, t, OnInsert)
          && (t, OnUpdate) in triggers && triggers[(t, OnUpdate)] == PermissionFor(scope, schema, t, OnUpdate)
          && (t, OnDelete) in triggers && triggers[(t, OnDelete)] == PermissionFor(scope, schema, t, OnDelete))
  }

  // ---------- soundness ----------

  predicate Touchable(scope: Scope, t: TableName, id: Id) {
    id in AllowedIds(scope, t, OnInsert) || id in AllowedIds(scope, t, OnUpdate) || id in AllowedIds(scope, t, OnDelete)
  }

  /** A row of another league, or one whose id was not reviewed. */
  predicate Outside(scope: Scope, t: TableName, row: Row) {
    !(Cell(row, LeagueColumn) == Text(scope.leagueId)
      && Cell(row, IdColumn).Text? && Touchable(scope, t, Cell(row, IdColumn).id))
  }

  /** The same outside rows before and after, column for column. */
  ghost predicate OutsideUntouched(scope: Scope, before: Database, after: Database) {
    forall t, k ::
      && (k in TableOf(before, t) && Outside(scope, t, TableOf(before, t)[k]) ==>
            k in TableOf(after, t) && TableOf(after, t)[k] == TableOf(before, t)[k])
      && (k in TableOf(after, t) && Outside(scope, t, TableOf(after, t)[k]) ==>
            k in TableOf(before, t) && TableOf(after, t)[k] == TableOf(before, t)[k])
  }

  /** A row that may be updated but neither inserted nor deleted changes in listed columns only. */
  ghost predicate OnlyListedColumns(scope: Scope, before: Database, after: Database) {
    forall t, k :: k in TableOf(before, t) && k !in AllowedIds(scope, t, OnInsert)
                   && k !in AllowedIds(scope, t, OnDelete) ==>
                     && k in TableOf(after, t)
                     && forall c :: (t in scope.updates ==> c !in scope.updates[t].fields) ==>
                                      Cell(TableOf(after, t)[k], c) == Cell(TableOf(before, t)[k], c)
  }

  /** The table has the two columns that the triggers on reviewed writes read. */
  predicate HasFenceColumns(schema: Schema, t: TableName) {
    t in schema && IdColumn in schema[t] && LeagueColumn in schema[t]
  }

  /** No reviewed update may change what makes a row reviewed; without both columns none can pass at all. */
  predicate PinsIdentity(scope: Scope, schema: Schema) {
    forall t | t in scope.updates && HasFenceColumns(schema, t) && scope.updates[t].ids != {} ::
      IdColumn !in scope.updates[t].fields && LeagueColumn !in scope.updates[t].fields
  }

  ghost predicate RowsFit(db: Database, schema: Schema) {
    forall t, k :: k in TableOf(db, t) ==> FitsSchema(schema, t, k, TableOf(db, t)[k])
  }

  /** The database with the row under one key replaced, added or taken away. */
  function WithRow(db: Database, t: TableName, key: Id, row: Option<Row>): Database {
    match row
    case Some(r) => db[t := TableOf(db, t)[key := r]]
    case None => db[t := TableOf(db, t) - {key}]
  }

  predicate MayReplace(scope: Scope, schema: Schema, db: Database, t: TableName, key: Id, row: Option<Row>) {
    && (row.Some? ==>
          FitsSchema(schema, t, key, row.value) && !Outside(scope, t, row.value))
    && (key in TableOf(db, t) ==> !Outside(scope, t, TableOf(db, t)[key]))
  }

  ghost predicate KeepsColumns(scope: Scope, t: TableName, was: Row, now: Row) {
    forall c :: (t in scope.updates ==> c !in scope.updates[t].fields) ==> Cell(now, c) == Cell(was, c)
  }

  lemma OtherRowsStay(db: Database, t: TableName, key: Id, row: Option<Row>)
    ensures forall t', k :: t' != t || k != key ==>
                              && (k in TableOf(WithRow(db, t, key, row), t') <==> k in TableOf(db, t'))
                              && (k in TableOf(db, t') ==>
                                    TableOf(WithRow(db, t, key, row), t')[k] == TableOf(db, t')[k])
    ensures key in TableOf(WithRow(db, t, key, row), t) <==> row.Some?
    ensures row.Some? ==> TableOf(WithRow(db, t, key, row), t)[key] == row.value
  {
  }

  lemma ReplacingOneRow(db: Database, schema: Schema, scope: Scope, t: TableName, key: Id, row: Option<Row>)
    requires RowsFit(db, schema) && MayReplace(scope, schema, db, t, key, row)
    requires key in TableOf(db, t) ==>
               || key in AllowedIds(scope, t, OnInsert) || key in AllowedIds(scope, t, OnDelete)
               || (row.Some? && KeepsColumns(scope, t, TableOf(db, t)[key], row.value))
    ensures RowsFit(WithRow(db, t, key, row), schema)
    ensures OutsideUntouched(scope, db, WithRow(db, t, key, row))
    ensures OnlyListedColumns(scope, db, WithRow(db, t, key, row))
  {
    hide Outside, FitsSchema, AllowedIds;
    var db' := WithRow(db, t, key, row);
    OtherRowsStay(db, t, key, row);
    assert OutsideUntouched(scope, db, db') by { hide KeepsColumns, Cell; }
    assert RowsFit(db', schema) by { hide KeepsColumns, Cell; }
  }

  /** A write that finds no row. */
  lemma Unwritten(db: Database, schema: Schema, scope: Scope, t: TableName)
    requires RowsFit(db, schema)
    ensures RowsFit(db[t := TableOf(db, t)], schema)
    ensures OutsideUntouched(scope, db, db[t := TableOf(db, t)])
    ensures OnlyListedColumns(scope, db, db[t := TableOf(db, t)])
  {
    hide FitsSchema, Outside;
    var db' := db[t := TableOf(db, t)];
    forall t' ensures TableOf(db', t') == TableOf(db, t') {
    }
  }

  lemma FencedInsert(db: Database, schema: Schema, triggers: Triggers, scope: Scope, t: TableName, key: Id, row: Row)
    requires RowsFit(db, schema) && Fenced(triggers, schema, scope)
    requires Step(db, schema, triggers, Insert(t, key, row)).Some?
    ensures
      var db' := Step(db, schema, triggers, Insert(t, key, row)).value;
      RowsFit(db', schema) && OutsideUntouched(scope, db, db') && OnlyListedColumns(scope, db, db')
  {
    hide RowsFit, OutsideUntouched, OnlyListedColumns;
    assert Permits(PermissionFor(scope, schema, t, OnInsert), row, row);
    ReplacingOneRow(db, schema, scope, t, key, Some(row));
  }

  lemma FencedDelete(db: Database, schema: Schema, triggers: Triggers, scope: Scope, t: TableName, key: Id)
    requires RowsFit(db, schema) && Fenced(triggers, schema, scope)
    requires Step(db, schema, triggers, Delete(t, key)).Some?
    ensures
      var db' := Step(db, schema, triggers, Delete(t, key)).value;
      RowsFit(db', schema) && OutsideUntouched(scope, db, db') && OnlyListedColumns(scope, db, db')
  {
    if key in TableOf(db, t) {
      var was := TableOf(db, t)[key];
      assert FitsSchema(schema, t, key, was);
      hide RowsFit, OutsideUntouched, OnlyListedColumns;
      assert Permits(PermissionFor(scope, schema, t, OnDelete), was, was);
      ReplacingOneRow(db, schema, scope, t, key, None);
    } else {
      Unwritten(db, schema, scope, t);
    }
  }

  /** A permitted update leaves identity and unlisted columns alone. */
  lemma PermittedUpdate(schema: Schema, scope: Scope, t: TableName, key: Id, was: Row, newKey: Id, row: Row)
    requires PinsIdentity(scope, schema)
    requires FitsSchema(schema, t, key, was) && FitsSchema(schema, t, newKey, row)
    requires Permits(PermissionFor(scope, schema, t, OnUpdate), row, was)
    ensures newKey == key && Cell(row, LeagueColumn) == Cell(was, LeagueColumn)
    ensures !Outside(scope, t, row) && !Outside(scope, t, was)
    ensures KeepsColumns(scope, t, was, row)
  {
  }

  lemma FencedUpdate(db: Database, schema: Schema, triggers: Triggers, scope: Scope, t: TableName, key: Id,
                     newKey: Id, row: Row)
    requires RowsFit(db, schema) && Fenced(triggers, schema, scope) && PinsIdentity(scope, schema)
    requires Step(db, schema, triggers, Update(t, key, newKey, row)).Some?
    ensures
      var db' := Step(db, schema, triggers, Update(t, key, newKey, row)).value;
      RowsFit(db', schema) && OutsideUntouched(scope, db, db') && OnlyListedColumns(scope, db, db')
  {
    if key in TableOf(db, t) {
      var table := TableOf(db, t);
      var was := table[key];
      assert FitsSchema(schema, t, key, was);
      hide RowsFit, OutsideUntouched, OnlyListedColumns;
      PermittedUpdate(schema, scope, t, key, was, newKey, row);
      assert (table - {key})[key := row] == table[key := row];
      ReplacingOneRow(db, schema, scope, t, key, Some(row));
    } else {
      Unwritten(db, schema, scope, t);
    }
  }

  lemma Confined(scope: Scope, before: Database, mid: Database, after: Database)
    requires OutsideUntouched(scope, before, mid) && OnlyListedColumns(scope, before, mid)
    requires OutsideUntouched(scope, mid, after) && OnlyListedColumns(scope, mid, after)
    ensures OutsideUntouched(scope, before, after) && OnlyListedColumns(scope, before, after)
  {
  }

  /**
   * However many inserts, updates and deletes run without aborting while the fence is up,
   * every row outside the reviewed ids and league is untouched, none appears, and reviewed
   * updates reach their listed columns only.
   */
  lemma {:induction false} FenceConfines(db: Database, schema: Schema, triggers: Triggers, scope: Scope,
                                         actions: seq<Action>)
    requires RowsFit(db, schema) && Fenced(triggers, schema, scope) && PinsIdentity(scope, schema)
    requires Run(db, schema, triggers, actions).Some?
    ensures
      var after := Run(db, schema, triggers, actions).value;
      RowsFit(after, schema) && OutsideUntouched(scope, db, after) && OnlyListedColumns(scope, db, after)
  {
    if actions != [] {
      var n := |actions| - 1;
      FenceConfines(db, schema, triggers, scope, actions[..n]);
      var mid := Run(db, schema, triggers, actions[..n]).value;
      match actions[n] {
        case Insert(t, key, row) => FencedInsert(mid, schema, triggers, scope, t, key, row);
        case Update(t, key, newKey, row) => FencedUpdate(mid, schema, triggers, scope, t, key, newKey, row);
        case Delete(t, key) => FencedDelete(mid, schema, triggers, scope, t, key);
      }
      var after := Run(db, schema, triggers, actions).value;
      Confined(scope, db, mid, after);
    }
  }

  // ---------- why identity must be pinned ----------

  ghost function Above(ids: set<Id>): (n: Id)
    ensures forall id :: id in ids ==> id < n
  {
    if ids == {} then 0
    else
      var top :| top in ids;
      assert forall id :: id in ids ==> id == top || id in ids - {top};
      Max(Above(ids - {top}), top + 1)
  }

  ghost function Unreviewed(scope: Scope, t: TableName): (n: Id)
    ensures !Touchable(scope, t, n)
  {
    Max(Above(AllowedIds(scope, t, OnInsert)),
        Max(Above(AllowedIds(scope, t, OnUpdate)), Above(AllowedIds(scope, t, OnDelete))))
  }

  function Identified(id: Id, league: Id): Row {
    map[IdColumn := Text(id), LeagueColumn := Text(league)]
  }

  lemma OneRowFits(schema: Schema, t: TableName, key: Id, league: Id)
    requires HasFenceColumns(schema, t)
    ensures RowsFit(map[t := map[key := Identified(key, league)]], schema)
  {
  }

  lemma RewritePermitted(schema: Schema, scope: Scope, t: TableName, key: Id, league: Id, id: Id)
    requires t in scope.updates && t in schema && id in scope.updates[t].ids
    requires key == id || IdColumn in scope.updates[t].fields
    requires league == scope.leagueId || LeagueColumn in scope.updates[t].fields
    ensures Permits(PermissionFor(scope, schema, t, OnUpdate), Identified(id, scope.leagueId), Identified(key, league))
  {
  }

  lemma LeakThrough(schema: Schema, triggers: Triggers, scope: Scope, t: TableName, key: Id, league: Id, id: Id)
    requires Fenced(triggers, schema, scope)
    requires t in scope.updates && HasFenceColumns(schema, t) && id in scope.updates[t].ids
    requires key == id || IdColumn in scope.updates[t].fields
    requires league == scope.leagueId || LeagueColumn in scope.updates[t].fields
    ensures
      var table := map[key := Identified(key, league)];
      var write := Update(t, key, id, Identified(id, scope.leagueId));
      StepTable(table, schema, triggers, write) == Some(map[id := Identified(id, scope.leagueId)])
  {
    var was, now := Identified(key, league), Identified(id, scope.leagueId);
    RewritePermitted(schema, scope, t, key, league, id);
    assert FitsSchema(schema, t, id, now);
    hide PermissionFor, Permits, Identified, Cell, FitsSchema;
    var table: Table := map[key := was];
    var rewritten: Table := map[id := now];
    assert (table - {key})[id := now] == rewritten;
  }

  lemma StepRewrites(db: Database, schema: Schema, triggers: Triggers, write: Action, table: Table)
    requires db.Keys == {write.table}
    requires StepTable(db[write.table], schema, triggers, write) == Some(table)
    ensures Step(db, schema, triggers, write) == Some(map[write.table := table])
  {
    hide StepTable;
    assert db[write.table := table] == map[write.table := table];
  }

  lemma OutsideRowRewritten(scope: Scope, t: TableName, key: Id, league: Id, id: Id)
    requires Outside(scope, t, Identified(key, league)) && (key != id || league != scope.leagueId)
    ensures !OutsideUntouched(scope, map[t := map[key := Identified(key, league)]],
                              map[t := map[id := Identified(id, scope.leagueId)]])
  {
    var before: Database := map[t := map[key := Identified(key, league)]];
    var after: Database := map[t := map[id := Identified(id, scope.leagueId)]];
    assert TableOf(before, t)[key] == Identified(key, league);
    if key == id {
      assert Cell(TableOf(after, t)[key], LeagueColumn) != Cell(TableOf(before, t)[key], LeagueColumn);
    } else {
      assert key !in TableOf(after, t);
    }
  }

  lemma RewriteLeaks(schema: Schema, triggers: Triggers, scope: Scope, t: TableName, key: Id, league: Id, id: Id)
    requires Fenced(triggers, schema, scope)
    requires t in scope.updates && HasFenceColumns(schema, t) && id in scope.updates[t].ids
    requires key == id || IdColumn in scope.updates[t].fields
    requires league == scope.leagueId || LeagueColumn in scope.updates[t].fields
    requires Outside(scope, t, Identified(key, league)) && (key != id || league != scope.leagueId)
    ensures
      var db: Database := map[t := map[key := Identified(key, league)]];
      var step := Step(db, schema, triggers, Update(t, key, id, Identified(id, scope.leagueId)));
      RowsFit(db, schema) && step.Some? && !OutsideUntouched(scope, db, step.value)
  {
    hide RowsFit, OutsideUntouched, Fenced, Step, StepTable, Outside, Identified;
    LeakThrough(schema, triggers, scope, t, key, league, id);
    OneRowFits(schema, t, key, league);
    StepRewrites(map[t := map[key := Identified(key, league)]], schema, triggers,
                 Update(t, key, id, Identified(id, scope.leagueId)), map[id := Identified(id, scope.leagueId)]);
    OutsideRowRewritten(scope, t, key, league, id);
  }

  /** A reviewed update that may rewrite an id or a league turns an outside row into a reviewed one. */
  lemma UnpinnedFenceLeaks(schema: Schema, triggers: Triggers, scope: Scope)
    returns (db: Database, write: Action)
    requires Fenced(triggers, schema, scope) && !PinsIdentity(scope, schema)
    ensures RowsFit(db, schema) && Step(db, schema, triggers, write).Some?
    ensures !OutsideUntouched(scope, db, Step(db, schema, triggers, write).value)
  {
    var t, id :| t in scope.updates && HasFenceColumns(schema, t) && id in scope.updates[t].ids
                 && (IdColumn in scope.updates[t].fields || LeagueColumn in scope.updates[t].fields);
    hide RowsFit, OutsideUntouched, Fenced, Step;
    var byId := IdColumn in scope.updates[t].fields;
    var key := if byId then Unreviewed(scope, t) else id;
    var league := if byId then scope.leagueId else scope.leagueId + 1;
    RewriteLeaks(schema, triggers, scope, t, key, league, id);
    db := map[t := map[key := Identified(key, league)]];
    write := Update(t, key, id, Identified(id, scope.leagueId));
  }

  /** The fence confines every sequence of writes exactly when reviewed updates pin the identity of their rows. */
  lemma FenceConfinesExactlyWhenIdentityIsPinned(schema: Schema, triggers: Triggers, scope: Scope)
    requires Fenced(triggers, schema, scope)
    ensures
      (forall db, actions :: RowsFit(db, schema) && Run(db, schema, triggers, actions).Some? ==>
                               OutsideUntouched(scope, db, Run(db, schema, triggers, actions).value))
      <==> PinsIdentity(scope, schema)
  {
    hide RowsFit, OutsideUntouched, Fenced, Step, PinsIdentity;
    if PinsIdentity(scope, schema) {
      forall db, actions | RowsFit(db, schema) && Run(db, schema, triggers, actions).Some?
        ensures OutsideUntouched(scope, db, Run(db, schema, triggers, actions).value)
      {
        FenceConfines(db, schema, triggers, scope, actions);
      }
    } else {
      var db, write := UnpinnedFenceLeaks(schema, triggers, scope);
      var actions := [write];
      assert actions[..|actions| - 1] == [];
      assert Run(db, schema, triggers, actions[..|actions| - 1]) == Some(db);
      assert Run(db, schema, triggers, actions) == Step(db, schema, triggers, write);
      assert !OutsideUntouched(scope, db, Run(db, schema, triggers, actions).value);
    }
  }

  // ---------- installing and removing ----------

  function NamesOf(t: TableName): seq<Trigger> {
    [(t, OnInsert), (t, OnUpdate), (t, OnDelete)]
  }

  /** The triggers for some tables, in the order they are created. */
  function NamesFor(tables: seq<TableName>): seq<Trigger> {
    if tables == [] then [] else NamesFor(tables[..|tables| - 1]) + NamesOf(tables[|tables| - 1])
  }

  /** The connection's triggers once those named have been created. */
  function WithTriggers(live: Triggers, scope: Scope, schema: Schema, names: seq<Trigger>): Triggers {
    if names == [] then live
    else
      var last := names[|names| - 1];
      WithTriggers(live, scope, schema, names[..|names| - 1])[last := PermissionFor(scope, schema, last.0, last.1)]
  }

  lemma {:induction false} WithTriggersContents(live: Triggers, scope: Scope, schema: Schema, names: seq<Trigger>,
                                                n: Trigger)
    ensures
      var after := WithTriggers(live, scope, schema, names);
      && (n in after <==> n in live || n in names)
      && (n in names ==> after[n] == PermissionFor(scope, schema, n.0, n.1))
      && (n in live && n !in names ==> after[n] == live[n])
  {
    hide PermissionFor;
    if names != [] {
      WithTriggersContents(live, scope, schema, names[..|names| - 1], n);
      assert names == names[..|names| - 1] + [names[|names| - 1]];
    }
  }

  lemma {:induction false} WithTriggersAppend(live: Triggers, scope: Scope, schema: Schema, a: seq<Trigger>,
                                              b: seq<Trigger>)
    ensures WithTriggers(WithTriggers(live, scope, schema, a), scope, schema, b)
            == WithTriggers(live, scope, schema, a + b)
  {
    hide PermissionFor;
    if b == [] {
      assert a + b == a;
    } else {
      assert (a + b)[..|a + b| - 1] == a + b[..|b| - 1];
      WithTriggersAppend(live, scope, schema, a, b[..|b| - 1]);
    }
  }

  lemma {:induction false} NamesForMembers(tables: seq<TableName>, n: Trigger)
    ensures n in NamesFor(tables) <==> n.0 in tables
  {
    if tables != [] {
      NamesForMembers(tables[..|tables| - 1], n);
      assert tables == tables[..|tables| - 1] + [tables[|tables| - 1]];
      assert n in NamesOf(n.0) by { match n.1 case OnInsert => case OnUpdate => case OnDelete => }
    }
  }

  lemma EveryNameFenced(live: Triggers, scope: Scope, schema: Schema, tables: seq<TableName>)
    requires forall t :: t in schema ==> t in tables
    ensures Fenced(WithTriggers(live, scope, schema, NamesFor(tables)), schema, scope)
  {
    hide PermissionFor, NamesFor, WithTriggers;
    forall n: Trigger | n.0 in schema
      ensures n in WithTriggers(live, scope, schema, NamesFor(tables))
      ensures WithTriggers(live, scope, schema, NamesFor(tables))[n] == PermissionFor(scope, schema, n.0, n.1)
    {
      NamesForMembers(tables, n);
      WithTriggersContents(live, scope, schema, NamesFor(tables), n);
    }
  }

  /** Creates the triggers of one table one after the other, up to the first refusal. */
  method CreateTriggers(live: Triggers, t: TableName, schema: Schema, scope: Scope, refused: set<Trigger>)
    returns (created: nat, after: Triggers)
    ensures created <= 3 && after == WithTriggers(live, scope, schema, NamesOf(t)[..created])
    ensures forall n :: n in NamesOf(t)[..created] ==> n !in live && n !in refused
    ensures created < 3 ==> NamesOf(t)[created] in live || NamesOf(t)[created] in refused
  {
    hide PermissionFor;
    var kinds := NamesOf(t);
    created, after := 0, live;
    while created < 3
      invariant created <= 3
      invariant after == WithTriggers(live, scope, schema, kinds[..created])
      invariant forall n :: n in kinds[..created] ==> n !in live && n !in refused
    {
      var name := kinds[created];
      assert kinds[..created + 1][..created] == kinds[..created];
      WithTriggersContents(live, scope, schema, kinds[..created], name);
      if name in after || name in refused { return; }
      after := after[name := PermissionFor(scope, schema, name.0, name.1)];
      created := created + 1;
    }
  }

  lemma FreshName(tables: seq<TableName>, i: nat, n: Trigger)
    requires i < |tables| && (forall i, j :: 0 <= i < j < |tables| ==> tables[i] != tables[j])
    requires n in NamesOf(tables[i])
    ensures n !in NamesFor(tables[..i])
  {
    NamesForMembers(tables[..i], n);
  }

  lemma PrefixNames(tables: seq<TableName>, i: nat, n: Trigger)
    requires i < |tables| && n in NamesOf(tables[i])
    ensures n in NamesFor(tables)
  {
    assert n.0 == tables[i] && tables[i] in tables;
    NamesForMembers(tables, n);
  }

  /** What one more table's triggers add to those made so far. */
  lemma TableCreated(live: Triggers, schema: Schema, scope: Scope, refused: set<Trigger>, tables: seq<TableName>,
                     i: nat, created: nat)
    requires i < |tables| && (forall i, j :: 0 <= i < j < |tables| ==> tables[i] != tables[j])
    requires created <= 3
    requires
      var before := WithTriggers(live, scope, schema, NamesFor(tables[..i]));
      && (forall n :: n in NamesOf(tables[i])[..created] ==> n !in before && n !in refused)
      && (created < 3 ==> NamesOf(tables[i])[created] in before || NamesOf(tables[i])[created] in refused)
    ensures forall n :: n in NamesOf(tables[i])[..created] ==> n !in live && n !in refused
    ensures created < 3 ==>
              var n := NamesOf(tables[i])[created];
              n in NamesFor(tables) && (n in live || n in refused)
  {
    hide WithTriggers, NamesFor, PermissionFor;
    forall n | n in NamesOf(tables[i])
      ensures n in NamesFor(tables)
      ensures n in live <==> n in WithTriggers(live, scope, schema, NamesFor(tables[..i]))
    {
      FreshName(tables, i, n);
      PrefixNames(tables, i, n);
      WithTriggersContents(live, scope, schema, NamesFor(tables[..i]), n);
    }
    if created < 3 { assert NamesOf(tables[i])[created] in NamesOf(tables[i]); }
    forall n | n in NamesOf(tables[i])[..created] ensures n in NamesOf(tables[i]) {
    }
  }

  /** Creates the triggers table by table, stopping at the first refusal. */
  method CreateAll(live: Triggers, tables: seq<TableName>, schema: Schema, scope: Scope, refused: set<Trigger>)
    returns (made: seq<Trigger>, after: Triggers, complete: bool)
    requires forall i, j :: 0 <= i < j < |tables| ==> tables[i] != tables[j]
    ensures after == WithTriggers(live, scope, schema, made)
    ensures forall n :: n in made ==> n !in live && n !in refused
    ensures complete ==> made == NamesFor(tables)
    ensures complete <==> forall n :: n in NamesFor(tables) ==> n !in live && n !in refused
  {
    made, after, complete := [], live, true;
    for i := 0 to |tables|
      invariant made == NamesFor(tables[..i])
      invariant after == WithTriggers(live, scope, schema, made)
      invariant forall n :: n in made ==> n !in live && n !in refused
    {
      hide PermissionFor, WithTriggers;
      assert tables[..i + 1][..i] == tables[..i];
      var names := NamesOf(tables[i]);
      ghost var earlier := made;
      var created, next := CreateTriggers(after, tables[i], schema, scope, refused);
      TableCreated(live, schema, scope, refused, tables, i, created);
      WithTriggersAppend(live, scope, schema, made, names[..created]);
      made, after := made + names[..created], next;
      assert forall n :: n in made ==> n in earlier || n in names[..created];
      if created < 3 { return made, after, false; }
      assert names[..3] == names;
    }
    assert tables[..|tables|] == tables;
  }

  function DropAll(live: Triggers, made: seq<Trigger>): Triggers {
    live - set n | n in made
  }

  /** Removing a fence that went up gives back the triggers there were before. */
  lemma RemovingUndoesInstalling(live: Triggers, scope: Scope, schema: Schema, names: seq<Trigger>)
    requires forall n :: n in names ==> n !in live
    ensures DropAll(WithTriggers(live, scope, schema, names), names) == live
  {
  }

  /** The temporary triggers of one connection, and the fence it has up, if any. */
  class Connection {
    var triggers: Triggers
    var names: seq<Trigger>
    var removed: bool

    constructor ()
      ensures triggers == map[] && names == [] && removed
    {
      triggers, names, removed := map[], [], true;
    }

    /**
     * Creates one trigger for each table and kind of write. Creation fails when the name is
     * taken, or when the engine refuses the statement (`refused`); then every trigger made so
     * far is dropped and the connection is as it was.
     */
    method InstallWriteFence(tables: seq<TableName>, schema: Schema, scope: Scope, refused: set<Trigger>)
      returns (installed: bool)
      requires forall i, j :: 0 <= i < j < |tables| ==> tables[i] != tables[j]
      modifies this
      ensures installed <==> forall n :: n in NamesFor(tables) ==> n !in old(triggers) && n !in refused
      ensures !installed ==> triggers == old(triggers) && names == old(names) && removed == old(removed)
      ensures installed ==> !removed && names == NamesFor(tables)
                            && triggers == WithTriggers(old(triggers), scope, schema, names)
      ensures installed && (forall t :: t in schema ==> t in tables) ==> Fenced(triggers, schema, scope)
    {
      var made, live, complete := CreateAll(triggers, tables, schema, scope, refused);
      triggers := live;
      hide PermissionFor, WithTriggers, NamesFor;
      if !complete {
        triggers := DropAll(triggers, made);
        RemovingUndoesInstalling(old(triggers), scope, schema, made);
        return false;
      }
      names, removed := made, false;
      if forall t | t in schema :: t in tables { EveryNameFenced(old(triggers), scope, schema, tables); }
      return true;
    }

    /** Drops the fence once; later calls do nothing. */
    method RemoveFence()
      modifies this
      ensures removed && names == old(names)
      ensures triggers == if old(removed) then old(triggers) else DropAll(old(triggers), names)
    {
      if removed { return; }
      triggers := DropAll(triggers, names);
      removed := true;
    }
  }
}

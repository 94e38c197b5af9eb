/**
 * Tables as the operations see them: rows are column-to-value maps filed under their primary
 * key, which is the id in tables that have one, and every write is one row-level action.
 */
module Store {
  import opened Collections

  /** Status words the operations compare or write, and all the others. */
  datatype Status =
    | Active | Erased | Accepted | Pending | Ended | Cancelled | Current | Future | Eliminated
    | Unused | Forfeited | Scheduled | Frozen | Setup | Planned | Completed | Open | OtherStatus(n: nat)

  datatype Value = Null | Text(id: Id) | Num(n: int) | Word(status: Status) | Blob(bytes: seq<nat>)

  /** The columns the operations name, and all the others. */
  datatype Column =
    | IdColumn | LeagueColumn | SeasonColumn | TeamColumn | ContractColumn | OwnershipColumn
    | StatusColumn | VersionColumn | UpdatedColumn | EndedColumn | RolloverColumn
    | CurrentSeasonColumn | SeasonKeyColumn | EndedByColumn | TradeDeadlineColumn | DateColumn(n: nat)
    | OtherColumn(n: nat)

  datatype TableName =
    | Teams | ManagerAssignments | Contracts | ContractYears | Ownerships | DisplayOrder | DraftPicks | Matchups
    | Evidence(n: nat)
    | Protected(n: nat)
    | OtherTable(n: nat)

  type Row = map<Column, Value>

  type Table = map<Id, Row>

  type Database = map<TableName, Table>

  /** The columns of each table. */
  type Schema = map<TableName, set<Column>>

  function TableOf(db: Database, t: TableName): Table {
    if t in db then db[t] else map[]
  }

  function Cell(row: Row, c: Column): Value {
    if c in row then row[c] else Null
  }

  /** Rows are inserted under a key, updated under their key to another or the same one, or deleted. */
  datatype Action =
    | Insert(table: TableName, key: Id, row: Row)
    | Update(table: TableName, key: Id, newKey: Id, row: Row)
    | Delete(table: TableName, key: Id)

  datatype Kind = OnInsert | OnUpdate | OnDelete
}

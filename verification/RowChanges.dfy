/** How a row differs from what it was: some cells set, its version moved on, the rest as before. */
module RowChanges {
  import opened Store

  /** The row has these cells, a version that many steps further, and every other column as it was. */
  ghost predicate Became(was: Row, now: Row, cells: map<Column, Value>, steps: int) {
    && (forall c :: c in cells ==> Cell(now, c) == cells[c])
    && (Cell(was, VersionColumn).Num? && VersionColumn !in cells ==>
          Cell(now, VersionColumn) == Num(Cell(was, VersionColumn).n + steps))
    && (forall c :: c !in cells && (c != VersionColumn || steps == 0) ==> Cell(now, c) == Cell(was, c))
  }

  lemma OverlaidWithVersion(row: Row, cells: map<Column, Value>, version: Value, steps: int)
    requires VersionColumn !in cells && steps != 0
    requires Cell(row, VersionColumn).Num? ==> version == Num(Cell(row, VersionColumn).n + steps)
    ensures Became(row, row + cells[VersionColumn := version], cells, steps)
  {
  }

  lemma Overlaid(row: Row, cells: map<Column, Value>)
    requires VersionColumn !in cells
    ensures Became(row, row + cells, cells, 0)
  {
  }
}

/** Tables in row order, split between one league and the others, and how single rows are put back into them. */
module LeagueTables {
  import opened Collections
  import opened Store

  type Rows = seq<Row>

  predicate IsMine(row: Row, c: Column, league: Id) {
    Cell(row, c) == Text(league)
  }

  /** The rows of one league, in row order. */
  function Mine(rows: Rows, c: Column, league: Id): Rows {
    if rows == [] then []
    else
      var n := |rows| - 1;
      if IsMine(rows[n], c, league) then Mine(rows[..n], c, league) + [rows[n]] else Mine(rows[..n], c, league)
  }

  /** All other rows, those of no league included. */
  function Others(rows: Rows, c: Column, league: Id): Rows {
    if rows == [] then []
    else
      var n := |rows| - 1;
      if IsMine(rows[n], c, league) then Others(rows[..n], c, league) else Others(rows[..n], c, league) + [rows[n]]
  }

  lemma {:induction false} SplitMembers(rows: Rows, c: Column, league: Id, row: Row)
    ensures row in Mine(rows, c, league) <==> row in rows && IsMine(row, c, league)
    ensures row in Others(rows, c, league) <==> row in rows && !IsMine(row, c, league)
  {
    if rows != [] {
      SplitMembers(rows[..|rows| - 1], c, league, row);
      assert rows == rows[..|rows| - 1] + [rows[|rows| - 1]];
    }
  }

  lemma MineAreMine(rows: Rows, c: Column, league: Id)
    ensures forall row :: row in Mine(rows, c, league) ==> row in rows && IsMine(row, c, league)
  {
  }

  lemma {:induction false} SplitConcat(a: Rows, b: Rows, c: Column, league: Id)
    ensures Mine(a + b, c, league) == Mine(a, c, league) + Mine(b, c, league)
    ensures Others(a + b, c, league) == Others(a, c, league) + Others(b, c, league)
  {
    if b == [] {
      assert a + b == a;
    } else {
      var n := |b| - 1;
      assert (a + b)[..|a + b| - 1] == a + b[..n];
      SplitConcat(a, b[..n], c, league);
    }
  }

  lemma {:induction false} AllMine(rows: Rows, c: Column, league: Id)
    requires forall row :: row in rows ==> IsMine(row, c, league)
    ensures Mine(rows, c, league) == rows && Others(rows, c, league) == []
  {
    if rows != [] {
      AllMine(rows[..|rows| - 1], c, league);
      assert rows == rows[..|rows| - 1] + [rows[|rows| - 1]];
    }
  }

  lemma {:induction false} NoneMine(rows: Rows, c: Column, league: Id)
    requires forall row :: row in rows ==> !IsMine(row, c, league)
    ensures Others(rows, c, league) == rows && Mine(rows, c, league) == []
  {
    if rows != [] {
      NoneMine(rows[..|rows| - 1], c, league);
      assert rows == rows[..|rows| - 1] + [rows[|rows| - 1]];
    }
  }

  // ---------- one statement over a table ----------

  /** A statement drops a row of the league, rewrites it within the league, or leaves it; other rows it leaves. */
  ghost predicate Confined(f: Row -> Option<Row>, c: Column, league: Id) {
    forall row :: if IsMine(row, c, league) then f(row).Some? ==> IsMine(f(row).value, c, league)
                  else f(row) == Some(row)
  }

  lemma SplitLast(rows: Rows, c: Column, league: Id)
    requires rows != []
    ensures
      var n := |rows| - 1;
      var last := [rows[n]];
      && Mine(rows, c, league) == Mine(rows[..n], c, league) + (if IsMine(rows[n], c, league) then last else [])
      && Others(rows, c, league) == Others(rows[..n], c, league) + (if IsMine(rows[n], c, league) then [] else last)
  {
  }

  lemma KeptSplits(row: Row, f: Row -> Option<Row>, c: Column, league: Id)
    requires Confined(f, c, league)
    ensures Mine(Kept(f(row)), c, league) == if IsMine(row, c, league) then Kept(f(row)) else []
    ensures Others(Kept(f(row)), c, league) == if IsMine(row, c, league) then [] else [row]
  {
  }

  lemma CollectSingle(row: Row, f: Row -> Option<Row>)
    ensures Collect([row], f) == Kept(f(row))
  {
  }

  lemma {:induction false} StatementSplits(rows: Rows, f: Row -> Option<Row>, c: Column, league: Id)
    requires Confined(f, c, league)
    ensures Mine(Collect(rows, f), c, league) == Collect(Mine(rows, c, league), f)
    ensures Others(Collect(rows, f), c, league) == Others(rows, c, league)
  {
    if rows != [] {
      var n := |rows| - 1;
      StatementSplits(rows[..n], f, c, league);
      SplitConcat(Collect(rows[..n], f), Kept(f(rows[n])), c, league);
      KeptSplits(rows[n], f, c, league);
      SplitLast(rows, c, league);
      CollectConcat(Mine(rows[..n], c, league), [rows[n]], f);
      CollectSingle(rows[n], f);
      hide Mine, Others, Confined, IsMine, Kept;
    }
  }

  // ---------- putting rows back ----------

  /** The position of the last row with this value in a column. */
  function IndexOf(rows: Rows, c: Column, v: Value): (r: Option<nat>)
    ensures r.Some? ==> r.value < |rows| && Cell(rows[r.value], c) == v
    ensures r.None? <==> forall i :: 0 <= i < |rows| ==> Cell(rows[i], c) != v
  {
    if rows == [] then None
    else if Cell(rows[|rows| - 1], c) == v then Some(|rows| - 1)
    else IndexOf(rows[..|rows| - 1], c, v)
  }

  /** Updates the row that has this row's key, or appends the row. */
  function PutRow(rows: Rows, key: Column, row: Row): Rows {
    match IndexOf(rows, key, Cell(row, key))
    case Some(i) => rows[i := rows[i] + row]
    case None => rows + [row]
  }

  function PutAll(rows: Rows, key: Column, news: Rows): Rows {
    if news == [] then rows
    else PutRow(PutAll(rows, key, news[..|news| - 1]), key, news[|news| - 1])
  }

  /** Inserts rows one by one; None when a key is taken. Rows without the key column have no such key. */
  function InsertAll(rows: Rows, key: Column, news: Rows): Option<Rows> {
    if news == [] then Some(rows)
    else
      var n := |news| - 1;
      match InsertAll(rows, key, news[..n])
      case None => None
      case Some(r) =>
        if Cell(news[n], key) != Null && IndexOf(r, key, Cell(news[n], key)).Some? then None else Some(r + [news[n]])
  }

  lemma {:induction false} InsertAllPersists(rows: Rows, key: Column, news: Rows, i: nat)
    requires i <= |news| && InsertAll(rows, key, news[..i]).None?
    ensures InsertAll(rows, key, news).None?
    decreases |news|
  {
    if i == |news| {
      assert news[..i] == news;
    } else {
      assert news[..|news| - 1][..i] == news[..i];
      InsertAllPersists(rows, key, news[..|news| - 1], i);
    }
  }

  /** No key is used twice. */
  ghost predicate Unique(rows: Rows, key: Column) {
    forall i, j :: 0 <= i < j < |rows| && Cell(rows[i], key) == Cell(rows[j], key) ==> Cell(rows[i], key) == Null
  }

  /** No row has the key of one of the others. */
  ghost predicate NoKeyOf(rows: Rows, news: Rows, key: Column) {
    forall i, j :: 0 <= i < |rows| && 0 <= j < |news| && Cell(rows[i], key) == Cell(news[j], key) ==>
                     Cell(news[j], key) == Null
  }

  /** Rows with keys of their own all go in, in order. */
  lemma {:induction false} InsertAllAppends(rows: Rows, key: Column, news: Rows)
    requires Unique(news, key) && NoKeyOf(rows, news, key)
    ensures InsertAll(rows, key, news) == Some(rows + news)
  {
    if news == [] {
      assert rows + news == rows;
    } else {
      var n := |news| - 1;
      InsertAllAppends(rows, key, news[..n]);
      assert rows + news == rows + news[..n] + [news[n]];
    }
  }

  lemma PutRowKeepsKeys(rows: Rows, key: Column, row: Row)
    requires Unique(rows, key) && Cell(row, key) != Null
    ensures Unique(PutRow(rows, key, row), key)
  {
  }

  lemma MineLacksKey(rows: Rows, key: Column, row: Row, c: Column, league: Id)
    requires IndexOf(rows, key, Cell(row, key)).None?
    ensures IndexOf(Mine(rows, c, league), key, Cell(row, key)).None?
  {
  }

  lemma AppendedRowSplits(rows: Rows, key: Column, row: Row, c: Column, league: Id)
    requires IsMine(row, c, league) && IndexOf(rows, key, Cell(row, key)).None?
    ensures Mine(PutRow(rows, key, row), c, league) == PutRow(Mine(rows, c, league), key, row)
    ensures Others(PutRow(rows, key, row), c, league) == Others(rows, c, league)
  {
    SplitConcat(rows, [row], c, league);
    AllMine([row], c, league);
    MineLacksKey(rows, key, row, c, league);
  }

  lemma UpdatedInTheMiddle(before: Rows, was: Row, now: Row, rest: Rows)
    ensures (before + [was] + rest)[|before|] == was
    ensures (before + [was] + rest)[|before| := now] == before + [now] + rest
  {
  }

  /** A table split around one of its league's rows. */
  lemma SplitAround(rows: Rows, i: nat, row: Row, c: Column, league: Id)
    requires i < |rows| && rows[i] == row && IsMine(row, c, league)
    ensures Mine(rows, c, league) == Mine(rows[..i], c, league) + [row] + Mine(rows[i + 1..], c, league)
    ensures Others(rows, c, league) == Others(rows[..i], c, league) + Others(rows[i + 1..], c, league)
  {
    assert rows == rows[..i] + [row] + rows[i + 1..];
    SplitConcat(rows[..i], [row], c, league);
    SplitConcat(rows[..i] + [row], rows[i + 1..], c, league);
    AllMine([row], c, league);
  }

  lemma MineHasKey(rows: Rows, i: nat, key: Column, row: Row, c: Column, league: Id)
    requires Unique(rows, key) && i < |rows| && Cell(rows[i], key) == Cell(row, key) != Null
    requires IsMine(rows[i], c, league)
    ensures IndexOf(Mine(rows, c, league), key, Cell(row, key)) == Some(|Mine(rows[..i], c, league)|)
  {
    var mine, at := Mine(rows, c, league), |Mine(rows[..i], c, league)|;
    SplitAround(rows, i, rows[i], c, league);
    assert mine[at] == rows[i];
    forall j | 0 <= j < |mine| && j != at ensures Cell(mine[j], key) != Cell(row, key) {
      var part := if j < at then rows[..i] else rows[i + 1..];
      assert mine[j] in Mine(part, c, league);
      SplitMembers(part, c, league, mine[j]);
    }
  }

  lemma UpdatedRowSplits(rows: Rows, i: nat, key: Column, row: Row, c: Column, league: Id)
    requires Unique(rows, key) && Cell(row, key) != Null && IsMine(row, c, league)
    requires IndexOf(rows, key, Cell(row, key)) == Some(i) && IsMine(rows[i], c, league)
    ensures Mine(PutRow(rows, key, row), c, league) == PutRow(Mine(rows, c, league), key, row)
    ensures Others(PutRow(rows, key, row), c, league) == Others(rows, c, league)
  {
    hide Mine, Others;
    var merged := rows[i] + row;
    var after := rows[i := merged];
    assert PutRow(rows, key, row) == after;
    assert IsMine(merged, c, league);
    MineHasKey(rows, i, key, row, c, league);
    var before, rest := Mine(rows[..i], c, league), Mine(rows[i + 1..], c, league);
    hide Unique, IsMine, Cell, IndexOf;
    SplitAround(rows, i, rows[i], c, league);
    SplitAround(after, i, merged, c, league);
    assert after[..i] == rows[..i] && after[i + 1..] == rows[i + 1..];
    UpdatedInTheMiddle(before, rows[i], merged, rest);
  }

  /** Putting back a row of the league never reaches the other rows, as long as they do not hold its key. */
  lemma PutRowSplits(rows: Rows, key: Column, row: Row, c: Column, league: Id)
    requires Unique(rows, key) && Cell(row, key) != Null && IsMine(row, c, league)
    requires forall r :: r in Others(rows, c, league) ==> Cell(r, key) != Cell(row, key)
    ensures Mine(PutRow(rows, key, row), c, league) == PutRow(Mine(rows, c, league), key, row)
    ensures Others(PutRow(rows, key, row), c, league) == Others(rows, c, league)
    ensures Unique(PutRow(rows, key, row), key)
  {
    PutRowKeepsKeys(rows, key, row);
    match IndexOf(rows, key, Cell(row, key)) {
      case None => AppendedRowSplits(rows, key, row, c, league);
      case Some(i) =>
        SplitMembers(rows, c, league, rows[i]);
        UpdatedRowSplits(rows, i, key, row, c, league);
    }
  }

  /** Rows of one league, each with a key that no other league's row holds. */
  ghost predicate Restorable(rows: Rows, key: Column, news: Rows, c: Column, league: Id) {
    && Unique(rows, key)
    && (forall row :: row in news ==> Cell(row, key) != Null && IsMine(row, c, league))
    && NoKeyOf(Others(rows, c, league), news, key)
  }

  lemma RestorableRows(rows: Rows, key: Column, news: Rows, c: Column, league: Id, n: nat)
    requires Restorable(rows, key, news, c, league) && n < |news|
    ensures Restorable(rows, key, news[..n], c, league)
    ensures Cell(news[n], key) != Null && IsMine(news[n], c, league) && Unique(rows, key)
    ensures forall r :: r in Others(rows, c, league) ==> Cell(r, key) != Cell(news[n], key)
  {
  }

  lemma PutStep(rows: Rows, key: Column, news: Rows, n: nat)
    requires n < |news|
    ensures PutAll(rows, key, news[..n + 1]) == PutRow(PutAll(rows, key, news[..n]), key, news[n])
  {
    assert news[..n + 1][..n] == news[..n];
  }

  /** Putting back all rows of a league works on its own rows and leaves the others alone. */
  lemma {:induction false} PutAllSplits(rows: Rows, key: Column, news: Rows, c: Column, league: Id)
    requires Restorable(rows, key, news, c, league)
    ensures Mine(PutAll(rows, key, news), c, league) == PutAll(Mine(rows, c, league), key, news)
    ensures Others(PutAll(rows, key, news), c, league) == Others(rows, c, league)
    ensures Unique(PutAll(rows, key, news), key)
  {
    if news != [] {
      var n := |news| - 1;
      RestorableRows(rows, key, news, c, league, n);
      hide Restorable, Mine, Others, Unique, PutRow;
      PutAllSplits(rows, key, news[..n], c, league);
      PutRowSplits(PutAll(rows, key, news[..n]), key, news[n], c, league);
    }
  }

  predicate SameKeys(rows: Rows, news: Rows, key: Column) {
    |rows| == |news| && forall i | 0 <= i < |rows| :: Cell(rows[i], key) == Cell(news[i], key)
  }

  /** Rows with keys, no key twice. */
  ghost predicate Keyed(rows: Rows, key: Column) {
    Unique(rows, key) && forall j :: 0 <= j < |rows| ==> Cell(rows[j], key) != Null
  }

  lemma OnlyOne(rows: Rows, key: Column, n: nat, row: Row)
    requires n < |rows| && Cell(rows[n], key) == Cell(row, key) && rows[n].Keys <= row.Keys
    requires forall j :: 0 <= j < |rows| && j != n ==> Cell(rows[j], key) != Cell(row, key)
    ensures PutRow(rows, key, row) == rows[n := row]
  {
    assert rows[n] + row == row;
  }

  lemma NotThere(rows: Rows, key: Column, row: Row)
    requires forall j :: 0 <= j < |rows| ==> Cell(rows[j], key) != Cell(row, key)
    ensures PutRow(rows, key, row) == rows + [row]
  {
  }

  /** The first elements replaced, the rest as they were. */
  function InPlace<T>(rows: seq<T>, news: seq<T>, n: nat): seq<T>
    requires n <= |rows| == |news|
  {
    seq(|rows|, j requires 0 <= j < |rows| => if j < n then news[j] else rows[j])
  }

  lemma InPlaceStep(rows: Rows, key: Column, news: Rows, n: nat)
    requires n < |news| && SameKeys(rows, news, key) && Keyed(news, key) && rows[n].Keys <= news[n].Keys
    ensures PutRow(InPlace(rows, news, n), key, news[n]) == InPlace(rows, news, n + 1)
  {
    hide PutRow, Cell;
    OnlyOne(InPlace(rows, news, n), key, n, news[n]);
  }

  /** Rows that are all still there, in the same order, are replaced where they stand. */
  lemma {:induction false} PutAllInPlace(rows: Rows, key: Column, news: Rows, i: nat)
    requires i <= |news| && SameKeys(rows, news, key) && Keyed(news, key)
    requires forall j :: 0 <= j < |news| ==> rows[j].Keys <= news[j].Keys
    ensures PutAll(rows, key, news[..i]) == InPlace(rows, news, i)
  {
    if i > 0 {
      PutAllInPlace(rows, key, news, i - 1);
      PutStep(rows, key, news, i - 1);
      InPlaceStep(rows, key, news, i - 1);
    } else {
      assert InPlace(rows, news, 0) == rows;
    }
  }

  /** The first `n` elements behind the kept one, which is replaced when its turn comes. */
  function Around<T>(kept: T, news: seq<T>, p: nat, n: nat): seq<T>
    requires p < |news| && n <= |news|
  {
    seq(if n <= p then n + 1 else n, j requires 0 <= j < if n <= p then n + 1 else n =>
      if j == 0 then (if n <= p then kept else news[p]) else if j <= p then news[j - 1] else news[j])
  }

  lemma AroundNothing<T>(kept: T, news: seq<T>, p: nat)
    requires p < |news|
    ensures news[..0] == [] && Around(kept, news, p, 0) == [kept]
  {
  }

  lemma AroundNext<T>(kept: T, news: seq<T>, p: nat, n: nat)
    requires p < |news| && n < |news|
    ensures n == p ==> Around(kept, news, p, n)[0 := news[p]] == Around(kept, news, p, n + 1)
    ensures n != p ==> Around(kept, news, p, n) + [news[n]] == Around(kept, news, p, n + 1)
    ensures |Around(kept, news, p, n)| > 0
    ensures Around(kept, news, p, n)[0] == if n <= p then kept else news[p]
    ensures forall j :: 0 < j < |Around(kept, news, p, n)| ==>
                          var k := if j <= p then j - 1 else j;
                          0 <= k < n && k != p && Around(kept, news, p, n)[j] == news[k]
  {
  }

  lemma AroundStep(kept: Row, key: Column, news: Rows, p: nat, n: nat)
    requires p < |news| && n < |news| && Keyed(news, key)
    requires Cell(kept, key) == Cell(news[p], key) && kept.Keys <= news[p].Keys
    ensures PutRow(Around(kept, news, p, n), key, news[n]) == Around(kept, news, p, n + 1)
  {
    AroundNext(kept, news, p, n);
    hide PutRow, Cell, Around;
    var so := Around(kept, news, p, n);
    forall j | 0 <= j < |so| && !(j == 0 && n == p) ensures Cell(so[j], key) != Cell(news[n], key) {
    }
    if n == p { OnlyOne(so, key, 0, news[p]); } else { NotThere(so, key, news[n]); }
  }

  /** When only one of the rows is still there, the others are appended behind it. */
  lemma {:induction false} PutAllAround(kept: Row, key: Column, news: Rows, p: nat, i: nat)
    requires p < |news| && i <= |news| && Keyed(news, key)
    requires Cell(kept, key) == Cell(news[p], key) && kept.Keys <= news[p].Keys
    ensures PutAll([kept], key, news[..i]) == Around(kept, news, p, i)
  {
    hide PutRow, Keyed, Cell, Around;
    if i == 0 {
      AroundNothing(kept, news, p);
    } else {
      PutAllAround(kept, key, news, p, i - 1);
      PutStep([kept], key, news, i - 1);
      AroundStep(kept, key, news, p, i - 1);
    }
  }

  lemma MovedToFront<T>(kept: T, s: seq<T>, p: nat)
    requires p < |s|
    ensures p == 0 ==> Around(kept, s, p, |s|) == s
    ensures Around(kept, s, p, |s|) == s ==> s[p] == s[0]
    ensures multiset(Around(kept, s, p, |s|)) == multiset(s)
  {
    assert s == s[..p] + [s[p]] + s[p + 1..];
    assert Around(kept, s, p, |s|) == [s[p]] + s[..p] + s[p + 1..];
  }

  /** That gives the old order back exactly when the kept row was the first. */
  lemma AroundKeepsOrderExactly(kept: Row, key: Column, news: Rows, p: nat)
    requires p < |news| && Keyed(news, key)
    ensures Around(kept, news, p, |news|) == news <==> p == 0
    ensures multiset(Around(kept, news, p, |news|)) == multiset(news)
  {
    MovedToFront(kept, news, p);
  }

  // ---------- keys through splits and statements ----------

  lemma UniqueAppend(rows: Rows, row: Row, key: Column)
    ensures Unique(rows + [row], key) <==>
              Unique(rows, key)
              && forall r :: r in rows ==> Cell(r, key) != Cell(row, key) || Cell(row, key) == Null
  {
    var more := rows + [row];
    if Unique(more, key) {
      assert forall i :: 0 <= i < |rows| ==> more[i] == rows[i];
      assert more[|rows|] == row;
    }
  }

  /** The rows of a league and the other rows of a table with unique keys have unique keys, all different. */
  lemma {:induction false} SplitUnique(rows: Rows, key: Column, c: Column, league: Id)
    requires Unique(rows, key)
    ensures Unique(Mine(rows, c, league), key) && Unique(Others(rows, c, league), key)
    ensures NoKeyOf(Others(rows, c, league), Mine(rows, c, league), key)
  {
    if rows != [] {
      var n := |rows| - 1;
      var mine, others := Mine(rows[..n], c, league), Others(rows[..n], c, league);
      SplitUnique(rows[..n], key, c, league);
      assert rows == rows[..n] + [rows[n]];
      UniqueAppend(rows[..n], rows[n], key);
      forall r | r in mine || r in others ensures r in rows[..n] {
        SplitMembers(rows[..n], c, league, r);
      }
      UniqueAppend(mine, rows[n], key);
      UniqueAppend(others, rows[n], key);
    }
  }

  /** A statement that keeps every row and its key. */
  lemma {:induction false} StatementKeepsKeys(rows: Rows, f: Row -> Option<Row>, key: Column)
    requires forall row :: row in rows ==>
                             f(row).Some? && Cell(f(row).value, key) == Cell(row, key) && f(row).value.Keys <= row.Keys
    ensures SameKeys(Collect(rows, f), rows, key)
    ensures forall j :: 0 <= j < |rows| ==> Collect(rows, f)[j].Keys <= rows[j].Keys
  {
    if rows != [] {
      StatementKeepsKeys(rows[..|rows| - 1], f, key);
    }
  }

  /** A statement that keeps keys or drops rows leaves keys unique. */
  lemma {:induction false} StatementKeepsUnique(rows: Rows, f: Row -> Option<Row>, key: Column)
    requires Unique(rows, key)
    requires forall row :: row in rows ==> f(row).Some? ==> Cell(f(row).value, key) == Cell(row, key)
    ensures Unique(Collect(rows, f), key)
    ensures forall r :: r in Collect(rows, f) ==> exists row :: row in rows && Cell(row, key) == Cell(r, key)
  {
    if rows != [] {
      var n := |rows| - 1;
      assert rows == rows[..n] + [rows[n]];
      UniqueAppend(rows[..n], rows[n], key);
      StatementKeepsUnique(rows[..n], f, key);
      if f(rows[n]).Some? {
        UniqueAppend(Collect(rows[..n], f), f(rows[n]).value, key);
      }
    }
  }

  /** A statement that keeps only the row with one key. */
  lemma {:induction false} StatementKeepsOne(rows: Rows, f: Row -> Option<Row>, p: nat, i: nat)
    requires p < |rows| && i <= |rows|
    requires forall j :: 0 <= j < |rows| ==> f(rows[j]) == if j == p then Some(rows[p]) else None
    ensures Collect(rows[..i], f) == if i <= p then [] else [rows[p]]
  {
    if i > 0 {
      StatementKeepsOne(rows, f, p, i - 1);
      CollectStep(rows, i - 1, f);
    }
  }

  lemma {:induction false} SplitMultiset(rows: Rows, c: Column, league: Id)
    ensures multiset(rows) == multiset(Mine(rows, c, league)) + multiset(Others(rows, c, league))
  {
    if rows != [] {
      SplitMultiset(rows[..|rows| - 1], c, league);
      assert rows == rows[..|rows| - 1] + [rows[|rows| - 1]];
    }
  }
}

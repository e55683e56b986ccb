/** The table model behind the plain-text import preview: row and column
    counts, loading rows in batches of ten, the horizontal header, and
    sorting the rows by one of four view columns. */
module TableModel {
  import opened Results

  /** A cell of an imported row: text, or a number (`int` and `float`
      compare as numbers in Python and are one kind here). */
  datatype Cell = Text(s: string) | Num(x: real)

  type Row = seq<Cell>

  /** `_data`, `_header` and `_rows_loaded`. */
  datatype Model = Model(data: seq<Row>, header: map<int, Cell>, rowsLoaded: int)

  const RowBatchCount := 10

  /** A new model: no rows, no header, one batch counted as loaded. */
  const Initial := Model([], map[], RowBatchCount)

  /** `set_data`: the rows are replaced; the loaded count is kept. */
  function SetData(m: Model, rows: seq<Row>): (r: Model)
    ensures r.data == rows && r.header == m.header && r.rowsLoaded == m.rowsLoaded
  {
    m.(data := rows)
  }

  function RowCount(m: Model): nat {
    |m.data|
  }

  function ColumnCount(m: Model): nat {
    |m.header|
  }

  predicate CanFetchMore(m: Model) {
    |m.data| > m.rowsLoaded
  }

  function Min(a: int, b: int): int {
    if a <= b then a else b
  }

  /** After `set_data` on a new model, the row count is the number of rows,
      the column count stays the (empty) header's, and more can be fetched
      exactly when there are more rows than the first batch. */
  lemma CountsAfterSetData(rows: seq<Row>)
    ensures RowCount(SetData(Initial, rows)) == |rows|
    ensures ColumnCount(SetData(Initial, rows)) == 0
    ensures CanFetchMore(SetData(Initial, rows)) <==> |rows| > RowBatchCount
  {
  }

  /** The number of rows one `fetchMore` adds to the loaded count. */
  function FetchCount(m: Model): int {
    Min(|m.data| - m.rowsLoaded, RowBatchCount)
  }

  /** `fetchMore`: the loaded count moves on by a batch, or by what is
      left when less than a batch is left. */
  function FetchMore(m: Model): (r: Model)
    ensures r.data == m.data && r.header == m.header
    ensures r.rowsLoaded == Min(|m.data|, m.rowsLoaded + RowBatchCount)
  {
    m.(rowsLoaded := m.rowsLoaded + FetchCount(m))
  }

  /** While more can be fetched, a fetch loads between one and ten rows and
      never counts more rows than there are. */
  lemma FetchMoreBounds(m: Model)
    requires CanFetchMore(m)
    ensures m.rowsLoaded < FetchMore(m).rowsLoaded <= m.rowsLoaded + RowBatchCount
    ensures FetchMore(m).rowsLoaded <= RowCount(m)
    ensures FetchMore(m).rowsLoaded < RowCount(m) ==> FetchMore(m).rowsLoaded == m.rowsLoaded + RowBatchCount
  {
  }

  /** Fetching while more can be fetched, as a view does: it stops with
      every row loaded, or at once when no more could be fetched, after
      one call per started batch of the rows left. */
  method FetchAll(m: Model) returns (r: Model, calls: nat)
    ensures !CanFetchMore(r)
    ensures r.data == m.data && r.header == m.header
    ensures r.rowsLoaded == if CanFetchMore(m) then |m.data| else m.rowsLoaded
    ensures calls == if CanFetchMore(m) then (|m.data| - m.rowsLoaded + RowBatchCount - 1) / RowBatchCount else 0
  {
    r := m;
    calls := 0;
    while CanFetchMore(r)
      invariant r.data == m.data && r.header == m.header
      invariant m.rowsLoaded <= r.rowsLoaded
      invariant CanFetchMore(m) ==> r.rowsLoaded <= |m.data|
      invariant !CanFetchMore(m) ==> r == m && calls == 0
      invariant calls * RowBatchCount == r.rowsLoaded - m.rowsLoaded || (!CanFetchMore(r) && r.rowsLoaded == |m.data|)
      invariant CanFetchMore(m) && !CanFetchMore(r) ==>
        calls == (|m.data| - m.rowsLoaded + RowBatchCount - 1) / RowBatchCount
      decreases |r.data| - r.rowsLoaded
    {
      var before := r.rowsLoaded;
      r := FetchMore(r);
      calls := calls + 1;
      if !CanFetchMore(r) {
        FetchCallsCount(|m.data| - m.rowsLoaded, before - m.rowsLoaded, calls);
      }
    }
  }

  /** The call count when the last, possibly partial, batch is fetched:
      `calls - 1` full batches left fewer than a batch, at least one row. */
  lemma FetchCallsCount(left: int, done: int, calls: nat)
    requires calls >= 1 && done == (calls - 1) * RowBatchCount
    requires done < left <= done + RowBatchCount
    ensures calls == (left + RowBatchCount - 1) / RowBatchCount
  {
    var q := (left + RowBatchCount - 1) / RowBatchCount;
    assert (calls - 1) * RowBatchCount + RowBatchCount <= left + RowBatchCount - 1 < (calls + 1) * RowBatchCount;
    assert q * RowBatchCount <= left + RowBatchCount - 1 < (q + 1) * RowBatchCount;
  }

  // ---------------------------------------------------------------------
  // The header

  datatype Orientation = Horizontal | Vertical

  /** `Qt.DisplayRole` */
  const DisplayRole := 0

  /** `setHeaderData`: only a horizontal, display-role call for a section
      below the number of header entries changes the header. */
  function SetHeaderData(m: Model, section: int, orientation: Orientation, value: Cell, role: int): (r: (Model, bool))
    ensures r.1 <==> orientation == Horizontal && role == DisplayRole && 0 <= section < |m.header|
    ensures !r.1 ==> r.0 == m
    ensures r.0.data == m.data && r.0.rowsLoaded == m.rowsLoaded
    ensures r.1 ==> section in r.0.header && r.0.header[section] == value
    ensures forall k :: k != section ==> (k in r.0.header <==> k in m.header)
    ensures forall k :: k != section && k in m.header ==> r.0.header[k] == m.header[k]
  {
    if orientation == Horizontal && role == DisplayRole && 0 <= section < |m.header| then
      (m.(header := m.header[section := value]), true)
    else (m, false)
  }

  /** What `headerData` answers: the entry for a horizontal display-role
      question, nothing for any other, and a `KeyError` for a missing
      section. */
  datatype HeaderAnswer = Entry(value: Cell) | NoEntry | KeyError

  function HeaderData(m: Model, col: int, orientation: Orientation, role: int): (r: HeaderAnswer)
    ensures r.Entry? ==> col in m.header && m.header[col] == r.value
  {
    if orientation == Horizontal && role == DisplayRole then
      if col in m.header then Entry(m.header[col]) else KeyError
    else NoEntry
  }

  /** A header entry that was set is read back. */
  lemma HeaderDataOfSet(m: Model, section: int, value: Cell)
    requires SetHeaderData(m, section, Horizontal, value, DisplayRole).1
    ensures HeaderData(SetHeaderData(m, section, Horizontal, value, DisplayRole).0, section, Horizontal, DisplayRole) == Entry(value)
    ensures ColumnCount(SetHeaderData(m, section, Horizontal, value, DisplayRole).0) >= ColumnCount(m)
  {
  }

  /** The header of a new model has no entries, so `setHeaderData` turns
      every call down until something else fills the header. */
  lemma NoHeaderFromStart(section: int, orientation: Orientation, value: Cell, role: int)
    ensures ColumnCount(Initial) == 0
    ensures SetHeaderData(Initial, section, orientation, value, role) == (Initial, false)
  {
  }

  // ---------------------------------------------------------------------
  // Sorting

  /** The data column shown in view column `column`. */
  function DataColumn(column: int): Option<nat> {
    if column == 0 then Some(1)
    else if column == 1 then Some(3)
    else if column == 2 then Some(5)
    else if column == 3 then Some(7)
    else None
  }

  lemma DataColumnSpec(column: int)
    ensures DataColumn(column).Some? <==> 0 <= column < 4
    ensures DataColumn(column).Some? ==> DataColumn(column).value == 2 * column + 1
  {
  }

  /** `a < b` on strings: the first differing character decides, and a
      proper prefix comes first. */
  predicate LexLess(a: string, b: string)
    decreases |a|
  {
    |b| > 0 && (|a| == 0 || a[0] < b[0] || (a[0] == b[0] && LexLess(a[1..], b[1..])))
  }

  /** `a < b` on two keys; text and numbers are never ordered (Python
      raises `TypeError` instead). */
  predicate Less(a: Cell, b: Cell) {
    match (a, b)
    case (Num(x), Num(y)) => x < y
    case (Text(s), Text(t)) => LexLess(s, t)
    case _ => false
  }

  lemma {:induction false} LexLessIrreflexive(a: string)
    ensures !LexLess(a, a)
    decreases |a|
  {
    if |a| > 0 {
      LexLessIrreflexive(a[1..]);
    }
  }

  lemma {:induction false} LexLessTransitive(a: string, b: string, c: string)
    requires LexLess(a, b) && LexLess(b, c)
    ensures LexLess(a, c)
    decreases |a|
  {
    if |a| > 0 && a[0] == b[0] && b[0] == c[0] {
      LexLessTransitive(a[1..], b[1..], c[1..]);
    }
  }

  lemma {:induction false} LexLessTotal(a: string, b: string)
    ensures a == b || LexLess(a, b) || LexLess(b, a)
    decreases |a|
  {
    if |a| > 0 && |b| > 0 && a[0] == b[0] {
      LexLessTotal(a[1..], b[1..]);
      if a[1..] == b[1..] {
        assert a == [a[0]] + a[1..] && b == [b[0]] + b[1..];
      }
    }
  }

  /** On keys of one kind, `Less` is a strict total order. */
  lemma LessOrder(a: Cell, b: Cell, c: Cell)
    ensures !Less(a, a)
    ensures Less(a, b) && Less(b, c) ==> Less(a, c)
    ensures a.Num? == b.Num? ==> a == b || Less(a, b) || Less(b, a)
  {
    if a.Text? {
      LexLessIrreflexive(a.s);
    }
    if a.Text? && b.Text? {
      LexLessTotal(a.s, b.s);
      if c.Text? && Less(a, b) && Less(b, c) {
        LexLessTransitive(a.s, b.s, c.s);
      }
    }
  }

  /** The key `sort` reads from a row: the cell in column `col`. Rows
      without that column never reach the sort, so the value given for
      them is arbitrary. */
  function Key(row: Row, col: nat): Cell {
    if col < |row| then row[col] else Num(0.0)
  }

  /** Row `a` goes strictly before row `b`: by the key in column `col`,
      reversed when sorting in descending order. */
  predicate Before(a: Row, b: Row, col: nat, descending: bool) {
    if descending then Less(Key(b, col), Key(a, col)) else Less(Key(a, col), Key(b, col))
  }

  /** `Before` inherits the strict order of `Less` on keys of one kind. */
  lemma BeforeOrder(a: Row, b: Row, c: Row, col: nat, descending: bool)
    ensures !Before(a, a, col, descending)
    ensures Before(a, b, col, descending) && Before(b, c, col, descending) ==> Before(a, c, col, descending)
    ensures SameKind(a, b, col) && !Before(a, b, col, descending) ==> Key(a, col) == Key(b, col) || Before(b, a, col, descending)
  {
    LessOrder(Key(a, col), Key(b, col), Key(c, col));
    LessOrder(Key(c, col), Key(b, col), Key(a, col));
  }

  predicate SameKind(a: Row, b: Row, col: nat) {
    Key(a, col).Num? == Key(b, col).Num?
  }

  /** Every row has column `col`, and its keys are all text or all
      numbers. */
  predicate Sortable(rows: seq<Row>, col: nat) {
    && (forall i :: 0 <= i < |rows| ==> col < |rows[i]|)
    && (forall i, j :: 0 <= i < |rows| && 0 <= j < |rows| ==> SameKind(rows[i], rows[j], col))
  }

  /** No row goes before an earlier one. */
  predicate Ordered(rows: seq<Row>, col: nat, descending: bool) {
    forall i, j :: 0 <= i < j < |rows| ==> !Before(rows[j], rows[i], col, descending)
  }

  /** Inserts `x` after every row it does not go before. */
  function InsertRow(sorted: seq<Row>, x: Row, col: nat, descending: bool): (r: seq<Row>)
    ensures multiset(r) == multiset(sorted) + multiset{x}
    decreases |sorted|
  {
    if |sorted| == 0 then [x]
    else if Before(x, sorted[0], col, descending) then [x] + sorted
    else
      assert sorted == [sorted[0]] + sorted[1..];
      [sorted[0]] + InsertRow(sorted[1..], x, col, descending)
  }

  /** The rows sorted by column `col` (an insertion sort; Python's sort is
      a merge sort, and only its result is modelled). */
  function SortRows(rows: seq<Row>, col: nat, descending: bool): (r: seq<Row>)
    ensures multiset(r) == multiset(rows)
    decreases |rows|
  {
    if |rows| == 0 then []
    else
      var n := |rows| - 1;
      assert rows == rows[..n] + [rows[n]];
      InsertRow(SortRows(rows[..n], col, descending), rows[n], col, descending)
  }

  /** A row of the sequence is at some position of it. */
  lemma MemberAt(rows: seq<Row>, y: Row) returns (k: nat)
    requires y in multiset(rows)
    ensures k < |rows| && rows[k] == y
  {
    k :| 0 <= k < |rows| && rows[k] == y;
  }

  /** `x` goes before the first row, and so before none of the later. */
  lemma InsertFrontOrdered(sorted: seq<Row>, x: Row, col: nat, descending: bool)
    requires |sorted| > 0 && Before(x, sorted[0], col, descending)
    requires Ordered(sorted, col, descending)
    ensures Ordered([x] + sorted, col, descending)
  {
    var r := [x] + sorted;
    forall i, j | 0 <= i < j < |r|
      ensures !Before(r[j], r[i], col, descending)
    {
      if i == 0 {
        BeforeOrder(sorted[j - 1], x, sorted[0], col, descending);
        BeforeOrder(x, x, x, col, descending);
        if j - 1 > 0 {
          assert !Before(sorted[j - 1], sorted[0], col, descending);
        }
      }
    }
  }

  /** The first row stays first when `x` does not go before it. */
  lemma InsertAfterOrdered(s0: Row, rest: seq<Row>, tail: seq<Row>, x: Row, col: nat, descending: bool)
    requires multiset(rest) == multiset(tail) + multiset{x}
    requires !Before(x, s0, col, descending)
    requires SameKind(x, s0, col)
    requires Ordered(rest, col, descending)
    requires forall k :: 0 <= k < |tail| ==> !Before(tail[k], s0, col, descending)
    ensures Ordered([s0] + rest, col, descending)
  {
    var r := [s0] + rest;
    forall i, j | 0 <= i < j < |r|
      ensures !Before(r[j], r[i], col, descending)
    {
      if i == 0 {
        var y := rest[j - 1];
        assert y in multiset(rest);
        if y != x {
          var k := MemberAt(tail, y);
        } else {
          BeforeOrder(x, s0, x, col, descending);
        }
      }
    }
  }

  lemma {:induction false} InsertRowOrdered(sorted: seq<Row>, x: Row, col: nat, descending: bool)
    requires Ordered(sorted, col, descending)
    requires forall i :: 0 <= i < |sorted| ==> SameKind(sorted[i], x, col)
    ensures Ordered(InsertRow(sorted, x, col, descending), col, descending)
    decreases |sorted|
  {
    if |sorted| == 0 {
    } else if Before(x, sorted[0], col, descending) {
      InsertFrontOrdered(sorted, x, col, descending);
    } else {
      var tail := sorted[1..];
      InsertRowOrdered(tail, x, col, descending);
      InsertAfterOrdered(sorted[0], InsertRow(tail, x, col, descending), tail, x, col, descending);
    }
  }

  /** The sorted rows are in order: no row goes before an earlier one. */
  lemma {:induction false} SortRowsOrdered(rows: seq<Row>, col: nat, descending: bool)
    requires forall i, j :: 0 <= i < |rows| && 0 <= j < |rows| ==> SameKind(rows[i], rows[j], col)
    ensures Ordered(SortRows(rows, col, descending), col, descending)
    decreases |rows|
  {
    if |rows| > 0 {
      var n := |rows| - 1;
      var front := rows[..n];
      assert forall i :: 0 <= i < n ==> front[i] == rows[i];
      SortRowsOrdered(front, col, descending);
      var sorted: seq<Row> := SortRows(front, col, descending);
      PermutationSameKind(front, sorted, rows[n], col);
      InsertRowOrdered(sorted, rows[n], col, descending);
    }
  }

  /** A permutation of rows whose keys have the kind of `x`'s has only
      such keys. */
  lemma PermutationSameKind(rows: seq<Row>, perm: seq<Row>, x: Row, col: nat)
    requires multiset(perm) == multiset(rows)
    requires forall i :: 0 <= i < |rows| ==> SameKind(rows[i], x, col)
    ensures forall i :: 0 <= i < |perm| ==> SameKind(perm[i], x, col)
  {
    forall i | 0 <= i < |perm|
      ensures SameKind(perm[i], x, col)
    {
      assert perm[i] in multiset(rows);
      var k := MemberAt(rows, perm[i]);
    }
  }

  datatype SortOrder = AscendingOrder | DescendingOrder

  /** Why `sort` raises: a view column with no data column (`KeyError`), a
      row too short for the column (`IndexError`), or text and numbers in
      the column (`TypeError`). */
  datatype SortError = NoSuchColumn | ShortRow | MixedKeys

  predicate HasMixedKeys(rows: seq<Row>, col: nat) {
    exists i, j :: 0 <= i < |rows| && 0 <= j < |rows| && Key(rows[i], col).Num? && Key(rows[j], col).Text?
  }

  /** `sort(column, order)`: the rows sorted by the mapped data column,
      descending unless the order is ascending. */
  function Sort(m: Model, column: int, order: SortOrder): (r: Result<Model, SortError>)
    ensures r.Ok? ==> r.value.header == m.header && r.value.rowsLoaded == m.rowsLoaded
    ensures r.Ok? ==> multiset(r.value.data) == multiset(m.data)
  {
    match DataColumn(column)
    case None => Err(NoSuchColumn)
    case Some(col) =>
      if exists i :: 0 <= i < |m.data| && col >= |m.data[i]| then Err(ShortRow)
      else if HasMixedKeys(m.data, col) then Err(MixedKeys)
      else Ok(m.(data := SortRows(m.data, col, order != AscendingOrder)))
  }

  /** `sort` fails exactly on a bad column, a short row or mixed keys. */
  lemma SortErrors(m: Model, column: int, order: SortOrder)
    ensures DataColumn(column).None? <==> Sort(m, column, order) == Err(NoSuchColumn)
    ensures DataColumn(column).Some? ==>
      var col := DataColumn(column).value;
      && (Sort(m, column, order) == Err(ShortRow) <==> exists i :: 0 <= i < |m.data| && col >= |m.data[i]|)
      && (Sort(m, column, order).Ok? <==> Sortable(m.data, col))
  {
  }

  /** A successful `sort` leaves the rows a permutation of the old ones,
      each with the sort column, ordered by that column, and changes
      nothing else. */
  lemma SortOrders(m: Model, column: int, order: SortOrder)
    requires Sort(m, column, order).Ok?
    ensures DataColumn(column).Some?
    ensures var col := DataColumn(column).value;
      var rows := Sort(m, column, order).value.data;
      && multiset(rows) == multiset(m.data)
      && (forall i :: 0 <= i < |rows| ==> col < |rows[i]|)
      && Ordered(rows, col, order == DescendingOrder)
  {
    var col := DataColumn(column).value;
    var rows := Sort(m, column, order).value.data;
    assert rows == SortRows(m.data, col, order != AscendingOrder);
    assert !HasMixedKeys(m.data, col);
    UnmixedSameKind(m.data, col);
    SortRowsOrdered(m.data, col, order != AscendingOrder);
    PermutationHasColumn(m.data, rows, col);
  }

  /** Without mixed keys, any two rows' keys are of one kind. */
  lemma UnmixedSameKind(rows: seq<Row>, col: nat)
    requires !HasMixedKeys(rows, col)
    ensures forall i, j :: 0 <= i < |rows| && 0 <= j < |rows| ==> SameKind(rows[i], rows[j], col)
  {
  }

  /** A permutation of rows that all have column `col` has only such
      rows. */
  lemma PermutationHasColumn(rows: seq<Row>, perm: seq<Row>, col: nat)
    requires multiset(perm) == multiset(rows)
    requires forall i :: 0 <= i < |rows| ==> col < |rows[i]|
    ensures forall i :: 0 <= i < |perm| ==> col < |perm[i]|
  {
    forall i | 0 <= i < |perm|
      ensures col < |perm[i]|
    {
      assert perm[i] in multiset(rows);
      var k := MemberAt(rows, perm[i]);
    }
  }

  // ---------------------------------------------------------------------
  // Row counts and fetching

  /** The first and last row `fetchMore` announces to the view as
      inserted. */
  function Announced(m: Model): (int, int) {
    (m.rowsLoaded, m.rowsLoaded + FetchCount(m) - 1)
  }

  /** `rowCount` counts every row, loaded or not, so a fetch announces as
      new rows that the view already counts, and the count does not grow:
      with eleven rows, the eleventh is announced yet was counted from the
      start. */
  lemma RowCountIgnoresFetch(m: Model)
    requires CanFetchMore(m)
    ensures Announced(m).0 <= Announced(m).1 < RowCount(m)
    ensures RowCount(FetchMore(m)) == RowCount(m)
    ensures var eleven := SetData(Initial, seq(11, _ => [Num(0.0)]));
      CanFetchMore(eleven) && Announced(eleven) == (10, 10) && RowCount(eleven) == 11
  {
  }

  /** The rows a paging model shows: the loaded ones. */
  function LoadedRowCount(m: Model): nat {
    if m.rowsLoaded < 0 then 0 else Min(|m.data|, m.rowsLoaded)
  }

  /** Counting only loaded rows, a fetch announces exactly the rows the
      count gains: from the old count up to one below the new one, and the
      count never exceeds the rows there are. */
  lemma LoadedRowCountFollowsFetch(m: Model)
    requires CanFetchMore(m) && m.rowsLoaded >= 0
    ensures Announced(m).0 == LoadedRowCount(m)
    ensures Announced(m).1 == LoadedRowCount(FetchMore(m)) - 1
    ensures LoadedRowCount(m) < LoadedRowCount(FetchMore(m)) <= RowCount(m)
  {
  }
}

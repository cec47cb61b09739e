/**
 * The export side: shaping a result set into column names and rows
 * (`rsh`, `getMetaData`, `getData`, `getTableData`) and laying them out on
 * a new sheet (`writeTableToExcel`).
 */
module DbToExcel {
  import opened Wrappers
  import opened Values

  // ---------------------------------------------------------------------
  // Fetching: column names and rows of a result set
  // ---------------------------------------------------------------------

  /** What the fetch handler returns: the column names and the rows. */
  datatype TableData = TableData(metaData: seq<string>, rows: seq<seq<Value>>)

  /** `getMetaData(rs)`: the name of column i+1 at position i. */
  method GetMetaData(rs: ResultSet) returns (metaData: seq<string>)
    ensures |metaData| == |rs.columns|
    ensures forall i :: 0 <= i < |metaData| ==> metaData[i] == rs.columns[i].name
  {
    metaData := [];
    var cols := |rs.columns|;
    for i := 0 to cols
      invariant |metaData| == i
      invariant forall j :: 0 <= j < i ==> metaData[j] == ColumnName(rs, j + 1)
    {
      metaData := metaData + [ColumnName(rs, i + 1)];
    }
  }

  /** `getData(rs)`: one list per result row, in order, holding the value
      of column i+1 at position i. */
  method GetData(rs: ResultSet) returns (data: seq<seq<Value>>)
    requires RowsMatchColumns(rs)
    ensures |data| == |rs.rows|
    ensures forall k :: 0 <= k < |data| ==> |data[k]| == |rs.columns|
    ensures forall k, i :: 0 <= k < |data| && 0 <= i < |rs.columns| ==> data[k][i] == rs.rows[k][i]
  {
    data := [];
    var count := |rs.columns|;
    var k := 0;
    while k < |rs.rows|
      invariant 0 <= k <= |rs.rows|
      invariant |data| == k
      invariant forall m :: 0 <= m < k ==> |data[m]| == count
      invariant forall m, i :: 0 <= m < k && 0 <= i < count ==> data[m][i] == rs.rows[m][i]
    {
      var row: seq<Value> := [];
      for i := 0 to count
        invariant |row| == i
        invariant forall j :: 0 <= j < i ==> row[j] == GetObject(rs, k, j + 1)
      {
        row := row + [GetObject(rs, k, i + 1)];
      }
      data := data + [row];
      k := k + 1;
    }
  }

  /** The fetch handler: null when the result has no row, otherwise the
      column names and every row. */
  method HandleResultSet(rs: ResultSet) returns (result: Option<TableData>)
    requires RowsMatchColumns(rs)
    ensures result.None? <==> rs.rows == []
    ensures result.Some? ==>
      && |result.value.metaData| == |rs.columns|
      && (forall i :: 0 <= i < |rs.columns| ==> result.value.metaData[i] == rs.columns[i].name)
      && result.value.rows == rs.rows
  {
    if |rs.rows| == 0 {
      return None;
    }
    var metaData := GetMetaData(rs);
    var data := GetData(rs);
    assert forall k :: 0 <= k < |data| ==> data[k] == rs.rows[k];
    result := Some(TableData(metaData, data));
  }

  /** `getTableData(dbname, tableName)`: null when connecting or querying
      throws an `SQLException` or when the table is empty; otherwise the
      handler's result: the column names in result order and every row,
      each as wide as the column list. */
  method GetTableData(q: QueryOutcome) returns (result: Option<TableData>)
    requires q.QueryOk? ==> RowsMatchColumns(q.rs)
    ensures result.None? <==> q.QueryFailed? || q.rs.rows == []
    ensures result.Some? ==>
      && result.value.rows == q.rs.rows
      && |result.value.metaData| == |q.rs.columns|
      && (forall i :: 0 <= i < |q.rs.columns| ==> result.value.metaData[i] == q.rs.columns[i].name)
      && (forall k :: 0 <= k < |result.value.rows| ==> |result.value.rows[k]| == |result.value.metaData|)
  {
    if q.QueryFailed? {
      return None;
    }
    result := HandleResultSet(q.rs);
  }

  // ---------------------------------------------------------------------
  // writeTableToExcel: laying the data out on a sheet
  // ---------------------------------------------------------------------

  /** `List.indexOf`: the first position holding `x`, or -1. */
  function IndexOf<T(==)>(s: seq<T>, x: T): (r: int)
    ensures -1 <= r < |s|
    ensures 0 <= r ==> s[r] == x
  {
    if |s| == 0 then -1
    else if s[0] == x then 0
    else
      var r := IndexOf(s[1..], x);
      if r == -1 then -1 else r + 1
  }

  /** No position before `IndexOf(s, x)` holds `x`: an element at position
      j is found at j or earlier. */
  lemma {:induction false} IndexOfFirst<T>(s: seq<T>, x: T, j: nat)
    requires j < |s| && s[j] == x
    ensures 0 <= IndexOf(s, x) <= j
  {
    if s[0] != x {
      assert s[1..][j - 1] == x;
      IndexOfFirst(s[1..], x, j - 1);
    }
  }

  /** `indexOf` gives -1 exactly for an element that does not occur. */
  lemma IndexOfAbsent<T>(s: seq<T>, x: T)
    ensures IndexOf(s, x) == -1 <==> x !in s
  {
    if x in s {
      var j :| 0 <= j < |s| && s[j] == x;
      IndexOfFirst(s, x, j);
    }
  }

  /** The cell the exporter writes for a value, chosen by its runtime class. */
  function CellFor(lib: Lib, v: Value): (k: CellKind)
    ensures k.NumCell? || k.BoolCell? || k.StrCell?
    ensures k.NumCell? <==> v.Int? || v.Long? || v.Float? || v.Double?
    ensures k.BoolCell? <==> v.Bool?
  {
    match v
    case Int(i) => NumCell(I32(i))
    case Long(l) => NumCell(I64(l))
    case Float(bits) => NumCell(F32(bits))
    case Double(bits) => NumCell(F64(bits))
    case Bool(b) => BoolCell(b)
    case Str(s) => StrCell(s)
    case Null => StrCell("")
    case _ => StrCell(ToString(lib, v))
  }

  /** The cell written for a heading. */
  function HeadingCell(heading: string): CellKind {
    StrCell(heading)
  }

  /** `CellFor` as a function value, for laying out a data row. */
  function DataCell(lib: Lib): Value -> CellKind {
    v => CellFor(lib, v)
  }

  /** The cells written for the first `n` elements of `s` when element j
      goes to column `s.indexOf(s[j])`: one cell at each first occurrence. */
  function Placed<T(==)>(s: seq<T>, n: nat, f: T -> CellKind): map<int, CellKind>
    requires n <= |s|
  {
    map j | 0 <= j < n && IndexOf(s, s[j]) == j :: f(s[j])
  }

  /** Sheet row p >= 1 is written by the first data row equal to data
      row p-1, so it exists only when data row p-1 is its first occurrence. */
  predicate FirstRow(tableData: seq<seq<Value>>, p: int) {
    1 <= p <= |tableData| && IndexOf(tableData, tableData[p - 1]) == p - 1
  }

  /** The cells of sheet row p: the headings for p = 0, the cells of data
      row p-1 otherwise. */
  function LaidOutRow(lib: Lib, metaData: seq<string>, tableData: seq<seq<Value>>, p: nat): map<int, CellKind>
    requires p <= |tableData|
  {
    if p == 0 then Placed(metaData, |metaData|, HeadingCell)
    else Placed(tableData[p - 1], |tableData[p - 1]|, DataCell(lib))
  }

  /** The sheet after the header row and the first `k` data rows are
      written: sheet row 0 holds the headings, sheet row p the cells of data
      row p-1 when that row is the first occurrence of its contents. */
  function LayoutUpTo(lib: Lib, metaData: seq<string>, tableData: seq<seq<Value>>, k: nat): map<int, map<int, CellKind>>
    requires k <= |tableData|
  {
    map p | 0 <= p <= k && (p == 0 || FirstRow(tableData, p)) :: LaidOutRow(lib, metaData, tableData, p)
  }

  /** The sheet `writeTableToExcel` builds. */
  function Layout(lib: Lib, metaData: seq<string>, tableData: seq<seq<Value>>): map<int, map<int, CellKind>> {
    LayoutUpTo(lib, metaData, tableData, |tableData|)
  }

  /** Writing element n at its first occurrence's column extends the
      layout of the first n elements to the first n+1. */
  lemma PlacedStep<T>(s: seq<T>, n: nat, f: T -> CellKind)
    requires n < |s|
    ensures Placed(s, n + 1, f) == Placed(s, n, f)[IndexOf(s, s[n]) := f(s[n])]
  {
    var p := IndexOf(s, s[n]);
    IndexOfFirst(s, s[n], n);
    assert s[p] == s[n];
    assert p in Placed(s, n + 1, f);
    if p < n {
      assert n !in Placed(s, n + 1, f);
    }
    assert Placed(s, n + 1, f).Keys == Placed(s, n, f).Keys + {p};
  }

  /** Writing data row k at sheet row `indexOf(row)+1` extends the layout
      of the first k rows to the first k+1. */
  lemma LayoutStep(lib: Lib, metaData: seq<string>, tableData: seq<seq<Value>>, k: nat)
    requires k < |tableData|
    ensures LayoutUpTo(lib, metaData, tableData, k + 1) ==
      LayoutUpTo(lib, metaData, tableData, k)[IndexOf(tableData, tableData[k]) + 1 :=
        Placed(tableData[k], |tableData[k]|, DataCell(lib))]
  {
    var q := IndexOf(tableData, tableData[k]);
    IndexOfFirst(tableData, tableData[k], k);
    assert tableData[q] == tableData[k];
    assert FirstRow(tableData, q + 1);
    var a := LayoutUpTo(lib, metaData, tableData, k + 1);
    var b := LayoutUpTo(lib, metaData, tableData, k)[q + 1 := Placed(tableData[k], |tableData[k]|, DataCell(lib))];
    forall p ensures p in a <==> p in b {
      if p == k + 1 && p != q + 1 {
        assert !FirstRow(tableData, p);
      }
    }
    forall p | p in a ensures a[p] == b[p] {
      if p == q + 1 {
        assert LaidOutRow(lib, metaData, tableData, p) == Placed(tableData[k], |tableData[k]|, DataCell(lib));
      }
    }
  }

  /** The sheet as the spreadsheet library keeps it: rows by index, each a
      map from column index to cell. Creating a row or a cell at an index
      that is already in use replaces what was there. */
  class SheetWriter {
    var rows: map<int, map<int, CellKind>>

    constructor ()
      ensures rows == map[]
    {
      rows := map[];
    }

    /** `createRow(r)`: an empty row at index r. */
    method CreateRow(r: int)
      modifies this
      ensures rows == old(rows)[r := map[]]
    {
      rows := rows[r := map[]];
    }

    /** `row.createCell(c).setCellValue(...)` on the row at index r. */
    method CreateCell(r: int, c: int, kind: CellKind)
      requires r in rows
      modifies this
      ensures rows == old(rows)[r := old(rows)[r][c := kind]]
    {
      rows := rows[r := rows[r][c := kind]];
    }
  }

  /** Creates sheet row r and writes element c of `s` to the cell at
      `s.indexOf(s[c])`, with the cell `f` selects for it. */
  method WriteRow<T(==)>(spreadsheet: SheetWriter, r: int, s: seq<T>, f: T -> CellKind)
    modifies spreadsheet
    ensures spreadsheet.rows == old(spreadsheet.rows)[r := Placed(s, |s|, f)]
  {
    ghost var before := spreadsheet.rows;
    spreadsheet.CreateRow(r);
    assert Placed(s, 0, f) == map[];
    for c := 0 to |s|
      invariant spreadsheet.rows == before[r := Placed(s, c, f)]
    {
      PlacedStep(s, c, f);
      ghost var row := Placed(s, c, f);
      var col := IndexOf(s, s[c]);
      spreadsheet.CreateCell(r, col, f(s[c]));
      assert spreadsheet.rows == before[r := row][r := row[col := f(s[c])]];
    }
  }

  /** `writeTableToExcel`: writes the headings to row 0, each at
      `metaData.indexOf(heading)`, then every data row to sheet row
      `tableData.indexOf(tableRow)+1`, each cell at `tableRow.indexOf(tableCell)`
      with the kind its runtime class selects. Returns the sheet handed to
      the workbook writer. */
  method WriteTableToExcel(lib: Lib, metaData: seq<string>, tableData: seq<seq<Value>>)
    returns (sheet: map<int, map<int, CellKind>>)
    ensures sheet == Layout(lib, metaData, tableData)
  {
    var spreadsheet := new SheetWriter();
    WriteRow(spreadsheet, 0, metaData, HeadingCell);
    assert spreadsheet.rows == LayoutUpTo(lib, metaData, tableData, 0);
    for k := 0 to |tableData|
      invariant spreadsheet.rows == LayoutUpTo(lib, metaData, tableData, k)
    {
      WriteRow(spreadsheet, IndexOf(tableData, tableData[k]) + 1, tableData[k], DataCell(lib));
      LayoutStep(lib, metaData, tableData, k);
    }
    sheet := spreadsheet.rows;
  }

  // ---------------------------------------------------------------------
  // Properties of the layout
  // ---------------------------------------------------------------------

  /** Every element has a cell at its first occurrence's column, and only
      first occurrences have cells. */
  lemma PlacedCells<T>(s: seq<T>, f: T -> CellKind)
    ensures forall i :: 0 <= i < |s| ==>
      IndexOf(s, s[i]) in Placed(s, |s|, f) && Placed(s, |s|, f)[IndexOf(s, s[i])] == f(s[i])
    ensures forall j :: j in Placed(s, |s|, f) ==> j < |s| && IndexOf(s, s[j]) == j
  {
    forall i | 0 <= i < |s|
      ensures IndexOf(s, s[i]) in Placed(s, |s|, f) && Placed(s, |s|, f)[IndexOf(s, s[i])] == f(s[i])
    {
      var p := IndexOf(s, s[i]);
      IndexOfFirst(s, s[i], i);
      assert s[p] == s[i];
      assert IndexOf(s, s[p]) == p;
    }
  }

  /** With distinct elements, element i goes to column i. */
  lemma PlacedDistinct<T>(s: seq<T>, f: T -> CellKind)
    requires forall i, j :: 0 <= i < j < |s| ==> s[i] != s[j]
    ensures Placed(s, |s|, f) == map i | 0 <= i < |s| :: f(s[i])
  {
    forall i | 0 <= i < |s| ensures IndexOf(s, s[i]) == i {
      IndexOfFirst(s, s[i], i);
    }
  }

  /** A repeated element is written again at its first occurrence's column,
      and its own column gets no cell. */
  lemma PlacedRepeat<T>(s: seq<T>, f: T -> CellKind, i: nat, j: nat)
    requires i < j < |s| && s[i] == s[j]
    ensures IndexOf(s, s[j]) <= i
    ensures j !in Placed(s, |s|, f)
  {
    IndexOfFirst(s, s[j], i);
  }

  /** Which sheet rows exist and what each holds: row 0 the headings, row p
      the cells of data row p-1 when that row is the first of its contents. */
  lemma LayoutRows(lib: Lib, metaData: seq<string>, tableData: seq<seq<Value>>)
    ensures 0 in Layout(lib, metaData, tableData)
    ensures Layout(lib, metaData, tableData)[0] == Placed(metaData, |metaData|, HeadingCell)
    ensures forall p :: p in Layout(lib, metaData, tableData) <==>
      (p == 0 || FirstRow(tableData, p))
    ensures forall p :: FirstRow(tableData, p) ==>
      Layout(lib, metaData, tableData)[p] == Placed(tableData[p - 1], |tableData[p - 1]|, DataCell(lib))
  {
  }

  /** Each heading is written at the column of its first occurrence. */
  lemma HeadingRow(metaData: seq<string>)
    ensures forall i :: 0 <= i < |metaData| ==>
      IndexOf(metaData, metaData[i]) in Placed(metaData, |metaData|, HeadingCell) &&
      Placed(metaData, |metaData|, HeadingCell)[IndexOf(metaData, metaData[i])] == StrCell(metaData[i])
  {
    forall i | 0 <= i < |metaData|
      ensures IndexOf(metaData, metaData[i]) in Placed(metaData, |metaData|, HeadingCell)
      ensures Placed(metaData, |metaData|, HeadingCell)[IndexOf(metaData, metaData[i])] == StrCell(metaData[i])
    {
      var p := IndexOf(metaData, metaData[i]);
      assert metaData[p] == metaData[i];
      assert IndexOf(metaData, metaData[p]) == p;
    }
  }

  /** With distinct headings, heading i is at column i. */
  lemma HeadingRowDistinct(metaData: seq<string>)
    requires forall i, j :: 0 <= i < j < |metaData| ==> metaData[i] != metaData[j]
    ensures Placed(metaData, |metaData|, HeadingCell) == map i | 0 <= i < |metaData| :: StrCell(metaData[i])
  {
    PlacedDistinct(metaData, HeadingCell);
  }

  /** A repeated heading leaves its own column without a cell. */
  lemma HeadingRowRepeat(metaData: seq<string>, i: nat, j: nat)
    requires i < j < |metaData| && metaData[i] == metaData[j]
    ensures j !in Placed(metaData, |metaData|, HeadingCell)
  {
    PlacedRepeat(metaData, HeadingCell, i, j);
  }

  /** Data row k lands on sheet row `indexOf(row)+1`, between 1 and k+1,
      which holds that row's cells; an equal later row collapses onto the
      first equal row's sheet row, leaving its own sheet row absent. */
  lemma DataRowPlacement(lib: Lib, metaData: seq<string>, tableData: seq<seq<Value>>, k: nat)
    requires k < |tableData|
    ensures 1 <= IndexOf(tableData, tableData[k]) + 1 <= k + 1
    ensures IndexOf(tableData, tableData[k]) + 1 in Layout(lib, metaData, tableData)
    ensures Layout(lib, metaData, tableData)[IndexOf(tableData, tableData[k]) + 1] ==
      Placed(tableData[k], |tableData[k]|, DataCell(lib))
    ensures (exists i :: 0 <= i < k && tableData[i] == tableData[k]) ==>
      k + 1 !in Layout(lib, metaData, tableData)
  {
    LayoutRows(lib, metaData, tableData);
    var q := IndexOf(tableData, tableData[k]);
    IndexOfFirst(tableData, tableData[k], k);
    assert tableData[q] == tableData[k];
    assert FirstRow(tableData, q + 1);
    if exists i :: 0 <= i < k && tableData[i] == tableData[k] {
      var i :| 0 <= i < k && tableData[i] == tableData[k];
      IndexOfFirst(tableData, tableData[k], i);
    }
  }

  /** With distinct rows, data row k lands on sheet row k+1 and the sheet
      has exactly the rows 0 to |tableData|. */
  lemma LayoutDistinctRows(lib: Lib, metaData: seq<string>, tableData: seq<seq<Value>>)
    requires forall i, j :: 0 <= i < j < |tableData| ==> tableData[i] != tableData[j]
    ensures forall p :: p in Layout(lib, metaData, tableData) <==> 0 <= p <= |tableData|
    ensures forall k :: 0 <= k < |tableData| ==>
      Layout(lib, metaData, tableData)[k + 1] == Placed(tableData[k], |tableData[k]|, DataCell(lib))
  {
    LayoutRows(lib, metaData, tableData);
    forall p | 1 <= p <= |tableData| ensures FirstRow(tableData, p) {
      IndexOfFirst(tableData, tableData[p - 1], p - 1);
    }
  }

  /** Within a data row, every value has a cell at the column of its first
      occurrence, of the kind its class selects. */
  lemma RowCells(lib: Lib, tableRow: seq<Value>)
    ensures forall i :: 0 <= i < |tableRow| ==>
      IndexOf(tableRow, tableRow[i]) in Placed(tableRow, |tableRow|, DataCell(lib)) &&
      Placed(tableRow, |tableRow|, DataCell(lib))[IndexOf(tableRow, tableRow[i])] == CellFor(lib, tableRow[i])
  {
    forall i | 0 <= i < |tableRow|
      ensures IndexOf(tableRow, tableRow[i]) in Placed(tableRow, |tableRow|, DataCell(lib))
      ensures Placed(tableRow, |tableRow|, DataCell(lib))[IndexOf(tableRow, tableRow[i])] == CellFor(lib, tableRow[i])
    {
      var p := IndexOf(tableRow, tableRow[i]);
      assert tableRow[p] == tableRow[i];
      assert IndexOf(tableRow, tableRow[p]) == p;
    }
  }

  /** A repeated value in a data row (a repeated null included) leaves its
      own column without a cell. */
  lemma RowCellsRepeat(lib: Lib, tableRow: seq<Value>, i: nat, j: nat)
    requires i < j < |tableRow| && tableRow[i] == tableRow[j]
    ensures j !in Placed(tableRow, |tableRow|, DataCell(lib))
  {
    PlacedRepeat(tableRow, DataCell(lib), i, j);
  }

  /** A data row with distinct values has value i in column i. */
  lemma RowCellsDistinct(lib: Lib, tableRow: seq<Value>)
    requires forall i, j :: 0 <= i < j < |tableRow| ==> tableRow[i] != tableRow[j]
    ensures Placed(tableRow, |tableRow|, DataCell(lib)) == map i | 0 <= i < |tableRow| :: CellFor(lib, tableRow[i])
  {
    PlacedDistinct(tableRow, DataCell(lib));
    assert (map i | 0 <= i < |tableRow| :: DataCell(lib)(tableRow[i])) ==
      map i | 0 <= i < |tableRow| :: CellFor(lib, tableRow[i]);
  }

  /** Two equal data rows, each with a repeated null: the sheet gets only
      the header row and sheet row 1, and that row has no cell in column 2. */
  lemma DuplicateRowsExample(lib: Lib)
    ensures var rows := [[Int(7), Null, Null], [Int(7), Null, Null]];
      var sheet := Layout(lib, ["id", "a", "b"], rows);
      sheet.Keys == {0, 1} &&
      sheet[1] == map[0 := NumCell(I32(7)), 1 := StrCell("")]
  {
    var row := [Int(7), Null, Null];
    var rows := [row, row];
    LayoutRows(lib, ["id", "a", "b"], rows);
    assert FirstRow(rows, 1);
    assert !FirstRow(rows, 2) by {
      assert IndexOf(rows, rows[1]) == 0;
    }
    ExampleRowCells(lib, row);
  }

  /** The cells of the row in that example: the second null is written
      over the first one's column. */
  lemma ExampleRowCells(lib: Lib, row: seq<Value>)
    requires row == [Int(7), Null, Null]
    ensures Placed(row, |row|, DataCell(lib)) == map[0 := NumCell(I32(7)), 1 := StrCell("")]
  {
    assert IndexOf(row, row[0]) == 0;
    assert IndexOf(row, row[1]) == 1;
    assert IndexOf(row, row[2]) == 1;
  }

  /** The cell kinds: Integer, Long, Float and Double give numeric cells,
      Boolean a boolean cell, String a string cell, null the empty string
      and any other class its `toString`. */
  lemma CellKinds(lib: Lib, v: Value)
    ensures v.Int? ==> CellFor(lib, v) == NumCell(I32(v.i))
    ensures v.Long? ==> CellFor(lib, v) == NumCell(I64(v.l))
    ensures v.Float? ==> CellFor(lib, v) == NumCell(F32(v.fbits))
    ensures v.Double? ==> CellFor(lib, v) == NumCell(F64(v.dbits))
    ensures v.Bool? ==> CellFor(lib, v) == BoolCell(v.b)
    ensures v.Str? ==> CellFor(lib, v) == StrCell(v.s)
    ensures v.Null? ==> CellFor(lib, v) == StrCell("")
    ensures v.Decimal? || v.Date? || v.Time? || v.Timestamp? || v.Other? ==>
      CellFor(lib, v) == StrCell(ToString(lib, v))
  {
  }
}

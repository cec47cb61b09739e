/**
 * The import side: reading a sheet as text (`getExcelData`), probing the
 * target table's column types (`rsh`), converting text to typed values
 * (`convert`) and preparing the batched insert (`insertData`).
 */
module ExcelToDb {
  import opened Wrappers
  import opened Values

  // ---------------------------------------------------------------------
  // convert: dispatch on the SQL type name
  // ---------------------------------------------------------------------

  /** The type names whose branch only casts a value that must already have
      the right class. */
  predicate IsCastType(typeName: string) {
    typeName in {"BIT", "TINYINT", "SMALLINT", "INTEGER", "BIGINT", "REAL", "DATE", "TIMESTAMP"}
  }

  /** The type names whose branch parses the item as text. */
  predicate IsParseType(typeName: string) {
    typeName in {"NUMERIC", "DECIMAL", "FLOAT", "DOUBLEPRECISION", "TIME"}
  }

  /** Whether the cast of a cast branch succeeds on `v`. `DATE` casts to
      `java.util.Date`, whose subclasses include `java.sql.Time` and
      `java.sql.Timestamp`. */
  predicate CastAccepts(typeName: string, v: Value) {
    if typeName == "BIT" then v.Bool?
    else if typeName in {"TINYINT", "SMALLINT", "INTEGER"} then v.Int?
    else if typeName == "BIGINT" then v.Long?
    else if typeName == "REAL" then v.Float?
    else if typeName == "DATE" then v.Date? || v.Time? || v.Timestamp?
    else if typeName == "TIMESTAMP" then v.Timestamp?
    else false
  }

  /** A cast `(C) item`: the item itself, or a `ClassCastException`. */
  function Cast(item: Value, isInstance: bool): Result<Value, Exc> {
    if isInstance then Ok(item) else Err(ClassCast)
  }

  /** `new BigDecimal((String) item)`. */
  function DecimalOf(lib: Lib, item: Value): Result<Value, Exc> {
    if !item.Str? then Err(ClassCast)
    else match lib.parseDecimal(item.s)
      case None => Err(NumberFormat)
      case Some(d) => Ok(Decimal(d.0, d.1))
  }

  /** `Double.valueOf((String) item)`. */
  function DoubleOf(lib: Lib, item: Value): Result<Value, Exc> {
    if !item.Str? then Err(ClassCast)
    else match lib.parseDouble(item.s)
      case None => Err(NumberFormat)
      case Some(bits) => Ok(Double(bits))
  }

  /** `Time.valueOf(text)`. */
  function TimeOf(lib: Lib, text: string): Result<Value, Exc> {
    match lib.parseTime(text)
    case None => Err(IllegalArgument)
    case Some(ms) => Ok(Time(ms))
  }

  /** `convert(type, itemToConvert)`: a null item is returned as null;
      otherwise the branch chosen by the type name either parses the item's
      text, casts the item, or (for an unknown name) returns its `toString`.
      Every failure is an unchecked exception. */
  function Convert(lib: Lib, typeName: string, item: Value): (r: Result<Value, Exc>)
    ensures item.Null? ==> r == Ok(Null)
    ensures r.Ok? && r.value.Null? ==> item.Null?
    ensures r.Err? ==> !item.Null? && (IsCastType(typeName) || IsParseType(typeName))
  {
    if item.Null? then Ok(Null)
    else if typeName == "NUMERIC" then DecimalOf(lib, item)
    else if typeName == "DECIMAL" then DecimalOf(lib, item)
    else if typeName == "BIT" then Cast(item, item.Bool?)
    else if typeName == "TINYINT" then Cast(item, item.Int?)
    else if typeName == "SMALLINT" then Cast(item, item.Int?)
    else if typeName == "INTEGER" then Cast(item, item.Int?)
    else if typeName == "BIGINT" then Cast(item, item.Long?)
    else if typeName == "REAL" then Cast(item, item.Float?)
    else if typeName == "FLOAT" then DoubleOf(lib, item)
    else if typeName == "DOUBLEPRECISION" then DoubleOf(lib, item)
    else if typeName == "DATE" then Cast(item, item.Date? || item.Time? || item.Timestamp?)
    else if typeName == "TIME" then TimeOf(lib, ToString(lib, item))
    else if typeName == "TIMESTAMP" then Cast(item, item.Timestamp?)
    else Ok(Str(ToString(lib, item)))
  }

  /** The branches that share code behave identically on every item. */
  lemma ConvertPairedBranchesAgree(lib: Lib, item: Value)
    ensures Convert(lib, "NUMERIC", item) == Convert(lib, "DECIMAL", item)
    ensures Convert(lib, "FLOAT", item) == Convert(lib, "DOUBLEPRECISION", item)
    ensures Convert(lib, "TINYINT", item) == Convert(lib, "SMALLINT", item) == Convert(lib, "INTEGER", item)
  {
  }

  /** On text, NUMERIC and DECIMAL yield the parsed decimal, FLOAT and
      DOUBLEPRECISION the parsed double and TIME the parsed time, each
      failing exactly when the parser rejects the text. */
  lemma ConvertParsesText(lib: Lib, s: string)
    ensures Convert(lib, "NUMERIC", Str(s)) == Convert(lib, "DECIMAL", Str(s)) ==
      (match lib.parseDecimal(s) case Some(d) => Ok(Decimal(d.0, d.1)) case None => Err(NumberFormat))
    ensures Convert(lib, "FLOAT", Str(s)) == Convert(lib, "DOUBLEPRECISION", Str(s)) ==
      (match lib.parseDouble(s) case Some(bits) => Ok(Double(bits)) case None => Err(NumberFormat))
    ensures Convert(lib, "TIME", Str(s)) ==
      (match lib.parseTime(s) case Some(ms) => Ok(Time(ms)) case None => Err(IllegalArgument))
  {
  }

  /** The decimal and double branches cast before parsing: a non-null item
      that is not a String fails with a cast error. */
  lemma ConvertParseNeedsText(lib: Lib, typeName: string, item: Value)
    requires typeName in {"NUMERIC", "DECIMAL", "FLOAT", "DOUBLEPRECISION"}
    requires !item.Null? && !item.Str?
    ensures Convert(lib, typeName, item) == Err(ClassCast)
  {
  }

  /** The cast branches never parse: they succeed exactly on an item of the
      matching class and then return it unchanged, so text fails. */
  lemma ConvertCastOnly(lib: Lib, typeName: string, item: Value)
    requires IsCastType(typeName) && !item.Null?
    ensures Convert(lib, typeName, item).Ok? <==> CastAccepts(typeName, item)
    ensures Convert(lib, typeName, item).Ok? ==> Convert(lib, typeName, item).value == item
    ensures item.Str? ==> Convert(lib, typeName, item) == Err(ClassCast)
  {
  }

  /** Any other type name yields the item's `toString`; text comes back
      unchanged. */
  lemma ConvertUnknownType(lib: Lib, typeName: string, item: Value)
    requires !IsCastType(typeName) && !IsParseType(typeName) && !item.Null?
    ensures Convert(lib, typeName, item) == Ok(Str(ToString(lib, item)))
    ensures item.Str? ==> Convert(lib, typeName, item) == Ok(item)
  {
  }

  // ---------------------------------------------------------------------
  // getExcelData: reading a sheet as rows of text
  // ---------------------------------------------------------------------

  /** A cell as the cell iterator yields it: its column index and its kind. */
  datatype SheetCell = SheetCell(col: nat, kind: CellKind)

  /** A physical row as the row iterator yields it: its cells in column order. */
  datatype SheetRow = SheetRow(cells: seq<SheetCell>)

  /** A workbook file: unreadable (the `IOException` case), or its sheets by
      name, each a sequence of physical rows in iterator order. */
  datatype Workbook = Unreadable | Workbook(sheets: map<string, seq<SheetRow>>)

  /** The list `getExcelData` returns, or the exception that escapes it. */
  datatype ReadOutcome = Read(rows: seq<seq<Value>>) | Threw(exc: Exc)

  /** The cell iterator yields cells in strictly increasing column order. */
  predicate ColumnsIncreasing(cells: seq<SheetCell>) {
    forall i, j :: 0 <= i < j < |cells| ==> cells[i].col < cells[j].col
  }

  predicate WellFormedSheet(rows: seq<SheetRow>) {
    forall k :: 0 <= k < |rows| ==> ColumnsIncreasing(rows[k].cells)
  }

  /** `getLastCellNum()`: one more than the last cell's column, or -1 for a
      row without cells. */
  function LastCellNum(row: SheetRow): int {
    if row.cells == [] then -1 else row.cells[|row.cells| - 1].col + 1
  }

  /** The text a cell of the given kind is read as. */
  function CellText(lib: Lib, kind: CellKind): (v: Value)
    ensures v.Null? || v.Str?
    ensures v.Null? <==> kind.FormulaCell? || kind.ErrorCell?
    ensures kind.Blank? ==> v == Str("")
    ensures kind.NumCell? ==> v == Str(lib.render(kind.n))
    ensures kind.BoolCell? ==> v == Str(BoolText(kind.flag))
    ensures kind.StrCell? ==> v == Str(kind.text)
  {
    match kind
    case Blank => Str("")
    case NumCell(n) => Str(lib.render(n))
    case BoolCell(b) => Str(BoolText(b))
    case StrCell(s) => Str(s)
    case FormulaCell => Null
    case ErrorCell => Null
  }

  /** The kind of the first cell in `cells` whose column is `c`. */
  function CellAt(cells: seq<SheetCell>, c: nat): Option<CellKind> {
    if cells == [] then None
    else if cells[0].col == c then Some(cells[0].kind)
    else CellAt(cells[1..], c)
  }

  /** What position `c` of a row array holds: the text of the cell in
      column `c`, or null when the row has no such cell. */
  function TextAt(lib: Lib, cells: seq<SheetCell>, c: nat): Value {
    match CellAt(cells, c)
    case None => Null
    case Some(kind) => CellText(lib, kind)
  }

  /** The array built for one physical row: `getLastCellNum()` positions,
      each holding the text of the cell in that column or null. */
  function PlaceRow(lib: Lib, row: SheetRow): seq<Value>
    requires row.cells != []
  {
    seq(LastCellNum(row), c requires 0 <= c => TextAt(lib, row.cells, c))
  }

  /** `getExcelData(wbName, sheetName)`: an unreadable workbook gives an
      empty list; a missing sheet, a sheet without rows, or a data row
      without cells throws; otherwise every physical row after the first
      gives one array, in order. */
  function ExcelData(lib: Lib, wb: Workbook, sheetName: string): ReadOutcome {
    if wb.Unreadable? then Read([])
    else if sheetName !in wb.sheets then Threw(NullPointer)
    else
      var rows := wb.sheets[sheetName];
      if rows == [] then Threw(NoSuchElement)
      else if exists k :: 1 <= k < |rows| && rows[k].cells == [] then Threw(NegativeArraySize)
      else Read(seq(|rows| - 1, k requires 0 <= k < |rows| - 1 => PlaceRow(lib, rows[k + 1])))
  }

  lemma {:induction false} CellAtAppend(s: seq<SheetCell>, x: SheetCell, c: nat)
    ensures CellAt(s + [x], c) ==
      if CellAt(s, c).Some? then CellAt(s, c) else if x.col == c then Some(x.kind) else None
  {
    if s != [] {
      assert (s + [x])[1..] == s[1..] + [x];
      CellAtAppend(s[1..], x, c);
    }
  }

  lemma {:induction false} CellAtAbsent(s: seq<SheetCell>, c: nat)
    requires forall i :: 0 <= i < |s| ==> s[i].col != c
    ensures CellAt(s, c) == None
  {
    if s != [] {
      CellAtAbsent(s[1..], c);
    }
  }

  /** In a row read from a sheet, the cell found in a column is the one the
      iterator yields for that column. */
  lemma {:induction false} CellAtOwnColumn(cells: seq<SheetCell>, j: nat)
    requires ColumnsIncreasing(cells) && j < |cells|
    ensures CellAt(cells, cells[j].col) == Some(cells[j].kind)
  {
    if j > 0 {
      assert cells[0].col < cells[j].col;
      assert ColumnsIncreasing(cells[1..]) by {
        forall a, b | 0 <= a < b < |cells| - 1 ensures cells[1..][a].col < cells[1..][b].col {
          assert cells[1..][a] == cells[a + 1] && cells[1..][b] == cells[b + 1];
        }
      }
      CellAtOwnColumn(cells[1..], j - 1);
    }
  }

  /** Every cell of a row is stored at its own column index, as its text. */
  lemma PlaceRowCell(lib: Lib, row: SheetRow, j: nat)
    requires ColumnsIncreasing(row.cells) && j < |row.cells|
    ensures row.cells[j].col < |PlaceRow(lib, row)|
    ensures PlaceRow(lib, row)[row.cells[j].col] == CellText(lib, row.cells[j].kind)
  {
    var last := |row.cells| - 1;
    assert row.cells[j].col <= row.cells[last].col;
    CellAtOwnColumn(row.cells, j);
  }

  /** A position of the row array that no cell occupies stays null. */
  lemma PlaceRowGap(lib: Lib, row: SheetRow, c: nat)
    requires row.cells != [] && c < |PlaceRow(lib, row)|
    requires forall j :: 0 <= j < |row.cells| ==> row.cells[j].col != c
    ensures PlaceRow(lib, row)[c] == Null
  {
    CellAtAbsent(row.cells, c);
  }

  /** A successful read gives one array per physical row after the header
      row, in sheet order: the array built for that row. */
  lemma ExcelDataRows(lib: Lib, wb: Workbook, sheetName: string, sheet: seq<SheetRow>)
    requires wb.Workbook? && sheetName in wb.sheets && wb.sheets[sheetName] == sheet
    requires sheet != [] && forall k :: 1 <= k < |sheet| ==> sheet[k].cells != []
    ensures ExcelData(lib, wb, sheetName).Read?
    ensures |ExcelData(lib, wb, sheetName).rows| == |sheet| - 1
    ensures forall k :: 1 <= k < |sheet| ==>
      ExcelData(lib, wb, sheetName).rows[k - 1] == PlaceRow(lib, sheet[k]) &&
      |ExcelData(lib, wb, sheetName).rows[k - 1]| == LastCellNum(sheet[k])
  {
  }

  /** The failure and empty cases: an unreadable workbook gives an empty
      list, never null; a header-only sheet gives an empty list; a missing
      sheet, an empty sheet and a data row without cells throw. */
  lemma ExcelDataEdgeCases(lib: Lib, wb: Workbook, sheetName: string)
    ensures wb.Unreadable? ==> ExcelData(lib, wb, sheetName) == Read([])
    ensures wb.Workbook? && sheetName !in wb.sheets ==> ExcelData(lib, wb, sheetName) == Threw(NullPointer)
    ensures wb.Workbook? && sheetName in wb.sheets && wb.sheets[sheetName] == [] ==>
      ExcelData(lib, wb, sheetName) == Threw(NoSuchElement)
    ensures wb.Workbook? && sheetName in wb.sheets && |wb.sheets[sheetName]| == 1 ==>
      ExcelData(lib, wb, sheetName) == Read([])
    ensures (wb.Workbook? && sheetName in wb.sheets &&
             exists k :: 1 <= k < |wb.sheets[sheetName]| && wb.sheets[sheetName][k].cells == []) ==>
      ExcelData(lib, wb, sheetName) == Threw(NegativeArraySize)
  {
  }

  /** `getExcelData`: skips the first physical row, then for each further
      row allocates an array of `getLastCellNum()` nulls, stores the text of
      every cell at the cell's column index and appends the array. */
  method ReadSheet(lib: Lib, wb: Workbook, sheetName: string) returns (out: ReadOutcome)
    requires wb.Workbook? && sheetName in wb.sheets ==> WellFormedSheet(wb.sheets[sheetName])
    ensures out == ExcelData(lib, wb, sheetName)
  {
    if wb.Unreadable? {
      return Read([]);
    }
    if sheetName !in wb.sheets {
      return Threw(NullPointer);
    }
    var rows := wb.sheets[sheetName];
    if |rows| == 0 {
      return Threw(NoSuchElement);
    }
    var tableData: seq<seq<Value>> := [];
    var r := 1;
    while r < |rows|
      invariant 1 <= r <= |rows|
      invariant forall k :: 1 <= k < r ==> rows[k].cells != []
      invariant |tableData| == r - 1
      invariant forall k :: 0 <= k < r - 1 ==> tableData[k] == PlaceRow(lib, rows[k + 1])
    {
      var row := rows[r];
      var count := LastCellNum(row);
      if count < 0 {
        return Threw(NegativeArraySize);
      }
      var tableRow := new Value[count](_ => Null);
      var j := 0;
      while j < |row.cells|
        invariant 0 <= j <= |row.cells|
        invariant forall c :: 0 <= c < count ==> tableRow[c] == TextAt(lib, row.cells[..j], c)
      {
        var cell := row.cells[j];
        assert cell.col < count by {
          assert ColumnsIncreasing(row.cells);
          if j < |row.cells| - 1 {
            assert cell.col < row.cells[|row.cells| - 1].col;
          }
        }
        forall i | 0 <= i < j ensures row.cells[..j][i].col != cell.col {
          assert row.cells[..j][i] == row.cells[i];
        }
        CellAtAbsent(row.cells[..j], cell.col);
        assert row.cells[..j + 1] == row.cells[..j] + [cell];
        forall c | 0 <= c < count {
          CellAtAppend(row.cells[..j], cell, c);
        }
        tableRow[cell.col] := CellText(lib, cell.kind);
        j := j + 1;
      }
      assert row.cells[..j] == row.cells;
      assert tableRow[..] == PlaceRow(lib, row);
      tableData := tableData + [tableRow[..]];
      r := r + 1;
    }
    out := Read(tableData);
  }

  // ---------------------------------------------------------------------
  // rsh: probing the target table's column types
  // ---------------------------------------------------------------------

  /** What the type-probe handler returns: null for an empty result, else
      the SQL type name of every column in order. */
  function TypesOf(rs: ResultSet): Option<seq<string>> {
    if rs.rows == [] then None
    else Some(seq(|rs.columns|, i requires 0 <= i < |rs.columns| => ColumnTypeName(rs, i + 1)))
  }

  /** The type-probe handler: null when the result has no row, otherwise an
      array holding the type name of column i+1 at position i. */
  method ProbeColumnTypes(rs: ResultSet) returns (types: Option<seq<string>>)
    ensures types.None? <==> rs.rows == []
    ensures types.Some? ==>
      |types.value| == |rs.columns| &&
      forall i :: 0 <= i < |rs.columns| ==> types.value[i] == rs.columns[i].typeName
  {
    if |rs.rows| == 0 {
      return None;
    }
    var arr := new string[|rs.columns|](_ => "");
    for i := 0 to arr.Length
      invariant forall j :: 0 <= j < i ==> arr[j] == ColumnTypeName(rs, j + 1)
    {
      arr[i] := ColumnTypeName(rs, i + 1);
    }
    types := Some(arr[..]);
  }

  // ---------------------------------------------------------------------
  // insertData: converting the rows and building the insert statement
  // ---------------------------------------------------------------------

  /** Runs a sequence of steps in order: the first exception ends it,
      otherwise every value is kept. */
  function Collect<T>(steps: seq<Result<T, Exc>>): Result<seq<T>, Exc> {
    if steps == [] then Ok([])
    else if steps[0].Err? then Err(steps[0].error)
    else match Collect(steps[1..])
      case Err(e) => Err(e)
      case Ok(rest) => Ok([steps[0].value] + rest)
  }

  /** Collecting succeeds exactly when every step does, and then keeps every
      step's value in order. */
  lemma {:induction false} CollectOk<T>(steps: seq<Result<T, Exc>>)
    ensures Collect(steps).Ok? <==> forall i :: 0 <= i < |steps| ==> steps[i].Ok?
    ensures Collect(steps).Ok? ==>
      |Collect(steps).value| == |steps| &&
      forall i :: 0 <= i < |steps| ==> Collect(steps).value[i] == steps[i].value
  {
    if steps != [] {
      CollectOk(steps[1..]);
      if Collect(steps).Ok? {
        var v := Collect(steps).value;
        forall i | 0 <= i < |steps| ensures v[i] == steps[i].value {
          if i > 0 {
            assert steps[1..][i - 1] == steps[i];
          }
        }
      } else if steps[0].Ok? {
        var i :| 0 <= i < |steps[1..]| && steps[1..][i].Err?;
        assert steps[i + 1].Err?;
      }
    }
  }

  /** The first failing step decides the exception. */
  lemma {:induction false} CollectFirstErr<T>(steps: seq<Result<T, Exc>>, i: nat)
    requires i < |steps| && steps[i].Err?
    requires forall j :: 0 <= j < i ==> steps[j].Ok?
    ensures Collect(steps) == Err(steps[i].error)
  {
    if i > 0 {
      forall j | 0 <= j < i - 1 ensures steps[1..][j].Ok? {
        assert steps[1..][j] == steps[j + 1];
      }
      CollectFirstErr(steps[1..], i - 1);
    }
  }

  /** When every failing step fails with the same exception and some step
      fails, collecting fails with that exception. */
  lemma {:induction false} CollectSameErr<T>(steps: seq<Result<T, Exc>>, e: Exc)
    requires forall i :: 0 <= i < |steps| && steps[i].Err? ==> steps[i].error == e
    requires exists i :: 0 <= i < |steps| && steps[i].Err?
    ensures Collect(steps) == Err(e)
  {
    if steps[0].Ok? {
      var i :| 0 <= i < |steps| && steps[i].Err?;
      assert steps[1..][i - 1] == steps[i];
      forall j | 0 <= j < |steps[1..]| && steps[1..][j].Err? ensures steps[1..][j].error == e {
        assert steps[1..][j] == steps[j + 1];
      }
      CollectSameErr(steps[1..], e);
    }
  }

  /** `dataRow[i] = convert(types[i], row[i])`: indexing a null type array
      or reading past its end throws before `convert` runs. */
  function CellStep(lib: Lib, types: Option<seq<string>>, row: seq<Value>, i: nat): Result<Value, Exc>
    requires i < |row|
  {
    if types.None? then Err(NullPointer)
    else if i >= |types.value| then Err(ArrayIndexOutOfBounds)
    else Convert(lib, types.value[i], row[i])
  }

  function CellSteps(lib: Lib, types: Option<seq<string>>, row: seq<Value>): seq<Result<Value, Exc>> {
    seq(|row|, i requires 0 <= i < |row| => CellStep(lib, types, row, i))
  }

  /** The converted row, or the first exception among its cells. */
  function ConvertRow(lib: Lib, types: Option<seq<string>>, row: seq<Value>): Result<seq<Value>, Exc> {
    Collect(CellSteps(lib, types, row))
  }

  function RowSteps(lib: Lib, types: Option<seq<string>>, data: seq<seq<Value>>): seq<Result<seq<Value>, Exc>> {
    seq(|data|, k requires 0 <= k < |data| => ConvertRow(lib, types, data[k]))
  }

  /** The converted rows (`queryParams`), or the first exception. */
  function ConvertAll(lib: Lib, types: Option<seq<string>>, data: seq<seq<Value>>): Result<seq<seq<Value>>, Exc> {
    Collect(RowSteps(lib, types, data))
  }

  /** `n` comma-separated question marks. */
  function Placeholders(n: nat): string
    requires n >= 1
  {
    seq(2 * n - 1, i requires 0 <= i < 2 * n - 1 => if i % 2 == 0 then '?' else ',')
  }

  /** The statement `insertData` issues for rows `width` wide: at least one
      placeholder, as the loop starts from one and adds one per further
      column. */
  function InsertSql(table: string, width: int): string {
    "insert into " + table + " values(" + Placeholders(if width < 1 then 1 else width) + ")"
  }

  /** The number of occurrences of `c` in `s`. */
  function Occurrences(c: char, s: string): nat {
    if s == [] then 0 else (if s[0] == c then 1 else 0) + Occurrences(c, s[1..])
  }

  lemma {:induction false} OccurrencesConcat(c: char, a: string, b: string)
    ensures Occurrences(c, a + b) == Occurrences(c, a) + Occurrences(c, b)
  {
    if a == [] {
      assert a + b == b;
    } else {
      assert (a + b)[1..] == a[1..] + b;
      OccurrencesConcat(c, a[1..], b);
    }
  }

  lemma PlaceholdersGrow(n: nat)
    requires n >= 1
    ensures Placeholders(n + 1) == Placeholders(n) + ",?"
  {
  }

  lemma {:induction false} PlaceholderCount(n: nat)
    requires n >= 1
    ensures Occurrences('?', Placeholders(n)) == n
  {
    if n > 1 {
      PlaceholdersGrow(n - 1);
      PlaceholderCount(n - 1);
      OccurrencesConcat('?', Placeholders(n - 1), ",?");
      assert Occurrences('?', ",?") == 1 by {
        assert ",?"[1..] == "?";
        assert "?"[1..] == "";
      }
    }
  }

  /** The insert statement holds `max(width, 1)` placeholders besides any
      question marks in the table name. */
  lemma InsertSqlPlaceholders(table: string, width: int)
    ensures Occurrences('?', InsertSql(table, width)) ==
      Occurrences('?', table) + (if width < 1 then 1 else width)
  {
    var n := if width < 1 then 1 else width;
    var head, mid, tail := "insert into ", " values(", ")";
    OccurrencesConcat('?', head + table + mid + Placeholders(n), tail);
    OccurrencesConcat('?', head + table + mid, Placeholders(n));
    OccurrencesConcat('?', head + table, mid);
    OccurrencesConcat('?', head, table);
    FixedTextHasNoMarks();
    PlaceholderCount(n);
  }

  lemma FixedTextHasNoMarks()
    ensures Occurrences('?', "insert into ") == 0
    ensures Occurrences('?', " values(") == 0
    ensures Occurrences('?', ")") == 0
  {
    NoOccurrences('?', "insert into ");
    NoOccurrences('?', " values(");
    NoOccurrences('?', ")");
  }

  lemma {:induction false} NoOccurrences(c: char, s: string)
    requires forall i :: 0 <= i < |s| ==> s[i] != c
    ensures Occurrences(c, s) == 0
  {
    if s != [] {
      assert s[0] != c;
      assert forall i :: 0 <= i < |s[1..]| ==> s[1..][i] == s[i + 1];
      NoOccurrences(c, s[1..]);
    }
  }

  /** What `insertData` hands to the batch call, or why it hands nothing. */
  datatype InsertOutcome =
    | NotIssued                                        // an SQLException was caught and logged
    | Escaped(exc: Exc)                                // an unchecked exception left insertData
    | Issued(sql: string, params: seq<seq<Value>>)     // run.batch(conn, sql, params) was called

  /** `insertData(data, dbName, tableName)` up to the batch call: a failed
      probe is caught; otherwise every row is converted with the probed
      types, an empty list fails at `queryParams.get(0)`, and the statement
      is sized by the first converted row. */
  function InsertPlan(lib: Lib, q: QueryOutcome, data: seq<seq<Value>>, table: string): InsertOutcome {
    if q.QueryFailed? then NotIssued
    else match ConvertAll(lib, TypesOf(q.rs), data)
      case Err(e) => Escaped(e)
      case Ok(params) =>
        if params == [] then Escaped(IndexOutOfBounds)
        else Issued(InsertSql(table, |params[0]|), params)
  }

  /** The inner loop of `insertData`: `dataRow[i] = convert(types[i], row[i])`. */
  method ConvertRowValues(lib: Lib, types: Option<seq<string>>, row: seq<Value>) returns (r: Result<seq<Value>, Exc>)
    ensures r == ConvertRow(lib, types, row)
    ensures r.Ok? ==>
      |r.value| == |row| &&
      forall i :: 0 <= i < |row| ==> CellStep(lib, types, row, i) == Ok(r.value[i])
  {
    var steps := CellSteps(lib, types, row);
    var dataRow := new Value[|row|](_ => Null);
    for i := 0 to |row|
      invariant forall j :: 0 <= j < i ==> steps[j].Ok? && dataRow[j] == steps[j].value
    {
      if types.None? {
        CollectFirstErr(steps, i);
        return Err(NullPointer);
      }
      if i >= |types.value| {
        CollectFirstErr(steps, i);
        return Err(ArrayIndexOutOfBounds);
      }
      var converted := Convert(lib, types.value[i], row[i]);
      if converted.Err? {
        CollectFirstErr(steps, i);
        return Err(converted.error);
      }
      dataRow[i] := converted.value;
    }
    CollectOk(steps);
    assert Collect(steps).value == dataRow[..];
    r := Ok(dataRow[..]);
  }

  /** The statement-building part of `insertData`: starts from one
      placeholder and appends `",?"` for every further column. */
  method BuildInsertSql(table: string, width: int) returns (sql: string)
    ensures sql == InsertSql(table, width)
  {
    sql := "insert into " + table + " values(?";
    assert sql == "insert into " + table + " values(" + Placeholders(1);
    var i := 1;
    while i < width
      invariant 1 <= i && (width >= 1 ==> i <= width) && (width < 1 ==> i == 1)
      invariant sql == "insert into " + table + " values(" + Placeholders(i)
    {
      PlaceholdersGrow(i);
      sql := sql + ",?";
      i := i + 1;
    }
    sql := sql + ")";
  }

  /** `insertData`: probes the column types, converts every row in order,
      copies the converted rows into the parameter array and builds the
      statement. The batch call itself and its per-row counts are outside
      the model. */
  method InsertData(lib: Lib, q: QueryOutcome, data: seq<seq<Value>>, table: string) returns (out: InsertOutcome)
    ensures out == InsertPlan(lib, q, data, table)
  {
    if q.QueryFailed? {
      return NotIssued;
    }
    var types := ProbeColumnTypes(q.rs);
    if types.Some? {
      assert types.value == TypesOf(q.rs).value;
    }
    var steps := RowSteps(lib, types, data);
    var queryParams: seq<seq<Value>> := [];
    for k := 0 to |data|
      invariant |queryParams| == k
      invariant forall j :: 0 <= j < k ==> steps[j] == Ok(queryParams[j])
    {
      var converted := ConvertRowValues(lib, types, data[k]);
      if converted.Err? {
        CollectFirstErr(steps, k);
        return Escaped(converted.error);
      }
      queryParams := queryParams + [converted.value];
    }
    CollectOk(steps);
    assert Collect(steps).value == queryParams;
    if |queryParams| == 0 {
      return Escaped(IndexOutOfBounds);
    }
    var params := new seq<Value>[|queryParams|](_ => []);
    for i := 0 to |queryParams|
      invariant forall j :: 0 <= j < i ==> params[j] == queryParams[j]
    {
      params[i] := queryParams[i];
    }
    var sql := BuildInsertSql(table, |queryParams[0]|);
    out := Issued(sql, params[..]);
  }

  /** An issued insert carries one converted row per input row, each as
      long as its input row, with `convert(types[i], row[i])` at position
      i, and a statement sized by the first row. */
  lemma InsertPlanIssued(lib: Lib, q: QueryOutcome, data: seq<seq<Value>>, table: string)
    requires InsertPlan(lib, q, data, table).Issued?
    ensures var out := InsertPlan(lib, q, data, table);
      && q.QueryOk?
      && |out.params| == |data| > 0
      && out.sql == InsertSql(table, |data[0]|)
      && (forall k :: 0 <= k < |data| ==> |out.params[k]| == |data[k]|)
      && (forall k, i :: 0 <= k < |data| && 0 <= i < |data[k]| ==>
            CellStep(lib, TypesOf(q.rs), data[k], i) == Ok(out.params[k][i]))
  {
    var types := TypesOf(q.rs);
    var out := InsertPlan(lib, q, data, table);
    var steps := RowSteps(lib, types, data);
    CollectOk(steps);
    forall k | 0 <= k < |data|
      ensures |out.params[k]| == |data[k]|
      ensures forall i :: 0 <= i < |data[k]| ==> CellStep(lib, types, data[k], i) == Ok(out.params[k][i])
    {
      assert steps[k].Ok?;
      CollectOk(CellSteps(lib, types, data[k]));
    }
  }

  /** With a probed type array, a cell step that succeeds is `convert` with
      the column's type name. */
  lemma ProbedStepIsConvert(lib: Lib, rs: ResultSet, row: seq<Value>, i: nat)
    requires rs.rows != [] && i < |row| && CellStep(lib, TypesOf(rs), row, i).Ok?
    ensures i < |rs.columns| && CellStep(lib, TypesOf(rs), row, i) == Convert(lib, rs.columns[i].typeName, row[i])
  {
  }

  /** With rows all `width` wide, every parameter row fills exactly the
      statement's placeholders. */
  lemma InsertPlanUniformWidth(lib: Lib, q: QueryOutcome, data: seq<seq<Value>>, table: string, width: nat)
    requires InsertPlan(lib, q, data, table).Issued? && width >= 1
    requires forall k :: 0 <= k < |data| ==> |data[k]| == width
    ensures var out := InsertPlan(lib, q, data, table);
      forall k :: 0 <= k < |out.params| ==>
        Occurrences('?', out.sql) == Occurrences('?', table) + |out.params[k]|
  {
    InsertPlanIssued(lib, q, data, table);
    InsertSqlPlaceholders(table, width);
  }

  /** An empty data list fails at `queryParams.get(0)` before any insert. */
  lemma InsertPlanEmptyData(lib: Lib, q: QueryOutcome, table: string)
    requires q.QueryOk?
    ensures InsertPlan(lib, q, [], table) == Escaped(IndexOutOfBounds)
  {
  }

  /** An empty target table makes the probe return null, so the first cell
      to convert throws a `NullPointerException`: the insert is issued only
      when every row is empty. */
  lemma InsertPlanEmptyTable(lib: Lib, q: QueryOutcome, data: seq<seq<Value>>, table: string)
    requires q.QueryOk? && q.rs.rows == []
    ensures (exists k :: 0 <= k < |data| && data[k] != []) <==>
      InsertPlan(lib, q, data, table) == Escaped(NullPointer)
  {
    var steps := RowSteps(lib, None, data);
    forall k | 0 <= k < |data|
      ensures data[k] != [] ==> steps[k] == Err(NullPointer)
      ensures data[k] == [] ==> steps[k] == Ok([])
    {
      var cells := CellSteps(lib, None, data[k]);
      if data[k] != [] {
        CollectFirstErr(cells, 0);
      } else {
        assert cells == [];
      }
    }
    if exists k :: 0 <= k < |data| && data[k] != [] {
      var k :| 0 <= k < |data| && data[k] != [];
      CollectSameErr(steps, NullPointer);
    } else {
      CollectOk(steps);
    }
  }
}

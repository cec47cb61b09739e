# DatabaseExcelParser in Dafny

A model of the two transfer directions of DatabaseExcelParser, a small Java
tool that copies a database table to an `.xlsx` sheet and back, and proofs of
what its code does with the data on the way.

* **Import** (`ExcelToDb`, `excel_to_db.dfy`):
  * `getExcelData` reads a sheet as rows of text. It skips the header row and
    puts each cell at its column index, in an array sized by the row's
    last-cell number.
  * The `rsh` handler probes the target table's SQL type names.
  * `convert` dispatches on the column's SQL type name. Only the
    NUMERIC/DECIMAL, FLOAT/DOUBLEPRECISION and TIME branches parse text; the
    BIT, TINYINT, SMALLINT, INTEGER, BIGINT, REAL, DATE and TIMESTAMP branches
    only cast, so they reject every text cell with a `ClassCastException`.
    Any other type name gives the item's `toString`.
  * `insertData` converts every row and builds the
    `insert into T values(?,…)` statement handed to the batch call.
* **Export** (`DbToExcel`, `db_to_excel.dfy`):
  * `getTableData`, its `rsh` handler, `getMetaData` and `getData` turn a
    result set into column names and rows.
  * `writeTableToExcel` lays them out on a new sheet. Each heading goes to
    `metaData.indexOf(heading)`, each data row to sheet row
    `tableData.indexOf(row)+1`, and each value to column `row.indexOf(value)`.
    The cell kind is chosen by the value's runtime class. Because positions
    come from `indexOf`, equal rows, equal headings and equal values within a
    row are all written at their first occurrence's position.

Shared vocabulary lives in `values.dfy` (module `Values`):
* Java runtime values, with Java's `equals` modelled as structural equality;
* spreadsheet cell kinds;
* the unchecked exceptions that can end an operation;
* JDBC result sets as plain values.

Number and time parsing, `toString` of numbers and dates, and the spreadsheet
engine's rendering of numeric cells are parameters (the `Lib` record): the
model fixes when they are called and what happens when they fail, not what
they compute.

Some of what the code does is easy to miss; the model follows the code:
* A failed conversion (`NumberFormatException`, `ClassCastException`,
  `IllegalArgumentException`) is not caught by `insertData`. Its only catches
  are for `SQLException` and `ParseException`, and `convert` never throws the
  latter, so the exception leaves `insertData` (`InsertPlan` gives `Escaped`).
* For an empty target table, the type probe logs the empty result and
  returns null; `insertData` then carries on, and the first cell to convert
  throws a `NullPointerException` (`ExcelToDb.InsertPlanEmptyTable`).
* Headings and data rows do not always land at their own index; they go where
  `indexOf` puts them (see above).
* A row array has `getLastCellNum()` positions, one more than the last cell's
  column index.

## Model

| member | source | states |
|---|---|---|
| ExcelToDb.Convert | src/com/tableextractor/main/ExcelToDb.java:160-209 | a null item converts to null under every type name, unknown ones included; a null result comes only from a null item; a failure needs a non-null item and a type name with a cast or parse branch |
| ExcelToDb.ConvertPairedBranchesAgree | src/com/tableextractor/main/ExcelToDb.java:165-194 | NUMERIC and DECIMAL, FLOAT and DOUBLEPRECISION, and TINYINT, SMALLINT and INTEGER give the same outcome on every item |
| ExcelToDb.ConvertParsesText | src/com/tableextractor/main/ExcelToDb.java:165-199 | on text, NUMERIC/DECIMAL give the parsed decimal, FLOAT/DOUBLEPRECISION the parsed double and TIME the parsed time; each fails with its own exception exactly when the parser rejects the text |
| ExcelToDb.ConvertParseNeedsText | src/com/tableextractor/main/ExcelToDb.java:165-194 | the decimal and double branches cast to String first, so any other non-null item fails with a cast error |
| ExcelToDb.ConvertCastOnly | src/com/tableextractor/main/ExcelToDb.java:171-203 | BIT, TINYINT, SMALLINT, INTEGER, BIGINT, REAL, DATE and TIMESTAMP succeed exactly on an item of the matching class (DATE also takes Time and Timestamp) and return it unchanged; a String always fails with a cast error |
| ExcelToDb.ConvertUnknownType | src/com/tableextractor/main/ExcelToDb.java:204-206 | any other type name gives the item's toString, so text comes back unchanged |
| ExcelToDb.CellText | src/com/tableextractor/main/ExcelToDb.java:63-80 | a blank cell is read as "", a numeric cell as the engine's rendering of its number, a boolean cell as "true"/"false", a string cell as its text; the result is null exactly for the other kinds |
| ExcelToDb.PlaceRowCell | src/com/tableextractor/main/ExcelToDb.java:59-78 | every cell of a data row is stored in the row array at its own column index, as its text |
| ExcelToDb.PlaceRowGap | src/com/tableextractor/main/ExcelToDb.java:59-60 | a position of the row array that no cell occupies stays null |
| ExcelToDb.ExcelDataRows | src/com/tableextractor/main/ExcelToDb.java:54-83 | a sheet read succeeds with exactly one array per physical row after the first, in sheet order, each getLastCellNum() long |
| ExcelToDb.ExcelDataEdgeCases | src/com/tableextractor/main/ExcelToDb.java:44-93 | an unreadable workbook and a header-only sheet give an empty list, never null; a missing sheet, an empty sheet and a data row without cells throw (NullPointer, NoSuchElement, NegativeArraySize) |
| ExcelToDb.ReadSheet | src/com/tableextractor/main/ExcelToDb.java:44-93 | the nested row and cell loops, filling a fresh array per row by column index, produce exactly the read that ExcelData specifies |
| ExcelToDb.ProbeColumnTypes | src/com/tableextractor/main/ExcelToDb.java:95-108 | null exactly when the table has no row; otherwise the SQL type name of every column, in column order |
| ExcelToDb.CollectOk | src/com/tableextractor/main/ExcelToDb.java:123-129 | running the conversion steps in order succeeds exactly when every step does, and then keeps every step's value at its position |
| ExcelToDb.CollectFirstErr | src/com/tableextractor/main/ExcelToDb.java:123-129 | the first failing step's exception is the one that ends the loop |
| ExcelToDb.ConvertRowValues | src/com/tableextractor/main/ExcelToDb.java:124-127 | the converted row has the input row's length, with convert(types[i], row[i]) at position i, or it is the first exception among the cells |
| ExcelToDb.BuildInsertSql | src/com/tableextractor/main/ExcelToDb.java:133-136 | the statement grown by `+= ",?"` from one placeholder is `insert into T values(` followed by max(n,1) comma-separated placeholders and `)` |
| ExcelToDb.PlaceholderCount | src/com/tableextractor/main/ExcelToDb.java:133-136 | the placeholder list for n columns holds exactly n question marks |
| ExcelToDb.InsertSqlPlaceholders | src/com/tableextractor/main/ExcelToDb.java:133-136 | the statement holds max(n,1) placeholders besides any question marks in the table name |
| ExcelToDb.InsertData | src/com/tableextractor/main/ExcelToDb.java:115-152 | probing, converting every row in order, copying into the parameter array and building the statement give exactly the outcome InsertPlan specifies |
| ExcelToDb.InsertPlanIssued | src/com/tableextractor/main/ExcelToDb.java:122-136 | an issued insert has one parameter row per data row, each as long as its data row and holding the converted cells, and a statement sized by the first row |
| ExcelToDb.ProbedStepIsConvert | src/com/tableextractor/main/ExcelToDb.java:122-126 | a successful cell conversion lies within the probed columns and is convert with that column's type name |
| ExcelToDb.InsertPlanUniformWidth | src/com/tableextractor/main/ExcelToDb.java:130-136 | when every row is n ≥ 1 wide, every parameter row fills exactly the statement's placeholders |
| ExcelToDb.InsertPlanEmptyData | src/com/tableextractor/main/ExcelToDb.java:130 | an empty data list fails at queryParams.get(0) before any insert is issued |
| ExcelToDb.InsertPlanEmptyTable | src/com/tableextractor/main/ExcelToDb.java:122-126 | with an empty target table the insert ends in a NullPointerException exactly when some data row is non-empty |
| DbToExcel.GetMetaData | src/com/tableextractor/main/DbToExcel.java:72-79 | exactly column-count names, name i being that of column i+1 |
| DbToExcel.GetData | src/com/tableextractor/main/DbToExcel.java:87-101 | one row per result row in order, each exactly column-count values, value i being that of column i+1 |
| DbToExcel.HandleResultSet | src/com/tableextractor/main/DbToExcel.java:54-64 | null exactly when the result has no row; otherwise the column names and every row |
| DbToExcel.GetTableData | src/com/tableextractor/main/DbToExcel.java:35-52 | null exactly when the query throws an SQLException or the table is empty; otherwise the column names in result order and all rows, each as wide as the column list |
| DbToExcel.IndexOf | src/com/tableextractor/main/DbToExcel.java:117-142 | List.indexOf gives -1 or a position of the list, and a position it gives holds the element |
| DbToExcel.IndexOfFirst | src/com/tableextractor/main/DbToExcel.java:117-142 | an element at position j is found at j or earlier, so indexOf gives its first occurrence |
| DbToExcel.IndexOfAbsent | src/com/tableextractor/main/DbToExcel.java:117-142 | indexOf gives -1 exactly when the element does not occur |
| DbToExcel.CellFor | src/com/tableextractor/main/DbToExcel.java:123-141 | a numeric cell exactly for Integer, Long, Float and Double, a boolean cell exactly for Boolean, a string cell otherwise |
| DbToExcel.CellKinds | src/com/tableextractor/main/DbToExcel.java:123-141 | each numeric class keeps its number, Boolean its flag, String its text; null becomes "" and any other class its toString |
| DbToExcel.PlacedStep | src/com/tableextractor/main/DbToExcel.java:117-118 | writing element n at column indexOf(element) extends the cells of the first n elements to the first n+1 |
| DbToExcel.LayoutStep | src/com/tableextractor/main/DbToExcel.java:120-121 | writing data row k at sheet row indexOf(row)+1 extends the sheet of the first k rows to the first k+1 |
| DbToExcel.SheetWriter.constructor | src/com/tableextractor/main/DbToExcel.java:113-114 | a new sheet has no rows |
| DbToExcel.SheetWriter.CreateRow | src/com/tableextractor/main/DbToExcel.java:121 | creating a row makes an empty row at that index, replacing any row there; nothing else changes |
| DbToExcel.SheetWriter.CreateCell | src/com/tableextractor/main/DbToExcel.java:124 | creating a cell sets that column of that row, replacing any cell there; nothing else changes |
| DbToExcel.WriteRow | src/com/tableextractor/main/DbToExcel.java:115-118 | creating a row and writing each element at its indexOf column leaves exactly the first occurrences' cells in that row |
| DbToExcel.WriteTableToExcel | src/com/tableextractor/main/DbToExcel.java:110-144 | the header loop and the nested row and cell loops build exactly the sheet Layout specifies |
| DbToExcel.PlacedCells | src/com/tableextractor/main/DbToExcel.java:117-142 | every element has a cell at its first occurrence's column, and only first occurrences' columns have cells |
| DbToExcel.PlacedDistinct | src/com/tableextractor/main/DbToExcel.java:117-142 | with distinct elements, element i goes to column i |
| DbToExcel.LayoutRows | src/com/tableextractor/main/DbToExcel.java:115-121 | sheet row 0 holds the headings; sheet row p ≥ 1 exists exactly when data row p-1 is the first of its contents, and then holds its cells |
| DbToExcel.HeadingRow | src/com/tableextractor/main/DbToExcel.java:115-118 | each heading is written at the column of its first occurrence |
| DbToExcel.HeadingRowDistinct | src/com/tableextractor/main/DbToExcel.java:115-118 | distinct headings put heading i at column i |
| DbToExcel.HeadingRowRepeat | src/com/tableextractor/main/DbToExcel.java:115-118 | a repeated heading leaves its own column without a cell |
| DbToExcel.DataRowPlacement | src/com/tableextractor/main/DbToExcel.java:120-121 | data row k lands on sheet row indexOf(row)+1, between 1 and k+1 (never the header row), holding that row's cells; a row equal to an earlier one leaves its own sheet row absent |
| DbToExcel.LayoutDistinctRows | src/com/tableextractor/main/DbToExcel.java:120-121 | with distinct rows the sheet has exactly rows 0 to n, data row k at sheet row k+1 |
| DbToExcel.RowCells | src/com/tableextractor/main/DbToExcel.java:122-142 | each value is at its first occurrence's column with the kind its class selects |
| DbToExcel.RowCellsRepeat | src/com/tableextractor/main/DbToExcel.java:122-142 | a repeated value, repeated nulls included, leaves its own column without a cell |
| DbToExcel.RowCellsDistinct | src/com/tableextractor/main/DbToExcel.java:122-142 | with distinct values, value i is at column i |
| DbToExcel.DuplicateRowsExample | src/com/tableextractor/main/DbToExcel.java:120-142 | two equal rows [7, null, null] give a sheet with rows 0 and 1 only, and row 1 has cells in columns 0 and 1 only |

## Left out

- JDBC connection handling (`Dbcon.getCon`, `QueryRunner.query`, `DbUtils.closeQuietly`): a query is a given `QueryOutcome`, either a result set or a failure standing for an `SQLException`.
- `run.batch` and the inspection of its per-row counts (ExcelToDb.java:137-140): foreign calls; the model stops at the statement and parameters handed to it.
- The `url += dbname` accumulation in `Dbcon.getCon` (Dbcon.java:23), which makes every connection after the first use a longer URL: Dbcon.java is not part of this model.
- Reading and writing `.xlsx` files: a workbook is a given value (`Workbook`, or `Unreadable` for the `IOException` case), and the written sheet is returned as a map from row and column to cell. The file write and its failure are not modelled, including the `NullPointerException` that `out.flush()` throws when the output file cannot be opened.
- The results of `new BigDecimal`, `Double.valueOf`, `Time.valueOf`, `toString` of numbers, decimals and dates, and the spreadsheet engine's text for numeric cells: parameters of `Lib`, not computed.
- `autoSizeColumn` (DbToExcel.java:142) and all logging: no effect on the data.
- DbToExcel.CellFor: keeps the Integer, Long, Float or Double a numeric cell receives rather than the double the spreadsheet stores, so rounding of large longs is not modelled.
- Java equality is structural equality of `Value`. Two cases are not captured: a `Date`, `Time` and `Timestamp` that compare equal across classes, and two NaN floats with different bit patterns, which Java treats as equal.
- `Other` never stands for `java.util.Date`, `java.sql.Timestamp` or a subclass of either, so the DATE and TIMESTAMP casts never accept it; only `Date`, `Time` and `Timestamp` stand for those classes. The import path passes only text or null to `convert`, so this does not affect what an import does.
- Null SQL type names (a `switch` on null throws) and null or non-String column names: type names and column names are strings.
- Sheet-name validity in `createSheet`, and a sheet whose rows or cells the iterators would yield out of column order: `ReadSheet` requires cells in increasing column order.
- The round trip export-then-import: the two directions share no code path, and the import's string coercion is not the inverse of the export's cell kinds.

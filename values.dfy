/**
 * The Java runtime values that travel between a JDBC result set and a
 * spreadsheet sheet, the sheet cell kinds, the exceptions that can end an
 * operation, and the library functions whose content is not modelled.
 */
module Values {
  import opened Wrappers

  newtype int32 = x: int | -0x8000_0000 <= x < 0x8000_0000
  newtype int64 = x: int | -0x8000_0000_0000_0000 <= x < 0x8000_0000_0000_0000

  /** A boxed Java number of one of the four classes written as numeric cells.
      Floating-point numbers are kept as their IEEE bit patterns, which is
      what `Float.equals` and `Double.equals` compare once NaNs are
      canonicalised. */
  datatype Number = I32(i: int32) | I64(l: int64) | F32(fbits: bv32) | F64(dbits: bv64)

  /** A Java `Object` as it appears in a row: `null`, a `String`, a boxed
      primitive, a `BigDecimal` (unscaled value and scale), a `java.sql.Date`,
      `Time` or `Timestamp`, or an object of any other class together with the
      text its `toString` returns. `Other` never stands for `java.util.Date`,
      `java.sql.Timestamp` or a subclass of either, so the casts to those
      classes never accept it. Equality of these values stands for
      Java's `equals`. */
  datatype Value =
    | Null
    | Str(s: string)
    | Bool(b: bool)
    | Int(i: int32)
    | Long(l: int64)
    | Float(fbits: bv32)
    | Double(dbits: bv64)
    | Decimal(unscaled: int, scale: int32)
    | Date(millis: int64)
    | Time(millis: int64)
    | Timestamp(millis: int64, nanos: int32)
    | Other(className: string, text: string)

  /** The kind and content of one spreadsheet cell. */
  datatype CellKind =
    | Blank
    | NumCell(n: Number)
    | BoolCell(flag: bool)
    | StrCell(text: string)
    | FormulaCell
    | ErrorCell

  /** Exceptions that end an operation. */
  datatype Exc =
    | NullPointer
    | ClassCast
    | NumberFormat
    | IllegalArgument
    | ArrayIndexOutOfBounds
    | IndexOutOfBounds
    | NegativeArraySize
    | NoSuchElement

  /** Library behaviour the model leaves uninterpreted: `new BigDecimal(String)`,
      `Double.valueOf(String)`, `Time.valueOf(String)` (each `None` when the
      text is rejected), `toString` of numbers, decimals and dates, and the
      text a numeric cell shows once its type is set to string. */
  datatype Lib = Lib(
    parseDecimal: string -> Option<(int, int32)>,
    parseDouble: string -> Option<bv64>,
    parseTime: string -> Option<int64>,
    show: Value -> string,
    render: Number -> string)

  /** `String.valueOf(boolean)` and `Boolean.toString`. */
  function BoolText(b: bool): string {
    if b then "true" else "false"
  }

  /** `Object.toString` of a non-null value. */
  function ToString(lib: Lib, v: Value): string
    requires !v.Null?
  {
    match v
    case Str(s) => s
    case Bool(b) => BoolText(b)
    case Other(_, text) => text
    case _ => lib.show(v)
  }

  /** One column of a JDBC result set: its label and its SQL type name. */
  datatype Column = Column(name: string, typeName: string)

  /** A fully materialised JDBC result set. */
  datatype ResultSet = ResultSet(columns: seq<Column>, rows: seq<seq<Value>>)

  /** Every row of a result set has one value per column. */
  predicate RowsMatchColumns(rs: ResultSet) {
    forall k :: 0 <= k < |rs.rows| ==> |rs.rows[k]| == |rs.columns|
  }

  /** `ResultSetMetaData.getColumnName(column)`, 1-based. */
  function ColumnName(rs: ResultSet, column: nat): string
    requires 1 <= column <= |rs.columns|
  {
    rs.columns[column - 1].name
  }

  /** `ResultSetMetaData.getColumnTypeName(column)`, 1-based. */
  function ColumnTypeName(rs: ResultSet, column: nat): string
    requires 1 <= column <= |rs.columns|
  {
    rs.columns[column - 1].typeName
  }

  /** `ResultSet.getObject(column)` on row `k`, 1-based. */
  function GetObject(rs: ResultSet, k: nat, column: nat): Value
    requires RowsMatchColumns(rs)
    requires k < |rs.rows| && 1 <= column <= |rs.columns|
  {
    rs.rows[k][column - 1]
  }

  /** What `QueryRunner.query` hands to a handler: the result set of
      `select * from <table>`, or a failure to connect or to run the query
      (an `SQLException`). */
  datatype QueryOutcome = QueryFailed | QueryOk(rs: ResultSet)
}

/**
 The schema-typed table a filter runs over: column types, typed cell values
 (a missing value is a null cell), rows and the schema registry lookup.
 */
module Tables {
  import opened Base

  datatype ColumnType = Integer | Float | String | Boolean | Date | Datetime

  /** A non-null cell value. Date and datetime values are epoch milliseconds
      in the reference zone; a date value is compared by the day it falls in. */
  datatype Value =
    | IntValue(i: int)
    | FloatValue(f: real)
    | StringValue(s: string)
    | BoolValue(b: bool)
    | DateValue(ms: int)
    | DatetimeValue(ms: int)

  function KindOf(v: Value): ColumnType {
    match v
    case IntValue(_) => Integer
    case FloatValue(_) => Float
    case StringValue(_) => String
    case BoolValue(_) => Boolean
    case DateValue(_) => Date
    case DatetimeValue(_) => Datetime
  }

  /** A cell is a value or null. */
  type Cell = Option<Value>

  /** One row: column name to cell. A column the row does not mention is null. */
  type Row = map<string, Cell>

  /** Column name to declared column type. */
  type Schema = map<string, ColumnType>

  datatype Table = Table(schema: Schema, rows: seq<Row>)

  /** The schema registry lookup: the declared type of a column, or None when
      the schema does not know the column. */
  function TypeOf(schema: Schema, column: string): (r: Option<ColumnType>)
    ensures r.Some? <==> column in schema
    ensures r.Some? ==> r.value == schema[column]
  {
    if column in schema then Some(schema[column]) else None
  }

  function CellOf(row: Row, column: string): (c: Cell)
    ensures column !in row ==> c.None?
    ensures column in row ==> c == row[column]
  {
    if column in row then row[column] else None
  }
}

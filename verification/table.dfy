/** The tabular dataset the audit core reads: a pandas DataFrame reduced to its
    ordered column headers, each carrying the dtype pandas inferred for it, and
    its rows.  A row maps a column name to the cell's value; a column missing
    from a row's map holds a null in that row. */
module Table {
  import opened Common
  import opened Values

  /** The dtype pandas inferred for a column, as the tag the `is_*_dtype`
      predicates look at.  `IntegerDtype` covers every signed and unsigned
      width; `OtherDtype` covers timedelta, complex, period and the like. */
  datatype Dtype =
    | IntegerDtype
    | FloatDtype
    | BoolDtype
    | ObjectDtype
    | StringDtype
    | DatetimeDtype
    | CategoryDtype
    | OtherDtype

  datatype Column = Column(name: string, dtype: Dtype)

  type Row = map<string, Value>

  datatype Frame = Frame(columns: seq<Column>, rows: seq<Row>)

  /** `name in df.columns`. */
  predicate HasColumn(df: Frame, name: string)
  {
    exists i :: 0 <= i < |df.columns| && df.columns[i].name == name
  }

  /** The column names in frame order (`list(df.columns)`). */
  function ColumnNames(df: Frame): (r: seq<string>)
    ensures |r| == |df.columns|
    ensures forall i :: 0 <= i < |r| ==> r[i] == df.columns[i].name
  {
    seq(|df.columns|, i requires 0 <= i < |df.columns| => df.columns[i].name)
  }

  /** The first column header of that name, if any. */
  function FindColumn(columns: seq<Column>, name: string): (r: Option<Column>)
    ensures r.Some? <==> exists i :: 0 <= i < |columns| && columns[i].name == name
    ensures r.Some? ==> r.value in columns && r.value.name == name
  {
    if |columns| == 0 then None
    else if columns[0].name == name then Some(columns[0])
    else FindColumn(columns[1..], name)
  }

  /** `df[name].dtype`, for the first column of that name. */
  function DtypeOf(df: Frame, name: string): Dtype
    requires HasColumn(df, name)
  {
    FindColumn(df.columns, name).value.dtype
  }

  function CellOf(row: Row, name: string): Cell
  {
    if name in row then Some(row[name]) else None
  }

  /** `df[name]` as a list of cells, one per row. */
  function Series(rows: seq<Row>, name: string): (r: seq<Cell>)
    ensures |r| == |rows|
    ensures forall i :: 0 <= i < |rows| ==> r[i] == CellOf(rows[i], name)
  {
    seq(|rows|, i requires 0 <= i < |rows| => CellOf(rows[i], name))
  }
}

/**
 * What the upload view gets back from the CSV reader, kept abstract: the
 * reader itself (delimiter handling, dtype inference, float parsing) is not
 * modelled. A parsed table is a sequence of named columns; each column says
 * whether the reader gave it a numeric dtype, holds its cells, and carries the
 * reader's mean of the column as an opaque optional value.
 */
module CsvTable {
  import opened Wrappers

  /** One cell: `Missing` is a field the reader reads as NaN (an empty field, or a text such as `NA`, `N/A`, `null` or `nan`), `Value(text)` the value the reader gives any other field, written as text (after type inference, so `1` and `01` in an integer column are the same value). */
  datatype Cell = Missing | Value(text: string)

  /**
   * `mean` is `float(df[name].mean())` as the record stores it. `None` stands
   * for a mean the record does not hold (a null field). A numeric column whose
   * cells are all empty has the mean NaN, which this type cannot represent.
   */
  datatype Column = Column(name: string, numeric: bool, cells: seq<Cell>, mean: Option<real>)

  /** `rowCount` is `len(df)`, the number of data rows below the header. */
  datatype Table = Table(columns: seq<Column>, rowCount: nat)

  /**
   * The outcome of `pd.read_csv`: a table, or one of the exceptions the view
   * tells apart (`EmptyDataError`, `ParserError`, anything else with its text).
   */
  datatype ParseOutcome =
    | Parsed(table: Table)
    | EmptyData
    | ParserFailure
    | OtherFailure(detail: string)

  /** `df.columns` as a list of names. */
  function Header(t: Table): (h: seq<string>)
    ensures |h| == |t.columns|
    ensures forall i :: 0 <= i < |h| ==> h[i] == t.columns[i].name
  {
    seq(|t.columns|, i requires 0 <= i < |t.columns| => t.columns[i].name)
  }

  /** The reader's invariants: every column has one cell per row and column names are unique. */
  ghost predicate WellFormed(t: Table)
  {
    && (forall i :: 0 <= i < |t.columns| ==> |t.columns[i].cells| == t.rowCount)
    && (forall i, j :: 0 <= i < j < |t.columns| ==> t.columns[i].name != t.columns[j].name)
  }

  /** `df[name]`: the first column with that name, if there is one. */
  function ColumnNamed(t: Table, name: string): (r: Option<Column>)
    ensures r.Some? <==> name in Header(t)
    ensures r.Some? ==> r.value.name == name && r.value in t.columns
  {
    ColumnIn(t.columns, name)
  }

  function ColumnIn(cols: seq<Column>, name: string): (r: Option<Column>)
    ensures r.Some? <==> exists i :: 0 <= i < |cols| && cols[i].name == name
    ensures r.Some? ==> r.value.name == name && r.value in cols
  {
    if |cols| == 0 then None
    else if cols[0].name == name then Some(cols[0])
    else
      var r := ColumnIn(cols[1..], name);
      assert forall i :: 1 <= i < |cols| ==> cols[i] == cols[1..][i - 1];
      r
  }
}

/**
 * The statistics the upload view computes once validation has passed: the
 * row count, the three column means (kept opaque, as the reader gives them)
 * and the `value_counts` histogram of the `Type` column.
 */
module Statistics {
  import opened Wrappers
  import opened CsvTable
  import opened Validation

  datatype Summary = Summary(
    totalCount: nat,
    avgFlowrate: Option<real>,
    avgPressure: Option<real>,
    avgTemperature: Option<real>,
    equipmentTypes: map<string, nat>)

  /**
   * `value_counts().to_dict()`: one key per distinct non-missing value, mapped
   * to its number of occurrences. Missing cells are dropped, as pandas does by
   * default; the frequency order of the keys is not kept.
   */
  function Histogram(cells: seq<Cell>): (r: map<string, nat>)
    ensures forall v :: v in r <==> Value(v) in cells
    ensures forall v :: v in r ==> r[v] == multiset(cells)[Value(v)]
  {
    if cells == [] then map[]
    else
      var init, last := cells[..|cells| - 1], cells[|cells| - 1];
      assert cells == init + [last];
      var counts := Histogram(init);
      match last
      case Missing => counts
      case Value(v) => counts[v := if v in counts then counts[v] + 1 else 1]
  }

  /** The cells of a column the view has already checked to be present. */
  function CellsOf(t: Table, name: string): seq<Cell>
  {
    match ColumnNamed(t, name)
    case Some(col) => col.cells
    case None => []
  }

  function MeanOf(t: Table, name: string): Option<real>
  {
    match ColumnNamed(t, name)
    case Some(col) => col.mean
    case None => None
  }

  /** The `summary` of a table that passed validation. */
  function Summarize(t: Table): (s: Summary)
    requires forall c :: c in RequiredColumns ==> c in Header(t)
    ensures s.totalCount == t.rowCount
    ensures forall v :: v in s.equipmentTypes <==> Value(v) in ColumnNamed(t, "Type").value.cells
    ensures forall v :: v in s.equipmentTypes ==>
              s.equipmentTypes[v] == multiset(ColumnNamed(t, "Type").value.cells)[Value(v)]
    ensures ColumnNamed(t, "Flowrate").Some? && s.avgFlowrate == ColumnNamed(t, "Flowrate").value.mean
    ensures ColumnNamed(t, "Pressure").Some? && s.avgPressure == ColumnNamed(t, "Pressure").value.mean
    ensures ColumnNamed(t, "Temperature").Some? && s.avgTemperature == ColumnNamed(t, "Temperature").value.mean
  {
    RequiredPresent(t);
    Summary(
      t.rowCount,
      MeanOf(t, "Flowrate"),
      MeanOf(t, "Pressure"),
      MeanOf(t, "Temperature"),
      Histogram(CellsOf(t, "Type")))
  }

  /** A table that passed validation has the four columns the summary reads. */
  lemma RequiredPresent(t: Table)
    requires forall c :: c in RequiredColumns ==> c in Header(t)
    ensures ColumnNamed(t, "Type").Some? && ColumnNamed(t, "Flowrate").Some?
    ensures ColumnNamed(t, "Pressure").Some? && ColumnNamed(t, "Temperature").Some?
  {
    assert RequiredColumns[1] == "Type" && RequiredColumns[2] == "Flowrate";
    assert RequiredColumns[3] == "Pressure" && RequiredColumns[4] == "Temperature";
  }

  /** In a well-formed table each type occurs at least once and at most once per row. */
  lemma HistogramCountsBounded(t: Table)
    requires WellFormed(t)
    requires forall c :: c in RequiredColumns ==> c in Header(t)
    ensures forall v :: v in Summarize(t).equipmentTypes ==>
              1 <= Summarize(t).equipmentTypes[v] <= Summarize(t).totalCount
  {
  }
}

/**
 * The decisions of the report action: which record it renders (or why it
 * answers with an error), the summary table's value cells with their `N/A`
 * placeholder, and the attachment's file name. The PDF layout itself and the
 * "generated at" time are not modelled.
 */
module Report {
  import opened Wrappers
  import opened Text
  import opened Retention

  const Placeholder: string := "N/A"
  const NotFoundMessage: string := "Dataset not found"
  const RenderFailedMessage: string := "Error generating report. Please try again."

  /** A value cell: literal text, or a number that is printed with two decimals (`:.2f`). */
  datatype ValueCell = Literal(text: string) | TwoDecimals(x: real)

  /**
   * `f'{avg:.2f}' if avg else 'N/A'`: the placeholder for an absent average and
   * also for 0.0, which Python treats as false.
   */
  function AverageCell(avg: Option<real>): (c: ValueCell)
    ensures c == Literal(Placeholder) <==> avg.None? || avg.value == 0.0
    ensures c.TwoDecimals? <==> avg.Some? && avg.value != 0.0
    ensures c.TwoDecimals? ==> avg == Some(c.x)
  {
    if avg.Some? && avg.value != 0.0 then TwoDecimals(avg.value) else Literal(Placeholder)
  }

  /**
   * The rows of the summary table, header row first. The count cell shows the
   * record's count exactly (it reads back as the stored number), and each
   * average cell is the placeholder exactly when that average is absent or zero.
   */
  function SummaryRows(d: Dataset): (rows: seq<(string, ValueCell)>)
    ensures |rows| == 5
    ensures rows[1].1.Literal?
    ensures forall i :: 0 <= i < |rows[1].1.text| ==> IsDigit(rows[1].1.text[i])
    ensures ParseNat(rows[1].1.text) == d.totalCount
    ensures rows[1] == ("Total Equipment", Literal(NatToString(d.totalCount)))
    ensures rows[1].1.text != [] && (rows[1].1.text[0] == '0' <==> d.totalCount == 0)
    ensures rows[2].1 == Literal(Placeholder) <==> d.avgFlowrate.None? || d.avgFlowrate.value == 0.0
    ensures rows[3].1 == Literal(Placeholder) <==> d.avgPressure.None? || d.avgPressure.value == 0.0
    ensures rows[4].1 == Literal(Placeholder) <==> d.avgTemperature.None? || d.avgTemperature.value == 0.0
    ensures rows[0] == ("Metric", Literal("Value")) && rows[1].0 == "Total Equipment"
    ensures rows[2] == ("Average Flowrate", AverageCell(d.avgFlowrate))
    ensures rows[3] == ("Average Pressure", AverageCell(d.avgPressure))
    ensures rows[4] == ("Average Temperature", AverageCell(d.avgTemperature))
  {
    ParseNatToString(d.totalCount);
    [ ("Metric", Literal("Value")),
      ("Total Equipment", Literal(NatToString(d.totalCount))),
      ("Average Flowrate", AverageCell(d.avgFlowrate)),
      ("Average Pressure", AverageCell(d.avgPressure)),
      ("Average Temperature", AverageCell(d.avgTemperature)) ]
  }

  /** A zero average is shown as the placeholder, like a missing one. */
  lemma ZeroAverageShownAsPlaceholder(d: Dataset)
    requires d.avgPressure == Some(0.0)
    ensures SummaryRows(d)[3] == ("Average Pressure", Literal(Placeholder))
  {
  }

  /** `equipment_report_<id>.pdf`. */
  function Filename(id: nat): (f: string)
    ensures |f| > 21 && f[..17] == "equipment_report_" && f[|f| - 4..] == ".pdf"
    ensures f[17..|f| - 4] == NatToString(id)
  {
    "equipment_report_" + NatToString(id) + ".pdf"
  }

  /** Different records get different attachment names. */
  lemma FilenameIdentifiesRecord(a: nat, b: nat)
    requires Filename(a) == Filename(b)
    ensures a == b
  {
    assert NatToString(a) == Filename(a)[17..|Filename(a)| - 4];
    NatToStringInjective(a, b);
  }

  /** The exceptions the report action can see when it looks the record up. */
  datatype LookupError = DoesNotExist | Http404

  datatype Lookup = Found(dataset: Dataset) | Raised(error: LookupError)

  /**
   * `self.get_object()`: the view set's lookup by primary key. For an id that
   * is not in the store it raises `Http404` (the framework's
   * `get_object_or_404`), not the model's `DoesNotExist`.
   */
  function GetObject(records: seq<Dataset>, pk: nat): (r: Lookup)
    ensures r.Found? <==> pk in Ids(records)
    ensures r.Found? ==> r.dataset in records && r.dataset.id == pk
    ensures r.Raised? ==> r.error == Http404
  {
    if records == [] then Raised(Http404)
    else if records[0].id == pk then Found(records[0])
    else
      var r := GetObject(records[1..], pk);
      assert Ids(records) == {records[0].id} + Ids(records[1..]) by {
        assert forall e :: e in records <==> e == records[0] || e in records[1..];
      }
      r
  }

  datatype ReportResponse =
    | Pdf(filename: string, rows: seq<(string, ValueCell)>)
    | ReportError(status: nat, error: string)

  /**
   * The exception handling of the report action as written, for any lookup
   * outcome: only `DoesNotExist` is answered with 404; every other exception,
   * `Http404` included, falls to the generic 500 branch. `rendered` is false
   * when building the document raises.
   */
  function ClassifyAsWritten(lookup: Lookup, rendered: bool): (r: ReportResponse)
    ensures r == ReportError(404, NotFoundMessage) <==> lookup == Raised(DoesNotExist)
    ensures r.Pdf? <==> lookup.Found? && rendered
    ensures r.Pdf? ==> r.filename == Filename(lookup.dataset.id)
    ensures r.ReportError? && lookup != Raised(DoesNotExist) ==> r == ReportError(500, RenderFailedMessage)
  {
    match lookup
    case Found(d) =>
      if rendered then Pdf(Filename(d.id), SummaryRows(d)) else ReportError(500, RenderFailedMessage)
    case Raised(DoesNotExist) => ReportError(404, NotFoundMessage)
    case Raised(Http404) => ReportError(500, RenderFailedMessage)
  }

  /** The report action as written: the framework's lookup, then the handlers above. */
  function GenerateReportAsWritten(records: seq<Dataset>, pk: nat, rendered: bool): (r: ReportResponse)
    ensures r.Pdf? <==> pk in Ids(records) && rendered
    ensures r.Pdf? ==> r.filename == Filename(pk)
    ensures r.ReportError? ==> r == ReportError(500, RenderFailedMessage)
  {
    ClassifyAsWritten(GetObject(records, pk), rendered)
  }

  /** As written, an unknown id is answered with the internal-error response, never with 404. */
  lemma UnknownIdIsInternalErrorAsWritten(records: seq<Dataset>, pk: nat, rendered: bool)
    requires pk !in Ids(records)
    ensures GenerateReportAsWritten(records, pk, rendered) == ReportError(500, RenderFailedMessage)
    ensures forall p: nat, r: bool :: GenerateReportAsWritten(records, p, r) != ReportError(404, NotFoundMessage)
  {
  }

  /**
   * The report action with the lookup failure classified as intended: either
   * lookup exception answers 404, and only a failure to build the document
   * answers 500.
   */
  function GenerateReport(records: seq<Dataset>, pk: nat, rendered: bool): (r: ReportResponse)
    ensures r == ReportError(404, NotFoundMessage) <==> pk !in Ids(records)
    ensures r == ReportError(500, RenderFailedMessage) <==> pk in Ids(records) && !rendered
    ensures r.Pdf? <==> pk in Ids(records) && rendered
    ensures r.Pdf? ==> r.filename == Filename(pk)
                       && exists d :: d in records && d.id == pk && r.rows == SummaryRows(d)
  {
    match GetObject(records, pk)
    case Found(d) =>
      if rendered then Pdf(Filename(d.id), SummaryRows(d)) else ReportError(500, RenderFailedMessage)
    case Raised(_) => ReportError(404, NotFoundMessage)
  }
}

/**
 * The ordered checks of the upload view. They run in a fixed order and the
 * first failure decides the answer: a file is present, its name ends with
 * `.csv`, the reader parsed it (an empty file and an unparseable file are
 * different errors, any other reader exception is a server error), every
 * required column is present, and each numeric column has a numeric dtype.
 */
module Validation {
  import opened Wrappers
  import opened Text
  import opened CsvTable

  const RequiredColumns: seq<string> := ["Equipment Name", "Type", "Flowrate", "Pressure", "Temperature"]
  const NumericColumns: seq<string> := ["Flowrate", "Pressure", "Temperature"]

  /**
   * The `file` field of the multipart request. `name` is the name Django gives
   * the uploaded file: the client's file name reduced to its base name.
   */
  datatype UploadedFile = UploadedFile(name: string)

  datatype UploadError =
    | NoFile
    | NotCsv
    | EmptyFile
    | MalformedCsv
    | MissingColumns(columns: seq<string>)
    | NotNumeric(column: string)
    | Unexpected(detail: string)

  // The texts are the view's own: "Invalid file format. Please upload a CSV
  // file." and "Invalid CSV format. Please check your file.". Each is written
  // as two halves only so that the proofs can read its characters.
  const NotCsvMessage: string := "Invalid file format." + " Please upload a CSV file."
  const MalformedMessage: string := "Invalid CSV format." + " Please check your file."
  const MissingPrefix: string := "Missing required columns: "
  const NotNumericPrefix: string := "Column \""
  const NotNumericSuffix: string := "\" must contain numeric values"
  const UnexpectedPrefix: string := "Error processing file: "

  /** The `error` text of the response. Its opening words tell which check failed. */
  function Message(e: UploadError): (m: string)
    ensures e.NoFile? <==> m == "No file provided"
    ensures e.NotCsv? <==> m == NotCsvMessage
    ensures e.EmptyFile? <==> m == "CSV file is empty"
    ensures e.MalformedCsv? <==> m == MalformedMessage
    ensures e.MissingColumns? <==> StartsWith(m, MissingPrefix)
    ensures e.NotNumeric? <==> StartsWith(m, NotNumericPrefix)
    ensures e.Unexpected? <==> StartsWith(m, UnexpectedPrefix)
    ensures e.MissingColumns? ==> m == MissingPrefix + Join(e.columns, ", ")
    ensures e.NotNumeric? ==> m == NotNumericPrefix + e.column + NotNumericSuffix
    ensures e.Unexpected? ==> m == UnexpectedPrefix + e.detail
  {
    match e
    case NoFile =>
      var m := "No file provided";
      Openings(m);
      m
    case NotCsv =>
      var m := NotCsvMessage;
      Openings(m);
      m
    case EmptyFile =>
      var m := "CSV file is empty";
      Openings(m);
      m
    case MalformedCsv =>
      var m := MalformedMessage;
      Openings(m);
      m
    case MissingColumns(cols) =>
      var m := MissingPrefix + Join(cols, ", ");
      assert m[..|MissingPrefix|] == MissingPrefix;
      Openings(m);
      m
    case NotNumeric(col) =>
      var m := NotNumericPrefix + col + NotNumericSuffix;
      assert m[..|NotNumericPrefix|] == NotNumericPrefix;
      Openings(m);
      m
    case Unexpected(detail) =>
      var m := UnexpectedPrefix + detail;
      assert m[..|UnexpectedPrefix|] == UnexpectedPrefix;
      Openings(m);
      m
  }

  /** The characters that set each message apart from the others. */
  lemma Openings(m: string)
    ensures m == "No file provided" ==> m[0] == 'N'
    ensures m == NotCsvMessage ==> |m| > 8 && m[0] == 'I' && m[8] == 'f'
    ensures m == "CSV file is empty" ==> |m| > 1 && m[0] == 'C' && m[1] == 'S'
    ensures m == MalformedMessage ==> |m| > 8 && m[0] == 'I' && m[8] == 'C'
    ensures StartsWith(m, MissingPrefix) ==> m[0] == 'M'
    ensures StartsWith(m, NotNumericPrefix) ==> |m| > 1 && m[0] == 'C' && m[1] == 'o'
    ensures StartsWith(m, UnexpectedPrefix) ==> m[0] == 'E'
  {
  }

  /** A missing-columns error that lists non-empty, comma-free names, as the view's always do. */
  predicate Readable(e: UploadError)
  {
    e.MissingColumns? ==> CommaFreeItems(e.columns)
  }

  /** The error text identifies the error: which check failed, and which columns it names. */
  lemma MessageDeterminesError(e1: UploadError, e2: UploadError)
    requires Readable(e1) && Readable(e2)
    requires Message(e1) == Message(e2)
    ensures e1 == e2
  {
    var m := Message(e1);
    match e1
    case MissingColumns(c1) =>
      var c2 := e2.columns;
      assert Join(c1, ", ") == m[|MissingPrefix|..] == Join(c2, ", ");
      JoinInjective(c1, c2);
    case NotNumeric(c1) =>
      assert c1 == m[|NotNumericPrefix|..|m| - |NotNumericSuffix|] == e2.column;
    case Unexpected(d1) =>
      assert d1 == m[|UnexpectedPrefix|..] == e2.detail;
    case _ =>
  }

  /** Client errors are answered with 400; an unexpected exception with 500. */
  function StatusCode(e: UploadError): (code: nat)
    ensures code == 400 || code == 500
    ensures code == 500 <==> e.Unexpected?
  {
    if e.Unexpected? then 500 else 400
  }

  /** `if not file`: no field at all, or a file object whose name is empty (it is falsy). */
  predicate HasFile(file: Option<UploadedFile>)
  {
    file.Some? && file.value.name != ""
  }

  /** The column exists and the reader gave it a numeric dtype. */
  predicate NumericIn(t: Table, name: string)
  {
    ColumnNamed(t, name).Some? && ColumnNamed(t, name).value.numeric
  }

  /** `xs` occurs in `ys` in the same order, possibly with gaps (greedy matching). */
  predicate IsSubsequence(xs: seq<string>, ys: seq<string>)
  {
    if xs == [] then true
    else if ys == [] then false
    else if xs[0] == ys[0] then IsSubsequence(xs[1..], ys[1..])
    else IsSubsequence(xs, ys[1..])
  }

  /** `[col for col in cols if col not in header]`. */
  function Absent(cols: seq<string>, header: seq<string>): (r: seq<string>)
    ensures forall c :: c in r <==> c in cols && c !in header
    ensures IsSubsequence(r, cols)
  {
    if cols == [] then []
    else
      var rest := Absent(cols[1..], header);
      if cols[0] in header then
        assert rest == [] || rest[0] != cols[0];
        rest
      else
        var r := [cols[0]] + rest;
        assert r[1..] == rest;
        r
  }

  /** The first of `cols` whose column is not numeric; the loop stops there. */
  function FirstNonNumeric(t: Table, cols: seq<string>): (r: Option<string>)
    ensures r.None? <==> forall i :: 0 <= i < |cols| ==> NumericIn(t, cols[i])
    ensures r.Some? ==> exists i :: 0 <= i < |cols| && cols[i] == r.value && !NumericIn(t, cols[i])
                                    && forall j :: 0 <= j < i ==> NumericIn(t, cols[j])
  {
    if cols == [] then None
    else if !NumericIn(t, cols[0]) then Some(cols[0])
    else
      var r := FirstNonNumeric(t, cols[1..]);
      assert forall i :: 1 <= i < |cols| ==> cols[i] == cols[1..][i - 1];
      if r.Some? then
        var k :| 0 <= k < |cols[1..]| && cols[1..][k] == r.value && !NumericIn(t, cols[1..][k])
                 && forall j :: 0 <= j < k ==> NumericIn(t, cols[1..][j]);
        assert cols[k + 1] == r.value;
        r
      else
        r
  }

  /** When an upload passes every check, stated without the order of the checks. */
  ghost predicate Acceptable(file: Option<UploadedFile>, parse: ParseOutcome)
  {
    && HasFile(file)
    && EndsWith(file.value.name, ".csv")
    && parse.Parsed?
    && (forall c :: c in RequiredColumns ==> c in Header(parse.table))
    && (forall c :: c in NumericColumns ==> NumericIn(parse.table, c))
  }

  /** The validation chain of the upload view, up to the point where statistics are computed. */
  function Validate(file: Option<UploadedFile>, parse: ParseOutcome): (r: Result<Table, UploadError>)
    ensures r.Ok? <==> Acceptable(file, parse)
    ensures r.Ok? ==> parse == Parsed(r.value)
    ensures r == Err(NoFile) <==> !HasFile(file)
    ensures r == Err(NotCsv) <==> HasFile(file) && !EndsWith(file.value.name, ".csv")
    ensures r == Err(EmptyFile) <==> HasFile(file) && EndsWith(file.value.name, ".csv") && parse.EmptyData?
    ensures r == Err(MalformedCsv) <==> HasFile(file) && EndsWith(file.value.name, ".csv") && parse.ParserFailure?
    ensures (r.Err? && r.error.Unexpected?) <==> HasFile(file) && EndsWith(file.value.name, ".csv") && parse.OtherFailure?
    ensures r.Err? && r.error.Unexpected? ==> r.error.detail == parse.detail
    ensures HasFile(file) && EndsWith(file.value.name, ".csv") && parse.Parsed?
              && Absent(RequiredColumns, Header(parse.table)) != [] ==>
              r == Err(MissingColumns(Absent(RequiredColumns, Header(parse.table))))
    ensures HasFile(file) && EndsWith(file.value.name, ".csv") && parse.Parsed?
              && Absent(RequiredColumns, Header(parse.table)) == []
              && FirstNonNumeric(parse.table, NumericColumns).Some? ==>
              r == Err(NotNumeric(FirstNonNumeric(parse.table, NumericColumns).value))
    ensures r.Err? && r.error.MissingColumns? ==>
              && parse.Parsed?
              && r.error.columns != []
              && IsSubsequence(r.error.columns, RequiredColumns)
              && (forall c :: c in r.error.columns <==> c in RequiredColumns && c !in Header(parse.table))
    ensures r.Err? && r.error.NotNumeric? ==>
              && parse.Parsed?
              && (forall c :: c in RequiredColumns ==> c in Header(parse.table))
              && r.error.column in NumericColumns
              && !NumericIn(parse.table, r.error.column)
  {
    if !HasFile(file) then Err(NoFile)
    else if !EndsWith(file.value.name, ".csv") then Err(NotCsv)
    else match parse
      case EmptyData => Err(EmptyFile)
      case ParserFailure => Err(MalformedCsv)
      case OtherFailure(detail) => Err(Unexpected(detail))
      case Parsed(t) =>
        var missing := Absent(RequiredColumns, Header(t));
        if missing != [] then
          assert missing[0] in missing;
          Err(MissingColumns(missing))
        else
          assert forall c :: c in RequiredColumns ==> c in Header(t);
          match FirstNonNumeric(t, NumericColumns)
          case Some(col) => Err(NotNumeric(col))
          case None =>
            assert forall c :: c in NumericColumns ==> NumericIn(t, c);
            Ok(t)
  }

  /** The numeric checks see the columns in the order Flowrate, Pressure, Temperature; only the first failing one is named. */
  lemma NumericErrorNamesFirstFailure(file: Option<UploadedFile>, t: Table, col: string)
    requires Validate(file, Parsed(t)) == Err(NotNumeric(col))
    ensures col == "Flowrate" ==> !NumericIn(t, "Flowrate")
    ensures col == "Pressure" ==> NumericIn(t, "Flowrate") && !NumericIn(t, "Pressure")
    ensures col == "Temperature" ==> NumericIn(t, "Flowrate") && NumericIn(t, "Pressure") && !NumericIn(t, "Temperature")
  {
    var missing := Absent(RequiredColumns, Header(t));
    assert missing == [];
    var k :| 0 <= k < |NumericColumns| && NumericColumns[k] == col && !NumericIn(t, NumericColumns[k])
             && forall j :: 0 <= j < k ==> NumericIn(t, NumericColumns[j]);
    if k >= 1 {
      assert NumericIn(t, NumericColumns[0]);
    }
    if k == 2 {
      assert NumericIn(t, NumericColumns[1]);
    }
  }

  /** Reader failures are classified before any column is looked at. */
  lemma ReaderFailuresClassified(file: Option<UploadedFile>, parse: ParseOutcome)
    requires HasFile(file) && EndsWith(file.value.name, ".csv")
    ensures parse.EmptyData? ==> Validate(file, parse) == Err(EmptyFile) && Message(EmptyFile) == "CSV file is empty"
    ensures parse.ParserFailure? ==> Validate(file, parse) == Err(MalformedCsv) && StatusCode(MalformedCsv) == 400
    ensures parse.OtherFailure? ==> Validate(file, parse).Err? && StatusCode(Validate(file, parse).error) == 500
  {
  }

  /** `endswith` is case-sensitive: an upper-case extension is refused, whatever the content. */
  lemma UpperCaseExtensionRefused(parse: ParseOutcome)
    ensures Validate(Some(UploadedFile("X.CSV")), parse) == Err(NotCsv)
  {
  }

  /** The message about missing columns names exactly which required columns are missing. */
  lemma {:induction false} MissingMessageDeterminesColumns(h1: seq<string>, h2: seq<string>)
    requires Message(MissingColumns(Absent(RequiredColumns, h1))) == Message(MissingColumns(Absent(RequiredColumns, h2)))
    ensures forall c :: c in RequiredColumns ==> (c in h1 <==> c in h2)
  {
    var m1, m2 := Absent(RequiredColumns, h1), Absent(RequiredColumns, h2);
    RequiredNamesCommaFree(m1);
    RequiredNamesCommaFree(m2);
    MessageDeterminesError(MissingColumns(m1), MissingColumns(m2));
  }

  lemma RequiredNamesCommaFree(xs: seq<string>)
    requires forall c :: c in xs ==> c in RequiredColumns
    ensures CommaFreeItems(xs)
  {
    forall i | 0 <= i < |xs| ensures xs[i] != "" && ',' !in xs[i] {
      assert xs[i] in RequiredColumns;
    }
  }
}

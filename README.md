# Chemical equipment visualizer: upload and report logic in Dafny

This project models the backend logic of the chemical equipment visualizer's
dataset view set (`backend/api/views.py`):

- **Upload** (`DatasetViewSet.upload`). An uploaded CSV file goes through
  checks in a fixed order, and the first failure decides the answer:
  1. a file is present;
  2. its name ends with `.csv`;
  3. the reader parsed it (an empty file and an unparseable file are separate
     client errors; any other reader exception is a server error);
  4. every required column (`Equipment Name, Type, Flowrate, Pressure,
     Temperature`) is present;
  5. `Flowrate`, `Pressure` and `Temperature` are numeric, checked in that order.

  An accepted file yields a summary: the row count, the three column means and
  the histogram of the `Type` column. The row count and the three means are
  stored as a new dataset record; the histogram is only returned in the
  response. The store is then pruned to its first five records. Each pruned
  record's file is deleted on a best-effort basis: a failure is logged and the
  record is deleted anyway.
- **Report** (`DatasetViewSet.generate_report`). It looks the record up and
  classifies failures as not-found or internal error. It fills the summary table
  with `N/A` for absent or zero averages and names the attachment
  `equipment_report_<id>.pdf`.

Modules, one per concern:

| file | module | what it holds |
|---|---|---|
| `wrappers.dfy` | `Wrappers` | `Option`, `Result` |
| `text.dfy` | `Text` | `endswith`, `", ".join`, `str(n)` and its inverse |
| `csv_table.dfy` | `CsvTable` | the reader's output, kept abstract: named columns with a numeric flag, cells and an opaque mean; the reader's failure kinds |
| `validation.dfy` | `Validation` | the ordered checks, error messages and status codes |
| `statistics.dfy` | `Statistics` | row count and `Type` histogram |
| `retention.dfy` | `Retention` | the dataset store (a class), record creation and the keep-five prune loop |
| `views.dfy` | `Views` | the upload action as one method over the store |
| `report.dfy` | `Report` | the report's lookup classification, value cells and file name |

The reader (`pd.read_csv`) and file storage become inputs; the clock is left
out:
- the reader's outcome is a `ParseOutcome`;
- the set `failing` lists the records whose file deletion raises;
- `rendered` says whether building the PDF raised.

Two behaviours of the code a reader may not expect:
- A zero average is shown as `N/A`, not only an absent one. The code tests the
  value's truthiness (`backend/api/views.py:182-184`).
- An unknown report id is answered with 500, not 404. See Findings below.

A file object whose name is empty counts as "no file". Django's `File` is
false when its name is empty, so `if not file` rejects it.

## Model

| member | source | states |
|---|---|---|
| `Validation.Validate` | backend/api/views.py:36-72 | Accepted exactly when the upload is acceptable: a named `.csv` file, parsed, with every required column and numeric Flowrate/Pressure/Temperature. Then it hands on the parsed table. Each error holds exactly in its own case. "No file": the file is absent or unnamed. "Not CSV": a named file lacks the `.csv` suffix. Empty, malformed and unexpected: a named `.csv` file whose reader outcome is empty data, a parser error, or another exception (whose text it carries). For a parsed named `.csv` file: a non-empty `missing_columns` gives the missing-columns error with that list; with no column missing, the first non-numeric of Flowrate, Pressure, Temperature gives the numeric error naming it. A missing-columns error lists the absent required columns, non-empty and in required order. A numeric error arises only when all required columns are present. |
| `Validation.Message` | backend/api/views.py:36-137 | The response texts of the seven rejections. Each fixed text belongs to exactly one error. The openings `Missing required columns: `, `Column "` and `Error processing file: ` mark exactly the missing-columns, numeric and unexpected texts. The missing columns follow in required order, joined by `, `; the numeric text names its column; the unexpected text carries the exception text. |
| `Validation.MessageDeterminesError` | backend/api/views.py:36-137 | Two rejections with the same text are the same error, with the same columns or detail, provided missing-column lists hold non-empty comma-free names. |
| `Validation.Absent` | backend/api/views.py:56-57 | The missing-column list holds exactly the required columns not in the header, in the order of the required list. |
| `Validation.FirstNonNumeric` | backend/api/views.py:66-72 | None exactly when every listed column is numeric. Otherwise it names the first non-numeric column; all columns before it are numeric. |
| `Validation.NumericErrorNamesFirstFailure` | backend/api/views.py:66-72 | The numeric error names the first failing column in the order Flowrate, Pressure, Temperature. The columns before it passed. |
| `Validation.ReaderFailuresClassified` | backend/api/views.py:122-137 | For a named `.csv` file: an empty file gives "CSV file is empty"; a parser error gives the 400 "Invalid CSV format" error; any other reader exception gives a 500 error. |
| `Validation.StatusCode` | backend/api/views.py:122-137 | Only an unexpected exception is answered with 500; every other rejection with 400. |
| `Validation.UpperCaseExtensionRefused` | backend/api/views.py:45-49 | `X.CSV` is refused as not a CSV file, whatever its content: the suffix test is case-sensitive. |
| `Validation.MissingMessageDeterminesColumns` | backend/api/views.py:59-63 | Two headers give the same "Missing required columns" text only if the same required columns are missing from both. The text names exactly the missing columns. |
| `Text.JoinInjective` | backend/api/views.py:61 | Lists of non-empty, comma-free names joined with `", "` can be told apart from their joined text. |
| `CsvTable.ColumnNamed` | backend/api/views.py:68 | `df[col]` finds a column exactly when the name is in the header; the column found has that name. |
| `Statistics.Histogram` | backend/api/views.py:81 | A key is present exactly when that value occurs in a non-missing cell. Each key maps to the value's number of occurrences. |
| `Statistics.Summarize` | backend/api/views.py:74-81 | `total_count` is the number of data rows. `equipment_types` has a key exactly for each `Type` value that occurs, mapped to its occurrence count. The three averages are the means the reader gives for the Flowrate, Pressure and Temperature columns. |
| `Statistics.HistogramCountsBounded` | backend/api/views.py:75-81 | In a well-formed table every histogram count is at least 1 and at most `total_count`. |
| `Retention.DatasetStore.Create` | backend/api/views.py:86-94 | Inserts the new record first in the store with a fresh id, larger than every stored id, and stores its file. Nothing else changes. |
| `Retention.DatasetStore.DeleteFile` | backend/api/views.py:99-102 | The file delete succeeds and removes the file, or it raises and the file stays. |
| `Retention.DatasetStore.Discard` | backend/api/views.py:98-103 | One loop turn: removes the record. Its file is removed unless deletion raised; in that case a warning naming the record is logged. |
| `Retention.DatasetStore.PruneOld` | backend/api/views.py:96-103 | Keeps the first five records, unchanged and in order. Removes every other record. Each removed record's file is gone unless its deletion raised. There is one warning per failed deletion, in loop order. The store invariant is kept. |
| `Retention.DatasetStore.DiscardFrom` | backend/api/views.py:98-103 | The prune loop over the records from a given position on: keeps the records before it, removes every later one, and leaves files and warnings as the loop turns leave them, in loop order. |
| `Retention.DeletedFilesExactly` | backend/api/views.py:98-103 | The files deleted by the loop are exactly those of the dropped records whose deletion did not raise. |
| `Retention.FailedDeletesExactly` | backend/api/views.py:98-103 | For dropped records in the store's newest-first order: the warnings name exactly the dropped records whose file deletion raised, in loop order, so the ids strictly decrease and none is named twice. |
| `Retention.RetainedKeepsMostRecent` | backend/api/views.py:34 | After insert and prune: at most five records, the new one first. The rest are the most recent old records, unchanged and in order. Every removed record is older than every kept one. |
| `Retention.FilesFollowRecords` | backend/api/views.py:96-103 | When file storage holds exactly the stored records' files (no file left over from an earlier failed deletion) and no deletion fails, file storage afterwards holds exactly the files of the kept records. |
| `Views.Upload` | backend/api/views.py:28-120 | A rejected upload answers with the error's status and message and leaves the store untouched: no record created, nothing pruned, no file deleted. An accepted upload answers 201 with the new id, file name and summary. The store then holds the insert-and-prune result, with files and warnings as the prune loop leaves them. |
| `Views.SixUploadsKeepFive` | backend/api/views.py:96-103 | Six accepted uploads into an empty store, with no failed deletion, leave five records: those of uploads 5, 4, 3, 2, 1, newest first. The first upload's file (id 0) is gone. |
| `Text.NatToString` | backend/api/views.py:181 | `str(n)`: non-empty decimal digits, with a leading zero only for 0. |
| `Text.ParseNatToString` | backend/api/views.py:181 | `str(n)` reads back as `n`. |
| `Report.AverageCell` | backend/api/views.py:182-184 | `N/A` exactly when the average is absent or 0.0. Otherwise the stored value, printed with two decimals. |
| `Report.SummaryRows` | backend/api/views.py:179-185 | Five rows: the header row `Metric`/`Value`, then `Total Equipment`, `Average Flowrate`, `Average Pressure` and `Average Temperature`. The count cell is `str(total_count)`: non-empty decimal digits, a leading zero only for 0, reading back as the record's `total_count`. Each average row shows that metric's stored average: `N/A` exactly when it is absent or zero, otherwise the value itself with two decimals. |
| `Report.ZeroAverageShownAsPlaceholder` | backend/api/views.py:183 | An average pressure of 0.0 is shown as `N/A`. |
| `Report.Filename` | backend/api/views.py:215 | The name is `equipment_report_`, then the id's digits, then `.pdf`. |
| `Report.FilenameIdentifiesRecord` | backend/api/views.py:215 | Different ids give different attachment names. |
| `Report.GetObject` | backend/api/views.py:146 | Finds the record exactly when its id is stored. Otherwise it raises `Http404`. |
| `Report.ClassifyAsWritten` | backend/api/views.py:221-231 | The handlers as written, for any lookup outcome: 404 exactly for `DoesNotExist`; a PDF named after the record exactly when it was found and rendered; every other error answer, for `Http404` or a failed render, is the 500 "Error generating report" response. |
| `Report.GenerateReportAsWritten` | backend/api/views.py:145-231 | The report action as written: a PDF named after the id exactly when the id is stored and rendering succeeded; every other answer is the 500 "Error generating report" response. |
| `Report.UnknownIdIsInternalErrorAsWritten` | backend/api/views.py:221-231 | As written, an unknown id gets the 500 "Error generating report" answer. No id ever gets the 404 answer. |
| `Report.GenerateReport` | backend/api/views.py:221-231 | With the not-found classification as intended: 404 exactly when the id is not stored; 500 exactly when the record exists but rendering failed. Otherwise a PDF named after the id, carrying that record's summary rows. |

## Findings

| source | as written | input that shows it | evidently intended | confidence | as-written member | corrected member |
|---|---|---|---|---|---|---|
| backend/api/views.py:221-231 | Only `Dataset.DoesNotExist` is answered with 404. For a missing id, `self.get_object()` raises the framework's `Http404` instead. The generic `except Exception` branch catches it and answers 500. | A report request for id 7 on an empty store. | 404 "Dataset not found" for an unknown id; 500 only when rendering fails. | medium: rests on Django REST framework's `get_object` behaviour; not executed | `Report.UnknownIdIsInternalErrorAsWritten` | `Report.GenerateReport` |

## Left out

- CSV reading: delimiter handling, dtype inference and header deduplication. The reader's result is an input, a `ParseOutcome`.
- Floating point: the column means are opaque optional values taken from the reader. `None` stands for a mean the record does not hold. The code always stores `float(mean)`: a numeric column whose cells are all empty gives NaN, which Python treats as true. What the report then shows depends on how the database stores NaN; the model cannot represent NaN.
- Views.Upload: the response's averages are the reader's means, not rounded to two decimals, because floating-point rounding is not modelled.
- Views.Upload: the response's `data` rows and `uploaded_at` are not part of the response. They are a dump of the table and a clock reading.
- Views.Upload: exceptions raised by record creation, file storage or record deletion are not modelled. Such an exception would give a 500 answer, possibly after the new record was stored.
- Statistics.Histogram: the map loses `value_counts`' order of keys by decreasing frequency; only the counts are kept.
- Report.AverageCell: a `TwoDecimals` cell stands for `f'{x:.2f}'` without modelling the decimal formatting.
- Report.GenerateReport: the PDF layout, the title, the dataset name and dates in the document, and the "generated at" timestamp are not modelled. They are library layout calls and a clock reading.
- Store ordering: backend/api/models.py is not part of this model. The store's default ordering is taken as newest first, which is what "the 5 most recent uploads" needs.
- Authentication (`IsAuthenticated`, 401) and the framework's routing are not modelled.
- The `uploaded_at` timestamp is not modelled; recency is creation order, given by ids.
- Log lines are kept only as the ids named by the file-deletion warnings. The info and error log lines are not modelled.
- Concurrency between simultaneous uploads around create-then-prune is not modelled. The code has no coordination for it.
- The serializer, the desktop client and the web front end are not modelled. They hold display code, network requests and widget handling.

/**
 * The upload action of the dataset view set: validate, summarise, create the
 * record, prune the store to five records, and answer.
 */
module Views {
  import opened Wrappers
  import opened CsvTable
  import opened Validation
  import opened Statistics
  import opened Retention

  /** 201 with the new record's id, name and summary; or 400/500 with an error text. */
  datatype UploadResponse =
    | Created(id: nat, name: string, summary: Summary)
    | Rejected(status: nat, error: string)

  /** The record an accepted upload creates. */
  function NewDataset(id: nat, name: string, s: Summary): Dataset
  {
    Dataset(id, name, s.totalCount, s.avgFlowrate, s.avgPressure, s.avgTemperature)
  }

  /**
   * `DatasetViewSet.upload`. The reader's outcome `parse` and the set of
   * records whose file deletion raises, `failing`, come from outside.
   * A rejected upload leaves the store untouched; an accepted one inserts
   * one record and prunes.
   */
  method Upload(store: DatasetStore, file: Option<UploadedFile>, parse: ParseOutcome, failing: set<nat>)
    returns (resp: UploadResponse)
    requires store.Valid()
    modifies store
    ensures store.Valid()
    ensures Validate(file, parse).Err? ==>
              var e := Validate(file, parse).error;
              && resp == Rejected(StatusCode(e), Message(e))
              && store.records == old(store.records)
              && store.files == old(store.files)
              && store.nextId == old(store.nextId)
              && store.warnings == old(store.warnings)
    ensures Validate(file, parse).Ok? ==>
              var s := Summarize(Validate(file, parse).value);
              var d := NewDataset(old(store.nextId), file.value.name, s);
              && resp == Created(d.id, d.name, s)
              && (forall e :: e in old(store.records) ==> e.id < d.id)
              && store.records == Retained(old(store.records), d)
              && store.files == (old(store.files) + {d.id}) - DeletedFiles(Dropped(old(store.records), d), failing)
              && store.warnings == old(store.warnings) + FailedDeletes(Dropped(old(store.records), d), failing)
              && store.nextId == old(store.nextId) + 1
  {
    match Validate(file, parse)
    case Err(e) =>
      resp := Rejected(StatusCode(e), Message(e));
    case Ok(t) =>
      var s := Summarize(t);
      var d := store.Create(file.value.name, s.totalCount, s.avgFlowrate, s.avgPressure, s.avgTemperature);
      store.PruneOld(failing);
      resp := Created(d.id, d.name, s);
  }

  /**
   * Six accepted uploads into an empty store, with every file deletion
   * succeeding: the records of the last five uploads remain, newest first, and
   * the first upload's file is gone.
   */
  method SixUploadsKeepFive(file: Option<UploadedFile>, parse: ParseOutcome)
    returns (remaining: seq<nat>, firstFileKept: bool)
    requires Validate(file, parse).Ok?
    ensures remaining == [5, 4, 3, 2, 1]
    ensures !firstFileKept
  {
    var store := new DatasetStore();
    var k := 0;
    while k < 6
      invariant 0 <= k <= 6
      invariant AfterUploads(store, k)
    {
      UploadAgain(store, file, parse, k);
      k := k + 1;
    }
    var records := store.records;
    remaining := seq(|records|, i requires 0 <= i < |records| => records[i].id);
    firstFileKept := 0 in store.files;
  }

  /**
   * The state after `k` accepted uploads into a fresh store, none of whose
   * file deletions failed: the newest (at most five) records carry the ids
   * k-1, k-2, ... and file storage holds exactly their files.
   */
  ghost predicate AfterUploads(store: DatasetStore, k: nat)
    reads store
  {
    && store.Valid()
    && store.nextId == k
    && |store.records| == Min(k, KeepCount)
    && (forall i :: 0 <= i < |store.records| ==> store.records[i].id == k - 1 - i)
    && store.files == Ids(store.records)
  }

  /** One more accepted upload, as a turn of the loop above. */
  method UploadAgain(store: DatasetStore, file: Option<UploadedFile>, parse: ParseOutcome, k: nat)
    requires Validate(file, parse).Ok?
    requires AfterUploads(store, k)
    modifies store
    ensures AfterUploads(store, k + 1)
  {
    ghost var before := store.records;
    var resp := Upload(store, file, parse, {});
    UploadStep(before, NewDataset(k, file.value.name, Summarize(Validate(file, parse).value)), k);
  }

  /**
   * One upload into a store whose records carry the ids k-1, k-2, ... newest
   * first: afterwards the store holds the ids k, k-1, ... (at most five of
   * them) and file storage holds exactly their files.
   */
  lemma UploadStep(before: seq<Dataset>, d: Dataset, k: nat)
    requires |before| == Min(k, KeepCount)
    requires forall i :: 0 <= i < |before| ==> before[i].id == k - 1 - i
    requires d.id == k
    ensures |Retained(before, d)| == Min(k + 1, KeepCount)
    ensures forall i :: 0 <= i < |Retained(before, d)| ==> Retained(before, d)[i].id == k - i
    ensures (Ids(before) + {d.id}) - DeletedFiles(Dropped(before, d), {}) == Ids(Retained(before, d))
  {
    forall e | e in before ensures e.id < d.id {
      var i :| 0 <= i < |before| && before[i] == e;
    }
    FilesFollowRecords(before, d, Ids(before));
  }
}

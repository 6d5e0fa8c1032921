/**
 * The dataset store and the retention step of the upload view: a new record is
 * inserted, then every record after the first five in the store's default
 * ordering is removed. Removing a record first tries to delete its uploaded
 * file; when that raises, a warning naming the record is logged and the record
 * is removed all the same.
 *
 * The store's default ordering is taken to be newest first (ids strictly
 * decreasing); ids are handed out in creation order, so recency is id order.
 * File storage is the set of record ids whose uploaded file is still stored.
 */
module Retention {
  import opened Wrappers

  const KeepCount: nat := 5

  datatype Dataset = Dataset(
    id: nat,
    name: string,
    totalCount: nat,
    avgFlowrate: Option<real>,
    avgPressure: Option<real>,
    avgTemperature: Option<real>)

  function Min(a: nat, b: nat): nat
  {
    if a <= b then a else b
  }

  /** The default ordering of the store: every record is newer than the ones after it. */
  ghost predicate NewestFirst(s: seq<Dataset>)
  {
    forall i, j :: 0 <= i < j < |s| ==> s[i].id > s[j].id
  }

  /** Strictly decreasing, hence without repeats. */
  ghost predicate Decreasing(w: seq<nat>)
  {
    forall i, j :: 0 <= i < j < |w| ==> w[i] > w[j]
  }

  function Ids(s: seq<Dataset>): set<nat>
  {
    set d | d in s :: d.id
  }

  /** Python's `s[5:]` cut point: five, or the whole list when it is shorter. */
  function Cut(s: seq<Dataset>): (k: nat)
    ensures k <= |s| && k <= KeepCount
    ensures k == KeepCount || k == |s|
  {
    Min(KeepCount, |s|)
  }

  /** The files whose deletion succeeded while removing `dropped`. */
  function DeletedFiles(dropped: seq<Dataset>, failing: set<nat>): set<nat>
  {
    if dropped == [] then {}
    else
      var init, last := dropped[..|dropped| - 1], dropped[|dropped| - 1];
      assert dropped == init + [last];
      DeletedFiles(init, failing) + (if last.id in failing then {} else {last.id})
  }

  /** The ids named by the warnings logged while removing `dropped`, in loop order. */
  function FailedDeletes(dropped: seq<Dataset>, failing: set<nat>): seq<nat>
  {
    if dropped == [] then []
    else
      var init, last := dropped[..|dropped| - 1], dropped[|dropped| - 1];
      assert dropped == init + [last];
      FailedDeletes(init, failing) + (if last.id in failing then [last.id] else [])
  }

  /** A file is deleted exactly when its record was dropped and its deletion did not raise. */
  lemma {:induction false} DeletedFilesExactly(dropped: seq<Dataset>, failing: set<nat>)
    ensures DeletedFiles(dropped, failing) == Ids(dropped) - failing
  {
    if dropped != [] {
      var init := dropped[..|dropped| - 1];
      DeletedFilesExactly(init, failing);
      assert dropped == init + [dropped[|dropped| - 1]];
      assert Ids(dropped) == Ids(init) + {dropped[|dropped| - 1].id};
    }
  }

  /**
   * One warning per dropped record whose file deletion raised, in loop order:
   * the dropped records are newest first, so the ids named strictly decrease
   * and none is named twice.
   */
  lemma FailedDeletesExactly(dropped: seq<Dataset>, failing: set<nat>)
    requires NewestFirst(dropped)
    ensures |FailedDeletes(dropped, failing)| <= |dropped|
    ensures forall n :: n in FailedDeletes(dropped, failing) <==> n in Ids(dropped) && n in failing
    ensures Decreasing(FailedDeletes(dropped, failing))
  {
    FailedDeletesNamed(dropped, failing);
    FailedDeletesDecrease(dropped, failing);
  }

  lemma {:induction false} FailedDeletesNamed(dropped: seq<Dataset>, failing: set<nat>)
    ensures |FailedDeletes(dropped, failing)| <= |dropped|
    ensures forall n :: n in FailedDeletes(dropped, failing) <==> n in Ids(dropped) && n in failing
  {
    if dropped != [] {
      var init := dropped[..|dropped| - 1];
      FailedDeletesNamed(init, failing);
      assert dropped == init + [dropped[|dropped| - 1]];
      assert Ids(dropped) == Ids(init) + {dropped[|dropped| - 1].id};
    }
  }

  lemma {:induction false} FailedDeletesDecrease(dropped: seq<Dataset>, failing: set<nat>)
    requires NewestFirst(dropped)
    ensures Decreasing(FailedDeletes(dropped, failing))
  {
    if dropped != [] {
      var init, last := dropped[..|dropped| - 1], dropped[|dropped| - 1];
      assert NewestFirst(init);
      FailedDeletesDecrease(init, failing);
      assert dropped == init + [last];
      OlderThanLast(init, last, failing);
      if last.id in failing {
        AppendSmaller(FailedDeletes(init, failing), last.id);
      }
    }
  }

  /** Every warning about a record before the last one names a newer (greater) id. */
  lemma OlderThanLast(init: seq<Dataset>, last: Dataset, failing: set<nat>)
    requires NewestFirst(init + [last])
    ensures forall n :: n in FailedDeletes(init, failing) ==> n > last.id
  {
    FailedDeletesNamed(init, failing);
    forall n | n in FailedDeletes(init, failing) ensures n > last.id {
      var e :| e in init && e.id == n;
      var k :| 0 <= k < |init| && init[k] == e;
      assert (init + [last])[k] == e && (init + [last])[|init|] == last;
    }
  }

  /** Appending an id smaller than all before it keeps a sequence strictly decreasing. */
  lemma AppendSmaller(w: seq<nat>, x: nat)
    requires Decreasing(w)
    requires forall n :: n in w ==> n > x
    ensures Decreasing(w + [x])
  {
    forall i, j | 0 <= i < j < |w + [x]| ensures (w + [x])[i] > (w + [x])[j] {
      if j == |w| {
        assert (w + [x])[i] == w[i] && w[i] in w;
      }
    }
  }

  /** What the store holds after `d` is inserted into `s` and the store is pruned. */
  function Retained(s: seq<Dataset>, d: Dataset): seq<Dataset>
  {
    ([d] + s)[..Cut([d] + s)]
  }

  /** The records the prune loop visits after `d` is inserted into `s`. */
  function Dropped(s: seq<Dataset>, d: Dataset): seq<Dataset>
  {
    ([d] + s)[Cut([d] + s)..]
  }

  /**
   * When no file deletion fails, file storage afterwards holds exactly the
   * files of the kept records: the pruned records leave no file behind.
   */
  lemma FilesFollowRecords(s: seq<Dataset>, d: Dataset, files: set<nat>)
    requires NewestFirst(s)
    requires forall e :: e in s ==> e.id < d.id
    requires files == Ids(s)
    ensures (files + {d.id}) - DeletedFiles(Dropped(s, d), {}) == Ids(Retained(s, d))
  {
    var all := [d] + s;
    RetainedKeepsMostRecent(s, d);
    DeletedFilesExactly(Dropped(s, d), {});
    assert all == Retained(s, d) + Dropped(s, d);
    assert Ids(all) == Ids(s) + {d.id} by {
      assert forall e :: e in all <==> e == d || e in s;
    }
    assert Ids(all) == Ids(Retained(s, d)) + Ids(Dropped(s, d)) by {
      forall e | e in all ensures e in Retained(s, d) || e in Dropped(s, d) {
        var i :| 0 <= i < |all| && all[i] == e;
        if i >= |Retained(s, d)| {
          assert e == Dropped(s, d)[i - |Retained(s, d)|];
        }
      }
    }
  }

  /**
   * After an insert and a prune: at most five records, the new one first, the
   * others the most recent of the old ones, unchanged and in the same order;
   * every record removed is older than every record kept.
   */
  lemma RetainedKeepsMostRecent(s: seq<Dataset>, d: Dataset)
    requires NewestFirst(s)
    requires forall e :: e in s ==> e.id < d.id
    ensures var r := Retained(s, d);
      && |r| == Min(KeepCount, |s| + 1)
      && r[0] == d
      && r[1..] == s[..|r| - 1]
      && NewestFirst(r)
      && forall k, e :: k in r && e in ([d] + s)[|r|..] ==> k.id > e.id
  {
  }

  class DatasetStore {
    /** The records, in the store's default ordering. */
    var records: seq<Dataset>
    /** Ids of the records whose uploaded file is still in file storage. */
    var files: set<nat>
    /** The id the next created record receives. */
    var nextId: nat
    /** The ids named by the "Failed to delete file for dataset" warnings, in order. */
    var warnings: seq<nat>

    ghost predicate Valid()
      reads this
    {
      && NewestFirst(records)
      && (forall d :: d in records ==> d.id < nextId && d.id in files)
      && (forall n :: n in files ==> n < nextId)
    }

    constructor ()
      ensures Valid()
      ensures records == [] && files == {} && warnings == [] && nextId == 0
    {
      records := [];
      files := {};
      nextId := 0;
      warnings := [];
    }

    /** `Dataset.objects.create(...)`: stores the file and inserts the new record as the most recent. */
    method Create(name: string, totalCount: nat, avgFlowrate: Option<real>, avgPressure: Option<real>,
                  avgTemperature: Option<real>) returns (d: Dataset)
      requires Valid()
      modifies this
      ensures Valid()
      ensures d == Dataset(old(nextId), name, totalCount, avgFlowrate, avgPressure, avgTemperature)
      ensures forall e :: e in old(records) ==> e.id < d.id
      ensures d.id !in old(files)
      ensures records == [d] + old(records)
      ensures files == old(files) + {d.id}
      ensures nextId == old(nextId) + 1 && warnings == old(warnings)
    {
      d := Dataset(nextId, name, totalCount, avgFlowrate, avgPressure, avgTemperature);
      files := files + {d.id};
      records := [d] + records;
      nextId := nextId + 1;
    }

    /** `old.file.delete(save=False)`: raises, leaving the file in place, when `id` is in `failing`. */
    method DeleteFile(id: nat, failing: set<nat>) returns (ok: bool)
      modifies this`files
      ensures ok == (id !in failing)
      ensures files == if ok then old(files) - {id} else old(files)
    {
      ok := id !in failing;
      if ok {
        files := files - {id};
      }
    }

    /**
     * One turn of the prune loop on the record at `index`: try to delete its
     * file, log a warning naming it when that raises, and delete the record.
     */
    method Discard(index: nat, failing: set<nat>)
      requires index < |records|
      modifies this
      ensures records == old(records[..index] + records[index + 1..])
      ensures var id := old(records[index].id);
        && files == (if id in failing then old(files) else old(files) - {id})
        && warnings == old(warnings) + (if id in failing then [id] else [])
      ensures nextId == old(nextId)
    {
      var stale := records[index];
      var ok := DeleteFile(stale.id, failing);
      if !ok {
        warnings := warnings + [stale.id];
      }
      records := records[..index] + records[index + 1..];
    }

    /**
     * The loop over `Dataset.objects.all()[5:]`: for each old record, try to
     * delete its file (logging a warning when that fails) and delete the record.
     */
    method PruneOld(failing: set<nat>)
      requires Valid()
      modifies this
      ensures Valid()
      ensures records == old(records)[..Cut(old(records))]
      ensures files == old(files) - DeletedFiles(old(records)[Cut(old(records))..], failing)
      ensures warnings == old(warnings) + FailedDeletes(old(records)[Cut(old(records))..], failing)
      ensures nextId == old(nextId)
    {
      var cut := Cut(records);
      DiscardFrom(cut, failing);
      PrunedValid(old(records), cut, old(files), failing, nextId);
    }

    /** Discards, one at a time and oldest last, every record from position `cut` on. */
    method DiscardFrom(cut: nat, failing: set<nat>)
      requires cut <= |records|
      modifies this
      ensures records == old(records)[..cut]
      ensures files == old(files) - DeletedFiles(old(records)[cut..], failing)
      ensures warnings == old(warnings) + FailedDeletes(old(records)[cut..], failing)
      ensures nextId == old(nextId)
    {
      var keep, dropped := records[..cut], records[cut..];
      ghost var files0, warnings0 := files, warnings;
      for i := 0 to |dropped|
        invariant records == keep + dropped[i..]
        invariant files == files0 - DeletedFiles(dropped[..i], failing)
        invariant warnings == warnings0 + FailedDeletes(dropped[..i], failing)
        invariant nextId == old(nextId)
      {
        PruneStep(dropped, i, failing, files0, warnings0);
        assert records[cut] == dropped[i];
        Discard(cut, failing);
        assert records == keep + dropped[i + 1..];
      }
      assert dropped[..|dropped|] == dropped;
    }
  }

  /** One turn of the prune loop moves the loop invariant from `i` to `i + 1`, in the shape `Discard` promises. */
  lemma PruneStep(dropped: seq<Dataset>, i: nat, failing: set<nat>, files0: set<nat>, warnings0: seq<nat>)
    requires i < |dropped|
    ensures var id, files, warnings := dropped[i].id,
                                       files0 - DeletedFiles(dropped[..i], failing),
                                       warnings0 + FailedDeletes(dropped[..i], failing);
      && files0 - DeletedFiles(dropped[..i + 1], failing) == (if id in failing then files else files - {id})
      && warnings0 + FailedDeletes(dropped[..i + 1], failing) == warnings + (if id in failing then [id] else [])
  {
    assert dropped[..i + 1][..i] == dropped[..i];
  }

  /** The store invariant holds again once the records after the cut and their deletable files are gone. */
  lemma PrunedValid(s: seq<Dataset>, cut: nat, files: set<nat>, failing: set<nat>, nextId: nat)
    requires NewestFirst(s) && cut <= |s|
    requires forall d :: d in s ==> d.id < nextId && d.id in files
    requires forall n :: n in files ==> n < nextId
    ensures NewestFirst(s[..cut])
    ensures forall d :: d in s[..cut] ==> d.id < nextId && d.id in files - DeletedFiles(s[cut..], failing)
    ensures forall n :: n in files - DeletedFiles(s[cut..], failing) ==> n < nextId
  {
    DeletedFilesExactly(s[cut..], failing);
    forall d | d in s[..cut] ensures d.id in files - DeletedFiles(s[cut..], failing) {
      KeptNotDropped(s, cut, d);
    }
  }

  /** A record kept by the cut is not among the dropped ones, since ids are distinct. */
  lemma KeptNotDropped(s: seq<Dataset>, cut: nat, d: Dataset)
    requires NewestFirst(s) && cut <= |s| && d in s[..cut]
    ensures d.id !in Ids(s[cut..])
  {
  }
}

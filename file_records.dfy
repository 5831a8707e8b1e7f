/**
 * The upload record shared by the three collections (local, S3 and
 * Cloudinary files) and the collection itself, an append-only ledger.
 */
module FileRecords {
  import opened Wrappers

  /**
   * One saved upload. `file` holds the single URL or path (schema default
   * `null`), `files` the batch (schema default `[]`); `createdAt` is the
   * timestamp the schema's `timestamps` option adds at save time.
   */
  datatype UploadRecord = UploadRecord(file: Option<string>, files: seq<string>, createdAt: nat)

  /** The record a single upload saves: only `file` is given, `files` keeps its default. */
  function SingleRecord(url: string, now: nat): UploadRecord {
    UploadRecord(Some(url), [], now)
  }

  /** The record a batch saves: only `files` is given, `file` keeps its default. */
  function BatchRecord(urls: seq<string>, now: nat): UploadRecord {
    UploadRecord(None, urls, now)
  }

  /** Exactly one of `file` and a non-empty `files` is populated. */
  predicate WellShaped(r: UploadRecord) {
    (r.file.Some? && r.files == []) || (r.file.None? && r.files != [])
  }

  predicate AllWellShaped(records: seq<UploadRecord>) {
    forall i :: 0 <= i < |records| ==> WellShaped(records[i])
  }

  lemma SingleRecordWellShaped(url: string, now: nat)
    ensures WellShaped(SingleRecord(url, now))
  {
  }

  lemma BatchRecordWellShaped(urls: seq<string>, now: nat)
    ensures WellShaped(BatchRecord(urls, now)) <==> urls != []
  {
  }

  /** What a `save()` call does: it stores the document or rejects with an error message. */
  datatype SaveOutcome = Saved | SaveFailed(message: string)

  /** A collection of upload records, which the handlers only ever append to. */
  class Collection {
    var records: seq<UploadRecord>

    constructor ()
      ensures records == []
    {
      records := [];
    }

    /** `new Model(doc).save()`: appends `r` on success; on failure nothing is stored. */
    method Save(r: UploadRecord, outcome: SaveOutcome) returns (error: Option<string>)
      modifies this
      ensures outcome.Saved? ==> records == old(records) + [r] && error == None
      ensures outcome.SaveFailed? ==> records == old(records) && error == Some(outcome.message)
    {
      if outcome.Saved? {
        records := records + [r];
        error := None;
      } else {
        error := Some(outcome.message);
      }
    }
  }

  /** Ordered by `createdAt` descending, the order `find().sort({ createdAt: -1 })` asks for. */
  predicate NewestFirst(rs: seq<UploadRecord>) {
    forall i, j :: 0 <= i < j < |rs| ==> rs[i].createdAt >= rs[j].createdAt
  }

  /** Every record in `rs` is no newer than `t`. */
  predicate NoNewerThan(rs: seq<UploadRecord>, t: nat) {
    forall k :: 0 <= k < |rs| ==> rs[k].createdAt <= t
  }

  /** Places `r` in front of the first record that is not newer than it. */
  function InsertNewestFirst(r: UploadRecord, rs: seq<UploadRecord>): (out: seq<UploadRecord>)
    ensures multiset(out) == multiset(rs) + multiset{r}
    ensures |out| == |rs| + 1
  {
    if rs == [] || r.createdAt >= rs[0].createdAt then
      [r] + rs
    else
      assert rs == [rs[0]] + rs[1..];
      [rs[0]] + InsertNewestFirst(r, rs[1..])
  }

  lemma {:induction false} InsertNoNewerThan(r: UploadRecord, rs: seq<UploadRecord>, t: nat)
    requires NoNewerThan(rs, t) && r.createdAt <= t
    ensures NoNewerThan(InsertNewestFirst(r, rs), t)
  {
    if rs != [] && r.createdAt < rs[0].createdAt {
      InsertNoNewerThan(r, rs[1..], t);
    }
  }

  lemma {:induction false} InsertKeepsNewestFirst(r: UploadRecord, rs: seq<UploadRecord>)
    requires NewestFirst(rs)
    ensures NewestFirst(InsertNewestFirst(r, rs))
  {
    if rs != [] && r.createdAt < rs[0].createdAt {
      InsertKeepsNewestFirst(r, rs[1..]);
      InsertNoNewerThan(r, rs[1..], rs[0].createdAt);
    }
  }

  /**
   * The list a `find().sort({ createdAt: -1 })` query returns: every stored
   * record, newest first. Records with equal timestamps come back in an
   * order the query leaves open; this definition picks one.
   */
  function SortNewestFirst(rs: seq<UploadRecord>): (out: seq<UploadRecord>)
    ensures NewestFirst(out)
    ensures multiset(out) == multiset(rs)
    ensures |out| == |rs|
  {
    if rs == [] then []
    else
      assert rs == [rs[0]] + rs[1..];
      var sorted := SortNewestFirst(rs[1..]);
      InsertKeepsNewestFirst(rs[0], sorted);
      InsertNewestFirst(rs[0], sorted)
  }
}

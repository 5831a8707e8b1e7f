/**
 * The handlers that forward a file multer wrote to the temporary
 * `uploads/` directory on to Cloudinary, record the Cloudinary URL, and
 * delete the temporary copy whatever happens.
 */
module CloudinaryController {
  import opened Wrappers
  import opened Text
  import opened FileRecords
  import opened Http
  import opened UploadMiddleware

  /** Node's message when `unlinkSync` finds no file at `path`. */
  function NoSuchFileMessage(path: string): string {
    "ENOENT: no such file or directory, unlink '" + path + "'"
  }

  /** The part of the file system the handlers touch: the set of paths that exist. */
  class TempDisk {
    var paths: set<string>

    constructor (existing: set<string>)
      ensures paths == existing
    {
      paths := existing;
    }

    /** `fs.existsSync(path)`. */
    method ExistsSync(path: string) returns (found: bool)
      ensures found <==> path in paths
    {
      found := path in paths;
    }

    /** `fs.unlinkSync(path)`: removes the file, or throws when there is none. */
    method UnlinkSync(path: string) returns (error: Option<string>)
      modifies this
      ensures paths == old(paths) - {path}
      ensures error == if path in old(paths) then None else Some(NoSuchFileMessage(path))
    {
      error := if path in paths then None else Some(NoSuchFileMessage(path));
      paths := paths - {path};
    }
  }

  /** What one call of `cloudinary.uploader.upload` comes back with. */
  datatype CdnOutcome = CdnUploaded(secureUrl: string) | CdnFailed(message: string)

  /** The outside calls a handler makes, in the order it makes them. */
  datatype Effect = CdnUpload(path: string) | Unlink(path: string) | SaveRecord(record: UploadRecord)

  function PathsOf(files: seq<DiskFile>): set<string> {
    set k | 0 <= k < |files| :: files[k].path
  }

  /** `req.files.map(file => cloudinary.uploader.upload(file.path, ...))`: one upload per file, in order. */
  function CdnUploads(files: seq<DiskFile>): (effects: seq<Effect>)
    ensures |effects| == |files|
    ensures forall i :: 0 <= i < |files| ==> effects[i] == CdnUpload(files[i].path)
  {
    if files == [] then [] else [CdnUpload(files[0].path)] + CdnUploads(files[1..])
  }

  /**
   * The unlink calls of `req.files.forEach(f => existsSync(f.path) && unlinkSync(f.path))`
   * when `present` are the paths that exist: a path listed twice is unlinked once.
   */
  function Cleanup(files: seq<DiskFile>, present: set<string>): seq<Effect> {
    if files == [] then []
    else if files[0].path in present then [Unlink(files[0].path)] + Cleanup(files[1..], present - {files[0].path})
    else Cleanup(files[1..], present)
  }

  /**
   * The cleanup unlinks at most once per file, only listed paths that
   * exist, each of them, and none twice.
   */
  lemma {:induction false} CleanupUnlinksEachExistingOnce(files: seq<DiskFile>, present: set<string>)
    ensures |Cleanup(files, present)| <= |files|
    ensures forall k :: 0 <= k < |Cleanup(files, present)| ==>
      Cleanup(files, present)[k].Unlink?
      && Cleanup(files, present)[k].path in present && Cleanup(files, present)[k].path in PathsOf(files)
    ensures forall p :: p in present && p in PathsOf(files) ==> Unlink(p) in Cleanup(files, present)
    ensures forall i, j :: 0 <= i < j < |Cleanup(files, present)| ==> Cleanup(files, present)[i] != Cleanup(files, present)[j]
  {
    if files != [] {
      PathsOfCons(files);
      var p := files[0].path;
      if p in present {
        CleanupUnlinksEachExistingOnce(files[1..], present - {p});
      } else {
        CleanupUnlinksEachExistingOnce(files[1..], present);
      }
    }
  }

  lemma PathsOfCons(files: seq<DiskFile>)
    requires files != []
    ensures PathsOf(files) == {files[0].path} + PathsOf(files[1..])
  {
    forall q | q in PathsOf(files) ensures q in {files[0].path} + PathsOf(files[1..]) {
      var k :| 0 <= k < |files| && files[k].path == q;
      if k > 0 { assert files[1..][k - 1].path == q; }
    }
    forall q | q in PathsOf(files[1..]) ensures q in PathsOf(files) {
      var k :| 0 <= k < |files[1..]| && files[1..][k].path == q;
      assert files[k + 1].path == q;
    }
  }

  lemma {:induction false} CleanupOfAbsent(files: seq<DiskFile>, present: set<string>)
    requires present !! PathsOf(files)
    ensures Cleanup(files, present) == []
  {
    if files != [] {
      assert files[0].path in PathsOf(files);
      assert PathsOf(files[1..]) <= PathsOf(files) by {
        forall q | q in PathsOf(files[1..]) ensures q in PathsOf(files) {
          var k :| 0 <= k < |files[1..]| && files[1..][k].path == q;
          assert files[k + 1].path == q;
        }
      }
      CleanupOfAbsent(files[1..], present);
    }
  }

  /** Every upload promise resolved. */
  predicate AllUploaded(results: seq<CdnOutcome>) {
    forall i :: 0 <= i < |results| ==> results[i].CdnUploaded?
  }

  /** The error `Promise.all` rejects with, taken as the first failure in list order. */
  function FirstFailure(results: seq<CdnOutcome>): (m: Option<string>)
    ensures m.None? <==> AllUploaded(results)
    ensures m.Some? ==> exists i :: 0 <= i < |results| && results[i] == CdnFailed(m.value)
  {
    if results == [] then None
    else if results[0].CdnFailed? then Some(results[0].message)
    else
      var rest := FirstFailure(results[1..]);
      assert rest.Some? ==> exists i :: 0 <= i < |results[1..]| && results[1..][i] == CdnFailed(rest.value);
      rest
  }

  /** `results.map(result => result.secure_url)`: one URL per uploaded file, in order. */
  function SecureUrls(results: seq<CdnOutcome>): (urls: seq<string>)
    requires AllUploaded(results)
    ensures |urls| == |results|
    ensures forall i :: 0 <= i < |results| ==> urls[i] == results[i].secureUrl
  {
    if results == [] then [] else [results[0].secureUrl] + SecureUrls(results[1..])
  }

  /** One step of the cleanup: the first file is unlinked if it exists, and is gone for the rest. */
  lemma CleanupStep(files: seq<DiskFile>, present: set<string>)
    requires files != []
    ensures Cleanup(files, present)
      == (if files[0].path in present then [Unlink(files[0].path)] else [])
         + Cleanup(files[1..], present - {files[0].path})
  {
    if files[0].path !in present {
      assert present - {files[0].path} == present;
    }
  }

  /** The `forEach` that deletes whichever temporary files still exist. */
  method RemoveTempFiles(disk: TempDisk, files: seq<DiskFile>) returns (unlinked: seq<Effect>)
    modifies disk
    ensures disk.paths == old(disk.paths) - PathsOf(files)
    ensures unlinked == Cleanup(files, old(disk.paths))
  {
    unlinked := [];
    var i := 0;
    while i < |files|
      invariant 0 <= i <= |files|
      invariant disk.paths == old(disk.paths) - PathsOf(files[..i])
      invariant unlinked + Cleanup(files[i..], disk.paths) == Cleanup(files, old(disk.paths))
    {
      var path := files[i].path;
      assert files[i..][0] == files[i] && files[i..][1..] == files[i + 1..];
      CleanupStep(files[i..], disk.paths);
      assert PathsOf(files[..i + 1]) == PathsOf(files[..i]) + {path} by {
        assert forall k :: 0 <= k < i ==> files[..i + 1][k] == files[..i][k];
        assert files[..i + 1][i] == files[i];
      }
      var present := disk.ExistsSync(path);
      if present {
        var _ := disk.UnlinkSync(path);
        unlinked := unlinked + [Unlink(path)];
      }
      i := i + 1;
    }
    assert files[..|files|] == files;
  }

  /**
   * `uploadSingleToCloudinary`: no file is a 400 with no upload, no
   * deletion and no record. Otherwise the file is uploaded, its temporary
   * copy deleted, and only then the record with the Cloudinary URL saved;
   * every failure is a 500, and on every path the temporary copy is gone
   * when the handler returns.
   */
  method UploadSingleToCloudinary(
    file: Option<DiskFile>, cdn: CdnOutcome, save: SaveOutcome, now: nat,
    disk: TempDisk, db: Collection)
    returns (resp: Response, effects: seq<Effect>)
    modifies disk, db
    ensures file.None? ==>
      resp == BadRequest("No file uploaded") && effects == []
      && disk.paths == old(disk.paths) && db.records == old(db.records)
    ensures file.Some? ==> disk.paths == old(disk.paths) - {file.value.path}
    ensures file.Some? && cdn.CdnFailed? ==>
      db.records == old(db.records)
      && effects == [CdnUpload(file.value.path)] + (if file.value.path in old(disk.paths) then [Unlink(file.value.path)] else [])
      && resp == InternalError("Error uploading file to Cloudinary", cdn.message)
    ensures file.Some? && cdn.CdnUploaded? && file.value.path !in old(disk.paths) ==>
      db.records == old(db.records)
      && effects == [CdnUpload(file.value.path), Unlink(file.value.path)]
      && resp == InternalError("Error uploading file to Cloudinary", NoSuchFileMessage(file.value.path))
    ensures file.Some? && cdn.CdnUploaded? && file.value.path in old(disk.paths) ==>
      effects == [CdnUpload(file.value.path), Unlink(file.value.path), SaveRecord(SingleRecord(cdn.secureUrl, now))]
    ensures file.Some? && cdn.CdnUploaded? && file.value.path in old(disk.paths) && save.Saved? ==>
      db.records == old(db.records) + [SingleRecord(cdn.secureUrl, now)]
      && resp == Created("File uploaded to Cloudinary successfully", FilePayload(cdn.secureUrl))
    ensures file.Some? && cdn.CdnUploaded? && file.value.path in old(disk.paths) && save.SaveFailed? ==>
      db.records == old(db.records) && resp == InternalError("Error uploading file to Cloudinary", save.message)
    ensures old(AllWellShaped(db.records)) ==> AllWellShaped(db.records)
  {
    if file.None? {
      return BadRequest("No file uploaded"), [];
    }
    var path := file.value.path;
    effects := [CdnUpload(path)];
    var failure: string;
    if cdn.CdnUploaded? {
      effects := effects + [Unlink(path)];
      var unlinkError := disk.UnlinkSync(path);
      if unlinkError.None? {
        var record := SingleRecord(cdn.secureUrl, now);
        effects := effects + [SaveRecord(record)];
        var saveError := db.Save(record, save);
        if saveError.None? {
          return Created("File uploaded to Cloudinary successfully", FilePayload(cdn.secureUrl)), effects;
        }
        failure := saveError.value;
      } else {
        failure := unlinkError.value;
      }
    } else {
      failure := cdn.message;
    }
    // The catch block: delete the temporary copy if it is still there.
    var present := disk.ExistsSync(path);
    if present {
      var _ := disk.UnlinkSync(path);
      effects := effects + [Unlink(path)];
    }
    resp := InternalError("Error uploading file to Cloudinary", failure);
  }

  /**
   * `uploadMultipleToCloudinary`: no files or an empty list is a 400 with
   * no upload, no deletion and no record. Otherwise every file is uploaded;
   * only if every upload succeeds are the temporary copies deleted and then
   * one record with the Cloudinary URLs, in file order, saved. Every
   * failure is a 500, and on every path no temporary copy is left.
   */
  method UploadMultipleToCloudinary(
    files: Option<seq<DiskFile>>, cdn: seq<CdnOutcome>, save: SaveOutcome, now: nat,
    disk: TempDisk, db: Collection)
    returns (resp: Response, effects: seq<Effect>)
    requires files.Some? ==> |cdn| == |files.value|
    modifies disk, db
    ensures files.None? || files.value == [] ==>
      resp == BadRequest("No files uploaded") && effects == []
      && disk.paths == old(disk.paths) && db.records == old(db.records)
    ensures files.Some? && files.value != [] ==> disk.paths == old(disk.paths) - PathsOf(files.value)
    ensures files.Some? && files.value != [] && !AllUploaded(cdn) ==>
      db.records == old(db.records)
      && effects == CdnUploads(files.value) + Cleanup(files.value, old(disk.paths))
      && resp == InternalError("Error uploading files to Cloudinary", FirstFailure(cdn).value)
    ensures files.Some? && files.value != [] && AllUploaded(cdn) ==>
      effects == CdnUploads(files.value) + Cleanup(files.value, old(disk.paths))
                 + [SaveRecord(BatchRecord(SecureUrls(cdn), now))]
    ensures files.Some? && files.value != [] && AllUploaded(cdn) && save.Saved? ==>
      db.records == old(db.records) + [BatchRecord(SecureUrls(cdn), now)]
      && resp == Created(NatToString(|files.value|) + " files uploaded to Cloudinary successfully",
                         FilesPayload(SecureUrls(cdn)))
    ensures files.Some? && files.value != [] && AllUploaded(cdn) && save.SaveFailed? ==>
      db.records == old(db.records) && resp == InternalError("Error uploading files to Cloudinary", save.message)
    ensures old(AllWellShaped(db.records)) ==> AllWellShaped(db.records)
  {
    if files.None? || |files.value| == 0 {
      return BadRequest("No files uploaded"), [];
    }
    var fs := files.value;
    effects := CdnUploads(fs);
    var failure := FirstFailure(cdn);
    if failure.None? {
      var removed := RemoveTempFiles(disk, fs);
      effects := effects + removed;
      var fileUrls := SecureUrls(cdn);
      var record := BatchRecord(fileUrls, now);
      effects := effects + [SaveRecord(record)];
      var saveError := db.Save(record, save);
      if saveError.None? {
        return Created(NatToString(|fs|) + " files uploaded to Cloudinary successfully", FilesPayload(fileUrls)), effects;
      }
      failure := saveError;
    }
    // The catch block: delete whichever temporary copies are still there.
    var before := disk.paths;
    var removed := RemoveTempFiles(disk, fs);
    if AllUploaded(cdn) {
      CleanupOfAbsent(fs, before);
    }
    effects := effects + removed;
    resp := InternalError("Error uploading files to Cloudinary", failure.value);
  }
}

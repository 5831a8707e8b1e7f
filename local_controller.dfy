/** The handlers for uploads kept on the server's own disk. */
module LocalController {
  import opened Wrappers
  import opened Text
  import opened FileRecords
  import opened Http
  import opened UploadMiddleware

  /** The URL path under which the server publishes its `uploads` directory. */
  const UploadUrlPrefix: string := "/uploads/"

  function UploadPath(filename: string): (p: string)
    ensures IsPrefix(UploadUrlPrefix, p) && IsSuffix(filename, p)
    ensures p[|UploadUrlPrefix|..] == filename
  {
    UploadUrlPrefix + filename
  }

  /** `req.files.map(file => '/uploads/' + file.filename)`: one path per file, in order. */
  function UploadPaths(files: seq<DiskFile>): (paths: seq<string>)
    ensures |paths| == |files|
    ensures forall i :: 0 <= i < |files| ==> paths[i] == UploadPath(files[i].filename)
  {
    if files == [] then [] else [UploadPath(files[0].filename)] + UploadPaths(files[1..])
  }

  /**
   * `uploadSingleLocal`: no file is a 400 and nothing is saved; otherwise
   * one record whose `file` is the public path is saved and that path is
   * echoed with 201, or the save fails and the answer is a 500.
   */
  method UploadSingleLocal(file: Option<DiskFile>, save: SaveOutcome, now: nat, db: Collection)
    returns (resp: Response)
    modifies db
    ensures file.None? ==> resp == BadRequest("No file uploaded") && db.records == old(db.records)
    ensures file.Some? && save.Saved? ==>
      db.records == old(db.records) + [SingleRecord(UploadPath(file.value.filename), now)]
      && resp == Created("File uploaded locally successfully", FilePayload(UploadPath(file.value.filename)))
    ensures file.Some? && save.SaveFailed? ==>
      db.records == old(db.records) && resp == InternalError("Error uploading file locally", save.message)
    ensures old(AllWellShaped(db.records)) ==> AllWellShaped(db.records)
  {
    if file.None? {
      return BadRequest("No file uploaded");
    }
    var filePath := UploadPath(file.value.filename);
    var error := db.Save(SingleRecord(filePath, now), save);
    if error.Some? {
      return InternalError("Error uploading file locally", error.value);
    }
    resp := Created("File uploaded locally successfully", FilePayload(filePath));
  }

  /**
   * `uploadMultipleLocal`: no files or an empty list is a 400 and nothing
   * is saved; otherwise exactly one record holding every path in order is
   * saved and the answer's message counts the files, or the save fails
   * and the answer is a 500.
   */
  method UploadMultipleLocal(files: Option<seq<DiskFile>>, save: SaveOutcome, now: nat, db: Collection)
    returns (resp: Response)
    modifies db
    ensures files.None? || files.value == [] ==>
      resp == BadRequest("No files uploaded") && db.records == old(db.records)
    ensures files.Some? && files.value != [] && save.Saved? ==>
      db.records == old(db.records) + [BatchRecord(UploadPaths(files.value), now)]
      && resp == Created(NatToString(|files.value|) + " files uploaded locally successfully",
                         FilesPayload(UploadPaths(files.value)))
    ensures files.Some? && files.value != [] && save.SaveFailed? ==>
      db.records == old(db.records) && resp == InternalError("Error uploading files locally", save.message)
    ensures old(AllWellShaped(db.records)) ==> AllWellShaped(db.records)
  {
    if files.None? || |files.value| == 0 {
      return BadRequest("No files uploaded");
    }
    var filePaths := UploadPaths(files.value);
    var error := db.Save(BatchRecord(filePaths, now), save);
    if error.Some? {
      return InternalError("Error uploading files locally", error.value);
    }
    resp := Created(NatToString(|files.value|) + " files uploaded locally successfully", FilesPayload(filePaths));
  }

  /** What the `find()` query itself does: it answers, or rejects with an error message. */
  datatype QueryOutcome = Answered | QueryFailed(message: string)

  /**
   * `getAllLocalFiles`: every stored record, newest first, with `count`
   * equal to the number of records; a failed query is a 500.
   */
  method GetAllLocalFiles(db: Collection, query: QueryOutcome) returns (resp: Response)
    ensures query.Answered? ==>
      resp.status == 200 && resp.success && resp.message == None && resp.error == None
      && resp.data.RecordsPayload?
      && resp.data.count == |resp.data.records| == |db.records|
      && NewestFirst(resp.data.records)
      && multiset(resp.data.records) == multiset(db.records)
    ensures query.QueryFailed? ==> resp == InternalError("Error fetching local files", query.message)
  {
    if query.QueryFailed? {
      return InternalError("Error fetching local files", query.message);
    }
    var found := SortNewestFirst(db.records);
    resp := Response(200, true, None, RecordsPayload(|found|, found), None);
  }
}

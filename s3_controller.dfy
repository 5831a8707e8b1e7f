/** The handlers for files multer has already put into the S3 bucket. */
module S3Controller {
  import opened Wrappers
  import opened Text
  import opened FileRecords
  import opened Http
  import opened UploadMiddleware

  /** `req.files.map(file => file.location)`: one object URL per file, in order. */
  function Locations(files: seq<S3File>): (urls: seq<string>)
    ensures |urls| == |files|
    ensures forall i :: 0 <= i < |files| ==> urls[i] == files[i].location
  {
    if files == [] then [] else [files[0].location] + Locations(files[1..])
  }

  /**
   * `uploadSingleToS3`: no file is a 400 and nothing is saved; otherwise
   * one record whose `file` is the object URL is saved and echoed with
   * 201, or the save fails and the answer is a 500.
   */
  method UploadSingleToS3(file: Option<S3File>, save: SaveOutcome, now: nat, db: Collection)
    returns (resp: Response)
    modifies db
    ensures file.None? ==> resp == BadRequest("No file uploaded") && db.records == old(db.records)
    ensures file.Some? && save.Saved? ==>
      db.records == old(db.records) + [SingleRecord(file.value.location, now)]
      && resp == Created("File uploaded to S3 successfully", FilePayload(file.value.location))
    ensures file.Some? && save.SaveFailed? ==>
      db.records == old(db.records) && resp == InternalError("Error uploading file to S3", save.message)
    ensures old(AllWellShaped(db.records)) ==> AllWellShaped(db.records)
  {
    if file.None? {
      return BadRequest("No file uploaded");
    }
    var fileUrl := file.value.location;
    var error := db.Save(SingleRecord(fileUrl, now), save);
    if error.Some? {
      return InternalError("Error uploading file to S3", error.value);
    }
    resp := Created("File uploaded to S3 successfully", FilePayload(fileUrl));
  }

  /**
   * `uploadMultipleToS3`: no files or an empty list is a 400 and nothing
   * is saved; otherwise exactly one record holding every object URL in
   * order is saved and the message counts the files, or the save fails
   * and the answer is a 500.
   */
  method UploadMultipleToS3(files: Option<seq<S3File>>, save: SaveOutcome, now: nat, db: Collection)
    returns (resp: Response)
    modifies db
    ensures files.None? || files.value == [] ==>
      resp == BadRequest("No files uploaded") && db.records == old(db.records)
    ensures files.Some? && files.value != [] && save.Saved? ==>
      db.records == old(db.records) + [BatchRecord(Locations(files.value), now)]
      && resp == Created(NatToString(|files.value|) + " files uploaded to S3 successfully",
                         FilesPayload(Locations(files.value)))
    ensures files.Some? && files.value != [] && save.SaveFailed? ==>
      db.records == old(db.records) && resp == InternalError("Error uploading files to S3", save.message)
    ensures old(AllWellShaped(db.records)) ==> AllWellShaped(db.records)
  {
    if files.None? || |files.value| == 0 {
      return BadRequest("No files uploaded");
    }
    var fileUrls := Locations(files.value);
    var error := db.Save(BatchRecord(fileUrls, now), save);
    if error.Some? {
      return InternalError("Error uploading files to S3", error.value);
    }
    resp := Created(NatToString(|files.value|) + " files uploaded to S3 successfully", FilesPayload(fileUrls));
  }
}

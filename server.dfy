/** The server's global error handler and its health-check response. */
module Server {
  import opened Wrappers
  import opened Http
  import FileValidation
  import UploadMiddleware

  const FileSizeMessage: string := "File size too large. Maximum size is 5MB."
  const FileCountMessage: string := "Too many files. Maximum is 10 files at once."
  const DefaultErrorMessage: string := "Internal Server Error"

  /**
   * The global error handler: multer's two limit codes become fixed 400
   * answers whatever else the error says; any other error is answered with
   * its own status (500 when unset or zero) and its own message (a fixed
   * text when empty). Every answer reports failure with a non-empty message.
   */
  function HandleError(err: ServerError): (r: Response)
    ensures !r.success && r.data == NoPayload && r.error == None
    ensures r.status != 0
    ensures r.message.Some? && r.message.value != ""
    ensures err.code == "LIMIT_FILE_SIZE" ==> r.status == 400 && r.message == Some(FileSizeMessage)
    ensures err.code == "LIMIT_FILE_COUNT" ==> r.status == 400 && r.message == Some(FileCountMessage)
    ensures err.code != "LIMIT_FILE_SIZE" && err.code != "LIMIT_FILE_COUNT" ==>
      r.status == (if err.status.Some? && err.status.value != 0 then err.status.value else 500)
    ensures err.code != "LIMIT_FILE_SIZE" && err.code != "LIMIT_FILE_COUNT" ==>
      r.message == Some(if err.message != "" then err.message else DefaultErrorMessage)
  {
    if err.code == "LIMIT_FILE_SIZE" then
      Response(400, false, Some(FileSizeMessage), NoPayload, None)
    else if err.code == "LIMIT_FILE_COUNT" then
      Response(400, false, Some(FileCountMessage), NoPayload, None)
    else
      var status := if err.status.Some? && err.status.value != 0 then err.status.value else 500;
      var message := if err.message != "" then err.message else DefaultErrorMessage;
      Response(status, false, Some(message), NoPayload, None)
  }

  /** A limit code decides the answer on its own: the error's status and message play no part. */
  lemma LimitCodeOverridesStatus(code: string, status: Option<int>, message: string)
    requires code == "LIMIT_FILE_SIZE" || code == "LIMIT_FILE_COUNT"
    ensures HandleError(ServerError(code, status, message)) == HandleError(ServerError(code, None, ""))
  {
  }

  /**
   * A file of a type the filter refuses is answered 500, not 400, since the
   * filter's error carries no status; the message names the type.
   */
  lemma RejectedTypeAnswer(mimetype: string)
    requires !FileValidation.FileFilter(mimetype).accept
    ensures HandleError(UploadMiddleware.FilterError(mimetype)) ==
      Response(500, false, Some(FileValidation.RejectionPrefix + mimetype + FileValidation.RejectionSuffix), NoPayload, None)
  {
  }

  /** A file of an accepted type over the size limit is answered 400 with the fixed size message. */
  lemma OversizedFileAnswer(now: nat, f: UploadMiddleware.IncomingFile)
    requires FileValidation.FileFilter(f.mimetype).accept && f.size > UploadMiddleware.MaxFileSize
    ensures UploadMiddleware.StoreLocal(now, f).Err?
    ensures HandleError(UploadMiddleware.StoreLocal(now, f).error) == Response(400, false, Some(FileSizeMessage), NoPayload, None)
  {
  }

  /**
   * An eleventh file in an `array('files', 10)` field, after ten kept
   * ones, is answered by the default branch: 500 with multer's
   * "Unexpected field", not the fixed too-many-files text.
   */
  lemma TooManyFilesAnswer(files: seq<UploadMiddleware.IncomingFile>)
    requires |files| > UploadMiddleware.MaxFilesPerField
    requires UploadMiddleware.PrefixKept("files", files, UploadMiddleware.MaxFilesPerField)
    ensures UploadMiddleware.FieldError("files", files, UploadMiddleware.MaxFilesPerField) == Some(UploadMiddleware.UnexpectedFieldError)
    ensures HandleError(UploadMiddleware.UnexpectedFieldError) == Response(500, false, Some("Unexpected field"), NoPayload, None)
  {
    UploadMiddleware.FieldErrorIsFirstFailure("files", files, UploadMiddleware.MaxFilesPerField);
  }

  /** The too-many-files text starts with a letter no rejection text starts with. */
  lemma FileCountStartsWithT()
    ensures FileCountMessage[0] == 'T'
  {
  }

  /** No request a multer field rejects is ever answered with the too-many-files text. */
  lemma FileCountTextUnreachable(field: string, files: seq<UploadMiddleware.IncomingFile>, left: nat)
    requires UploadMiddleware.FieldError(field, files, left).Some?
    ensures HandleError(UploadMiddleware.FieldError(field, files, left).value).message != Some(FileCountMessage)
  {
    UploadMiddleware.FieldErrorKinds(field, files, left);
    var e := UploadMiddleware.FieldError(field, files, left).value;
    if e.code == "" {
      assert e.message[0] == FileValidation.RejectionPrefix[0] == 'I';
      assert FileCountMessage[0] == 'T' by { FileCountStartsWithT(); }
    }
  }

  /** The body of `GET /api/health` with its HTTP status. */
  datatype HealthResponse = HealthResponse(httpStatus: int, status: string, message: string, timestamp: string)

  /** The health check always answers 200 with status "ok"; `timestamp` is the current time as ISO text. */
  function Health(timestamp: string): (r: HealthResponse)
    ensures r.httpStatus == 200 && r.status == "ok" && r.message == "Server is running" && r.timestamp == timestamp
  {
    HealthResponse(200, "ok", "Server is running", timestamp)
  }
}

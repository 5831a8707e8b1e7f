/** The JSON responses the server sends and the error objects it handles. */
module Http {
  import opened Wrappers
  import opened FileRecords

  /** The `data` member of a response body. */
  datatype Payload =
    | NoPayload
    | FilePayload(file: string)
    | FilesPayload(files: seq<string>)
    | RecordsPayload(count: nat, records: seq<UploadRecord>)

  /**
   * A response: the HTTP status and the body's `success`, `message`,
   * `data` (with `count` for listings) and `error` members; `None` and
   * `NoPayload` stand for a member the body does not carry.
   */
  datatype Response = Response(
    status: int,
    success: bool,
    message: Option<string>,
    data: Payload,
    error: Option<string>)

  /**
   * A thrown error as the global error handler sees it: multer's `code`
   * ("" when absent), an optional HTTP `status` and the `message`.
   */
  datatype ServerError = ServerError(code: string, status: Option<int>, message: string)

  function BadRequest(message: string): Response {
    Response(400, false, Some(message), NoPayload, None)
  }

  function Created(message: string, data: Payload): Response {
    Response(201, true, Some(message), data, None)
  }

  function InternalError(message: string, error: string): Response {
    Response(500, false, Some(message), NoPayload, Some(error))
  }
}

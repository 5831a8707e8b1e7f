/**
 * The client side of the pre-signed S3 handshake: ask the server for a
 * signed PUT URL per file, PUT each file straight to S3, then ask the
 * server to record the resulting object URLs. The server's answers and
 * S3's are inputs; the handlers work on the upload form's section state.
 */
module PresignedUpload {
  import opened Wrappers
  import opened Text
  import opened FileUpload

  /** One `{filename, filetype}` of the issue request's body. */
  datatype FileDescriptor = FileDescriptor(filename: string, filetype: string)

  /** One credential in the issue response's `data`. */
  datatype PresignedEntry = PresignedEntry(presignedUrl: string, fileUrl: string, contentType: string, filename: string)

  /**
   * What the catch block reads of a rejection: `error.response?.data?.message`
   * and `error.message`, each "" when absent or empty.
   */
  datatype Failure = Failure(responseMessage: string, message: string)

  /** The server's answer to an `axios.post`: a response body's `data`, or a rejection. */
  datatype Reply<T> = Answered(value: T) | Rejected(failure: Failure)

  /** A `fetch` PUT to S3: a response with its `ok` flag and status text, or a network error. */
  datatype PutOutcome = PutAnswered(ok: bool, statusText: string) | PutNetworkError(message: string)

  /** The requests the client sends, to the server or to S3. */
  datatype Request =
    | IssueSingle(descriptor: FileDescriptor)
    | IssueMultiple(descriptors: seq<FileDescriptor>)
    | Put(url: string, body: Option<ClientFile>, contentType: string)
    | ConfirmSingle(fileUrl: string)
    | ConfirmMultiple(fileUrls: seq<string>)

  /** How the `try` block ends: it reaches the end, or the catch block gets an error message to show. */
  datatype Exchange = Completed | Aborted(message: string)

  const PresignedFallbackMessage: string := "Pre-signed upload failed. Please try again."
  const NoFilesMessage: string := "Please select files first."
  const SingleSuccessMessage: string := "SUCCESS: File uploaded via pre-signed URL successfully"

  function BatchSuccessMessage(count: nat): string {
    "SUCCESS: " + NatToString(count) + " files uploaded via pre-signed URLs successfully"
  }

  /** The catch block's choice: the server's message, else the error's own, else a fixed text. */
  function ErrorMessage(f: Failure): (m: string)
    ensures m != ""
    ensures f.responseMessage != "" ==> m == f.responseMessage
    ensures f.responseMessage == "" && f.message != "" ==> m == f.message
    ensures f.responseMessage == "" && f.message == "" ==> m == PresignedFallbackMessage
  {
    if f.responseMessage != "" then f.responseMessage
    else if f.message != "" then f.message
    else PresignedFallbackMessage
  }

  function Describe(f: ClientFile): FileDescriptor {
    FileDescriptor(f.name, f.mimeType)
  }

  /** `files.map(file => ({filename: file.name, filetype: file.type}))`. */
  function Descriptors(files: seq<ClientFile>): (ds: seq<FileDescriptor>)
    ensures |ds| == |files|
    ensures forall i :: 0 <= i < |files| ==> ds[i] == FileDescriptor(files[i].name, files[i].mimeType)
  {
    if files == [] then [] else [Describe(files[0])] + Descriptors(files[1..])
  }

  /** `presignedData.map(data => data.fileUrl)`. */
  function FileUrls(data: seq<PresignedEntry>): (urls: seq<string>)
    ensures |urls| == |data|
    ensures forall i :: 0 <= i < |data| ==> urls[i] == data[i].fileUrl
  {
    if data == [] then [] else [data[0].fileUrl] + FileUrls(data[1..])
  }

  /** `uploadData.files[index]`: `undefined` past the end of the selection. */
  function BodyAt(files: seq<ClientFile>, i: nat): (body: Option<ClientFile>)
    ensures body.Some? <==> i < |files|
    ensures body.Some? ==> body.value == files[i]
  {
    if i < |files| then Some(files[i]) else None
  }

  /** The PUT for credential `i`: its URL and content type, with the `i`-th selected file as body. */
  function PutFor(data: seq<PresignedEntry>, files: seq<ClientFile>, i: nat): (r: Request)
    requires i < |data|
    ensures r.Put? && r.url == data[i].presignedUrl && r.contentType == data[i].contentType
    ensures i < |files| ==> r.body == Some(files[i])
    ensures i >= |files| ==> r.body == None
  {
    Put(data[i].presignedUrl, BodyAt(files, i), data[i].contentType)
  }

  predicate PutSucceeded(p: PutOutcome) {
    p.PutAnswered? && p.ok
  }

  predicate AllPutsSucceeded(puts: seq<PutOutcome>) {
    forall i :: 0 <= i < |puts| ==> PutSucceeded(puts[i])
  }

  /** The message of the error a failed PUT throws; `fileLabel` names the file in a batch. */
  function PutErrorText(p: PutOutcome, fileLabel: string): (m: string)
    requires !PutSucceeded(p)
    ensures p.PutAnswered? ==> m != "" && IsPrefix("S3 upload failed" + fileLabel, m) && IsSuffix(": " + p.statusText, m)
    ensures p.PutAnswered? ==> m[|"S3 upload failed" + fileLabel|..] == ": " + p.statusText
    ensures p.PutNetworkError? ==> m == p.message
  {
    match p
    case PutAnswered(_, statusText) => "S3 upload failed" + fileLabel + ": " + statusText
    case PutNetworkError(message) => message
  }

  /** The error `Promise.all` over the PUTs rejects with, taken as the first failure in list order. */
  function FirstPutFailure(data: seq<PresignedEntry>, puts: seq<PutOutcome>): (m: Option<string>)
    requires |puts| == |data|
    ensures m.None? <==> AllPutsSucceeded(puts)
    ensures m.Some? ==> exists i :: 0 <= i < |puts| && !PutSucceeded(puts[i])
                                    && m.value == PutErrorText(puts[i], " for " + data[i].filename)
                                    && AllPutsSucceeded(puts[..i])
  {
    if puts == [] then None
    else if !PutSucceeded(puts[0]) then
      assert AllPutsSucceeded(puts[..0]);
      Some(PutErrorText(puts[0], " for " + data[0].filename))
    else
      var rest := FirstPutFailure(data[1..], puts[1..]);
      if rest.Some? then
        var i :| 0 <= i < |puts[1..]| && !PutSucceeded(puts[1..][i])
                 && rest.value == PutErrorText(puts[1..][i], " for " + data[1..][i].filename)
                 && AllPutsSucceeded(puts[1..][..i]);
        assert puts[..i + 1] == [puts[0]] + puts[1..][..i];
        assert AllPutsSucceeded(puts[..i + 1]);
        rest
      else
        assert forall k :: 1 <= k < |puts| ==> puts[k] == puts[1..][k - 1];
        rest
  }

  /** How `handlePresignedUploadSingle`'s try block ends for the given answers. */
  function SingleOutcome(issue: Reply<PresignedEntry>, put: PutOutcome, confirm: Reply<()>): (r: Exchange)
    ensures r.Completed? <==> issue.Answered? && PutSucceeded(put) && confirm.Answered?
    ensures r.Aborted? ==> r.message != ""
    ensures issue.Rejected? ==> r == Aborted(ErrorMessage(issue.failure))
    ensures issue.Answered? && !PutSucceeded(put) ==> r == Aborted(ErrorMessage(Failure("", PutErrorText(put, ""))))
    ensures issue.Answered? && PutSucceeded(put) && confirm.Rejected? ==> r == Aborted(ErrorMessage(confirm.failure))
  {
    if issue.Rejected? then Aborted(ErrorMessage(issue.failure))
    else if !PutSucceeded(put) then Aborted(ErrorMessage(Failure("", PutErrorText(put, ""))))
    else if confirm.Rejected? then Aborted(ErrorMessage(confirm.failure))
    else Completed
  }

  /** How `handlePresignedUploadMultiple`'s try block ends for the given answers. */
  function MultipleOutcome(issue: Reply<seq<PresignedEntry>>, puts: seq<PutOutcome>, confirm: Reply<()>): (r: Exchange)
    requires issue.Answered? ==> |puts| == |issue.value|
    ensures r.Completed? <==> issue.Answered? && AllPutsSucceeded(puts) && confirm.Answered?
    ensures r.Aborted? ==> r.message != ""
    ensures issue.Rejected? ==> r == Aborted(ErrorMessage(issue.failure))
    ensures issue.Answered? && !AllPutsSucceeded(puts) ==>
      r == Aborted(ErrorMessage(Failure("", FirstPutFailure(issue.value, puts).value)))
    ensures issue.Answered? && AllPutsSucceeded(puts) && confirm.Rejected? ==> r == Aborted(ErrorMessage(confirm.failure))
  {
    if issue.Rejected? then Aborted(ErrorMessage(issue.failure))
    else if !AllPutsSucceeded(puts) then Aborted(ErrorMessage(Failure("", FirstPutFailure(issue.value, puts).value)))
    else if confirm.Rejected? then Aborted(ErrorMessage(confirm.failure))
    else Completed
  }

  /**
   * The network part of `handlePresignedUploadSingle`: issue, then PUT,
   * then confirm, each step only after the one before succeeded. The issue
   * request describes the file, the PUT sends it to the issued URL, and the
   * confirmation reports the issued public URL.
   */
  method PresignedSingleExchange(file: ClientFile, issue: Reply<PresignedEntry>, put: PutOutcome, confirm: Reply<()>)
    returns (requests: seq<Request>, result: Exchange)
    ensures 1 <= |requests| <= 3
    ensures requests[0] == IssueSingle(FileDescriptor(file.name, file.mimeType))
    ensures |requests| >= 2 <==> issue.Answered?
    ensures issue.Answered? ==> requests[1] == Put(issue.value.presignedUrl, Some(file), issue.value.contentType)
    ensures |requests| == 3 <==> issue.Answered? && PutSucceeded(put)
    ensures |requests| == 3 ==> requests[2] == ConfirmSingle(issue.value.fileUrl)
    ensures result == SingleOutcome(issue, put, confirm)
  {
    requests := [IssueSingle(Describe(file))];
    if issue.Rejected? {
      return requests, Aborted(ErrorMessage(issue.failure));
    }
    var entry := issue.value;
    requests := requests + [Put(entry.presignedUrl, Some(file), entry.contentType)];
    if !PutSucceeded(put) {
      return requests, Aborted(ErrorMessage(Failure("", PutErrorText(put, ""))));
    }
    requests := requests + [ConfirmSingle(entry.fileUrl)];
    if confirm.Rejected? {
      return requests, Aborted(ErrorMessage(confirm.failure));
    }
    result := Completed;
  }

  /**
   * The network part of `handlePresignedUploadMultiple`: one issue request
   * describing every file in order; then one PUT per credential, the
   * `i`-th with the `i`-th file as body; then, only if every PUT
   * succeeded, one confirmation listing every issued public URL in order.
   */
  method PresignedMultipleExchange(
    files: seq<ClientFile>, issue: Reply<seq<PresignedEntry>>, puts: seq<PutOutcome>, confirm: Reply<()>)
    returns (requests: seq<Request>, result: Exchange)
    requires issue.Answered? ==> |puts| == |issue.value|
    ensures |requests| >= 1 && requests[0] == IssueMultiple(Descriptors(files))
    ensures issue.Rejected? ==> |requests| == 1
    ensures issue.Answered? ==>
      |requests| >= 1 + |issue.value|
      && forall i :: 0 <= i < |issue.value| ==> requests[1 + i] == PutFor(issue.value, files, i)
    ensures issue.Answered? && !AllPutsSucceeded(puts) ==> |requests| == 1 + |issue.value|
    ensures issue.Answered? && AllPutsSucceeded(puts) ==>
      |requests| == 2 + |issue.value| && requests[1 + |issue.value|] == ConfirmMultiple(FileUrls(issue.value))
    ensures result == MultipleOutcome(issue, puts, confirm)
  {
    requests := [IssueMultiple(Descriptors(files))];
    if issue.Rejected? {
      return requests, Aborted(ErrorMessage(issue.failure));
    }
    var presignedData := issue.value;
    // Every fetch is started before Promise.all is awaited.
    var i := 0;
    while i < |presignedData|
      invariant 0 <= i <= |presignedData|
      invariant |requests| == 1 + i && requests[0] == IssueMultiple(Descriptors(files))
      invariant forall k :: 0 <= k < i ==> requests[1 + k] == PutFor(presignedData, files, k)
    {
      requests := requests + [PutFor(presignedData, files, i)];
      i := i + 1;
    }
    var failure := FirstPutFailure(presignedData, puts);
    if failure.Some? {
      return requests, Aborted(ErrorMessage(Failure("", failure.value)));
    }
    requests := requests + [ConfirmMultiple(FileUrls(presignedData))];
    if confirm.Rejected? {
      return requests, Aborted(ErrorMessage(confirm.failure));
    }
    result := Completed;
  }

  /**
   * `handlePresignedUploadSingle`: without a file only the message changes
   * and nothing is sent; otherwise the handshake runs, after which the
   * section is cleared with the success text, or keeps its selection and
   * shows the error. Loading is off afterwards; no other section changes.
   */
  method HandlePresignedUploadSingle(
    uploads: Uploads, section: Section, issue: Reply<PresignedEntry>, put: PutOutcome, confirm: Reply<()>)
    returns (requests: seq<Request>)
    requires uploads.Valid()
    modifies uploads
    ensures uploads.Valid()
    ensures old(uploads.sections)[section].file.None? ==>
      requests == []
      && uploads.sections == old(uploads.sections)[section := old(uploads.sections)[section].(message := NoSelectionMessage)]
    ensures old(uploads.sections)[section].file.Some? ==>
      var file := old(uploads.sections)[section].file.value;
      1 <= |requests| <= 3
      && requests[0] == IssueSingle(FileDescriptor(file.name, file.mimeType))
      && (|requests| >= 2 <==> issue.Answered?)
      && (issue.Answered? ==> requests[1] == Put(issue.value.presignedUrl, Some(file), issue.value.contentType))
      && (|requests| == 3 <==> issue.Answered? && PutSucceeded(put))
      && (|requests| == 3 ==> requests[2] == ConfirmSingle(issue.value.fileUrl))
    ensures old(uploads.sections)[section].file.Some? && SingleOutcome(issue, put, confirm).Completed? ==>
      uploads.sections == old(uploads.sections)[section := SectionState(None, None, false, SingleSuccessMessage)]
    ensures old(uploads.sections)[section].file.Some? && SingleOutcome(issue, put, confirm).Aborted? ==>
      uploads.sections == old(uploads.sections)[section := old(uploads.sections)[section].(
        loading := false, message := "ERROR: " + SingleOutcome(issue, put, confirm).message)]
  {
    var uploadData := uploads.sections[section];
    if uploadData.file.None? {
      uploads.sections := uploads.sections[section := uploadData.(message := NoSelectionMessage)];
      return [];
    }
    uploads.sections := uploads.sections[section := uploadData.(loading := true, message := "")];
    var result;
    requests, result := PresignedSingleExchange(uploadData.file.value, issue, put, confirm);
    match result
    case Completed =>
      uploads.sections := uploads.sections[section := SectionState(None, None, false, SingleSuccessMessage)];
    case Aborted(message) =>
      uploads.sections := uploads.sections[section := uploads.sections[section].(loading := false, message := "ERROR: " + message)];
  }

  /**
   * `handlePresignedUploadMultiple`: without files, or with an empty list,
   * only the message changes and nothing is sent; otherwise the handshake
   * runs, after which the section is cleared with a message counting the
   * files, or keeps its selection and shows the error.
   */
  method HandlePresignedUploadMultiple(
    uploads: Uploads, section: Section, issue: Reply<seq<PresignedEntry>>, puts: seq<PutOutcome>, confirm: Reply<()>)
    returns (requests: seq<Request>)
    requires uploads.Valid()
    requires issue.Answered? ==> |puts| == |issue.value|
    modifies uploads
    ensures uploads.Valid()
    ensures old(uploads.sections)[section].files.None? || old(uploads.sections)[section].files.value == [] ==>
      requests == []
      && uploads.sections == old(uploads.sections)[section := old(uploads.sections)[section].(message := NoFilesMessage)]
    ensures old(uploads.sections)[section].files.Some? && old(uploads.sections)[section].files.value != [] ==>
      var files := old(uploads.sections)[section].files.value;
      |requests| >= 1 && requests[0] == IssueMultiple(Descriptors(files))
      && (issue.Rejected? ==> |requests| == 1)
      && (issue.Answered? ==>
            |requests| >= 1 + |issue.value|
            && forall i :: 0 <= i < |issue.value| ==> requests[1 + i] == PutFor(issue.value, files, i))
      && (issue.Answered? && !AllPutsSucceeded(puts) ==> |requests| == 1 + |issue.value|)
      && (issue.Answered? && AllPutsSucceeded(puts) ==>
            |requests| == 2 + |issue.value| && requests[1 + |issue.value|] == ConfirmMultiple(FileUrls(issue.value)))
    ensures old(uploads.sections)[section].files.Some? && old(uploads.sections)[section].files.value != []
            && MultipleOutcome(issue, puts, confirm).Completed? ==>
      uploads.sections == old(uploads.sections)[section := SectionState(
        None, None, false, BatchSuccessMessage(|old(uploads.sections)[section].files.value|))]
    ensures old(uploads.sections)[section].files.Some? && old(uploads.sections)[section].files.value != []
            && MultipleOutcome(issue, puts, confirm).Aborted? ==>
      uploads.sections == old(uploads.sections)[section := old(uploads.sections)[section].(
        loading := false, message := "ERROR: " + MultipleOutcome(issue, puts, confirm).message)]
  {
    var uploadData := uploads.sections[section];
    if uploadData.files.None? || |uploadData.files.value| == 0 {
      uploads.sections := uploads.sections[section := uploadData.(message := NoFilesMessage)];
      return [];
    }
    uploads.sections := uploads.sections[section := uploadData.(loading := true, message := "")];
    var result;
    requests, result := PresignedMultipleExchange(uploadData.files.value, issue, puts, confirm);
    match result
    case Completed =>
      uploads.sections := uploads.sections[section := SectionState(
        None, None, false, BatchSuccessMessage(|uploadData.files.value|))];
    case Aborted(message) =>
      uploads.sections := uploads.sections[section := uploads.sections[section].(loading := false, message := "ERROR: " + message)];
  }
}

/**
 * The upload form's client state: six sections (S3, Cloudinary and local,
 * each single and multiple), each holding its selection, a loading flag
 * and a status message, and the handlers that move a section between
 * selecting, uploading, success and failure.
 */
module FileUpload {
  import opened Wrappers
  import opened Text
  import FileValidation

  /** A browser `File`, reduced to what the handlers read of it. */
  datatype ClientFile = ClientFile(name: string, mimeType: string)

  datatype Section = S3Single | S3Multiple | CloudinarySingle | CloudinaryMultiple | LocalSingle | LocalMultiple

  /** One section's record `{file, files, loading, message}`; `None` is `null` or a missing key. */
  datatype SectionState = SectionState(
    file: Option<ClientFile>, files: Option<seq<ClientFile>>, loading: bool, message: string)

  /** Every section's starting state. */
  const Idle: SectionState := SectionState(None, None, false, "")

  const AllowedTypes: seq<string> :=
    ["image/jpeg", "image/jpg", "image/png", "image/webp", "application/pdf"]

  const InvalidSingleMessage: string := "Invalid file type. Only JPG, PNG, WEBP, and PDF are allowed."
  const NoSelectionMessage: string := "Please select a file first."
  const UploadFallbackMessage: string := "Upload failed. Please try again."

  function InvalidBatchMessage(count: nat): string {
    NatToString(count) + " file(s) have invalid type. Only JPG, PNG, WEBP, and PDF are allowed."
  }

  /** `validateFileType`. */
  predicate ValidateFileType(f: ClientFile)
    ensures ValidateFileType(f) ==> IsPrefix("image/", f.mimeType) || f.mimeType == "application/pdf"
    ensures ValidateFileType(f) ==> !FileValidation.HasUpperCase(f.mimeType)
  {
    FileValidation.AllowlistIsLowerCase();
    f.mimeType in AllowedTypes
  }

  /** The browser checks the same list the server's filter does. */
  lemma ClientAllowlistIsServerAllowlist()
    ensures AllowedTypes == FileValidation.AllowedMimeTypes
  {
  }

  /** So a file passes the client check exactly when the server's filter would keep it. */
  lemma ClientCheckAgreesWithServer(f: ClientFile)
    ensures ValidateFileType(f) <==> FileValidation.FileFilter(f.mimeType).accept
  {
  }

  /** `files.filter(file => !validateFileType(file))`. */
  function InvalidFiles(files: seq<ClientFile>): (bad: seq<ClientFile>)
    ensures |bad| <= |files|
    ensures forall f :: f in bad <==> f in files && !ValidateFileType(f)
    ensures forall f :: multiset(bad)[f] == if ValidateFileType(f) then 0 else multiset(files)[f]
  {
    if files == [] then []
    else
      var rest := InvalidFiles(files[1..]);
      assert files == [files[0]] + files[1..];
      if ValidateFileType(files[0]) then rest else [files[0]] + rest
  }

  /** One `formData.append(name, file)`. */
  datatype FormEntry = FormEntry(name: string, file: ClientFile)

  function AppendEach(fieldName: string, files: seq<ClientFile>): (form: seq<FormEntry>)
    ensures |form| == |files|
    ensures forall i :: 0 <= i < |files| ==> form[i] == FormEntry(fieldName, files[i])
  {
    if files == [] then [] else [FormEntry(fieldName, files[0])] + AppendEach(fieldName, files[1..])
  }

  /** The form `handleUpload` sends: the single file once, otherwise every file in order, all under `fieldName`. */
  function FormEntries(fieldName: string, file: Option<ClientFile>, files: Option<seq<ClientFile>>): (form: seq<FormEntry>)
    ensures file.Some? ==> form == [FormEntry(fieldName, file.value)]
    ensures file.None? && files.Some? ==>
      |form| == |files.value| && forall i :: 0 <= i < |form| ==> form[i] == FormEntry(fieldName, files.value[i])
    ensures file.None? && files.None? ==> form == []
  {
    if file.Some? then [FormEntry(fieldName, file.value)]
    else if files.Some? then AppendEach(fieldName, files.value)
    else []
  }

  /** The FormData building step of `handleUpload`, with its `forEach` loop. */
  method BuildFormData(fieldName: string, file: Option<ClientFile>, files: Option<seq<ClientFile>>)
    returns (form: seq<FormEntry>)
    ensures form == FormEntries(fieldName, file, files)
  {
    form := [];
    if file.Some? {
      form := form + [FormEntry(fieldName, file.value)];
    } else if files.Some? {
      var fs := files.value;
      var i := 0;
      while i < |fs|
        invariant 0 <= i <= |fs|
        invariant |form| == i
        invariant forall k :: 0 <= k < i ==> form[k] == FormEntry(fieldName, fs[k])
      {
        form := form + [FormEntry(fieldName, fs[i])];
        i := i + 1;
      }
    }
  }

  /** What the `axios.post` of an upload comes back with; `serverMessage` is "" when the body has none. */
  datatype PostOutcome = PostSucceeded(message: string) | PostFailed(serverMessage: string)

  function UploadErrorMessage(serverMessage: string): (m: string)
    ensures m != ""
    ensures serverMessage != "" ==> m == serverMessage
    ensures serverMessage == "" ==> m == UploadFallbackMessage
  {
    if serverMessage != "" then serverMessage else UploadFallbackMessage
  }

  /** The component's `uploads` state. */
  class Uploads {
    var sections: map<Section, SectionState>

    ghost predicate Valid()
      reads this
    {
      forall s: Section :: s in sections
    }

    constructor ()
      ensures Valid()
      ensures forall s: Section :: sections[s] == Idle
    {
      sections := map[
        S3Single := Idle, S3Multiple := Idle,
        CloudinarySingle := Idle, CloudinaryMultiple := Idle,
        LocalSingle := Idle, LocalMultiple := Idle];
      new;
      forall s: Section ensures s in sections && sections[s] == Idle {
        match s
        case S3Single =>
        case S3Multiple =>
        case CloudinarySingle =>
        case CloudinaryMultiple =>
        case LocalSingle =>
        case LocalMultiple =>
      }
    }

    /**
     * `handleSingleFileChange`: an empty selection changes nothing; a
     * first file of a disallowed type clears the section's file and sets
     * the error text; an allowed one becomes the section's file and clears
     * the message. No other section changes.
     */
    method HandleSingleFileChange(section: Section, selected: seq<ClientFile>)
      requires Valid()
      modifies this
      ensures Valid()
      ensures selected == [] ==> sections == old(sections)
      ensures selected != [] && !ValidateFileType(selected[0]) ==>
        sections == old(sections)[section := old(sections)[section].(file := None, message := InvalidSingleMessage)]
      ensures selected != [] && ValidateFileType(selected[0]) ==>
        sections == old(sections)[section := old(sections)[section].(file := Some(selected[0]), message := "")]
    {
      if selected == [] {
        return;
      }
      var file := selected[0];
      if !ValidateFileType(file) {
        sections := sections[section := sections[section].(file := None, message := InvalidSingleMessage)];
        return;
      }
      sections := sections[section := sections[section].(file := Some(file), message := "")];
    }

    /**
     * `handleMultipleFilesChange`: all or nothing. If any selected file
     * has a disallowed type the section's files become `null` and the
     * message counts the offenders; otherwise the whole selection (even an
     * empty one) is kept and the message cleared.
     */
    method HandleMultipleFilesChange(section: Section, selected: seq<ClientFile>)
      requires Valid()
      modifies this
      ensures Valid()
      ensures (exists i :: 0 <= i < |selected| && !ValidateFileType(selected[i])) ==>
        sections == old(sections)[section := old(sections)[section].(
          files := None, message := InvalidBatchMessage(|InvalidFiles(selected)|))]
      ensures (forall i :: 0 <= i < |selected| ==> ValidateFileType(selected[i])) ==>
        sections == old(sections)[section := old(sections)[section].(files := Some(selected), message := "")]
    {
      var invalidFiles := InvalidFiles(selected);
      if |invalidFiles| > 0 {
        assert invalidFiles[0] in invalidFiles;
        assert invalidFiles[0] in selected && !ValidateFileType(invalidFiles[0]);
        sections := sections[section := sections[section].(files := None, message := InvalidBatchMessage(|invalidFiles|))];
        return;
      }
      forall i | 0 <= i < |selected| ensures ValidateFileType(selected[i]) {
        assert selected[i] in selected;
      }
      sections := sections[section := sections[section].(files := Some(selected), message := "")];
    }

    /**
     * The part of `handleUpload` before the request: with neither a file
     * nor a files list only the message changes and nothing is sent;
     * otherwise the form is built and the section is marked loading.
     */
    method StartUpload(section: Section, fieldName: string) returns (form: Option<seq<FormEntry>>)
      requires Valid()
      modifies this
      ensures Valid()
      ensures old(sections)[section].file.None? && old(sections)[section].files.None? ==>
        form.None? && sections == old(sections)[section := old(sections)[section].(message := NoSelectionMessage)]
      ensures old(sections)[section].file.Some? || old(sections)[section].files.Some? ==>
        form == Some(FormEntries(fieldName, old(sections)[section].file, old(sections)[section].files))
        && sections == old(sections)[section := old(sections)[section].(loading := true, message := "")]
    {
      var data := sections[section];
      if data.file.None? && data.files.None? {
        sections := sections[section := data.(message := NoSelectionMessage)];
        return None;
      }
      var entries := BuildFormData(fieldName, data.file, data.files);
      sections := sections[section := data.(loading := true, message := "")];
      form := Some(entries);
    }

    /**
     * The part of `handleUpload` after the request: success empties the
     * selection and reports the server's message; failure keeps the
     * selection and reports the server's message or a fixed fallback.
     */
    method FinishUpload(section: Section, outcome: PostOutcome)
      requires Valid()
      modifies this
      ensures Valid()
      ensures outcome.PostSucceeded? ==>
        sections == old(sections)[section := SectionState(None, None, false, "SUCCESS: " + outcome.message)]
      ensures outcome.PostFailed? ==>
        sections == old(sections)[section := old(sections)[section].(
          loading := false, message := "ERROR: " + UploadErrorMessage(outcome.serverMessage))]
    {
      match outcome
      case PostSucceeded(message) =>
        sections := sections[section := SectionState(None, None, false, "SUCCESS: " + message)];
      case PostFailed(serverMessage) =>
        sections := sections[section := sections[section].(
          loading := false, message := "ERROR: " + UploadErrorMessage(serverMessage))];
    }

    /** `handleUpload` from start to finish, for a request that ends with `outcome`. */
    method HandleUpload(section: Section, fieldName: string, outcome: PostOutcome)
      returns (form: Option<seq<FormEntry>>)
      requires Valid()
      modifies this
      ensures Valid()
      ensures old(sections)[section].file.None? && old(sections)[section].files.None? ==>
        form.None? && sections == old(sections)[section := old(sections)[section].(message := NoSelectionMessage)]
      ensures old(sections)[section].file.Some? || old(sections)[section].files.Some? ==>
        form == Some(FormEntries(fieldName, old(sections)[section].file, old(sections)[section].files))
      ensures (old(sections)[section].file.Some? || old(sections)[section].files.Some?) && outcome.PostSucceeded? ==>
        sections == old(sections)[section := SectionState(None, None, false, "SUCCESS: " + outcome.message)]
      ensures (old(sections)[section].file.Some? || old(sections)[section].files.Some?) && outcome.PostFailed? ==>
        sections == old(sections)[section := old(sections)[section].(
          loading := false, message := "ERROR: " + UploadErrorMessage(outcome.serverMessage))]
    {
      form := StartUpload(section, fieldName);
      if form.Some? {
        FinishUpload(section, outcome);
      }
    }
  }
}

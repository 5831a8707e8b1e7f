/**
 * The two multer configurations: disk storage for local and Cloudinary
 * uploads, S3 storage for direct S3 uploads. Both name the stored object
 * from the upload time and the original file name, apply the same
 * MIME-type filter and cap each file at 10 MiB.
 */
module UploadMiddleware {
  import opened Wrappers
  import opened Text
  import opened Http
  import FileValidation

  /** `limits.fileSize` of both configurations: 10 * 1024 * 1024 bytes. */
  const MaxFileSize: nat := 10 * 1024 * 1024

  /** Disk storage's `destination`. */
  const LocalDestination: string := "uploads/"

  /** The prefix of every S3 object key. */
  const S3KeyPrefix: string := "uploads/"

  /** A part of a multipart request as multer sees it before storing it. */
  datatype IncomingFile = IncomingFile(fieldname: string, originalname: string, mimetype: string, size: nat)

  /** `req.file` after disk storage. */
  datatype DiskFile = DiskFile(
    fieldname: string, originalname: string, mimetype: string, size: nat,
    destination: string, filename: string, path: string)

  /** `req.file` after S3 storage; `location` is the object URL S3 reports back. */
  datatype S3File = S3File(
    fieldname: string, originalname: string, mimetype: string, size: nat,
    key: string, metadata: map<string, string>, location: string)

  /** Disk storage's `filename`: the upload time in milliseconds, a dash, the original name. */
  function LocalFilename(now: nat, originalname: string): (name: string)
    ensures IsSuffix(originalname, name)
    ensures IsPrefix(NatToString(now) + "-", name)
    ensures name[|NatToString(now)| + 1..] == originalname
  {
    NatToString(now) + "-" + originalname
  }

  /** S3 storage's `key`: the local file name under "uploads/". */
  function S3Key(now: nat, originalname: string): (key: string)
    ensures IsPrefix(S3KeyPrefix, key)
    ensures key == S3KeyPrefix + LocalFilename(now, originalname)
  {
    S3KeyPrefix + NatToString(now) + "-" + originalname
  }

  /** S3 storage's `metadata`: the form field the file came in. */
  function S3Metadata(f: IncomingFile): (m: map<string, string>)
    ensures m.Keys == {"fieldName"} && m["fieldName"] == f.fieldname
  {
    map["fieldName" := f.fieldname]
  }

  /**
   * Two uploads get the same local file name exactly when they share the
   * millisecond and the original name: the name tells both apart otherwise,
   * and nothing else makes it unique.
   */
  lemma {:induction false} LocalFilenameCollides(t1: nat, n1: string, t2: nat, n2: string)
    ensures LocalFilename(t1, n1) == LocalFilename(t2, n2) <==> t1 == t2 && n1 == n2
  {
    if LocalFilename(t1, n1) == LocalFilename(t2, n2) {
      var d1, d2 := NatToString(t1), NatToString(t2);
      var s := d1 + "-" + n1;
      assert s == d2 + "-" + n2;
      assert s[|d1|] == '-' && s[|d2|] == '-';
      assert d1 == s[..|d1|] == d2;
      NatToStringInjective(t1, t2);
      assert n1 == s[|d1| + 1..] == n2;
    }
  }

  /** The same holds of S3 keys. */
  lemma S3KeyCollides(t1: nat, n1: string, t2: nat, n2: string)
    ensures S3Key(t1, n1) == S3Key(t2, n2) <==> t1 == t2 && n1 == n2
  {
    LocalFilenameCollides(t1, n1, t2, n2);
    var k1, k2 := S3Key(t1, n1), S3Key(t2, n2);
    if k1 == k2 {
      assert LocalFilename(t1, n1) == k1[|S3KeyPrefix|..] == LocalFilename(t2, n2);
    }
  }

  /** The error `fileFilter` hands to multer: a plain Error with no code and no status. */
  function FilterError(mimetype: string): (e: ServerError)
    requires !FileValidation.FileFilter(mimetype).accept
    ensures e.code == "" && e.status == None
    ensures OccursAt(mimetype, e.message, |FileValidation.RejectionPrefix|)
  {
    FileValidation.RejectionQuotesMimetype(mimetype);
    ServerError("", None, FileValidation.FileFilter(mimetype).error.value)
  }

  /** multer's error for a file beyond `limits.fileSize`. */
  const FileTooLargeError: ServerError := ServerError("LIMIT_FILE_SIZE", None, "File too large")

  /** The `maxCount` every `array('files', 10)` field is declared with. */
  const MaxFilesPerField: nat := 10

  /**
   * multer's error for a part it has no slot for: a part past the field's
   * `maxCount`, or a part under another field name. No configuration sets
   * `limits.files`, so this, not `LIMIT_FILE_COUNT`, is what an eleventh
   * file produces.
   */
  const UnexpectedFieldError: ServerError := ServerError("LIMIT_UNEXPECTED_FILE", None, "Unexpected field")

  /** Whether one part passes both per-file checks: the type filter and the size limit. */
  predicate Kept(f: IncomingFile) {
    FileValidation.FileFilter(f.mimetype).accept && f.size <= MaxFileSize
  }

  /** The error a part failing the per-file checks stops the request with: the filter's first, then the size limit's. */
  function PartError(f: IncomingFile): (e: ServerError)
    requires !Kept(f)
    ensures !FileValidation.FileFilter(f.mimetype).accept ==> e == FilterError(f.mimetype)
    ensures FileValidation.FileFilter(f.mimetype).accept ==> e == FileTooLargeError && f.size > MaxFileSize
  {
    if !FileValidation.FileFilter(f.mimetype).accept then FilterError(f.mimetype) else FileTooLargeError
  }

  /**
   * multer's admission of the parts of a request to a field `field` with
   * `left` slots (`array(field, maxCount)` starts with `maxCount` slots,
   * `single(field)` with one). The parts arrive in order; a part with no
   * slot fails before the filter sees it, a kept part takes a slot, and
   * the first failure ends the request. None when every part is kept.
   */
  function FieldError(field: string, files: seq<IncomingFile>, left: nat): (e: Option<ServerError>)
    decreases |files|
  {
    if files == [] then None
    else if files[0].fieldname != field || left == 0 then Some(UnexpectedFieldError)
    else if !Kept(files[0]) then Some(PartError(files[0]))
    else FieldError(field, files[1..], left - 1)
  }

  /** Whether the first `j` parts all belong to the field and pass the per-file checks. */
  predicate PrefixKept(field: string, files: seq<IncomingFile>, j: nat)
    requires j <= |files|
  {
    forall k :: 0 <= k < j ==> files[k].fieldname == field && Kept(files[k])
  }

  /**
   * The request succeeds exactly when it has at most `left` parts, all of
   * the field and all kept; otherwise it fails with the error of the
   * first part that breaks a rule, and with no other.
   */
  lemma {:induction false} FieldErrorIsFirstFailure(field: string, files: seq<IncomingFile>, left: nat)
    ensures FieldError(field, files, left).None? <==> |files| <= left && PrefixKept(field, files, |files|)
    ensures forall j :: 0 <= j < |files| && PrefixKept(field, files, j) && (j >= left || files[j].fieldname != field) ==>
      FieldError(field, files, left) == Some(UnexpectedFieldError)
    ensures forall j :: 0 <= j < |files| && PrefixKept(field, files, j) && j < left && files[j].fieldname == field && !Kept(files[j]) ==>
      FieldError(field, files, left) == Some(PartError(files[j]))
    decreases |files|
  {
    if files != [] && files[0].fieldname == field && left > 0 && Kept(files[0]) {
      var rest := files[1..];
      FieldErrorIsFirstFailure(field, rest, left - 1);
      assert PrefixKept(field, files, |files|) <==> PrefixKept(field, rest, |rest|) by {
        if PrefixKept(field, rest, |rest|) {
          forall k | 0 <= k < |files| ensures files[k].fieldname == field && Kept(files[k]) {
            if k > 0 { assert files[k] == rest[k - 1]; }
          }
        }
        if PrefixKept(field, files, |files|) {
          forall k | 0 <= k < |rest| ensures rest[k].fieldname == field && Kept(rest[k]) {
            assert rest[k] == files[k + 1];
          }
        }
      }
      forall j | 0 < j < |files| && PrefixKept(field, files, j) ensures PrefixKept(field, rest, j - 1) {
        forall k | 0 <= k < j - 1 ensures rest[k].fieldname == field && Kept(rest[k]) {
          assert rest[k] == files[k + 1];
        }
      }
      forall j | 0 < j < |files| ensures files[j] == rest[j - 1] {
      }
    }
  }

  /** Every error the admission stops with is one of three kinds, and never `LIMIT_FILE_COUNT`. */
  lemma {:induction false} FieldErrorKinds(field: string, files: seq<IncomingFile>, left: nat)
    ensures FieldError(field, files, left).Some? ==>
      var e := FieldError(field, files, left).value;
      e == UnexpectedFieldError || e == FileTooLargeError || (e.code == "" && e.status == None && IsPrefix(FileValidation.RejectionPrefix, e.message))
    ensures FieldError(field, files, left).Some? ==> FieldError(field, files, left).value.code != "LIMIT_FILE_COUNT"
    decreases |files|
  {
    if files != [] && files[0].fieldname == field && left > 0 {
      if Kept(files[0]) {
        FieldErrorKinds(field, files[1..], left - 1);
      }
    }
  }

  /**
   * `uploadLocal` on one file: the filter decides first, then the size
   * limit; a kept file is written as `uploads/<now>-<originalname>`.
   */
  function StoreLocal(now: nat, f: IncomingFile): (r: Result<DiskFile, ServerError>)
    ensures r.Ok? <==> FileValidation.FileFilter(f.mimetype).accept && f.size <= MaxFileSize
    ensures !FileValidation.FileFilter(f.mimetype).accept ==> r == Err(FilterError(f.mimetype))
    ensures FileValidation.FileFilter(f.mimetype).accept && f.size > MaxFileSize ==> r == Err(FileTooLargeError)
    ensures r.Ok? ==> r.value.filename == LocalFilename(now, f.originalname)
    ensures r.Ok? ==> r.value.path == LocalDestination + r.value.filename
    ensures r.Ok? ==> r.value.destination == LocalDestination
    ensures r.Ok? ==> r.value.originalname == f.originalname && r.value.fieldname == f.fieldname
    ensures r.Ok? ==> r.value.mimetype == f.mimetype && r.value.size == f.size
  {
    if !Kept(f) then
      Err(PartError(f))
    else
      var name := LocalFilename(now, f.originalname);
      Ok(DiskFile(f.fieldname, f.originalname, f.mimetype, f.size, LocalDestination, name, LocalDestination + name))
  }

  /**
   * `uploadS3` on one file: the same filter and limit; a kept file is put
   * under `uploads/<now>-<originalname>` with its field name as metadata,
   * and `location` is the URL S3 answers with.
   */
  function StoreS3(now: nat, f: IncomingFile, location: string): (r: Result<S3File, ServerError>)
    ensures r.Ok? <==> FileValidation.FileFilter(f.mimetype).accept && f.size <= MaxFileSize
    ensures !FileValidation.FileFilter(f.mimetype).accept ==> r == Err(FilterError(f.mimetype))
    ensures FileValidation.FileFilter(f.mimetype).accept && f.size > MaxFileSize ==> r == Err(FileTooLargeError)
    ensures r.Ok? ==> r.value.key == S3Key(now, f.originalname)
    ensures r.Ok? ==> r.value.metadata == map["fieldName" := f.fieldname]
    ensures r.Ok? ==> r.value.location == location
    ensures r.Ok? ==> r.value.originalname == f.originalname && r.value.fieldname == f.fieldname
    ensures r.Ok? ==> r.value.mimetype == f.mimetype && r.value.size == f.size
  {
    if !Kept(f) then
      Err(PartError(f))
    else
      Ok(S3File(f.fieldname, f.originalname, f.mimetype, f.size, S3Key(now, f.originalname), S3Metadata(f), location))
  }

  /** Both storages admit exactly the same files and fail with the same error otherwise. */
  lemma StoragesAgree(now: nat, f: IncomingFile, location: string)
    ensures StoreLocal(now, f).Ok? <==> StoreS3(now, f, location).Ok?
    ensures StoreLocal(now, f).Err? ==> StoreLocal(now, f).error == StoreS3(now, f, location).error
  {
  }

  /** For the same upload, the S3 key is "uploads/" followed by the local file name. */
  lemma KeyExtendsLocalName(now: nat, f: IncomingFile, location: string)
    requires StoreLocal(now, f).Ok?
    ensures StoreS3(now, f, location).Ok?
    ensures StoreS3(now, f, location).value.key == S3KeyPrefix + StoreLocal(now, f).value.filename
  {
  }
}

# fileUploadDemo: a verified model of the upload pipeline

fileUploadDemo is an Express server with a React client. It uploads images and PDFs to one of three stores:

- **local**: the file is written to the server's `uploads/` directory and served from `/uploads`;
- **S3**: the file is streamed straight into a bucket, or PUT there by the browser with a pre-signed URL;
- **Cloudinary**: the file is written to `uploads/` first, forwarded to Cloudinary, and the temporary copy is deleted.

Each of the six multipart upload handlers saves one database record when it succeeds. A single upload stores its URL or path in `file`. A batch stores its URLs in `files`. The local listing returns its records newest first, and the gallery draws each record it is given as at most one preview, or as a group of previews.

This Dafny project models that core:

- **Server.** The MIME-type filter and the two multer storage configurations (file naming, the 10 MiB limit, and filtering before the size check). It also covers the six upload handlers of the three controllers, the listing of local records, the global error handler and the health response.
- **Client.** The upload form's per-section state and its handlers, the client side of the pre-signed S3 handshake, and the gallery's classification and rendering decisions.

The model replaces each outside call with an input that says how the call came out: a database `save()`, a Cloudinary upload, an `axios` request, a `fetch` PUT, or the result of `Date.now()`. Objects the source updates in place are classes with `modifies` clauses:

- a collection of records (an append-only ledger),
- the temporary directory (a set of existing paths),
- the form's state (a map from section to section state).

Where the order of outside calls matters, handlers return the calls they make as a trace. Examples are upload, then unlink, then save; or issue, then PUT, then confirm.

Modules:

- `Wrappers`, `Text`: Option/Result; prefixes and suffixes, ASCII lower-casing, and decimal rendering of naturals (how `${n}` prints a millisecond timestamp).
- `FileRecords`: the upload record shared by the three schemas, the `Collection` class, and the newest-first order a `find().sort({createdAt: -1})` returns.
- `Http`: response bodies and the error object the error handler receives.
- `FileValidation`, `UploadMiddleware`: `fileFilter` and `upload.js`.
- `LocalController`, `S3Controller`, `CloudinaryController`: the three controllers.
- `Server`: the error handler and `/api/health`.
- `FileUpload`, `PresignedUpload`, `FileDisplay`: the three client components.

The over-size answer says "Maximum size is 5MB." while both multer configurations allow 10 MiB (`server/server.js:72` against `server/middleware/upload.js:29,53`). The model keeps both values as written: `Server.OversizedFileAnswer` proves that a file over 10 MiB gets the 5MB text, and `UploadMiddleware.StoreLocal` accepts files between 5 MiB and 10 MiB.

The error handler also has a branch for `LIMIT_FILE_COUNT` (`server/server.js:76-81`), but no configuration sets `limits.files` (`server/middleware/upload.js:28-30,52-54`). An eleventh file in an `array('files', 10)` field (`server/routes/uploadRoutes.js:33,64,77`) makes multer fail with `LIMIT_UNEXPECTED_FILE` ("Unexpected field"). The default branch answers that error with a 500, as `Server.TooManyFilesAnswer` states. `Server.FileCountTextUnreachable` proves that no request multer rejects gets the too-many-files text.

## Model

| member | source | states |
|---|---|---|
| Text.NatToString | server/middleware/upload.js:19 | the decimal text of a timestamp is non-empty and all digits |
| Text.DecimalRoundTrip | server/middleware/upload.js:19 | reading the rendered decimal text back gives the timestamp again |
| Text.NatToStringInjective | server/middleware/upload.js:19 | two timestamps render alike exactly when they are equal |
| Text.Lower | client/src/components/FileDisplay.jsx:61 | the case folding of the `/i` flag: same length, each ASCII capital lowered and every other character kept |
| FileRecords.SortNewestFirst | server/controllers/localController.js:91 | the records a `find().sort({createdAt: -1})` returns: ordered by `createdAt` descending, a permutation of the stored records |
| FileRecords.InsertNewestFirst | server/controllers/localController.js:91 | placing one record keeps every other record and adds that one, as a multiset |
| FileRecords.InsertKeepsNewestFirst | server/controllers/localController.js:91 | placing a record into a newest-first list keeps it newest first |
| FileRecords.InsertNoNewerThan | server/controllers/localController.js:91 | placing a record no newer than a bound keeps every record within the bound |
| FileRecords.SingleRecordWellShaped | server/models/localFiles.js:8-22 | a single upload's record has `file` set and `files` at its default `[]` |
| FileRecords.BatchRecordWellShaped | server/models/localFiles.js:8-22 | a batch record has `file` at its default `null`; it is well shaped exactly when the URL list is non-empty |
| FileRecords.Collection.constructor | server/models/localFiles.js:24 | a new collection holds no records |
| FileRecords.Collection.Save | server/controllers/localController.js:25 | a successful save appends exactly the record; a failed save stores nothing and reports the error |
| FileValidation.FileFilter | server/middleware/fileValidation.js:5-26 | a file is kept exactly when its mimetype is one of the five listed types, compared exactly; kept exactly when there is no error; a rejection's error is the fixed message naming the type |
| FileValidation.RejectionQuotesMimetype | server/middleware/fileValidation.js:21 | the rejection message contains the offending mimetype verbatim right after "Invalid file type: " |
| FileValidation.AcceptedAreImagesOrPdf | server/middleware/fileValidation.js:7-13 | every kept file is an `image/` type or `application/pdf` |
| FileValidation.AllowlistIsLowerCase | server/middleware/fileValidation.js:7-13 | no allowed type contains a capital letter |
| FileValidation.RejectsCaseVariants | server/middleware/fileValidation.js:16 | any mimetype with a capital letter is rejected, since matching is case-sensitive |
| FileValidation.RejectsParameters | server/middleware/fileValidation.js:16 | a mimetype carrying parameters after `;` is rejected |
| UploadMiddleware.LocalFilename | server/middleware/upload.js:17-21 | the stored name is exactly the timestamp, a dash and the original name: it starts with the first two, and what follows the dash is the original name |
| UploadMiddleware.LocalFilenameCollides | server/middleware/upload.js:19 | two uploads get the same local name exactly when they share the millisecond and the original name |
| UploadMiddleware.S3Key | server/middleware/upload.js:45-49 | the key is "uploads/" followed by the same timestamp-dash-name |
| UploadMiddleware.S3KeyCollides | server/middleware/upload.js:47 | two S3 keys collide exactly when timestamp and original name both agree |
| UploadMiddleware.S3Metadata | server/middleware/upload.js:42-44 | the object metadata has a single key `fieldName`, holding the form field |
| UploadMiddleware.FilterError | server/middleware/fileValidation.js:19-24 | the filter's error has no multer code and no HTTP status; its message quotes the rejected mimetype after the fixed prefix |
| UploadMiddleware.PartError | server/middleware/upload.js:25-31 | a part that fails the per-file checks stops the request with the filter's error when its type is refused, and otherwise with the size-limit error |
| UploadMiddleware.FieldErrorIsFirstFailure | server/routes/uploadRoutes.js:33 | a field with `maxCount` slots admits the request exactly when it has at most that many parts, all under the field's name and all kept. Otherwise the error is the first offending part's: "Unexpected field" for a part past the last slot or under another name, and that part's filter or size error otherwise |
| UploadMiddleware.FieldErrorKinds | server/middleware/upload.js:25-31 | every error a field stops with is the unexpected-field error, the size-limit error or a filter rejection, and none has the code `LIMIT_FILE_COUNT` |
| UploadMiddleware.StoreLocal | server/middleware/upload.js:13-31 | the file is stored exactly when the filter keeps it and it fits 10 MiB. The filter's error comes first, then `LIMIT_FILE_SIZE`. A stored file is `uploads/<now>-<name>` with its original fields |
| UploadMiddleware.StoreS3 | server/middleware/upload.js:37-55 | the same admission rule and errors; a stored object has the derived key, the field-name metadata and the reported location |
| UploadMiddleware.StoragesAgree | server/middleware/upload.js:27-30 | both storages admit the same files and fail with the same error otherwise |
| UploadMiddleware.KeyExtendsLocalName | server/middleware/upload.js:19 | for the same upload, the S3 key is "uploads/" followed by the local file name |
| Server.HandleError | server/server.js:65-88 | every answer is a failure with a non-empty message. The two multer limit codes give fixed 400 answers. Any other error gets its own status (500 when unset) and its own message (a default when empty) |
| Server.LimitCodeOverridesStatus | server/server.js:69-81 | for a limit code, the error's status and message make no difference |
| Server.RejectedTypeAnswer | server/server.js:83-87 | a file of a refused type is answered 500 with the filter's message, because the filter's error has no status |
| Server.OversizedFileAnswer | server/server.js:69-74 | an allowed file over 10 MiB is refused by the storage and answered 400 with the fixed size text |
| Server.TooManyFilesAnswer | server/server.js:76-87 | after ten kept files, an eleventh in the `files` field stops the request with "Unexpected field", which the default branch answers with a 500 |
| Server.FileCountTextUnreachable | server/server.js:76-81 | no error a multer field stops with is ever answered with the fixed too-many-files text |
| Server.Health | server/server.js:51-57 | the health check answers 200 with status "ok", the message "Server is running" and the given timestamp |
| LocalController.UploadPath | server/controllers/localController.js:18 | the public path starts with "/uploads/", and what follows that prefix is exactly the stored file name |
| LocalController.UploadPaths | server/controllers/localController.js:59 | one public path per stored file, in order |
| LocalController.UploadSingleLocal | server/controllers/localController.js:7-42 | no file: 400 and nothing saved. Otherwise the record with the public path is appended and a 201 returns that path; a failed save is a 500 carrying its error. Well-shapedness of the collection is kept |
| LocalController.UploadMultipleLocal | server/controllers/localController.js:48-83 | no files or an empty list: 400 and nothing saved. Otherwise one record with every path in order, and a 201 whose message starts with the count; a failed save is a 500 |
| LocalController.GetAllLocalFiles | server/controllers/localController.js:89-106 | 200 with every stored record newest first and `count` equal to the number of records; a failed query is a 500 with its error |
| S3Controller.Locations | server/controllers/s3Controller.js:60 | one object URL per uploaded file, in order |
| S3Controller.UploadSingleToS3 | server/controllers/s3Controller.js:7-43 | no file: 400 and nothing saved. Otherwise the record holds the object's location and a 201 returns it; a failed save is a 500 |
| S3Controller.UploadMultipleToS3 | server/controllers/s3Controller.js:49-84 | no files or an empty list: 400. Otherwise one record with every location in order and a counted 201; a failed save is a 500 |
| CloudinaryController.TempDisk.constructor | server/controllers/cloudinaryController.js:3 | the disk starts with the given existing paths |
| CloudinaryController.TempDisk.ExistsSync | server/controllers/cloudinaryController.js:44 | true exactly when the path exists |
| CloudinaryController.TempDisk.UnlinkSync | server/controllers/cloudinaryController.js:26 | the path no longer exists; the call fails with ENOENT exactly when it did not exist |
| CloudinaryController.CdnUploads | server/controllers/cloudinaryController.js:72-77 | one Cloudinary upload per file path, in order |
| CloudinaryController.CleanupUnlinksEachExistingOnce | server/controllers/cloudinaryController.js:82-86 | the unlink calls of the cleanup loop (`Cleanup`). At most one per file, each for a listed path that exists, none repeated. Every listed path that exists is unlinked |
| CloudinaryController.CleanupOfAbsent | server/controllers/cloudinaryController.js:107-113 | when none of the files exists any more, the cleanup calls nothing |
| CloudinaryController.FirstFailure | server/controllers/cloudinaryController.js:79 | `Promise.all` rejects exactly when some upload failed, with the message of a failed upload |
| CloudinaryController.SecureUrls | server/controllers/cloudinaryController.js:89 | one secure URL per upload result, in order |
| CloudinaryController.RemoveTempFiles | server/controllers/cloudinaryController.js:82-86 | afterwards none of the files' paths exists. Each existing path is unlinked once, in order, and no other path is touched |
| CloudinaryController.UploadSingleToCloudinary | server/controllers/cloudinaryController.js:9-55 | no file: 400, no calls. Otherwise: upload, unlink, then save, in that order; a record only when all three succeed. Each failure is a 500 with its error. The temporary copy never survives the handler |
| CloudinaryController.UploadMultipleToCloudinary | server/controllers/cloudinaryController.js:61-122 | no files or an empty list: 400, no calls. Otherwise every upload runs first; cleanup comes after the uploads, and a save happens only when all uploads succeeded. The record holds the secure URLs in order. Each failure is a 500. No temporary copy survives |
| FileUpload.ClientAllowlistIsServerAllowlist | client/src/components/FileUpload.jsx:27-33 | the browser's list of types is the server filter's list |
| FileUpload.ClientCheckAgreesWithServer | client/src/components/FileUpload.jsx:26-35 | a file passes the browser check exactly when the server's filter would keep it |
| FileUpload.ValidateFileType | client/src/components/FileUpload.jsx:26-35 | every accepted type is an `image/` type or `application/pdf`, with no capital letter |
| FileUpload.InvalidFiles | client/src/components/FileUpload.jsx:69 | a file is listed exactly when it was selected and fails the type check. Each failing file appears as often as it was selected, so the length is the count the message prints |
| FileUpload.AppendEach | client/src/components/FileUpload.jsx:110-112 | one form entry per file under the field name, in order |
| FileUpload.FormEntries | client/src/components/FileUpload.jsx:106-113 | the single file once if there is one, otherwise every selected file in order, all under the field name |
| FileUpload.BuildFormData | client/src/components/FileUpload.jsx:106-113 | the loop builds exactly the form described above |
| FileUpload.UploadErrorMessage | client/src/components/FileUpload.jsx:143-144 | the server's message when it gave one, and exactly the fixed fallback text when it gave none; never empty |
| FileUpload.Uploads.constructor | client/src/components/FileUpload.jsx:14-21 | all six sections start with no selection, not loading and no message |
| FileUpload.Uploads.HandleSingleFileChange | client/src/components/FileUpload.jsx:40-60 | an empty pick changes nothing. A bad type clears the file and shows the error. A good one is selected with the message cleared. Other sections are untouched |
| FileUpload.Uploads.HandleMultipleFilesChange | client/src/components/FileUpload.jsx:65-88 | any bad file clears the selection and shows the count of bad files; otherwise the whole pick is selected with the message cleared; other sections are untouched |
| FileUpload.Uploads.StartUpload | client/src/components/FileUpload.jsx:93-119 | without a file or file list, only the message changes and nothing is sent. Otherwise the form is built, loading is switched on and the message cleared |
| FileUpload.Uploads.FinishUpload | client/src/components/FileUpload.jsx:121-153 | success clears the section and shows the server's message. Failure keeps the selection and shows "ERROR: " with the chosen message. Loading is off |
| FileUpload.Uploads.HandleUpload | client/src/components/FileUpload.jsx:93-154 | the whole handler: no selection gives the prompt and nothing is sent; otherwise the form is sent and the section ends in the success or error state above |
| PresignedUpload.ErrorMessage | client/src/components/FileUpload_presigned_fix.jsx:59-60 | the server's message, else the error's own message, else the fixed fallback; never empty |
| PresignedUpload.Descriptors | client/src/components/FileUpload_presigned_fix.jsx:93-96 | one `{filename, filetype}` per selected file, in order |
| PresignedUpload.FileUrls | client/src/components/FileUpload_presigned_fix.jsx:122 | one public URL per issued credential, in order |
| PresignedUpload.BodyAt | client/src/components/FileUpload_presigned_fix.jsx:109 | the i-th selected file when there is one, otherwise no body (`undefined`) |
| PresignedUpload.PutFor | client/src/components/FileUpload_presigned_fix.jsx:106-112 | the i-th PUT goes to the i-th issued URL with the i-th content type. It carries the i-th selected file, or no body past the end of the selection |
| PresignedUpload.PutErrorText | client/src/components/FileUpload_presigned_fix.jsx:38-40 | a non-ok PUT throws exactly "S3 upload failed", then the file label, then ": " and the status text. A network error keeps its own message |
| PresignedUpload.FirstPutFailure | client/src/components/FileUpload_presigned_fix.jsx:105-119 | the PUTs fail exactly when one is not ok. The error is the text of the first failing PUT in list order, the model's reading of `Promise.all`. A non-ok answer's text names the file; a network error keeps fetch's own message |
| PresignedUpload.SingleOutcome | client/src/components/FileUpload_presigned_fix.jsx:20-69 | the single handshake completes exactly when issue, PUT and confirm all succeed. Otherwise the error reported is the first failed step's; it is never empty |
| PresignedUpload.MultipleOutcome | client/src/components/FileUpload_presigned_fix.jsx:91-149 | the batch handshake completes exactly when the issue, every PUT and the confirm succeed. Otherwise the error is the first failing step's; never empty |
| PresignedUpload.PresignedSingleExchange | client/src/components/FileUpload_presigned_fix.jsx:20-45 | the issue request describes the file. The PUT sends the file to the issued URL with the issued type. The confirm reports the issued public URL. Each request goes out only after the one before succeeded; the outcome is as above |
| PresignedUpload.PresignedMultipleExchange | client/src/components/FileUpload_presigned_fix.jsx:91-125 | one issue request describing every file; then one PUT per credential, in order, the i-th carrying the i-th file; then, only if every PUT succeeded, one confirm listing every public URL in order |
| PresignedUpload.HandlePresignedUploadSingle | client/src/components/FileUpload_presigned_fix.jsx:4-70 | without a file, only the prompt changes and nothing is sent. Otherwise the issue request describes the file. The PUT of the file to the issued URL follows only if the issue succeeded, and the confirm only if the PUT did. Success clears the section with the fixed text; failure keeps the selection and shows "ERROR: " with the message. Other sections are untouched |
| PresignedUpload.HandlePresignedUploadMultiple | client/src/components/FileUpload_presigned_fix.jsx:75-150 | without files or with an empty list, only the prompt changes and nothing is sent. Otherwise the issue request describes every file. Then come one PUT per credential, the i-th carrying the i-th file, and a confirm listing the public URLs only if every PUT succeeded. Success clears the section with a message counting the files; failure keeps the selection and shows the error |
| FileDisplay.LastExtension | client/src/components/FileDisplay.jsx:61 | when a dot exists, the result is a dot-free text that follows a dot at the end; otherwise the text has no dot |
| FileDisplay.ImageDotPosition | client/src/components/FileDisplay.jsx:59-62 | a URL taken for an image has at least four characters, and a dot four or five characters from its end |
| FileDisplay.PdfByCharacters | client/src/components/FileDisplay.jsx:67-70 | a URL is a PDF exactly when it ends in a dot followed by p, d and f, each in either case |
| FileDisplay.ExtensionUnique | client/src/components/FileDisplay.jsx:61 | any dot-free ending after a dot is exactly the text after the last dot |
| FileDisplay.ImageByExtension | client/src/components/FileDisplay.jsx:59-62 | a URL is an image exactly when it is non-empty and its lowered text after the last dot is jpg, jpeg, png, webp or gif |
| FileDisplay.PdfByExtension | client/src/components/FileDisplay.jsx:67-70 | a URL is a PDF exactly when it is non-empty and its lowered text after the last dot is "pdf" |
| FileDisplay.ImageAndPdfExclusive | client/src/components/FileDisplay.jsx:59-70 | no URL is both an image and a PDF |
| FileDisplay.EmptyUrlIsNeither | client/src/components/FileDisplay.jsx:59-70 | the empty URL is neither an image nor a PDF |
| FileDisplay.LowerIdempotent | client/src/components/FileDisplay.jsx:61 | lowering twice is lowering once |
| FileDisplay.ClassificationIgnoresCase | client/src/components/FileDisplay.jsx:59-70 | a URL and its lower-cased form are classified alike |
| FileDisplay.Classify | client/src/components/FileDisplay.jsx:94-107 | an image preview exactly for images and a PDF link exactly for PDFs; a generic link exactly when neither applies |
| FileDisplay.GetFileUrl | client/src/components/FileDisplay.jsx:75-81 | empty path gives "". A local path is the server origin followed by the path, so stripping the origin gives the path back. Any other path is unchanged |
| FileDisplay.LocalLinkIsStaticRoute | client/src/components/FileDisplay.jsx:78 | a saved local file links to the server's static `/uploads/<name>` route |
| FileDisplay.Tiles | client/src/components/FileDisplay.jsx:120-139 | one tile per stored URL, in order |
| FileDisplay.TileFor | client/src/components/FileDisplay.jsx:91-107 | the preview is an image exactly for images and a PDF link exactly for PDFs. The empty URL gives a generic tile with an empty link. A local link is the server origin followed by the stored path; any other link is the stored URL |
| FileDisplay.RenderFileItem | client/src/components/FileDisplay.jsx:86-147 | a non-empty `file` wins and gives one tile. Otherwise a non-empty `files` gives a group whose count is the list's length, with one tile per URL in order. Exactly the remaining records are drawn as nothing |
| FileDisplay.SavedRecordsAreDrawn | client/src/components/FileDisplay.jsx:90-146 | among well-shaped records, exactly a single upload saved with the empty URL is drawn as nothing |
| FileDisplay.BatchRendersEveryFile | client/src/components/FileDisplay.jsx:115-143 | a saved batch is drawn as a group counting its URLs, one tile per URL |
| FileDisplay.LocalPathKeepsKind | client/src/components/FileDisplay.jsx:59-70 | the public path of a locally stored upload is previewed as its original name would be |
| FileDisplay.ImageIgnoresDashedPrefix | client/src/components/FileDisplay.jsx:61 | text up to and including a dash does not change the image test of what follows |
| FileDisplay.PdfIgnoresDashedPrefix | client/src/components/FileDisplay.jsx:69 | text up to and including a dash does not change the PDF test of what follows |
| FileDisplay.LocalSingleRendering | client/src/components/FileDisplay.jsx:90-111 | a saved local single upload is drawn as one tile with the original name's kind, linking to the static route |

## Left out

- Multer's internals are not modelled: multipart parsing, streaming, and `path.join` normalisation of the destination. The model reads the parts of a request in order and stops at the first failure. For each part it checks the field's slots first, then the filter, then the size limit, as multer's wrapped file filter does. Text fields, `limits` other than `fileSize`, and the writing of the files before the request fails are not modelled.
- CloudinaryController.CdnUploads: the `folder: 'uploads'` and `resource_type: 'auto'` options of each upload are not carried in the effect. They decide where and as what Cloudinary files the upload, which the model takes as the CDN's business.
- The upload itself to S3 by multer-s3 is not modelled. The reported `location` is an input, and a failed S3 upload is not modelled.
- Concurrency and timing are not modelled. The model takes `Promise.all` to reject with the first failure in list order, and it sees a handler's awaits as happening one after another.
- `Date.now()` and `new Date().toISOString()` are not modelled. Both are parameters (`now`, `timestamp`), and timestamps render as decimal digits. JavaScript's exponent notation for numbers at or above 10^21 cannot occur for millisecond clocks.
- FileRecords.SortNewestFirst: records with equal `createdAt` come back in an order the query leaves open. The model picks one order, and callers may rely only on the newest-first order and the permutation.
- `getAllS3Files`, `getAllCloudinaryFiles` and the four server-side pre-signed handlers are not modelled. The routes import them, but they are not part of `s3Controller.js` or `cloudinaryController.js`. The client side of the handshake takes the server's answers as inputs.
- The issue response is taken to be well formed. A missing `data` member would make the destructuring throw a TypeError; the model does not cover that.
- The markup of the React components is not modelled. That covers JSX, CSS classes, `toLocaleDateString`, the `renderFilesSection` list, and the DOM reset of the file input (`getElementById(...).value = ''`). `fetchAllFiles` and its loading and error flags are left out too: they are the gallery's I/O.
- The `key` props and `_id` of records are not modelled. The same goes for `console` logging and the request logger.
- Server bootstrap is not modelled: dotenv, the MongoDB connection, CORS, body parsers, `mkdirSync` of `uploads/` and `listen`. Neither are the route table's wiring, beyond which middleware feeds which handler, nor the AWS and Cloudinary configuration modules.
- JavaScript's case-insensitive matching is modelled as ASCII case folding. That is exact for these all-ASCII patterns, since non-ASCII characters never fold to ASCII letters under the `/i` flag without `u`.

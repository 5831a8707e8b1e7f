/** The MIME-type allowlist multer consults before it stores an uploaded file. */
module FileValidation {
  import opened Wrappers
  import opened Text

  const AllowedMimeTypes: seq<string> :=
    ["image/jpeg", "image/jpg", "image/png", "image/webp", "application/pdf"]

  const RejectionPrefix: string := "Invalid file type: "
  const RejectionSuffix: string := ". Only JPG, JPEG, PNG, WEBP, and PDF files are allowed."

  /** The two arguments the filter passes to multer's callback: an error (or `null`) and whether to keep the file. */
  datatype FilterVerdict = FilterVerdict(error: Option<string>, accept: bool)

  /**
   * `fileFilter`: keeps a file exactly when its mimetype is on the list, by
   * exact string comparison; a rejection carries an error naming the type.
   */
  function FileFilter(mimetype: string): (v: FilterVerdict)
    ensures v.accept <==> mimetype in AllowedMimeTypes
    ensures v.accept <==> v.error == None
    ensures !v.accept ==> v.error == Some(RejectionPrefix + mimetype + RejectionSuffix)
  {
    if mimetype in AllowedMimeTypes then
      FilterVerdict(None, true)
    else
      FilterVerdict(Some(RejectionPrefix + mimetype + RejectionSuffix), false)
  }

  /** The rejection message quotes the offending mimetype verbatim, right after its fixed prefix. */
  lemma RejectionQuotesMimetype(mimetype: string)
    requires !FileFilter(mimetype).accept
    ensures OccursAt(mimetype, FileFilter(mimetype).error.value, |RejectionPrefix|)
  {
    var msg := FileFilter(mimetype).error.value;
    assert msg[|RejectionPrefix|..|RejectionPrefix| + |mimetype|] == mimetype;
  }

  /** Every accepted file is an image or a PDF document. */
  lemma AcceptedAreImagesOrPdf(mimetype: string)
    requires FileFilter(mimetype).accept
    ensures IsPrefix("image/", mimetype) || mimetype == "application/pdf"
  {
  }

  predicate HasUpperCase(s: string) {
    exists i :: 0 <= i < |s| && 'A' <= s[i] <= 'Z'
  }

  /** No entry of the allowlist has an upper-case letter. */
  lemma AllowlistIsLowerCase()
    ensures forall t :: t in AllowedMimeTypes ==> !HasUpperCase(t)
  {
    forall t | t in AllowedMimeTypes ensures !HasUpperCase(t) {
      assert t == "image/jpeg" || t == "image/jpg" || t == "image/png" || t == "image/webp" || t == "application/pdf";
    }
  }

  /** Matching is case-sensitive: a variant such as "IMAGE/PNG" is rejected. */
  lemma RejectsCaseVariants(mimetype: string)
    requires HasUpperCase(mimetype)
    ensures !FileFilter(mimetype).accept
  {
    AllowlistIsLowerCase();
  }

  /** A mimetype with parameters ("image/png; charset=binary") is rejected. */
  lemma RejectsParameters(mimetype: string, i: nat)
    requires i < |mimetype| && mimetype[i] == ';'
    ensures !FileFilter(mimetype).accept
  {
  }
}

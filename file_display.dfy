/**
 * The gallery's rendering decisions: which preview a stored URL gets
 * (image, PDF or generic file, by a case-insensitive suffix test), the
 * link it points at, and how a saved record turns into one tile or a
 * group of tiles. The markup itself is reduced to those decisions.
 */
module FileDisplay {
  import opened Wrappers
  import opened Text
  import opened FileRecords
  import opened UploadMiddleware
  import opened LocalController

  /** The alternatives of `/\.(jpg|jpeg|png|webp|gif)$/i`. */
  const ImageExtensions: seq<string> := ["jpg", "jpeg", "png", "webp", "gif"]

  /** Where the local server answers; local records hold server-relative paths. */
  const LocalServerOrigin: string := "http://localhost:5050"

  predicate NoDot(s: string) {
    forall i :: 0 <= i < |s| ==> s[i] != '.'
  }

  /** Lower-casing keeps a dot a dot and makes nothing else one. */
  lemma LowerKeepsDots(c: char)
    ensures LowerChar(c) == '.' <==> c == '.'
  {
  }

  /** The characters that lower-case to the ASCII letter `l` are `l` and its capital. */
  lemma LowerToLetter(c: char, l: char)
    requires 'a' <= l <= 'z'
    ensures LowerChar(c) == l <==> c == l || c as int == l as int - 32
  {
  }

  lemma DotBeforeSuffix(s: string, ext: string)
    requires IsSuffix("." + ext, s)
    ensures s[|s| - |ext| - 1] == '.'
  {
    assert s[|s| - |ext| - 1..][0] == ("." + ext)[0];
  }

  lemma ImageExtensionLengths()
    ensures forall ext :: ext in ImageExtensions ==> |ext| == 3 || |ext| == 4
  {
  }

  /** An ending ".<ext>" with an image extension puts the dot four or five characters from the end. */
  lemma ImageSuffixDot(l: string, ext: string)
    requires ext in ImageExtensions && IsSuffix("." + ext, l)
    ensures |l| >= 4 && (l[|l| - 4] == '.' || (|l| >= 5 && l[|l| - 5] == '.'))
  {
    assert |ext| == 3 || |ext| == 4 by { ImageExtensionLengths(); }
    DotBeforeSuffix(l, ext);
  }

  /** A URL taken for an image has its dot four or five characters from the end. */
  lemma ImageDotPosition(url: string)
    ensures IsImage(url) ==> |url| >= 4 && (url[|url| - 4] == '.' || (|url| >= 5 && url[|url| - 5] == '.'))
  {
    if IsImage(url) {
      var l := Lower(url);
      var ext :| ext in ImageExtensions && IsSuffix("." + ext, l);
      ImageSuffixDot(l, ext);
      var n := |url|;
      assert l[n - 4] == LowerChar(url[n - 4]);
      LowerKeepsDots(url[n - 4]);
      if n >= 5 {
        assert l[n - 5] == LowerChar(url[n - 5]);
        LowerKeepsDots(url[n - 5]);
      }
    }
  }

  /**
   * `isImage`: a non-empty URL that ends, ignoring ASCII case, in a dot and
   * one of the image extensions.
   */
  predicate IsImage(url: string) {
    url != "" && exists ext :: ext in ImageExtensions && IsSuffix("." + ext, Lower(url))
  }

  /** A four-character ending, character by character. */
  lemma SuffixOfFour(s: string, t: string)
    requires |t| == 4 && |s| >= 4
    ensures IsSuffix(t, s) <==>
      s[|s| - 4] == t[0] && s[|s| - 3] == t[1] && s[|s| - 2] == t[2] && s[|s| - 1] == t[3]
  {
    var n := |s|;
    assert s[n - 4..] == [s[n - 4], s[n - 3], s[n - 2], s[n - 1]];
    assert t == [t[0], t[1], t[2], t[3]];
  }

  lemma LoweredEndsInPdf(url: string)
    requires |url| >= 4
    ensures IsSuffix(".pdf", Lower(url)) <==>
      LowerChar(url[|url| - 4]) == '.' && LowerChar(url[|url| - 3]) == 'p'
      && LowerChar(url[|url| - 2]) == 'd' && LowerChar(url[|url| - 1]) == 'f'
  {
    SuffixOfFour(Lower(url), ".pdf");
  }

  lemma PdfLetters(a: char, b: char, c: char, d: char)
    ensures LowerChar(a) == '.' && LowerChar(b) == 'p' && LowerChar(c) == 'd' && LowerChar(d) == 'f' <==>
      a == '.' && (b == 'p' || b == 'P') && (c == 'd' || c == 'D') && (d == 'f' || d == 'F')
  {
    LowerKeepsDots(a);
    LowerToLetter(b, 'p');
    LowerToLetter(c, 'd');
    LowerToLetter(d, 'f');
  }

  /** `isPDF` spelt out: a dot, then p, d and f, each in either case. */
  lemma PdfByCharacters(url: string)
    ensures IsPDF(url) <==>
      |url| >= 4 && url[|url| - 4] == '.'
      && (url[|url| - 3] == 'p' || url[|url| - 3] == 'P')
      && (url[|url| - 2] == 'd' || url[|url| - 2] == 'D')
      && (url[|url| - 1] == 'f' || url[|url| - 1] == 'F')
  {
    var n := |url|;
    if n >= 4 {
      LoweredEndsInPdf(url);
      PdfLetters(url[n - 4], url[n - 3], url[n - 2], url[n - 1]);
    }
  }

  /**
   * `isPDF`: a non-empty URL that ends in ".pdf", ignoring ASCII case:
   * a dot, then p, d and f, each in either case.
   */
  predicate IsPDF(url: string) {
    url != "" && IsSuffix(".pdf", Lower(url))
  }

  /** The text after the last dot of `s`, if `s` has a dot. */
  function LastExtension(s: string): (e: Option<string>)
    ensures e.Some? ==> IsSuffix("." + e.value, s) && NoDot(e.value)
    ensures e.None? ==> NoDot(s)
    decreases |s|
  {
    if s == [] then None
    else if s[|s| - 1] == '.' then Some([])
    else
      match LastExtension(s[..|s| - 1])
      case None => None
      case Some(e) => Some(e + [s[|s| - 1]])
  }

  /** A dot-free suffix after a dot is the text after the last dot. */
  lemma {:induction false} ExtensionUnique(s: string, e: string)
    requires IsSuffix("." + e, s) && NoDot(e)
    ensures LastExtension(s) == Some(e)
    decreases |s|
  {
    if e == [] {
      assert s[|s| - 1] == ("." + e)[0];
    } else {
      var last := |s| - 1;
      assert s[last] == e[|e| - 1];
      var init := e[..|e| - 1];
      assert ("." + init) == ("." + e)[..|e|];
      assert s[..last][|s[..last]| - |"." + init|..] == ("." + init);
      assert IsSuffix("." + init, s[..last]);
      ExtensionUnique(s[..last], init);
      assert init + [s[last]] == e;
    }
  }

  lemma ImageExtensionsHaveNoDot()
    ensures forall ext :: ext in ImageExtensions ==> NoDot(ext)
  {
  }

  /**
   * The regex as an extension test: a URL is an image exactly when its
   * lowered text after the last dot is one of the image extensions.
   */
  lemma ImageByExtension(url: string)
    ensures IsImage(url) <==>
      url != "" && LastExtension(Lower(url)).Some? && LastExtension(Lower(url)).value in ImageExtensions
  {
    if IsImage(url) {
      var ext :| ext in ImageExtensions && IsSuffix("." + ext, Lower(url));
      ImageExtensionsHaveNoDot();
      ExtensionUnique(Lower(url), ext);
    }
    if url != "" && LastExtension(Lower(url)).Some? && LastExtension(Lower(url)).value in ImageExtensions {
      var ext := LastExtension(Lower(url)).value;
      assert ext in ImageExtensions && IsSuffix("." + ext, Lower(url));
    }
  }

  lemma PdfSuffixIsExtension(l: string)
    ensures IsSuffix(".pdf", l) <==> LastExtension(l) == Some("pdf")
  {
    if IsSuffix(".pdf", l) {
      assert NoDot("pdf");
      ExtensionUnique(l, "pdf");
    }
  }

  /** A URL is a PDF exactly when its lowered text after the last dot is "pdf". */
  lemma PdfByExtension(url: string)
    ensures IsPDF(url) <==> url != "" && LastExtension(Lower(url)) == Some("pdf")
  {
    PdfSuffixIsExtension(Lower(url));
  }

  /** No URL passes both tests. */
  lemma ImageAndPdfExclusive(url: string)
    ensures !(IsImage(url) && IsPDF(url))
  {
    ImageByExtension(url);
    PdfByExtension(url);
  }

  /** Neither test accepts the empty URL (`if (!url) return false`). */
  lemma EmptyUrlIsNeither()
    ensures !IsImage("") && !IsPDF("")
  {
  }

  lemma {:induction false} LowerIdempotent(s: string)
    ensures Lower(Lower(s)) == Lower(s)
  {
    forall i | 0 <= i < |s| ensures Lower(Lower(s))[i] == Lower(s)[i] {
      assert Lower(Lower(s))[i] == LowerChar(LowerChar(s[i]));
    }
  }

  /** Both tests ignore case: a URL and its lower-cased form are classified alike. */
  lemma ClassificationIgnoresCase(url: string)
    ensures IsImage(url) <==> IsImage(Lower(url))
    ensures IsPDF(url) <==> IsPDF(Lower(url))
  {
    LowerIdempotent(url);
  }

  datatype Kind = ImageTile | PdfTile | FileTile

  /** The preview chosen by the nested conditional: image first, then PDF, then a generic file. */
  function Classify(url: string): (k: Kind)
    ensures k == ImageTile <==> IsImage(url)
    ensures k == PdfTile <==> IsPDF(url)
    ensures k == FileTile <==> !IsImage(url) && !IsPDF(url)
  {
    ImageAndPdfExclusive(url);
    if IsImage(url) then ImageTile else if IsPDF(url) then PdfTile else FileTile
  }

  /** `getFileUrl`: "" for an empty path, the local server's address prepended for local records. */
  function GetFileUrl(path: string, isLocal: bool): (u: string)
    ensures path == "" ==> u == ""
    ensures path != "" && isLocal ==> IsPrefix(LocalServerOrigin, u) && u[|LocalServerOrigin|..] == path
    ensures path != "" && !isLocal ==> u == path
  {
    if path == "" then ""
    else if isLocal then LocalServerOrigin + path
    else path
  }

  /** A saved local file's link is the static `/uploads` route of the local server. */
  lemma LocalLinkIsStaticRoute(filename: string)
    ensures GetFileUrl(UploadPath(filename), true) == LocalServerOrigin + "/uploads/" + filename
  {
  }

  /** One preview: its kind and the link it opens. */
  datatype Tile = Tile(kind: Kind, href: string)

  /** What `renderFileItem` draws for one record; `createdAt` feeds the date line. */
  datatype Rendered =
    | RenderedNothing
    | SingleItem(tile: Tile, createdAt: nat)
    | FileGroup(count: nat, tiles: seq<Tile>, createdAt: nat)

  /** The kind is decided on the stored value, the link on the resolved URL. */
  function TileFor(url: string, isLocal: bool): (t: Tile)
    ensures t.kind == ImageTile <==> IsImage(url)
    ensures t.kind == PdfTile <==> IsPDF(url)
    ensures url == "" ==> t == Tile(FileTile, "")
    ensures url != "" && isLocal ==> t.href == LocalServerOrigin + url
    ensures !isLocal ==> t.href == url
  {
    Tile(Classify(url), GetFileUrl(url, isLocal))
  }

  /** `item.files.map(...)`: one tile per stored URL, in order. */
  function Tiles(urls: seq<string>, isLocal: bool): (ts: seq<Tile>)
    ensures |ts| == |urls|
    ensures forall i :: 0 <= i < |urls| ==> ts[i] == TileFor(urls[i], isLocal)
  {
    if urls == [] then [] else [TileFor(urls[0], isLocal)] + Tiles(urls[1..], isLocal)
  }

  /**
   * `renderFileItem`: a truthy `file` wins; otherwise a non-empty `files`
   * becomes a group of as many tiles; otherwise nothing is drawn.
   */
  function RenderFileItem(item: UploadRecord, storageType: string): (r: Rendered)
    ensures item.file.Some? && item.file.value != "" ==>
      r == SingleItem(TileFor(item.file.value, storageType == "local"), item.createdAt)
    ensures !(item.file.Some? && item.file.value != "") && item.files != [] ==>
      r.FileGroup? && r.count == |item.files| && |r.tiles| == |item.files| && r.createdAt == item.createdAt
      && forall i :: 0 <= i < |item.files| ==> r.tiles[i] == TileFor(item.files[i], storageType == "local")
    ensures r == RenderedNothing <==> !(item.file.Some? && item.file.value != "") && item.files == []
  {
    var isLocal := storageType == "local";
    if item.file.Some? && item.file.value != "" then
      SingleItem(TileFor(item.file.value, isLocal), item.createdAt)
    else if |item.files| > 0 then
      FileGroup(|item.files|, Tiles(item.files, isLocal), item.createdAt)
    else
      RenderedNothing
  }

  /** Every record the controllers save is drawn, unless it is a single upload saved with an empty URL. */
  lemma SavedRecordsAreDrawn(r: UploadRecord, storageType: string)
    requires WellShaped(r)
    ensures RenderFileItem(r, storageType) == RenderedNothing <==> r.file == Some("")
  {
  }

  /** A saved batch is drawn as a group with one tile per stored URL. */
  lemma BatchRendersEveryFile(urls: seq<string>, now: nat, storageType: string)
    requires urls != []
    ensures RenderFileItem(BatchRecord(urls, now), storageType)
      == FileGroup(|urls|, Tiles(urls, storageType == "local"), now)
  {
  }

  /** Text up to a dash plays no part in the image test. */
  lemma ImageIgnoresDashedPrefix(p: string, s: string)
    requires |p| > 0 && p[|p| - 1] == '-'
    ensures IsImage(p + s) <==> IsImage(s)
  {
    LowerAppend(p, s);
    var lp := Lower(p);
    assert lp[|lp| - 1] == LowerChar(p[|p| - 1]) == '-';
    forall ext | ext in ImageExtensions
      ensures IsSuffix("." + ext, Lower(p + s)) <==> IsSuffix("." + ext, Lower(s))
    {
      SuffixPastSeparator("." + ext, lp, Lower(s), '-');
    }
    if s == [] {
      assert forall ext :: ext in ImageExtensions ==> !IsSuffix("." + ext, Lower(s));
    }
  }

  /** Text up to a dash plays no part in the PDF test. */
  lemma PdfIgnoresDashedPrefix(p: string, s: string)
    requires |p| > 0 && p[|p| - 1] == '-'
    ensures IsPDF(p + s) <==> IsPDF(s)
  {
    LowerAppend(p, s);
    var lp := Lower(p);
    assert lp[|lp| - 1] == LowerChar(p[|p| - 1]) == '-';
    SuffixPastSeparator(".pdf", lp, Lower(s), '-');
  }

  /**
   * The name the local storage gives a file keeps the original name's
   * ending, so a locally stored upload is previewed as its original name
   * would be.
   */
  lemma LocalPathKeepsKind(now: nat, originalname: string)
    ensures Classify(UploadPath(LocalFilename(now, originalname))) == Classify(originalname)
  {
    var p := UploadUrlPrefix + NatToString(now) + "-";
    assert UploadPath(LocalFilename(now, originalname)) == p + originalname;
    ImageIgnoresDashedPrefix(p, originalname);
    PdfIgnoresDashedPrefix(p, originalname);
  }

  /** A locally stored single upload is drawn with its original name's preview and the static link. */
  lemma LocalSingleRendering(now: nat, originalname: string)
    ensures RenderFileItem(SingleRecord(UploadPath(LocalFilename(now, originalname)), now), "local")
      == SingleItem(Tile(Classify(originalname),
                         LocalServerOrigin + "/uploads/" + LocalFilename(now, originalname)), now)
  {
    LocalPathKeepsKind(now, originalname);
    LocalLinkIsStaticRoute(LocalFilename(now, originalname));
  }
}

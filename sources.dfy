/** How the multi-source filler turns one answer source into text: a plain
    locator is classified by its URL scheme or its file suffix, a source
    specification names its kind and path outright, and the kind chooses
    the extractor.  Every kind but `url` reads a path under the data
    directory.  Each extractor fails with an installation hint when its
    optional library is missing. */
module Sources {
  import opened Outcomes
  import opened PyText
  import opened PyPath
  import opened Extraction

  /** An answer source: a locator (a URL or a path), or a specification
      with an optional `type` and an optional `path`. */
  datatype Source = Locator(locator: string) | Spec(kind: Option<string>, path: Option<string>)

  const WebInstall := "Install: pip install requests beautifulsoup4"
  const OcrInstall := "Install: pip install pytesseract pillow"
  const PdfInstall := "Install: pip install PyPDF2"
  const DocxInstall := "Install: pip install python-docx"

  /** `type_map.get(ext, 'file')`, where the table maps `.pdf` to `pdf`,
      `.docx` to `docx` and the five image suffixes to `image`. */
  function KindOfSuffix(ext: string): string
  {
    if ext == ".pdf" then "pdf"
    else if ext == ".docx" then "docx"
    else if ext == ".png" || ext == ".jpg" || ext == ".jpeg" || ext == ".gif" || ext == ".bmp" then "image"
    else "file"
  }

  /** The kind of a source; a specification without `type` has none. */
  function ResolveKind(source: Source): Option<string>
  {
    match source
    case Locator(locator) =>
      if IsUrl(locator) then Some("url") else Some(KindOfSuffix(Lower(Suffix(locator))))
    case Spec(kind, _) => kind
  }

  /** The locator of a source; a specification without `path` has none. */
  function ResolvePath(source: Source): Option<string>
  {
    match source
    case Locator(locator) => Some(locator)
    case Spec(_, path) => path
  }

  /** The cleaned-up text of a web page.  A missing URL makes the fetch
      fail, but only once the library is known to be there. */
  function UrlResult(features: Features, backends: Backends, url: Option<string>): Result<string, ExtractError>
  {
    if !features.web then Failure(Unavailable(WebInstall))
    else match url
      case None => Failure(NoPath)
      case Some(u) => Finish(backends.pageText(u), CleanPageText)
  }

  /** The OCR text of an image. */
  function ImageResult(features: Features, backends: Backends, imagePath: string): Result<string, ExtractError>
  {
    if !features.ocr then Failure(Unavailable(OcrInstall))
    else Finish(backends.imageText(imagePath), AsRead)
  }

  /** The text of a PDF: its pages joined by newlines. */
  function PdfResult(features: Features, backends: Backends, pdfPath: string): Result<string, ExtractError>
  {
    if !features.pdf then Failure(Unavailable(PdfInstall))
    else Finish(backends.pdfPages(pdfPath), PdfText)
  }

  /** The text of a DOCX document: its non-blank paragraphs joined by
      newlines. */
  function DocxResult(features: Features, backends: Backends, docxPath: string): Result<string, ExtractError>
  {
    if !features.docx then Failure(Unavailable(DocxInstall))
    else Finish(backends.docxParagraphs(docxPath), DocxTextNonBlank)
  }

  /** The text of a file; reading files needs no optional library. */
  function FileResult(backends: Backends, filePath: string): Result<string, ExtractError>
  {
    Finish(backends.readFile(filePath), AsRead)
  }

  /** The extraction of a local source of the given kind at its full path:
      `image`, `pdf` and `docx` have their own extractors and every other
      kind, none included, is read as a file. */
  function LocalResult(features: Features, backends: Backends, kind: Option<string>, fullPath: string): Result<string, ExtractError>
  {
    if kind == Some("image") then ImageResult(features, backends, fullPath)
    else if kind == Some("pdf") then PdfResult(features, backends, fullPath)
    else if kind == Some("docx") then DocxResult(features, backends, fullPath)
    else FileResult(backends, fullPath)
  }

  /** The text of a source: a `url` source goes to the web extractor as it
      is; every other source has its path joined onto the data directory
      first, which fails when there is no path. */
  function ExtractText(features: Features, backends: Backends, dataDir: string, source: Source): Result<string, ExtractError>
  {
    var kind := ResolveKind(source);
    if kind == Some("url") then UrlResult(features, backends, ResolvePath(source))
    else match ResolvePath(source)
      case None => Failure(NoPath)
      case Some(path) => LocalResult(features, backends, kind, PathJoin(dataDir, path))
  }

  /** A locator starting with `http://` or `https://` is a URL.  Any other
      locator is a PDF, a DOCX document or an image exactly when its
      lower-cased suffix is `.pdf`, `.docx` or one of the five image
      suffixes, and a plain file otherwise, a locator without suffix
      included.  A specification's kind is its `type`, as given. */
  lemma ResolveKindCases(source: Source)
    ensures source.Locator? && IsUrl(source.locator) ==> ResolveKind(source) == Some("url")
    ensures source.Locator? && !IsUrl(source.locator) ==>
      var ext := Lower(Suffix(source.locator));
      ResolveKind(source).Some? &&
      (ResolveKind(source).value == "pdf" <==> ext == ".pdf") &&
      (ResolveKind(source).value == "docx" <==> ext == ".docx") &&
      (ResolveKind(source).value == "image" <==> ext in {".png", ".jpg", ".jpeg", ".gif", ".bmp"}) &&
      (ResolveKind(source).value == "file" <==> ext !in {".pdf", ".docx", ".png", ".jpg", ".jpeg", ".gif", ".bmp"}) &&
      ResolveKind(source).value in {"pdf", "docx", "image", "file"}
    ensures source.Locator? && Suffix(source.locator) == "" && !IsUrl(source.locator) ==> ResolveKind(source) == Some("file")
    ensures source.Spec? ==> ResolveKind(source) == source.kind && ResolvePath(source) == source.path
    ensures source.Locator? ==> ResolvePath(source) == Some(source.locator)
  {
    if source.Locator? && Suffix(source.locator) == "" {
      assert Lower(Suffix(source.locator)) == "";
    }
  }

  /** An extractor whose library is missing fails with its installation
      hint whatever the backends would have read. */
  lemma MissingLibraryFails(features: Features, backends: Backends, url: Option<string>, path: string)
    ensures !features.web ==> UrlResult(features, backends, url) == Failure(Unavailable(WebInstall))
    ensures !features.ocr ==> ImageResult(features, backends, path) == Failure(Unavailable(OcrInstall))
    ensures !features.pdf ==> PdfResult(features, backends, path) == Failure(Unavailable(PdfInstall))
    ensures !features.docx ==> DocxResult(features, backends, path) == Failure(Unavailable(DocxInstall))
  {
  }

  /** What each extractor hands its backend: a `url` source its locator,
      unchanged; every other source with a path the data directory joined
      with that path; a non-`url` source without path reaches no
      backend. */
  lemma DispatchArguments(features: Features, backends: Backends, dataDir: string, source: Source)
    ensures ResolveKind(source) == Some("url") && features.web && ResolvePath(source).Some? ==>
      ExtractText(features, backends, dataDir, source) ==
      Finish(backends.pageText(ResolvePath(source).value), CleanPageText)
    ensures ResolveKind(source) == Some("image") && features.ocr && ResolvePath(source).Some? ==>
      ExtractText(features, backends, dataDir, source) ==
      Finish(backends.imageText(PathJoin(dataDir, ResolvePath(source).value)), AsRead)
    ensures ResolveKind(source) == Some("pdf") && features.pdf && ResolvePath(source).Some? ==>
      ExtractText(features, backends, dataDir, source) ==
      Finish(backends.pdfPages(PathJoin(dataDir, ResolvePath(source).value)), PdfText)
    ensures ResolveKind(source) == Some("docx") && features.docx && ResolvePath(source).Some? ==>
      ExtractText(features, backends, dataDir, source) ==
      Finish(backends.docxParagraphs(PathJoin(dataDir, ResolvePath(source).value)), DocxTextNonBlank)
    ensures ResolveKind(source) !in {Some("url"), Some("image"), Some("pdf"), Some("docx")} && ResolvePath(source).Some? ==>
      ExtractText(features, backends, dataDir, source) ==
      Finish(backends.readFile(PathJoin(dataDir, ResolvePath(source).value)), AsRead)
    ensures ResolveKind(source) != Some("url") && ResolvePath(source).None? ==>
      ExtractText(features, backends, dataDir, source) == Failure(NoPath)
  {
  }

  /** A URL locator is read the same whatever the data directory; an
      absolute local path ignores the data directory too. */
  lemma DataDirectoryIgnored(features: Features, backends: Backends, dir1: string, dir2: string, source: Source)
    requires ResolveKind(source) == Some("url") ||
      (ResolvePath(source).Some? && StartsWith(ResolvePath(source).value, "/"))
    ensures ExtractText(features, backends, dir1, source) == ExtractText(features, backends, dir2, source)
  {
  }
}

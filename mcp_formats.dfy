/** The server's file-type helpers: the type of a file by its suffix, whether
    the server can read a type with the libraries it has, and the formats it
    reports as supported. */
module McpFormats {
  import opened Outcomes
  import opened PyPath
  import opened Extraction
  import Sources

  /** `type_map.get(ext, 'unknown')` over the server's fourteen-entry table
      of lower-case suffixes. */
  function FileTypeOfSuffix(ext: string): string
  {
    if ext == ".md" then "markdown"
    else if ext == ".txt" then "text"
    else if ext == ".pdf" then "pdf"
    else if ext == ".docx" then "docx"
    else if ext == ".doc" then "doc"
    else if ext == ".jpg" || ext == ".jpeg" || ext == ".png" || ext == ".gif" || ext == ".bmp" then "image"
    else if ext == ".json" then "json"
    else if ext == ".csv" then "csv"
    else if ext == ".html" || ext == ".htm" then "html"
    else "unknown"
  }

  /** The type of a file, by its lower-cased suffix. */
  function DetectFileType(filename: string): string
  {
    FileTypeOfSuffix(Lower(Suffix(filename)))
  }

  /** The five image suffixes, shared by both programs' tables. */
  predicate IsImageSuffix(ext: string) {
    ext == ".jpg" || ext == ".jpeg" || ext == ".png" || ext == ".gif" || ext == ".bmp"
  }

  /** Every suffix of the table gives its own type, and nothing else does:
      a suffix outside the table, or none, gives `unknown`. */
  lemma FileTypeCases(ext: string)
    ensures FileTypeOfSuffix(ext) == "markdown" <==> ext == ".md"
    ensures FileTypeOfSuffix(ext) == "text" <==> ext == ".txt"
    ensures FileTypeOfSuffix(ext) == "pdf" <==> ext == ".pdf"
    ensures FileTypeOfSuffix(ext) == "docx" <==> ext == ".docx"
    ensures FileTypeOfSuffix(ext) == "doc" <==> ext == ".doc"
    ensures FileTypeOfSuffix(ext) == "image" <==> IsImageSuffix(ext)
    ensures FileTypeOfSuffix(ext) == "json" <==> ext == ".json"
    ensures FileTypeOfSuffix(ext) == "csv" <==> ext == ".csv"
    ensures FileTypeOfSuffix(ext) == "html" <==> ext == ".html" || ext == ".htm"
    ensures FileTypeOfSuffix(ext) == "unknown" <==>
      !(ext in {".md", ".txt", ".pdf", ".docx", ".doc", ".json", ".csv", ".html", ".htm"} || IsImageSuffix(ext))
  {
  }

  /** A file without a suffix has the `unknown` type. */
  lemma NoSuffixUnknown(filename: string)
    requires Suffix(filename) == ""
    ensures DetectFileType(filename) == "unknown"
  {
    assert Lower(Suffix(filename)) == "";
  }

  /** The server's table and the multi-source filler's agree on PDFs, DOCX
      documents and images; every other type of the server's table is read
      as a plain file by the filler. */
  lemma TypeTablesAgree(locator: string)
    requires !IsUrl(locator)
    ensures DetectFileType(locator) in {"pdf", "docx", "image"} ==>
      Sources.ResolveKind(Sources.Locator(locator)) == Some(DetectFileType(locator))
    ensures DetectFileType(locator) !in {"pdf", "docx", "image"} ==>
      Sources.ResolveKind(Sources.Locator(locator)) == Some("file")
  {
    FileTypeCases(Lower(Suffix(locator)));
    Sources.ResolveKindCases(Sources.Locator(locator));
  }

  /** The server can read a type: the text types always, PDFs, DOCX
      documents and images only when their library imported. */
  predicate Supported(features: Features, fileType: string) {
    fileType in {"markdown", "text", "json", "csv"} ||
    (features.pdf && fileType == "pdf") ||
    (features.docx && fileType == "docx") ||
    (features.ocr && fileType == "image")
  }

  /** Whether the server can read a type: the list of supported types is
      built up from the text types and then looked up. */
  method IsSupportedFormat(features: Features, fileType: string) returns (supportedType: bool)
    ensures supportedType <==> Supported(features, fileType)
  {
    var supported := ["markdown", "text", "json", "csv"];
    if features.pdf && fileType == "pdf" {
      supported := supported + ["pdf"];
    }
    if features.docx && fileType == "docx" {
      supported := supported + ["docx"];
    }
    if features.ocr && fileType == "image" {
      supported := supported + ["image"];
    }
    supportedType := fileType in supported;
  }

  /** A file is supported exactly when its suffix is one of the text
      suffixes, or its library imported and its suffix is `.pdf`, `.docx` or
      an image suffix.  `.doc` and HTML files and unknown types never are. */
  lemma SupportedDetected(features: Features, filename: string)
    ensures var ext := Lower(Suffix(filename));
      Supported(features, DetectFileType(filename)) <==>
        ext in {".md", ".txt", ".json", ".csv"} ||
        (features.pdf && ext == ".pdf") ||
        (features.docx && ext == ".docx") ||
        (features.ocr && IsImageSuffix(ext))
    ensures DetectFileType(filename) in {"doc", "html", "unknown"} ==> !Supported(features, DetectFileType(filename))
  {
    FileTypeCases(Lower(Suffix(filename)));
  }

  /** The formats the server reports, by family. */
  datatype SupportedFormats = SupportedFormats(images: seq<string>, documents: seq<string>, text: seq<string>, web: seq<string>)

  /** The server's capabilities: which optional libraries imported, and the
      formats it reports. */
  datatype Capabilities = Capabilities(ocr: bool, webScraping: bool, pdf: bool, docx: bool, formats: SupportedFormats)

  /** The `documents` list as the server computes it: the conditional
      expressions nest to the right, so with the PDF library present the
      list is `["pdf"]` whether or not DOCX is available too. */
  function DocumentsAsWritten(features: Features): (r: seq<string>)
    ensures features.pdf ==> r == ["pdf"]
    ensures !features.pdf && features.docx ==> r == ["docx"]
    ensures !features.pdf && !features.docx ==> r == []
  {
    if features.pdf then ["pdf"] else if features.docx then [] + ["docx"] else []
  }

  /** With both libraries present, the `documents` list as computed leaves
      out DOCX, which the server nonetheless reads. */
  lemma DocumentsAsWrittenMissesDocx()
    ensures var both := Features(false, false, true, true);
      Supported(both, "docx") && "docx" !in DocumentsAsWritten(both)
  {
  }

  /** The `documents` list meant: PDF when its library imported, followed by
      DOCX when its library imported. */
  function Documents(features: Features): (r: seq<string>)
    ensures "pdf" in r <==> features.pdf
    ensures "docx" in r <==> features.docx
    ensures |r| == (if features.pdf then 1 else 0) + (if features.docx then 1 else 0)
  {
    (if features.pdf then ["pdf"] else []) + (if features.docx then ["docx"] else [])
  }

  /** The list meant and the list computed differ only when both libraries
      imported. */
  lemma DocumentsAgreeUnlessBoth(features: Features)
    ensures !(features.pdf && features.docx) ==> Documents(features) == DocumentsAsWritten(features)
    ensures features.pdf && features.docx ==> Documents(features) != DocumentsAsWritten(features)
  {
  }

  /** The capabilities of a server with the given libraries, with the
      `documents` list meant. */
  function GetCapabilities(features: Features): (r: Capabilities)
    ensures r.ocr == features.ocr && r.webScraping == features.web
    ensures r.pdf == features.pdf && r.docx == features.docx
    ensures r.formats.images != [] <==> features.ocr
    ensures r.formats.web != [] <==> features.web
    ensures r.formats.documents == Documents(features)
    ensures r.formats.text == ["md", "txt", "json", "csv"]
  {
    Capabilities(features.ocr, features.web, features.pdf, features.docx,
      SupportedFormats(
        if features.ocr then ["jpg", "jpeg", "png", "gif", "bmp"] else [],
        Documents(features),
        ["md", "txt", "json", "csv"],
        if features.web then ["http", "https"] else []))
  }

  /** The capabilities as the server computes them: the same as those meant
      except for the `documents` list, which is the one computed, and which
      differs exactly when both document libraries imported. */
  function GetCapabilitiesAsWritten(features: Features): (r: Capabilities)
    ensures r.formats.documents == DocumentsAsWritten(features)
    ensures r == GetCapabilities(features).(formats := GetCapabilities(features).formats.(documents := r.formats.documents))
    ensures r != GetCapabilities(features) <==> features.pdf && features.docx
  {
    DocumentsAgreeUnlessBoth(features);
    Capabilities(features.ocr, features.web, features.pdf, features.docx,
      SupportedFormats(
        if features.ocr then ["jpg", "jpeg", "png", "gif", "bmp"] else [],
        if features.pdf then ["pdf"] else [] + if features.docx then ["docx"] else [],
        ["md", "txt", "json", "csv"],
        if features.web then ["http", "https"] else []))
  }

  /** The file extensions the capabilities list. */
  function Listed(formats: SupportedFormats): seq<string>
  {
    formats.images + formats.documents + formats.text
  }

  /** The type of a listed extension. */
  function TypeOfExtension(e: string): string
  {
    FileTypeOfSuffix("." + e)
  }

  /** Some listed extension has type `t`. */
  predicate Lists(formats: SupportedFormats, t: string) {
    exists e | e in Listed(formats) :: TypeOfExtension(e) == t
  }

  /** The types of the text extensions the capabilities list. */
  lemma TextExtensionTypes()
    ensures TypeOfExtension("md") == "markdown" && TypeOfExtension("txt") == "text"
    ensures TypeOfExtension("json") == "json" && TypeOfExtension("csv") == "csv"
  {
    assert "." + "md" == ".md" && "." + "txt" == ".txt";
    assert "." + "json" == ".json" && "." + "csv" == ".csv";
  }

  /** The types of the document extensions the capabilities list. */
  lemma DocumentExtensionTypes()
    ensures TypeOfExtension("pdf") == "pdf" && TypeOfExtension("docx") == "docx"
  {
    assert "." + "pdf" == ".pdf" && "." + "docx" == ".docx";
  }

  /** The types of the image extensions the capabilities list. */
  lemma ImageExtensionTypes()
    ensures TypeOfExtension("jpg") == "image" && TypeOfExtension("jpeg") == "image"
    ensures TypeOfExtension("png") == "image" && TypeOfExtension("gif") == "image"
    ensures TypeOfExtension("bmp") == "image"
  {
    assert "." + "jpg" == ".jpg" && "." + "jpeg" == ".jpeg";
    assert "." + "png" == ".png" && "." + "gif" == ".gif";
    assert "." + "bmp" == ".bmp";
  }

  /** Every extension the capabilities list is that of a type the server
      supports. */
  lemma ListedAreSupported(features: Features)
    ensures forall e | e in Listed(GetCapabilities(features).formats) :: Supported(features, TypeOfExtension(e))
  {
    var f := GetCapabilities(features).formats;
    forall e | e in Listed(f)
      ensures Supported(features, TypeOfExtension(e))
    {
      if e in f.images {
        assert features.ocr;
        assert e == "jpg" || e == "jpeg" || e == "png" || e == "gif" || e == "bmp";
        assert TypeOfExtension(e) == "image" by { ImageExtensionTypes(); }
      } else if e in f.documents {
        assert (e == "pdf" && features.pdf) || (e == "docx" && features.docx);
        DocumentExtensionTypes();
      } else {
        assert e == "md" || e == "txt" || e == "json" || e == "csv";
        TextExtensionTypes();
      }
    }
  }

  /** Every type the server supports has an extension listed. */
  lemma SupportedAreListed(features: Features, t: string)
    requires t in {"markdown", "text", "json", "csv", "pdf", "docx", "image"} && Supported(features, t)
    ensures Lists(GetCapabilities(features).formats, t)
  {
    var f := GetCapabilities(features).formats;
    TextExtensionTypes();
    DocumentExtensionTypes();
    ImageExtensionTypes();
    var e := if t == "markdown" then "md" else if t == "text" then "txt" else if t == "image" then "png" else t;
    assert e in Listed(f);
    assert TypeOfExtension(e) == t;
  }
}

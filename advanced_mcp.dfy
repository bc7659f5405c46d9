/** The server's answer extraction: each answer source names its type and a
    locator; a `url` source is fetched as it is, every other source is read
    under the server's root directory, and the text read is parsed with the
    regex parser.  One outcome is recorded per source, in order, whether or
    not the source could be read. */
module AdvancedMcp {
  import opened Outcomes
  import opened PyText
  import opened PyPath
  import opened Extraction
  import Sources
  import McpParse

  const WebMessage := "Web scraping not available. Install: pip install requests beautifulsoup4"
  const OcrMessage := "OCR not available. Install: pip install pytesseract pillow"
  const PdfMessage := "PDF support not available. Install: pip install PyPDF2"
  const DocxMessage := "DOCX support not available. Install: pip install python-docx"

  /** A request's answer source: its type, its locator (a URL or a path
      under the root) and an optional query, which extraction ignores. */
  datatype AnswerSource = AnswerSource(kind: string, source: string, query: Option<string>)

  /** What the server records for one source: its answers, or why it could
      not be read. */
  datatype SourceOutcome =
    | Succeeded(source: string, kind: string, answers: map<string, string>)
    | Failed(source: string, kind: string, error: ExtractError)

  /** The cleaned-up text of a web page. */
  function UrlText(features: Features, backends: Backends, url: string): Result<string, ExtractError>
  {
    if !features.web then Failure(Unavailable(WebMessage)) else Finish(backends.pageText(url), CleanPageText)
  }

  /** The OCR text of an image. */
  function ImageText(features: Features, backends: Backends, imagePath: string): Result<string, ExtractError>
  {
    if !features.ocr then Failure(Unavailable(OcrMessage)) else Finish(backends.imageText(imagePath), AsRead)
  }

  /** The text of a PDF: its pages joined by newlines. */
  function PdfResult(features: Features, backends: Backends, pdfPath: string): Result<string, ExtractError>
  {
    if !features.pdf then Failure(Unavailable(PdfMessage)) else Finish(backends.pdfPages(pdfPath), PdfText)
  }

  /** The text of a DOCX document: every paragraph, blank ones included,
      joined by newlines. */
  function DocxResult(features: Features, backends: Backends, docxPath: string): Result<string, ExtractError>
  {
    if !features.docx then Failure(Unavailable(DocxMessage)) else Finish(backends.docxParagraphs(docxPath), DocxTextAll)
  }

  /** The text of a source: a `url` source is fetched by its locator, every
      other type reads the root joined with the locator; a type other than
      `url`, `image`, `pdf` and `docx` is read as a plain file. */
  function SourceText(features: Features, backends: Backends, root: string, src: AnswerSource): Result<string, ExtractError>
  {
    if src.kind == "url" then UrlText(features, backends, src.source)
    else
      var fullPath := PathJoin(root, src.source);
      if src.kind == "image" then ImageText(features, backends, fullPath)
      else if src.kind == "pdf" then PdfResult(features, backends, fullPath)
      else if src.kind == "docx" then DocxResult(features, backends, fullPath)
      else Sources.FileResult(backends, fullPath)
  }

  /** The outcome recorded for a source: the answers of its text, or the
      error that stopped its extraction; both carry the source's locator and
      type. */
  function OutcomeOf(features: Features, backends: Backends, root: string, src: AnswerSource): SourceOutcome
  {
    match SourceText(features, backends, root, src)
    case Success(content) => Succeeded(src.source, src.kind, McpParse.McpAnswers(content))
    case Failure(e) => Failed(src.source, src.kind, e)
  }

  /** The outcomes of a list of sources, one per source, in order. */
  function AllOutcomes(features: Features, backends: Backends, root: string, sources: seq<AnswerSource>): seq<SourceOutcome>
  {
    seq(|sources|, i requires 0 <= i < |sources| => OutcomeOf(features, backends, root, sources[i]))
  }

  /** A missing library makes its extractor fail with the server's message,
      whatever the backends would have read. */
  lemma MissingLibraryFails(features: Features, backends: Backends, path: string)
    ensures !features.web ==> UrlText(features, backends, path) == Failure(Unavailable(WebMessage))
    ensures !features.ocr ==> ImageText(features, backends, path) == Failure(Unavailable(OcrMessage))
    ensures !features.pdf ==> PdfResult(features, backends, path) == Failure(Unavailable(PdfMessage))
    ensures !features.docx ==> DocxResult(features, backends, path) == Failure(Unavailable(DocxMessage))
  {
  }

  /** What each source hands its backend: a `url` source its locator,
      unchanged; every other source the root joined with its locator, an
      unrecognised type going to the file reader. */
  lemma SourceDispatch(features: Features, backends: Backends, root: string, src: AnswerSource)
    ensures src.kind == "url" && features.web ==>
      SourceText(features, backends, root, src) == Finish(backends.pageText(src.source), CleanPageText)
    ensures src.kind == "image" && features.ocr ==>
      SourceText(features, backends, root, src) == Finish(backends.imageText(PathJoin(root, src.source)), AsRead)
    ensures src.kind == "pdf" && features.pdf ==>
      SourceText(features, backends, root, src) == Finish(backends.pdfPages(PathJoin(root, src.source)), PdfText)
    ensures src.kind == "docx" && features.docx ==>
      SourceText(features, backends, root, src) == Finish(backends.docxParagraphs(PathJoin(root, src.source)), DocxTextAll)
    ensures src.kind !in {"url", "image", "pdf", "docx"} ==>
      SourceText(features, backends, root, src) == Finish(backends.readFile(PathJoin(root, src.source)), AsRead)
  {
  }

  /** An outcome names its source and type, and succeeds exactly when the
      source's text could be read, with the answers parsed from it. */
  lemma OutcomeCases(features: Features, backends: Backends, root: string, src: AnswerSource)
    ensures OutcomeOf(features, backends, root, src).source == src.source
    ensures OutcomeOf(features, backends, root, src).kind == src.kind
    ensures OutcomeOf(features, backends, root, src).Succeeded? <==> SourceText(features, backends, root, src).Success?
    ensures OutcomeOf(features, backends, root, src).Succeeded? ==>
      OutcomeOf(features, backends, root, src).answers == McpParse.McpAnswers(SourceText(features, backends, root, src).value)
    ensures OutcomeOf(features, backends, root, src).Failed? ==>
      OutcomeOf(features, backends, root, src).error == SourceText(features, backends, root, src).error
  {
  }

  /** The outcome of a source does not depend on the other sources: the
      outcomes of two lists one after the other are those of the lists
      joined. */
  lemma OutcomesConcat(features: Features, backends: Backends, root: string, a: seq<AnswerSource>, b: seq<AnswerSource>)
    ensures AllOutcomes(features, backends, root, a + b) ==
      AllOutcomes(features, backends, root, a) + AllOutcomes(features, backends, root, b)
  {
    var left := AllOutcomes(features, backends, root, a + b);
    var right := AllOutcomes(features, backends, root, a) + AllOutcomes(features, backends, root, b);
    forall i | 0 <= i < |a + b|
      ensures left[i] == right[i]
    {
      if i >= |a| {
        assert (a + b)[i] == b[i - |a|];
      }
    }
  }

  /** The text of a PDF, collected page by page. */
  method ExtractFromPdf(features: Features, backends: Backends, pdfPath: string) returns (r: Result<string, ExtractError>)
    ensures r == PdfResult(features, backends, pdfPath)
  {
    if !features.pdf {
      return Failure(Unavailable(PdfMessage));
    }
    var read := backends.pdfPages(pdfPath);
    if read.Failure? {
      return Failure(BackendFailed(read.error));
    }
    var pages := read.value;
    var text: seq<string> := [];
    for i := 0 to |pages|
      invariant text == pages[..i]
    {
      text := text + [pages[i]];
    }
    assert text == pages;
    r := Success(Join("\n", text));
  }

  /** The text of a DOCX document, collected paragraph by paragraph, blank
      ones included. */
  method ExtractFromDocx(features: Features, backends: Backends, docxPath: string) returns (r: Result<string, ExtractError>)
    ensures r == DocxResult(features, backends, docxPath)
  {
    if !features.docx {
      return Failure(Unavailable(DocxMessage));
    }
    var read := backends.docxParagraphs(docxPath);
    if read.Failure? {
      return Failure(BackendFailed(read.error));
    }
    var paragraphs := read.value;
    var text: seq<string> := [];
    for i := 0 to |paragraphs|
      invariant text == paragraphs[..i]
    {
      text := text + [paragraphs[i]];
    }
    assert text == paragraphs;
    r := Success(Join("\n", text));
  }

  /** Extract one source and parse its answers, recording the error instead
      when it cannot be read. */
  method ExtractOne(features: Features, backends: Backends, root: string, src: AnswerSource) returns (outcome: SourceOutcome)
    ensures outcome == OutcomeOf(features, backends, root, src)
  {
    var content: Result<string, ExtractError>;
    if src.kind == "url" {
      content := UrlText(features, backends, src.source);
    } else if src.kind == "image" {
      content := ImageText(features, backends, PathJoin(root, src.source));
    } else if src.kind == "pdf" {
      content := ExtractFromPdf(features, backends, PathJoin(root, src.source));
    } else if src.kind == "docx" {
      content := ExtractFromDocx(features, backends, PathJoin(root, src.source));
    } else {
      content := Sources.FileResult(backends, PathJoin(root, src.source));
    }
    match content
    case Success(text) =>
      var answers := McpParse.ParseAnswersFromContent(text);
      outcome := Succeeded(src.source, src.kind, answers);
    case Failure(e) =>
      outcome := Failed(src.source, src.kind, e);
  }

  /** The `/extract-answers` handler: one outcome per source, in the order
      of the sources; a source that fails does not stop the ones after
      it. */
  method ExtractAnswers(features: Features, backends: Backends, root: string, sources: seq<AnswerSource>)
    returns (results: seq<SourceOutcome>)
    ensures |results| == |sources|
    ensures forall i | 0 <= i < |sources| :: results[i] == OutcomeOf(features, backends, root, sources[i])
    ensures results == AllOutcomes(features, backends, root, sources)
  {
    results := [];
    for i := 0 to |sources|
      invariant |results| == i
      invariant forall j | 0 <= j < i :: results[j] == OutcomeOf(features, backends, root, sources[j])
    {
      var outcome := ExtractOne(features, backends, root, sources[i]);
      results := results + [outcome];
    }
  }
}

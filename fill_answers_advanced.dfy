/** The multi-source filler: an `AnswerExtractor` reads answer sources of
    several kinds under its data directory, parses each into an answer map,
    merges the maps, and fills the question template with them.  The
    optional libraries are the `Features` flags, the readers are the
    `Backends` functions, and the template and output files are strings. */
module FillAnswersAdvanced {
  import opened Outcomes
  import opened PyText
  import opened PyPath
  import opened Extraction
  import opened Sources
  import opened Merge
  import opened AnswerDoc
  import FillAnswers

  /** The data directory an extractor uses when none is given. */
  const DefaultDataDir := "mcp-data"

  /** The answers a source yields: those of its text, or nothing when it
      cannot be read. */
  function SourceAnswers(features: Features, backends: Backends, dataDir: string, source: Source): Option<map<string, string>>
  {
    match ExtractText(features, backends, dataDir, source)
    case Success(text) => Some(ParseAnswerDoc(text))
    case Failure(_) => None
  }

  /** `SourceAnswers` for fixed libraries, backends and data directory, as a
      function of the source. */
  function SourceReader(features: Features, backends: Backends, dataDir: string): Source -> Option<map<string, string>>
  {
    source => SourceAnswers(features, backends, dataDir, source)
  }

  /** The answers of the first `n` sources merged in order. */
  function LoadedUpTo(features: Features, backends: Backends, dataDir: string, sources: seq<Source>, n: nat): map<string, string>
    requires n <= |sources|
  {
    if n == 0 then map[]
    else MergeOne(LoadedUpTo(features, backends, dataDir, sources, n - 1), SourceAnswers(features, backends, dataDir, sources[n - 1]))
  }

  /** The answers loaded from `sources` by an extractor whose data directory
      is `dataDir`. */
  function LoadedAnswers(features: Features, backends: Backends, dataDir: string, sources: seq<Source>): map<string, string>
  {
    LoadedUpTo(features, backends, dataDir, sources, |sources|)
  }

  /** Loading is the merge of the sources' answer maps, so the properties of
      `MergeSources` hold of it. */
  lemma {:induction false} LoadedIsMerge(features: Features, backends: Backends, dataDir: string, sources: seq<Source>, n: nat)
    requires n <= |sources|
    ensures LoadedUpTo(features, backends, dataDir, sources, n) ==
      MergeSources(sources, n, SourceReader(features, backends, dataDir))
  {
    if n > 0 {
      LoadedIsMerge(features, backends, dataDir, sources, n - 1);
    }
  }

  class AnswerExtractor {
    /** The directory local sources are read from. */
    var dataDir: string
    /** Set to an empty map and never changed afterwards. */
    var answers: map<string, string>

    constructor(dataDir: string)
      ensures this.dataDir == dataDir && answers == map[]
    {
      this.dataDir := dataDir;
      answers := map[];
    }

    /** The text of a PDF, collected page by page. */
    method ExtractFromPdf(features: Features, backends: Backends, pdfPath: string) returns (r: Result<string, ExtractError>)
      ensures r == PdfResult(features, backends, pdfPath)
    {
      if !features.pdf {
        return Failure(Unavailable(PdfInstall));
      }
      var read := backends.pdfPages(pdfPath);
      if read.Failure? {
        return Failure(BackendFailed(read.error));
      }
      var pages := read.value;
      var text: seq<string> := [];
      var i := 0;
      while i < |pages|
        invariant 0 <= i <= |pages|
        invariant text == pages[..i]
      {
        text := text + [pages[i]];
        i := i + 1;
      }
      assert text == pages;
      r := Success(Join("\n", text));
    }

    /** The text of a DOCX document, collected paragraph by paragraph,
        leaving out the blank ones. */
    method ExtractFromDocx(features: Features, backends: Backends, docxPath: string) returns (r: Result<string, ExtractError>)
      ensures r == DocxResult(features, backends, docxPath)
    {
      if !features.docx {
        return Failure(Unavailable(DocxInstall));
      }
      var read := backends.docxParagraphs(docxPath);
      if read.Failure? {
        return Failure(BackendFailed(read.error));
      }
      var paragraphs := read.value;
      var text: seq<string> := [];
      var i := 0;
      while i < |paragraphs|
        invariant 0 <= i <= |paragraphs|
        invariant text == NonBlank(paragraphs[..i])
      {
        NonBlankSnoc(paragraphs[..i], paragraphs[i]);
        assert paragraphs[..i + 1] == paragraphs[..i] + [paragraphs[i]];
        if Strip(paragraphs[i]) != "" {
          text := text + [paragraphs[i]];
        }
        i := i + 1;
      }
      assert paragraphs[..|paragraphs|] == paragraphs;
      r := Success(Join("\n", text));
    }

    /** The text of a source, by the extractor its kind selects; local
        sources are read under the data directory. */
    method ExtractFromSource(features: Features, backends: Backends, source: Source) returns (content: Result<string, ExtractError>)
      ensures content == ExtractText(features, backends, dataDir, source)
    {
      var kind := ResolveKind(source);
      var path := ResolvePath(source);
      if kind == Some("url") {
        content := UrlResult(features, backends, path);
      } else if path.None? {
        content := Failure(NoPath);
      } else {
        var fullPath := PathJoin(dataDir, path.value);
        if kind == Some("image") {
          content := ImageResult(features, backends, fullPath);
        } else if kind == Some("pdf") {
          content := ExtractFromPdf(features, backends, fullPath);
        } else if kind == Some("docx") {
          content := ExtractFromDocx(features, backends, fullPath);
        } else {
          content := FileResult(backends, fullPath);
        }
      }
    }

    /** The answers of an answer document; the same parse as the
        single-source filler's. */
    method ParseAnswers(content: string) returns (parsed: map<string, string>)
      ensures parsed == ParseAnswerDoc(content)
    {
      parsed := FillAnswers.ExtractAnswers(content);
    }

    /** Merge the answers of source `i` into those of the sources before
        it; a source that cannot be read adds nothing. */
    method LoadSource(features: Features, backends: Backends, sources: seq<Source>, i: nat, merged: map<string, string>)
      returns (updated: map<string, string>)
      requires i < |sources|
      requires merged == LoadedUpTo(features, backends, dataDir, sources, i)
      ensures updated == LoadedUpTo(features, backends, dataDir, sources, i + 1)
    {
      updated := merged;
      var content := ExtractFromSource(features, backends, sources[i]);
      if content.Success? {
        var found := ParseAnswers(content.value);
        updated := merged + found;
      }
    }

    /** The answers of all sources, merged in order; a source that cannot
        be read is skipped. */
    method LoadAnswersFromSources(features: Features, backends: Backends, sources: seq<Source>)
      returns (allAnswers: map<string, string>)
      ensures allAnswers == LoadedAnswers(features, backends, dataDir, sources)
    {
      allAnswers := map[];
      var i := 0;
      while i < |sources|
        invariant 0 <= i <= |sources|
        invariant allAnswers == LoadedUpTo(features, backends, dataDir, sources, i)
      {
        allAnswers := LoadSource(features, backends, sources, i, allAnswers);
        i := i + 1;
      }
    }

    /** The filled template and the number of answers given; the same fill
        as the single-source filler's. */
    method FillQuestions(questions: string, answers: map<string, string>) returns (output: string, count: nat)
      ensures output == FillDoc(questions, answers)
      ensures count == |answers|
    {
      output, count := FillAnswers.FillQuestions(questions, answers);
    }
  }

  /** A run of the filler with the default data directory: the template is
      filled, and the number of answers reported, only when some answer was
      loaded; otherwise there is no output. */
  method FillFromSources(features: Features, backends: Backends, sources: seq<Source>, questions: string)
    returns (filled: Option<(string, nat)>)
    ensures LoadedAnswers(features, backends, DefaultDataDir, sources) == map[] ==> filled.None?
    ensures LoadedAnswers(features, backends, DefaultDataDir, sources) != map[] ==>
      filled == Some((FillDoc(questions, LoadedAnswers(features, backends, DefaultDataDir, sources)),
                      |LoadedAnswers(features, backends, DefaultDataDir, sources)|))
  {
    var extractor := new AnswerExtractor(DefaultDataDir);
    var answers := extractor.LoadAnswersFromSources(features, backends, sources);
    if answers != map[] {
      var output, count := extractor.FillQuestions(questions, answers);
      filled := Some((output, count));
    } else {
      filled := None;
    }
  }
}

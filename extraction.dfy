/** What the extractors share: the optional libraries that may be missing,
    the backends that do the reading (files, web pages, OCR, PDF pages, DOCX
    paragraphs), the ways an extraction can fail, and the pure text tails
    that turn a backend's output into the extracted text. */
module Extraction {
  import opened Outcomes
  import opened PyText

  /** Which optional libraries imported: OCR (Pillow and pytesseract), web
      scraping (requests and BeautifulSoup), PDF (PyPDF2) and DOCX
      (python-docx). */
  datatype Features = Features(ocr: bool, web: bool, pdf: bool, docx: bool)

  /** The backends, each a function of what it reads: the text of a file,
      the visible text of a web page once the extractor's unwanted elements
      are dropped (script and style in both programs; navigation, footer and
      header too in the multi-source filler), the OCR text of an image, the
      text of each page of a PDF and the text of each paragraph of a DOCX
      document.  Each may fail with a message. */
  datatype Backends = Backends(
    readFile: string -> Result<string, string>,
    pageText: string -> Result<string, string>,
    imageText: string -> Result<string, string>,
    pdfPages: string -> Result<seq<string>, string>,
    docxParagraphs: string -> Result<seq<string>, string>)

  /** Why an extraction failed: the library it needs is missing (with the
      message raised), the backend failed, or a source specification has no
      path to read. */
  datatype ExtractError = Unavailable(message: string) | BackendFailed(message: string) | NoPath

  /** A backend's outcome with `tail` applied to what it read; a failure
      message of the backend becomes a `BackendFailed` error. */
  function Finish<T>(read: Result<T, string>, tail: T -> string): (r: Result<string, ExtractError>)
    ensures r.Success? <==> read.Success?
    ensures read.Success? ==> r.value == tail(read.value)
    ensures read.Failure? ==> r.error == BackendFailed(read.error)
  {
    match read
    case Success(x) => Success(tail(x))
    case Failure(message) => Failure(BackendFailed(message))
  }

  /** The text as read, unchanged. */
  function AsRead(text: string): string
  {
    text
  }

  /** The chunks one line of page text contributes: the stripped line is
      split on two spaces and every phrase is stripped; empty phrases are
      dropped. */
  function LineChunks(line: string): seq<string>
  {
    Kept(Split(Strip(line), "  "))
  }

  /** The chunks of every line, in order. */
  function ChunksOfLines(lines: seq<string>): seq<string>
  {
    if lines == [] then [] else LineChunks(lines[0]) + ChunksOfLines(lines[1..])
  }

  /** The chunks of a page's text, line by line. */
  function PageChunks(text: string): seq<string>
  {
    ChunksOfLines(Split(text, "\n"))
  }

  /** The cleaned-up text of a web page: its chunks, one per line. */
  function CleanPageText(text: string): string
  {
    Join("\n", PageChunks(text))
  }

  /** A chunk is not empty, has no whitespace at either end, and holds
      neither a newline nor two spaces in a row. */
  predicate IsChunk(c: string) {
    c != "" && IsStripped(c) && !Contains(c, "\n") && !Contains(c, "  ")
  }

  lemma LineChunksAreChunks(line: string)
    requires !Contains(line, "\n")
    ensures forall c | c in LineChunks(line) :: IsChunk(c)
  {
    var phrases := Split(Strip(line), "  ");
    StripKeepsAbsence(line, "\n");
    SplitKeepsAbsence(Strip(line), "  ", "\n");
    KeptKeepsAbsence(phrases, |phrases|, "\n");
    KeptKeepsAbsence(phrases, |phrases|, "  ");
    KeptAreStripped(phrases, |phrases|);
  }

  lemma {:induction false} ChunksOfLinesAreChunks(lines: seq<string>)
    requires forall l | l in lines :: !Contains(l, "\n")
    ensures forall c | c in ChunksOfLines(lines) :: IsChunk(c)
  {
    if lines != [] {
      assert lines[0] in lines;
      LineChunksAreChunks(lines[0]);
      assert forall l | l in lines[1..] :: l in lines;
      ChunksOfLinesAreChunks(lines[1..]);
    }
  }

  /** Every chunk of a page is a proper chunk. */
  lemma PageChunksAreChunks(text: string)
    ensures forall c | c in PageChunks(text) :: IsChunk(c)
  {
    ChunksOfLinesAreChunks(Split(text, "\n"));
  }

  /** The cleaned-up text gives its chunks back when split into lines: no
      line of it is empty, has whitespace at an end, or holds two spaces in
      a row.  A page without chunks cleans up to the empty text. */
  lemma CleanPageTextLines(text: string)
    ensures PageChunks(text) == [] ==> CleanPageText(text) == ""
    ensures PageChunks(text) != [] ==> Split(CleanPageText(text), "\n") == PageChunks(text)
    ensures forall line | line in Split(CleanPageText(text), "\n") :: PageChunks(text) != [] ==> IsChunk(line)
  {
    PageChunksAreChunks(text);
    if PageChunks(text) != [] {
      SplitJoin("\n", PageChunks(text));
    }
  }

  /** The text of a PDF: the text of its pages, in page order, one after the
      other with a newline between two pages. */
  function PdfText(pages: seq<string>): string
  {
    Join("\n", pages)
  }

  /** Pages without newlines come back from the PDF text when it is split
      into lines: nothing is dropped, added or reordered. */
  lemma PdfTextPages(pages: seq<string>)
    requires |pages| >= 1 && forall p | p in pages :: !Contains(p, "\n")
    ensures Split(PdfText(pages), "\n") == pages
  {
    SplitJoin("\n", pages);
  }

  predicate IsBlank(paragraph: string) {
    Strip(paragraph) == ""
  }

  /** The paragraphs that are not blank, in order and as they are (not
      stripped). */
  function NonBlank(paragraphs: seq<string>): (r: seq<string>)
    ensures |r| <= |paragraphs|
    ensures forall p | p in r :: p in paragraphs && !IsBlank(p)
  {
    if paragraphs == [] then []
    else (if IsBlank(paragraphs[0]) then [] else [paragraphs[0]]) + NonBlank(paragraphs[1..])
  }

  /** Filtering one more paragraph keeps it after the others exactly when
      it is not blank. */
  lemma {:induction false} NonBlankSnoc(paragraphs: seq<string>, p: string)
    ensures NonBlank(paragraphs + [p]) == NonBlank(paragraphs) + (if IsBlank(p) then [] else [p])
  {
    if paragraphs == [] {
      assert [] + [p] == [p];
      assert [p][1..] == [];
    } else {
      var first := paragraphs[0];
      assert (paragraphs + [p])[0] == first;
      assert (paragraphs + [p])[1..] == paragraphs[1..] + [p];
      NonBlankSnoc(paragraphs[1..], p);
    }
  }

  /** Exactly the paragraphs that are not blank are kept. */
  lemma {:induction false} NonBlankKeeps(paragraphs: seq<string>, p: string)
    ensures p in NonBlank(paragraphs) <==> p in paragraphs && !IsBlank(p)
  {
    if paragraphs != [] {
      NonBlankKeeps(paragraphs[1..], p);
      if p in paragraphs && !IsBlank(p) && p != paragraphs[0] {
        var i :| 0 <= i < |paragraphs| && paragraphs[i] == p;
        assert paragraphs[1..][i - 1] == p;
      }
    }
  }

  /** Dropping the blank paragraphs twice drops no more than once. */
  lemma {:induction false} NonBlankIdempotent(paragraphs: seq<string>)
    ensures NonBlank(NonBlank(paragraphs)) == NonBlank(paragraphs)
  {
    if paragraphs != [] {
      var first := paragraphs[0];
      var rest := NonBlank(paragraphs[1..]);
      NonBlankIdempotent(paragraphs[1..]);
      if IsBlank(first) {
        assert NonBlank(paragraphs) == rest by {
          assert [] + rest == rest;
        }
      } else {
        var kept := [first] + rest;
        assert kept[0] == first && kept[1..] == rest;
        assert NonBlank(kept) == [first] + NonBlank(rest);
      }
    }
  }

  /** Nothing is dropped when no paragraph is blank. */
  lemma {:induction false} NonBlankAll(paragraphs: seq<string>)
    requires forall p | p in paragraphs :: !IsBlank(p)
    ensures NonBlank(paragraphs) == paragraphs
  {
    if paragraphs != [] {
      var first, rest := paragraphs[0], paragraphs[1..];
      assert !IsBlank(first) by {
        assert first in paragraphs;
      }
      assert NonBlank(rest) == rest by {
        assert forall p | p in rest :: p in paragraphs;
        NonBlankAll(rest);
      }
      assert paragraphs == [first] + rest;
    }
  }

  /** The text of a DOCX document when blank paragraphs are dropped. */
  function DocxTextNonBlank(paragraphs: seq<string>): string
  {
    Join("\n", NonBlank(paragraphs))
  }

  /** The text of a DOCX document when every paragraph is kept. */
  function DocxTextAll(paragraphs: seq<string>): string
  {
    Join("\n", paragraphs)
  }

  /** The two DOCX joins agree when no paragraph is blank, and differ on a
      document with a blank paragraph: `["a", ""]` gives `"a\n"` when every
      paragraph is kept and `"a"` when blank ones are dropped. */
  lemma DocxJoinsCompared(paragraphs: seq<string>)
    ensures (forall p | p in paragraphs :: !IsBlank(p)) ==> DocxTextNonBlank(paragraphs) == DocxTextAll(paragraphs)
    ensures DocxTextAll(["a", ""]) == "a\n" && DocxTextNonBlank(["a", ""]) == "a"
  {
    if forall p | p in paragraphs :: !IsBlank(p) {
      NonBlankAll(paragraphs);
    }
    assert IsBlank("");
    assert !IsBlank("a");
    assert NonBlank(["a", ""]) == ["a"] by {
      assert ["a", ""][1..] == [""];
      assert NonBlank([""]) == [] by {
        assert [""][1..] == [];
      }
    }
  }
}

# Answer extraction and template filling, in Dafny

This project models the core of a small question/answer pipeline.

An *answer document* is Markdown cut into sections by `---`. Each answer
section carries a heading `## A<digits>. <title>` and the answer text
below it. A *question template* is cut the same way. Each question
section carries a heading `## Q<digits>.` and the placeholder
`<!-- TO BE FILLED -->`.

The pipeline has three programs:

- **The single-source filler** (`fill_answers.py`). It parses one answer
  document into a map from `Q<digits>` to the answer text. It then fills the
  template: in every question section whose key has an answer, every
  placeholder is replaced by that answer. The sections are joined again with
  `\n\n---\n\n`.
- **The multi-source filler** (`fill_answers_advanced.py`). Its class
  `AnswerExtractor` reads answer sources of several kinds: text files, web
  pages, images through OCR, PDFs and DOCX documents. Local sources are read
  under a data directory. Each source's text is parsed as above, the maps are
  merged in order, and the template is filled with the result. A source that
  cannot be read is skipped.
- **The server's extraction helpers** (`advanced_mcp.py`). They include:
  - a file-type table and the question of which types the server can read;
  - the capabilities the server reports;
  - a second, regex-based answer parser, which looks for the headings
    `## A<digits>.` and does not cut at `---`;
  - the `/extract-answers` loop, which records one outcome per source.

Python's text operations are modelled in `PyText` and `PyPath`:

- `split` on a separator, leftmost and without overlap;
- `join`;
- `strip`, with Python's whitespace set;
- `replace`, as the join of the split;
- `find`;
- the pathlib suffix;
- `os.path.join`.

The optional libraries become the `Features` flags. The readers (file, web
page, OCR, PDF pages, DOCX paragraphs) become the function-valued fields of
`Backends`, each returning a text or a failure message. A Python exception
raised by an extractor becomes a `Failure` with an `ExtractError`.

The files:

- Shared Python semantics: `outcomes.dfy`, `py_text.dfy`, `py_path.dfy`,
  `headings.dfy`.
- The single-source filler: `answer_doc.dfy` holds the specifying functions,
  and `fill_answers.dfy` the imperative code. `parse_props.dfy`,
  `answer_doc_props.dfy` and `fill_props.dfy` hold their properties.
- The multi-source filler: `extraction.dfy`, `sources.dfy`, `merge.dfy`,
  `fill_answers_advanced.dfy`.
- The server: `mcp_parse.dfy` and `mcp_props.dfy` hold the regex parser and
  its properties. `mcp_formats.dfy` holds the file types and capabilities, and
  `advanced_mcp.dfy` the extraction loop.

Behaviour of the code worth knowing:

- Both fillers split documents and templates on every `---`, wherever it
  occurs, including inside a line.
- Filling uses `str.replace`, so it replaces **every** placeholder of a
  section.
- Both fillers return the number of answers given, not the number of
  sections filled.
- An answer heading needs at least one character after its dot, because of
  `.+`. A bare `## A3.` at the end of a line is not a heading.
- The answer body is stripped of all surrounding whitespace.
- When no source yields an answer, the multi-source filler writes nothing.
- A failure carries whatever message the extractor or its backend raises.
- Filling can leave a placeholder in a section whose answer does not hold
  one. `FillProps.PlaceholderCanReform` shows an empty answer that glues
  `<!-- TO BE` + placeholder + ` FILLED -->` back into a placeholder.
  `FillProps.FilledSectionShape` states what a filled section is made of.

## Model

| member | source | states |
|---|---|---|
| `PyText.Split` | fill_answers.py:16 | No piece that `str.split` gives holds the separator. |
| `PyText.JoinSplit` | fill_answers.py:16 | Joining the pieces of a split with the separator gives the text back. |
| `PyText.SplitJoin` | fill_answers_advanced.py:97 | For a one-character separator that no piece holds, splitting the join gives the pieces back. |
| `PyText.Replace` | fill_answers.py:64 | `str.replace` leaves a text without the pattern unchanged, and so does a replacement equal to the pattern. |
| `PyText.Strip` | fill_answers.py:19 | The stripped text is empty or starts and ends with a non-space character. |
| `PyText.StripIsSlice` | fill_answers.py:37 | A stripped text is a slice of the original with only whitespace cut off at either end. |
| `PyText.StripIdempotent` | fill_answers.py:54 | Stripping twice is stripping once. |
| `PyText.KeptAreStripped` | fill_answers.py:53-56 | The pieces the fillers keep are non-empty and stripped. |
| `PyPath.Suffix` | fill_answers_advanced.py:126 | The pathlib suffix is empty, or a dot followed by at least one character and no other dot. |
| `PyPath.Lower` | fill_answers_advanced.py:126 | Lower-casing keeps the length and maps each character on its own. |
| `PyPath.PathJoinShape` | fill_answers_advanced.py:142 | `os.path.join` returns an absolute second part as it is; otherwise the result starts with the base and ends with the part. |
| `Headings.DigitRun` | fill_answers.py:24 | The digit run found is maximal: digits up to a non-digit or the end. |
| `Headings.HeadingAt` | fill_answers.py:24 | A match of `## (A\d+)\..+` or `## (Q\d+)\.` at an index captures a non-empty run of digits. |
| `Headings.SearchHeadingFrom` | fill_answers.py:24 | `re.search` finds the leftmost index where the heading pattern matches; when it finds none, the pattern matches nowhere. |
| `Headings.HeadingAtIff` | fill_answers.py:59 | The heading matches at an index with capture `d` exactly when `## <tag><d>.` occurs there and `d` is all digits. |
| `Headings.HeadingAtTail` | fill_answers.py:24 | With `.+`, the answer heading matches exactly where it matches without it and the next character exists and is not a newline. |
| `AnswerDoc.FirstHeadingLine` | fill_answers.py:31-35 | The scan stops at the first line starting with `##`; no earlier line does; none found means no line does. |
| `AnswerDoc.AnswerLinesCases` | fill_answers.py:30-35 | With no line starting with `##` there are no answer lines. When line `i` is the first that starts with `##`, the answer lines are all the lines after it. |
| `AnswerDoc.SectionEntry` | fill_answers.py:18-40 | A piece has an entry exactly when it is non-empty once stripped, lacks the banner and has an answer heading with text. The key is `Q` plus the heading's digits; the body is the stripped answer lines. |
| `AnswerDoc.AddEntry` | fill_answers.py:40 | Storing an entry sets its key to its body and leaves every other key as it was. |
| `AnswerDoc.QuestionKey` | fill_answers.py:59-61 | A question section's key is `Q` followed by digits. |
| `AnswerDoc.QuestionKeyFirstHeading` | fill_answers.py:59-61 | A section has a key exactly when `## (Q\d+)\.` matches somewhere in it. The key is `Q` plus the digits of the leftmost such match. |
| `AnswerDoc.Emitted` | fill_answers.py:53-56 | A template piece emits one section when it is non-empty once stripped, and none otherwise. |
| `FillAnswers.LinesAfterHeading` | fill_answers.py:28-35 | The loop returns the answer lines: those after the first `##` line, or none. |
| `FillAnswers.StoreSection` | fill_answers.py:18-40 | Storing one piece adds that piece's entry, or nothing, to the map. |
| `FillAnswers.ExtractAnswers` | fill_answers.py:9-42 | The loop builds the answer map of the document, whose keys, winners and bodies are characterised in `ParseProps`. |
| `FillAnswers.FillOne` | fill_answers.py:58-69 | One section is filled as `FillSection` says, whose cases are proved in `FillProps`. |
| `FillAnswers.EmitSection` | fill_answers.py:53-69 | A piece contributes its filled stripped text, or nothing when it is blank. |
| `FillAnswers.FillQuestions` | fill_answers.py:44-78 | The output is the filled document, and the count is the number of answers given. |
| `ParseProps.ParseSectionsKeys` | fill_answers.py:18-40 | A key is in the parsed map exactly when some piece gives an entry under it. |
| `ParseProps.ParseSectionsLastWins` | fill_answers.py:40 | The body stored under a key is that of the last piece with that key. |
| `ParseProps.ParseSectionsBodies` | fill_answers.py:37-40 | Every stored body is the body of some piece's entry under that key. |
| `ParseProps.ParseAnswerDocKeys` | fill_answers.py:16-40 | A key is in a document's map exactly when one of its `---` pieces gives an entry under it. |
| `ParseProps.ParseAnswerDocKeyShape` | fill_answers.py:24-39 | Every key is `Q` followed by digits, and those digits are what `## (A\d+)\..+` captures at some index of some stripped `---` piece of the document. |
| `ParseProps.AnswerTextIsSuffix` | fill_answers.py:28-37 | The joined answer lines are a suffix of the section. |
| `ParseProps.AnswerBodyKeepsAbsence` | fill_answers.py:37 | An answer body holds no text that its section does not hold. |
| `ParseProps.SectionEntryKeepsAbsence` | fill_answers.py:18-40 | A piece's entry holds no text that the piece does not hold. |
| `ParseProps.ParseSectionsKeepAbsence` | fill_answers.py:18-40 | When no entry body holds a text, no stored body does. |
| `ParseProps.BodiesLackSeparator` | fill_answers.py:16-40 | No answer body ever holds `---`. |
| `AnswerDocProps.FilledSectionsLength` | fill_answers.py:53-69 | The filler emits one section per non-blank piece. |
| `AnswerDocProps.FilledSectionsPointwise` | fill_answers.py:53-69 | The i-th emitted section is the i-th non-blank stripped piece, filled on its own. |
| `AnswerDocProps.FilledSectionsUnchanged` | fill_answers.py:53-69 | When filling changes no section, the filler emits the stripped non-blank pieces. |
| `AnswerDocProps.NoAnswersLeaveSections` | fill_answers.py:62-69 | With no answers, every section is left as it is. |
| `AnswerDocProps.KeptOfJoined` | fill_answers.py:50-72 | Splitting the joined output on `---` and keeping the non-blank stripped pieces gives the sections back, when none holds `---`. |
| `AnswerDocProps.FillDocNormalises` | fill_answers.py:44-72 | With no answers, the output is the non-blank stripped pieces joined by `\n\n---\n\n`, and filling it again changes nothing. |
| `FillProps.FillSectionUntouched` | fill_answers.py:58-69 | A section changes only when it has a question heading, holds the placeholder and its key has an answer. |
| `FillProps.FillSectionReadsOwnKey` | fill_answers.py:61-64 | Filling a section reads only the answer under its own key. |
| `FillProps.FilledSectionShape` | fill_answers.py:64 | A filled section is the placeholder-free pieces of the section, which give the section back when joined by the placeholder, joined by the answer instead. |
| `FillProps.PlaceholderCanReform` | fill_answers.py:64 | An answer without the placeholder can still leave a placeholder in the filled section. |
| `Extraction.LineChunksAreChunks` | fill_answers_advanced.py:71 | Every chunk of a line without newlines is non-empty, stripped, and holds neither a newline nor two spaces in a row. |
| `Extraction.ChunksOfLinesAreChunks` | fill_answers_advanced.py:70-71 | The chunks of lines without newlines are proper chunks. |
| `Extraction.PageChunksAreChunks` | fill_answers_advanced.py:69-71 | Every chunk of a page's text is a proper chunk. |
| `Extraction.CleanPageTextLines` | fill_answers_advanced.py:70-72 | The cleaned-up page text splits back into its chunks, so no output line is empty, padded or holds two spaces in a row. |
| `Extraction.PdfTextPages` | fill_answers_advanced.py:89-97 | Pages without newlines come back, in order, when the PDF text is split into lines. |
| `Extraction.NonBlank` | fill_answers_advanced.py:106-109 | The kept paragraphs are some of the paragraphs, and none of them is blank. |
| `Extraction.NonBlankSnoc` | fill_answers_advanced.py:107-109 | One more paragraph is kept exactly when it is not blank. |
| `Extraction.NonBlankKeeps` | fill_answers_advanced.py:107-109 | A paragraph is kept exactly when it is present and not blank. |
| `Extraction.NonBlankIdempotent` | fill_answers_advanced.py:107-109 | Dropping blank paragraphs twice is dropping them once. |
| `Extraction.NonBlankAll` | fill_answers_advanced.py:107-109 | Without blank paragraphs, nothing is dropped. |
| `Extraction.DocxJoinsCompared` | advanced_mcp.py:265-270 | The server's DOCX text (all paragraphs) and the filler's (non-blank ones) agree without blank paragraphs, and differ on one with a blank paragraph. |
| `Sources.ResolveKindCases` | fill_answers_advanced.py:116-136 | A URL locator is `url`. Any other locator is `pdf`, `docx` or `image` exactly for those suffixes, and `file` otherwise, with no suffix included. A specification's kind and path are its own. |
| `Sources.MissingLibraryFails` | fill_answers_advanced.py:54-102 | Each extractor whose library is missing fails with its installation hint. |
| `Sources.DispatchArguments` | fill_answers_advanced.py:138-152 | A `url` source reaches its backend unchanged, and every other kind gets the data directory joined with its path. A non-`url` specification without a path fails. |
| `Sources.DataDirectoryIgnored` | fill_answers_advanced.py:139-152 | A URL source, or an absolute path, is read the same whatever the data directory. |
| `Merge.MergeKeys` | fill_answers_advanced.py:187-206 | A key is merged exactly when some readable source provides it. |
| `Merge.MergeLastWins` | fill_answers_advanced.py:200 | The merged answer under a key is that of the last readable source providing it. |
| `Merge.MergeSkipsFailureUpTo` | fill_answers_advanced.py:195-204 | An unreadable source changes no prefix of the merge. |
| `Merge.MergeSkipsFailure` | fill_answers_advanced.py:195-204 | Merging with an unreadable source equals merging without it. |
| `FillAnswersAdvanced.LoadedIsMerge` | fill_answers_advanced.py:187-206 | The extractor's loading is the merge of the sources' answer maps, so the `Merge` lemmas apply to it. |
| `FillAnswersAdvanced.AnswerExtractor.constructor` | fill_answers_advanced.py:45-47 | A new extractor keeps its data directory and starts with no answers. |
| `FillAnswersAdvanced.AnswerExtractor.ExtractFromPdf` | fill_answers_advanced.py:83-97 | The page loop yields the PDF text, or the installation hint, or the backend's failure. |
| `FillAnswersAdvanced.AnswerExtractor.ExtractFromDocx` | fill_answers_advanced.py:99-111 | The paragraph loop keeps exactly the non-blank paragraphs, in order. |
| `FillAnswersAdvanced.AnswerExtractor.ExtractFromSource` | fill_answers_advanced.py:113-154 | A source is read by the extractor its resolved kind selects, under the data directory. |
| `FillAnswersAdvanced.AnswerExtractor.ParseAnswers` | fill_answers_advanced.py:156-185 | The multi-source parse is the single-source parse. |
| `FillAnswersAdvanced.AnswerExtractor.LoadSource` | fill_answers_advanced.py:195-204 | One source's answers are merged in, or nothing when it cannot be read. |
| `FillAnswersAdvanced.AnswerExtractor.LoadAnswersFromSources` | fill_answers_advanced.py:187-206 | The loop yields the in-order merge of the readable sources' answers. |
| `FillAnswersAdvanced.AnswerExtractor.FillQuestions` | fill_answers_advanced.py:208-237 | The multi-source fill is the single-source fill, counting the answers given. |
| `FillAnswersAdvanced.FillFromSources` | fill_answers_advanced.py:271-282 | The template is filled, and the answer count reported, exactly when some answer was loaded. |
| `McpParse.MatchEnd` | advanced_mcp.py:280 | The lazy `.+?` stops at the first index where the lookahead `## A<digit>`, or the end of the text, holds. |
| `McpParse.MatchAt` | advanced_mcp.py:280 | A match at an index exists exactly when an answer heading and one more character are there. It ends at the first index after that character where the lookahead holds. |
| `McpParse.NextMatch` | advanced_mcp.py:281 | The search finds the leftmost match from an index, and none starts before it. |
| `McpParse.MatchesFrom` | advanced_mcp.py:281 | `finditer` yields only matches, each resuming where the last ended. |
| `McpParse.MatchTexts` | advanced_mcp.py:283-284 | There is one text per match. |
| `McpParse.McpEntry` | advanced_mcp.py:284-293 | A match text has an entry exactly when it holds an answer heading; its key is `Q` followed by digits. |
| `McpParse.StoreMatch` | advanced_mcp.py:284-293 | One match's entry is stored in the map. |
| `McpParse.MatchTextHeading` | advanced_mcp.py:285 | The heading search on a match's text finds the match's own heading at index 0. |
| `McpParse.MatchTextsHaveHeadings` | advanced_mcp.py:283-285 | Every match text is its slice of the document and has its match's heading. |
| `McpParse.ParseAnswersFromContent` | advanced_mcp.py:273-295 | The loop builds the regex parser's answer map, whose keys, winners and bodies `McpProps` characterises. |
| `McpProps.MatchShape` | advanced_mcp.py:280 | Every match starts with `## A<digits>.`, takes one more character, and ends where the lookahead first holds. No answer heading starts between. |
| `McpProps.MatchesOrdered` | advanced_mcp.py:281 | Matches come in order without overlap, and no match starts in the gap before the first one; with no match, none starts anywhere. |
| `McpProps.MatchesLeaveNoGap` | advanced_mcp.py:281 | No match starts in a gap between two consecutive matches, nor after the last one: `finditer` misses no match that does not overlap an earlier one. |
| `McpProps.RestAfterFirstLine` | advanced_mcp.py:288-289 | `'\n'.join(lines[1:])` is the text after the first newline, or empty for one line. |
| `McpProps.RawAnswerSlice` | advanced_mcp.py:288-289 | A match's text after its first line is a stretch of the document after the heading's dot and the character following it. |
| `McpProps.MatchBodyClean` | advanced_mcp.py:280-289 | A match's answer holds no `## A` followed by a digit. |
| `McpProps.MatchEntries` | advanced_mcp.py:284-293 | Every match's entry is `Q` plus its digits, holding that match's answer. |
| `McpProps.McpKeys` | advanced_mcp.py:283-293 | A key is parsed exactly when it is `Q` plus the digits of some match. |
| `McpProps.McpLastWins` | advanced_mcp.py:293 | The stored answer under a key is the last match's with those digits. |
| `McpProps.McpBodiesClean` | advanced_mcp.py:280-293 | No parsed answer holds `## A` followed by a digit. |
| `McpFormats.FileTypeCases` | advanced_mcp.py:174-190 | Each suffix of the table gives its own type and nothing else does. Anything else gives `unknown`. |
| `McpFormats.NoSuffixUnknown` | advanced_mcp.py:171-190 | A file without suffix is `unknown`. |
| `McpFormats.TypeTablesAgree` | advanced_mcp.py:171-190 | The server's table and the filler's agree on `pdf`, `docx` and `image`, and the filler reads every other type as a file. |
| `McpFormats.IsSupportedFormat` | advanced_mcp.py:193-202 | The list-building check answers true exactly for the text types, and for `pdf`, `docx` or `image` when their library imported. |
| `McpFormats.SupportedDetected` | advanced_mcp.py:193-202 | A file is supported exactly for the text suffixes, or for the PDF, DOCX and image suffixes when their library is present. `doc`, `html` and `unknown` never are. |
| `McpFormats.DocumentsAsWritten` | advanced_mcp.py:162 | The computed `documents` list is `["pdf"]` with PDF support even when DOCX is also present, `["docx"]` with DOCX support alone, and empty otherwise. |
| `McpFormats.DocumentsAsWrittenMissesDocx` | advanced_mcp.py:162 | With both libraries present, the computed list omits `docx` although DOCX is supported. |
| `McpFormats.Documents` | advanced_mcp.py:162 | The intended list holds `pdf` exactly with PDF support and `docx` exactly with DOCX support. |
| `McpFormats.DocumentsAgreeUnlessBoth` | advanced_mcp.py:162 | The intended and the computed lists differ exactly when both libraries are present. |
| `McpFormats.GetCapabilities` | advanced_mcp.py:152-166 | The capabilities with the intended `documents` list (see Findings). They report each library's flag. Image and web formats are listed exactly when OCR and web scraping are available. `documents` is the intended list and `text` is the four text extensions. |
| `McpFormats.GetCapabilitiesAsWritten` | advanced_mcp.py:152-166 | The capabilities as computed equal the intended ones except for the computed `documents` list. They differ exactly when both the PDF and DOCX libraries are present. |
| `McpFormats.TextExtensionTypes` | advanced_mcp.py:163 | The listed text extensions have the types `markdown`, `text`, `json` and `csv`. |
| `McpFormats.DocumentExtensionTypes` | advanced_mcp.py:162 | The listed document extensions have the types `pdf` and `docx`. |
| `McpFormats.ImageExtensionTypes` | advanced_mcp.py:161 | The listed image extensions have the type `image`. |
| `McpFormats.ListedAreSupported` | advanced_mcp.py:160-164 | Every extension listed is one the server supports. |
| `McpFormats.SupportedAreListed` | advanced_mcp.py:160-164 | Every supported type has an extension listed. |
| `AdvancedMcp.MissingLibraryFails` | advanced_mcp.py:211-263 | Each server extractor whose library is missing fails with the server's message. |
| `AdvancedMcp.SourceDispatch` | advanced_mcp.py:123-132 | A `url` source reaches its backend unchanged, every other type gets the root joined with its locator, and an unrecognised type is read as a file. |
| `AdvancedMcp.OutcomeCases` | advanced_mcp.py:134-148 | An outcome carries its source's locator and type. It succeeds exactly when the text was read, with the answers parsed from it, and otherwise carries the error. |
| `AdvancedMcp.OutcomesConcat` | advanced_mcp.py:121-150 | A source's outcome does not depend on the other sources: the outcomes of joined lists are the outcomes of each list, joined. |
| `AdvancedMcp.ExtractFromPdf` | advanced_mcp.py:246-257 | The page loop yields the PDF text, the server's message, or the backend's failure. |
| `AdvancedMcp.ExtractFromDocx` | advanced_mcp.py:260-270 | The paragraph loop keeps every paragraph, blank ones included. |
| `AdvancedMcp.ExtractOne` | advanced_mcp.py:122-148 | One source yields its parsed answers or its error. |
| `AdvancedMcp.ExtractAnswers` | advanced_mcp.py:117-150 | There is exactly one outcome per source, in input order. A failing source does not stop the ones after it. |

## Left out

- File, network, OCR, PDF and DOCX reading are the `Backends` functions.
  The HTML parsing and the removal of script and style elements (and of
  navigation, footer and header in the multi-source filler) are left to the
  page-text backend. The model starts from the text that backend returns.
- The model has no I/O of its own. The answer document and the template are
  string parameters, and the filled document is a result; the output file
  write is not modelled.
- Left out as I/O plumbing:
  - the HTTP routing of the server and its status codes;
  - the `/extract` endpoint, the file listing and serving, and the static
    mount;
  - `argparse` and the JSON configuration of the multi-source filler's `main`;
  - every `print`.
- `FillAnswersAdvanced.FillFromSources` covers `main` from the moment the
  sources are known. The sources (command line, configuration file or the
  default `answers.md`) are its parameter.
- `splitlines` in the web-page clean-up is modelled as a split on `\n`. Other
  line breaks (`\r`, `\r\n`, `\x0b` and the like) are not recognised. A
  trailing newline gives one more, empty, line, which the clean-up drops
  anyway.
- `\d` and `lower()` are restricted to ASCII. The whitespace set of `strip`
  is Python's, but only for the characters Python lists as whitespace.
- `$` under DOTALL without MULTILINE is modelled as the end of the text, or
  a final newline.
- The multi-source filler imports `requests` unconditionally, so it cannot
  start without it. The model has one web flag, for BeautifulSoup.
- The `answers` field of `AnswerExtractor` is set once and never used; it is
  modelled but nothing depends on it.
- `query` in the server's answer sources is carried but ignored, as in the
  code.
- Exceptions other than those the code raises itself become `BackendFailed`
  with the backend's message. A text file that is not UTF-8 is a backend
  failure.
- The OCR text of an image is whatever the backend returns, so the model
  states nothing about it.
- McpFormats.GetCapabilities: uses the intended `documents` list, not the one line 162 computes. The capabilities as computed are `McpFormats.GetCapabilitiesAsWritten`, and the two differ only when both document libraries are present.

## Findings

| source | as written | input that shows it | evidently intended | confidence | as-written member | corrected member |
|---|---|---|---|---|---|---|
| advanced_mcp.py:162 | `["pdf"] if HAS_PDF else [] + ["docx"] if HAS_DOCX else []` parses as `["pdf"] if HAS_PDF else ([] + ["docx"] if HAS_DOCX else [])` | PDF and DOCX libraries both present: the list is `["pdf"]` | `["pdf"]` when PDF is present, followed by `["docx"]` when DOCX is present | high (not executed) | `McpFormats.DocumentsAsWritten`, `McpFormats.DocumentsAsWrittenMissesDocx`, `McpFormats.GetCapabilitiesAsWritten` | `McpFormats.Documents`, `McpFormats.GetCapabilities`, `McpFormats.SupportedAreListed` |

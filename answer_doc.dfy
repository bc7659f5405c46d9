/** The answer-document and question-template conventions, as functions.
    A document is cut into sections at every `---`.  An answer section is
    recognised by a `## A<digits>.` heading with text after it, and its answer
    is every line after its first `##` line; a question section holds a
    `## Q<digits>.` heading and the placeholder `<!-- TO BE FILLED -->`.
    These functions specify the loops in `FillAnswers` and in the class
    `AnswerExtractor`. */
module AnswerDoc {
  import opened Outcomes
  import opened PyText
  import opened Headings

  const Separator := "---"
  /** A section that contains this text is the document's banner, not an answer. */
  const Banner := "# Secure Coding"
  const Placeholder := "<!-- TO BE FILLED -->"
  /** What the filled sections are joined with. */
  const SectionJoiner := "\n\n---\n\n"

  /** The index of the first line that starts with `##`. */
  function FirstHeadingLine(lines: seq<string>): (r: Option<nat>)
    ensures r.Some? ==> r.value < |lines| && StartsWith(lines[r.value], "##")
    ensures r.Some? ==> forall k | 0 <= k < r.value :: !StartsWith(lines[k], "##")
    ensures r.None? ==> forall k | 0 <= k < |lines| :: !StartsWith(lines[k], "##")
  {
    if lines == [] then None
    else if StartsWith(lines[0], "##") then Some(0)
    else match FirstHeadingLine(lines[1..])
      case Some(i) => Some(i + 1)
      case None => None
  }

  /** The lines after the first line that starts with `##`; none when no line
      does. */
  function AnswerLines(lines: seq<string>): (r: seq<string>)
    ensures FirstHeadingLine(lines).None? ==> r == []
    ensures FirstHeadingLine(lines).Some? ==> r == lines[FirstHeadingLine(lines).value + 1..]
  {
    match FirstHeadingLine(lines)
    case Some(i) => lines[i + 1..]
    case None => []
  }

  /** The answer lines, described by the lines themselves: none when no line
      starts with `##`, and everything after line `i` when line `i` is the
      first one that does. */
  lemma AnswerLinesCases(lines: seq<string>, i: nat)
    ensures (forall k | 0 <= k < |lines| :: !StartsWith(lines[k], "##")) ==> AnswerLines(lines) == []
    ensures i < |lines| && StartsWith(lines[i], "##") && (forall k | 0 <= k < i :: !StartsWith(lines[k], "##")) ==>
      AnswerLines(lines) == lines[i + 1..]
  {
    match FirstHeadingLine(lines)
    case None =>
    case Some(f) =>
      if i < |lines| && StartsWith(lines[i], "##") && (forall k | 0 <= k < i :: !StartsWith(lines[k], "##")) {
        assert f <= i by {
          assert StartsWith(lines[f], "##");
        }
        assert i <= f by {
          assert StartsWith(lines[i], "##");
        }
      }
  }

  /** The answer text of a section: its answer lines joined by newlines and
      stripped. */
  function AnswerBody(section: string): string
  {
    Strip(Join("\n", AnswerLines(Split(section, "\n"))))
  }

  /** The entry one `---` piece of an answer document contributes, if any:
      the piece is stripped; an empty piece, a piece holding the banner and a
      piece where `## (A\d+)\..+` does not match contribute nothing. */
  function SectionEntry(piece: string): (r: Option<(string, string)>)
    ensures r.Some? <==>
      Strip(piece) != "" && !Contains(Strip(piece), Banner) && SearchHeading(Strip(piece), AnswerTag, true).Some?
    ensures r.Some? ==> IsQuestionKey(r.value.0)
    ensures r.Some? ==> r.value.0 == [QuestionTag] + SearchHeading(Strip(piece), AnswerTag, true).value.1
    ensures r.Some? ==> r.value.1 == AnswerBody(Strip(piece))
  {
    var section := Strip(piece);
    if section == "" || Contains(section, Banner) then None
    else match SearchHeading(section, AnswerTag, true)
      case None => None
      case Some((_, digits)) =>
        var answerNum := [AnswerTag] + digits;
        assert answerNum[1..] == digits;
        Some(("Q" + answerNum[1..], AnswerBody(section)))
  }

  /** `answers[key] = body` for an entry, nothing for no entry. */
  function AddEntry(m: map<string, string>, entry: Option<(string, string)>): (r: map<string, string>)
    ensures entry.None? ==> r == m
    ensures entry.Some? ==> entry.value.0 in r && r[entry.value.0] == entry.value.1
    ensures entry.Some? ==> forall k | k != entry.value.0 :: (k in r <==> k in m) && (k in m ==> r[k] == m[k])
  {
    match entry
    case None => m
    case Some((key, body)) => m[key := body]
  }

  /** The answer map built from the entries `entry` gives the first `n`
      pieces, in order: each entry is assigned in turn, so a later piece with
      the same key replaces an earlier one. */
  function ParseSections(pieces: seq<string>, n: nat, entry: string -> Option<(string, string)>): map<string, string>
    requires n <= |pieces|
  {
    if n == 0 then map[] else AddEntry(ParseSections(pieces, n - 1, entry), entry(pieces[n - 1]))
  }

  /** The answer map of a whole answer document. */
  function ParseAnswerDoc(content: string): map<string, string>
  {
    var pieces := Split(content, Separator);
    ParseSections(pieces, |pieces|, SectionEntry)
  }

  /** The key of the first `## (Q\d+)\.` match in a question section. */
  function QuestionKey(section: string): (r: Option<string>)
    ensures r.Some? ==> IsQuestionKey(r.value)
  {
    match SearchHeading(section, QuestionTag, false)
    case Some((_, digits)) =>
      var questionNum := [QuestionTag] + digits;
      assert questionNum[1..] == digits;
      Some(questionNum)
    case None => None
  }

  /** A section has a key exactly when `## (Q\d+)\.` matches somewhere in
      it, and the key is `Q` followed by the digits of the leftmost match:
      the heading that decides which answer fills the section. */
  lemma QuestionKeyFirstHeading(section: string)
    ensures QuestionKey(section).Some? <==> exists j: nat :: HeadingAt(section, j, QuestionTag, false).Some?
    ensures QuestionKey(section).Some? ==> exists j: nat ::
      (HeadingAt(section, j, QuestionTag, false) == Some(QuestionKey(section).value[1..]) &&
       forall i: nat | i < j :: HeadingAt(section, i, QuestionTag, false).None?)
  {
    match SearchHeading(section, QuestionTag, false)
    case None =>
    case Some((j, digits)) =>
      assert QuestionKey(section).value[1..] == digits;
      assert HeadingAt(section, j, QuestionTag, false) == Some(digits);
  }

  /** A stripped template section after filling: when it has a question
      heading and the placeholder, and its key has an answer, every
      placeholder becomes that answer; otherwise it is left as it is. */
  function FillSection(section: string, answers: map<string, string>): string
  {
    match QuestionKey(section)
    case Some(key) =>
      if Contains(section, Placeholder) && key in answers
      then Replace(section, Placeholder, answers[key])
      else section
    case None => section
  }

  /** The filling of one section with the given answers, as a function
      value. */
  function Filler(answers: map<string, string>): string -> string
  {
    section => FillSection(section, answers)
  }

  /** What one `---` piece of the template contributes to the output: the
      stripped piece after `fill`, or nothing when it is empty once
      stripped. */
  function Emitted(piece: string, fill: string -> string): (r: seq<string>)
    ensures |r| == |KeepPiece(piece)|
  {
    var kept := KeepPiece(piece);
    if kept == [] then [] else [fill(kept[0])]
  }

  /** The sections the filler emits for the first `n` pieces. */
  function FilledSections(pieces: seq<string>, n: nat, fill: string -> string): seq<string>
    requires n <= |pieces|
  {
    if n == 0 then []
    else FilledSections(pieces, n - 1, fill) + Emitted(pieces[n - 1], fill)
  }

  /** The filled document: the filled sections joined by `SectionJoiner`. */
  function FillDoc(template: string, answers: map<string, string>): string
  {
    var pieces := Split(template, Separator);
    Join(SectionJoiner, FilledSections(pieces, |pieces|, Filler(answers)))
  }
}

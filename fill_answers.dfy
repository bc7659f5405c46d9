/** The single-source filler: read the answers document, collect its
    answers, and fill the question template with them.  The file reads and
    the write of the output become string parameters and results. */
module FillAnswers {
  import opened Outcomes
  import opened PyText
  import opened Headings
  import opened AnswerDoc

  /** The lines after the first line that starts with `##`, found by scanning
      the lines in order. */
  method LinesAfterHeading(lines: seq<string>) returns (answerLines: seq<string>)
    ensures answerLines == AnswerLines(lines)
  {
    answerLines := [];
    var j := 0;
    while j < |lines|
      invariant 0 <= j <= |lines|
      invariant forall k | 0 <= k < j :: !StartsWith(lines[k], "##")
      invariant answerLines == []
    {
      if StartsWith(lines[j], "##") {
        answerLines := lines[j + 1..];
        break;
      }
      j := j + 1;
    }
  }

  /** Store the entry of one `---` piece of the answer document: nothing
      for an empty or banner section or one without an answer heading,
      otherwise the answer text under `Q<digits>`, replacing any earlier
      answer with that key. */
  method StoreSection(answers: map<string, string>, piece: string) returns (updated: map<string, string>)
    ensures updated == AddEntry(answers, SectionEntry(piece))
  {
    updated := answers;
    var section := Strip(piece);
    if section != "" && !Contains(section, Banner) {
      var found := SearchHeading(section, AnswerTag, true);
      if found.Some? {
        var answerNum := [AnswerTag] + found.value.1;
        var answerLines := LinesAfterHeading(Split(section, "\n"));
        var answerText := Strip(Join("\n", answerLines));
        assert answerNum[1..] == found.value.1;
        var questionNum := "Q" + answerNum[1..];
        updated := answers[questionNum := answerText];
      }
    }
  }

  /** Collect the answers of an answer document: split it on `---` and store
      the entry of every section that has one, a later section overwriting
      an earlier one with the same key. */
  method ExtractAnswers(content: string) returns (answers: map<string, string>)
    ensures answers == ParseAnswerDoc(content)
  {
    answers := map[];
    var sections := Split(content, Separator);
    var i := 0;
    while i < |sections|
      invariant 0 <= i <= |sections|
      invariant answers == ParseSections(sections, i, SectionEntry)
    {
      answers := StoreSection(answers, sections[i]);
      i := i + 1;
    }
  }

  /** One stripped, non-empty template section after filling: the
      placeholder is replaced everywhere when the section has a question
      heading, holds the placeholder and its key has an answer. */
  method FillOne(section: string, answers: map<string, string>) returns (filled: string)
    ensures filled == FillSection(section, answers)
  {
    filled := section;
    var found := SearchHeading(section, QuestionTag, false);
    if found.Some? && Contains(section, Placeholder) {
      var questionNum := [QuestionTag] + found.value.1;
      assert QuestionKey(section) == Some(questionNum);
      if questionNum in answers {
        filled := Replace(section, Placeholder, answers[questionNum]);
      }
    }
  }

  /** Append what one `---` piece of the template contributes: nothing when
      it is empty once stripped, otherwise its stripped text, filled. */
  method EmitSection(filledSections: seq<string>, piece: string, answers: map<string, string>)
    returns (updated: seq<string>)
    ensures updated == filledSections + Emitted(piece, Filler(answers))
  {
    updated := filledSections;
    var section := Strip(piece);
    if section != "" {
      var filled := FillOne(section, answers);
      updated := filledSections + [filled];
    }
  }

  /** Fill a question template: split it on `---`, drop the pieces that are
      empty once stripped, fill every remaining section, and join the
      sections with `SectionJoiner`.  The count returned is the number of
      answers given, not the number of sections filled. */
  method FillQuestions(questions: string, answers: map<string, string>) returns (output: string, count: nat)
    ensures output == FillDoc(questions, answers)
    ensures count == |answers|
  {
    var sections := Split(questions, Separator);
    var filledSections: seq<string> := [];
    var i := 0;
    while i < |sections|
      invariant 0 <= i <= |sections|
      invariant filledSections == FilledSections(sections, i, Filler(answers))
    {
      filledSections := EmitSection(filledSections, sections[i], answers);
      i := i + 1;
    }
    output := Join(SectionJoiner, filledSections);
    count := |answers|;
  }
}

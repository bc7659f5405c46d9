/** What filling one template section guarantees: which sections are left as
    they are, what a filled section is made of, and that the placeholder can
    come back after filling. */
module FillProps {
  import opened Outcomes
  import opened PyText
  import opened Headings
  import opened AnswerDoc

  /** A section is filled only when it has a question heading, holds the
      placeholder and its key has an answer; every other section is left as
      it is, headings and placeholder included. */
  lemma FillSectionUntouched(section: string, answers: map<string, string>)
    ensures FillSection(section, answers) != section ==>
      QuestionKey(section).Some? && Contains(section, Placeholder) && QuestionKey(section).value in answers
    ensures QuestionKey(section).None? ==> FillSection(section, answers) == section
    ensures !Contains(section, Placeholder) ==> FillSection(section, answers) == section
    ensures QuestionKey(section).Some? && QuestionKey(section).value !in answers ==> FillSection(section, answers) == section
  {
  }

  /** Filling reads only the answer under the section's own key: two answer
      maps that agree on that key fill the section alike. */
  lemma FillSectionReadsOwnKey(section: string, a1: map<string, string>, a2: map<string, string>)
    requires QuestionKey(section).Some? ==>
      (QuestionKey(section).value in a1 <==> QuestionKey(section).value in a2) &&
      (QuestionKey(section).value in a1 ==> a1[QuestionKey(section).value] == a2[QuestionKey(section).value])
    ensures FillSection(section, a1) == FillSection(section, a2)
  {
  }

  /** A filled section is made of the pieces the placeholder cuts the section
      into, none of which holds the placeholder, and which give the section
      back when joined by the placeholder: in the output they are joined by
      the answer instead, so every occurrence of the placeholder, leftmost
      first and without overlap, is replaced. */
  lemma FilledSectionShape(section: string, answers: map<string, string>)
    requires QuestionKey(section).Some? && QuestionKey(section).value in answers
    requires Contains(section, Placeholder)
    ensures FillSection(section, answers) == Join(answers[QuestionKey(section).value], Split(section, Placeholder))
    ensures Join(Placeholder, Split(section, Placeholder)) == section
    ensures forall p | p in Split(section, Placeholder) :: !Contains(p, Placeholder)
    ensures |Split(section, Placeholder)| >= 2
  {
    JoinSplit(section, Placeholder);
    var i := Find(section, Placeholder).value;
    assert Split(section, Placeholder) == [section[..i]] + Split(section[i + |Placeholder|..], Placeholder);
  }

  /** The text in front of the placeholder in the example below. */
  const ReformFront := "## Q1. <!-- TO BE"
  /** The text after the placeholder in the example below. */
  const ReformBack := " FILLED -->"

  lemma ReformKey()
    ensures QuestionKey(ReformFront + Placeholder + ReformBack) == Some("Q1")
  {
    var section := ReformFront + Placeholder + ReformBack;
    assert HeadingAt(section, 0, QuestionTag, false) == Some("1") by {
      assert section[0..4] == "## Q";
      assert DigitRun(section, 4) == 1 by {
        DigitRunOf(section, 4, 1);
      }
      assert section[4..5] == "1";
    }
    assert SearchHeading(section, QuestionTag, false) == Some((0, "1"));
    assert [QuestionTag] + "1" == "Q1";
  }

  lemma ReformSplit()
    ensures Split(ReformFront + Placeholder + ReformBack, Placeholder) == [ReformFront, ReformBack]
  {
    var section := ReformFront + Placeholder + ReformBack;
    forall j | 0 <= j < |ReformFront|
      ensures !OccursAt(section, Placeholder, j)
    {
      if j + |Placeholder| <= |section| {
        if j == 7 {
          assert section[17] == '<';
          assert section[j..j + |Placeholder|][10] == section[17];
        } else {
          assert section[j..j + |Placeholder|][0] == section[j] != '<';
        }
      }
    }
    SplitAtFirst(ReformFront, Placeholder, ReformBack);
    assert Find(ReformBack, Placeholder).None?;
  }

  /** `b` occurs in `a + b + c` right after `a`. */
  lemma OccursInMiddle(a: string, b: string, c: string)
    ensures OccursAt(a + b + c, b, |a|)
  {
    assert (a + b + c)[|a|..|a| + |b|] == b;
  }

  lemma ReformFilled()
    ensures Replace(ReformFront + Placeholder + ReformBack, Placeholder, "") == ReformFront + ReformBack
  {
    ReformSplit();
    assert Join("", [ReformFront, ReformBack]) == ReformFront + ReformBack;
  }

  lemma ReformFilledHasPlaceholder()
    ensures Contains(ReformFront + ReformBack, Placeholder)
  {
    var heading := "## Q1. ";
    assert ReformFront + ReformBack == heading + Placeholder + [];
    OccursInMiddle(heading, Placeholder, []);
    ContainsAt(ReformFront + ReformBack, Placeholder, |heading|);
  }

  /** The placeholder can be back in a filled section even though the answer
      does not hold it: an empty answer glues together the text on the two
      sides of the placeholder, and here they spell the placeholder again. */
  lemma PlaceholderCanReform()
    ensures var section := ReformFront + Placeholder + ReformBack;
            var answers := map["Q1" := ""];
            QuestionKey(section) == Some("Q1") && "Q1" in answers && !Contains(answers["Q1"], Placeholder) &&
            Contains(section, Placeholder) && Contains(FillSection(section, answers), Placeholder)
  {
    var section := ReformFront + Placeholder + ReformBack;
    ReformKey();
    OccursInMiddle(ReformFront, Placeholder, ReformBack);
    ContainsAt(section, Placeholder, |ReformFront|);
    ReformFilled();
    ReformFilledHasPlaceholder();
    assert Find("", Placeholder).None?;
  }
}

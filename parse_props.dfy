/** What parsing an answer document guarantees: which keys it produces, which
    section wins a key, and that no answer body holds the `---` separator. */
module ParseProps {
  import opened Outcomes
  import opened PyText
  import opened Headings
  import opened AnswerDoc

  /** Piece `i` gives an entry under key `k`. */
  predicate HasEntry(pieces: seq<string>, i: nat, entry: string -> Option<(string, string)>, k: string)
    requires i < |pieces|
  {
    entry(pieces[i]).Some? && entry(pieces[i]).value.0 == k
  }

  /** One of the first `n` pieces gives an entry under key `k`. */
  predicate SomeEntry(pieces: seq<string>, n: nat, entry: string -> Option<(string, string)>, k: string)
    requires n <= |pieces|
  {
    exists i | 0 <= i < n :: HasEntry(pieces, i, entry, k)
  }

  /** A key is in the parsed map exactly when one of the pieces parsed so far
      gives an entry under it. */
  lemma {:induction false} ParseSectionsKeys(pieces: seq<string>, n: nat, entry: string -> Option<(string, string)>, k: string)
    requires n <= |pieces|
    ensures k in ParseSections(pieces, n, entry) <==> SomeEntry(pieces, n, entry, k)
  {
    if n > 0 {
      ParseSectionsKeys(pieces, n - 1, entry, k);
      if HasEntry(pieces, n - 1, entry, k) {
        assert k in ParseSections(pieces, n, entry);
      } else if k in ParseSections(pieces, n, entry) {
        var i :| 0 <= i < n - 1 && HasEntry(pieces, i, entry, k);
      } else {
        forall i | 0 <= i < n
          ensures !HasEntry(pieces, i, entry, k)
        {
          if i < n - 1 {
            assert !(k in ParseSections(pieces, n - 1, entry));
          }
        }
      }
    }
  }

  /** Last write wins: the body stored under a key is the one of the last
      piece that gives an entry under that key. */
  lemma {:induction false} ParseSectionsLastWins(pieces: seq<string>, n: nat, entry: string -> Option<(string, string)>, i: nat)
    requires i < n <= |pieces|
    requires entry(pieces[i]).Some?
    requires forall j | i < j < n :: !HasEntry(pieces, j, entry, entry(pieces[i]).value.0)
    ensures entry(pieces[i]).value.0 in ParseSections(pieces, n, entry)
    ensures ParseSections(pieces, n, entry)[entry(pieces[i]).value.0] == entry(pieces[i]).value.1
  {
    if i < n - 1 {
      ParseSectionsLastWins(pieces, n - 1, entry, i);
      assert !HasEntry(pieces, n - 1, entry, entry(pieces[i]).value.0);
    }
  }

  /** Every stored body is the body of some entry. */
  lemma {:induction false} ParseSectionsBodies(pieces: seq<string>, n: nat, entry: string -> Option<(string, string)>, k: string)
    requires n <= |pieces|
    requires k in ParseSections(pieces, n, entry)
    ensures exists i | 0 <= i < n :: entry(pieces[i]) == Some((k, ParseSections(pieces, n, entry)[k]))
  {
    var e := entry(pieces[n - 1]);
    if e.Some? && e.value.0 == k {
      assert entry(pieces[n - 1]) == Some((k, ParseSections(pieces, n, entry)[k]));
    } else {
      ParseSectionsBodies(pieces, n - 1, entry, k);
      var i :| 0 <= i < n - 1 && entry(pieces[i]) == Some((k, ParseSections(pieces, n - 1, entry)[k]));
      assert entry(pieces[i]) == Some((k, ParseSections(pieces, n, entry)[k]));
    }
  }

  /** A key is in the map of an answer document exactly when one of its
      `---` pieces gives an entry under it. */
  lemma ParseAnswerDocKeys(content: string, k: string)
    ensures k in ParseAnswerDoc(content) <==>
      SomeEntry(Split(content, Separator), |Split(content, Separator)|, SectionEntry, k)
  {
    ParseSectionsKeys(Split(content, Separator), |Split(content, Separator)|, SectionEntry, k);
  }

  /** Every key of an answer document is `Q` followed by the digits of an
      answer heading. */
  lemma ParseAnswerDocKeyShape(content: string, k: string)
    requires k in ParseAnswerDoc(content)
    ensures IsQuestionKey(k)
    ensures exists i, j ::
      (0 <= i < |Split(content, Separator)| &&
       HeadingAt(Strip(Split(content, Separator)[i]), j, AnswerTag, true) == Some(k[1..]))
  {
    var pieces := Split(content, Separator);
    ParseAnswerDocKeys(content, k);
    var i :| 0 <= i < |pieces| && HasEntry(pieces, i, SectionEntry, k);
    var e := SectionEntry(pieces[i]);
    assert e.Some? && e.value.0 == k;
    var found := SearchHeading(Strip(pieces[i]), AnswerTag, true).value;
    assert k == [QuestionTag] + found.1;
    assert k[1..] == found.1;
    assert HeadingAt(Strip(pieces[i]), found.0, AnswerTag, true) == Some(k[1..]);
  }

  /** The answer lines of a section, joined, are a suffix of the section. */
  lemma AnswerTextIsSuffix(section: string)
    ensures |Join("\n", AnswerLines(Split(section, "\n")))| <= |section|
    ensures Join("\n", AnswerLines(Split(section, "\n"))) ==
      section[|section| - |Join("\n", AnswerLines(Split(section, "\n")))|..|section|]
  {
    var lines := Split(section, "\n");
    var first := FirstHeadingLine(lines);
    if first.None? {
      assert AnswerLines(lines) == [];
      assert section[|section|..|section|] == [];
    } else {
      var h := first.value;
      assert AnswerLines(lines) == lines[h + 1..];
      assert Join("\n", lines) == section by {
        JoinSplit(section, "\n");
      }
      JoinTailIsSuffix("\n", lines, h + 1);
    }
  }

  /** The answer body of a section is cut out of the section, so it holds no
      text the section does not hold. */
  lemma AnswerBodyKeepsAbsence(section: string, t: string)
    requires !Contains(section, t)
    ensures !Contains(AnswerBody(section), t)
  {
    var body := Join("\n", AnswerLines(Split(section, "\n")));
    AnswerTextIsSuffix(section);
    SliceKeepsAbsence(section, |section| - |body|, |section|, t);
    StripKeepsAbsence(body, t);
  }

  /** The entry of a piece holds no text the piece does not hold. */
  lemma SectionEntryKeepsAbsence(piece: string, t: string)
    requires !Contains(piece, t)
    ensures SectionEntry(piece).Some? ==> !Contains(SectionEntry(piece).value.1, t)
  {
    if SectionEntry(piece).Some? {
      assert !Contains(Strip(piece), t) by {
        StripKeepsAbsence(piece, t);
      }
      AnswerBodyKeepsAbsence(Strip(piece), t);
    }
  }

  /** When no entry body holds `t`, no stored body does. */
  lemma {:induction false} ParseSectionsKeepAbsence(pieces: seq<string>, n: nat, entry: string -> Option<(string, string)>, t: string)
    requires n <= |pieces|
    requires forall i | 0 <= i < |pieces| :: entry(pieces[i]).Some? ==> !Contains(entry(pieces[i]).value.1, t)
    ensures forall k | k in ParseSections(pieces, n, entry) :: !Contains(ParseSections(pieces, n, entry)[k], t)
  {
    if n > 0 {
      ParseSectionsKeepAbsence(pieces, n - 1, entry, t);
    }
  }

  /** No answer body ever holds `---`: the pieces come from splitting on it. */
  lemma BodiesLackSeparator(content: string)
    ensures forall k | k in ParseAnswerDoc(content) :: !Contains(ParseAnswerDoc(content)[k], Separator)
  {
    forall i | 0 <= i < |Split(content, Separator)|
      ensures SectionEntry(Split(content, Separator)[i]).Some? ==>
        !Contains(SectionEntry(Split(content, Separator)[i]).value.1, Separator)
    {
      assert Split(content, Separator)[i] in Split(content, Separator);
      SectionEntryKeepsAbsence(Split(content, Separator)[i], Separator);
    }
    ParseSectionsKeepAbsence(Split(content, Separator), |Split(content, Separator)|, SectionEntry, Separator);
  }
}

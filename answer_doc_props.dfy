/** What the answer-document and template conventions guarantee: the shape of
    the keys, which section wins a key, that bodies never hold the separator,
    which sections the filler leaves alone, what a filled section looks like,
    and that filling with no answers normalises a template. */
module AnswerDocProps {
  import opened Outcomes
  import opened PyText
  import opened Headings
  import opened AnswerDoc

  /** The filler emits one section per kept piece. */
  lemma {:induction false} FilledSectionsLength(pieces: seq<string>, n: nat, fill: string -> string)
    requires n <= |pieces|
    ensures |FilledSections(pieces, n, fill)| == |KeptUpTo(pieces, n)|
  {
    if n > 0 {
      FilledSectionsLength(pieces, n - 1, fill);
    }
  }

  /** The filler emits exactly the kept sections, each filled on its own. */
  lemma {:induction false} FilledSectionsPointwise(pieces: seq<string>, n: nat, fill: string -> string)
    requires n <= |pieces|
    ensures |FilledSections(pieces, n, fill)| == |KeptUpTo(pieces, n)|
    ensures forall i | 0 <= i < |KeptUpTo(pieces, n)| :: FilledSections(pieces, n, fill)[i] == fill(KeptUpTo(pieces, n)[i])
  {
    FilledSectionsLength(pieces, n, fill);
    if n > 0 {
      FilledSectionsPointwise(pieces, n - 1, fill);
    }
  }

  /** When filling leaves every section as it is, the filler emits the
      stripped non-empty pieces. */
  lemma {:induction false} FilledSectionsUnchanged(pieces: seq<string>, n: nat, fill: string -> string)
    requires n <= |pieces|
    requires forall section :: fill(section) == section
    ensures FilledSections(pieces, n, fill) == KeptUpTo(pieces, n)
  {
    if n > 0 {
      FilledSectionsUnchanged(pieces, n - 1, fill);
    }
  }

  /** With no answers every section is left as it is. */
  lemma NoAnswersLeaveSections(section: string)
    ensures Filler(map[])(section) == section
  {
  }

  /** No `---` starts at an index of a larger text from which three
      characters of `k` are read, when `k` holds no `---`. */
  lemma NoDashesInside(s: string, off: nat, k: string, j: nat)
    requires off + |k| <= |s| && s[off..off + |k|] == k
    requires off <= j && j + 3 <= off + |k|
    requires !Contains(k, Separator)
    ensures !OccursAt(s, Separator, j)
  {
    forall m | j <= m < j + 3
      ensures k[m - off] == s[m]
    {
      assert k[m - off] == s[off..off + |k|][m - off];
    }
    assert k[j - off..j - off + 3] == s[j..j + 3];
    if OccursAt(s, Separator, j) {
      ContainsAt(k, Separator, j - off);
    }
  }

  /** `-` is not whitespace, so no `---` starts inside whitespace. */
  lemma NoDashesAtSpace(s: string, j: nat)
    requires j < |s| && IsSpace(s[j])
    ensures !OccursAt(s, Separator, j)
  {
    if j + 3 <= |s| {
      assert s[j..j + 3][0] == s[j];
    }
  }

  /** Whitespace in front of a text without `---` cannot complete one. */
  lemma NoSeparatorAfterSpace(w: string, k: string)
    requires AllSpace(w) && !Contains(k, Separator)
    ensures !Contains(w + k, Separator)
  {
    var s := w + k;
    assert s[|w|..|w| + |k|] == k;
    forall j | 0 <= j
      ensures !OccursAt(s, Separator, j)
    {
      if j < |w| {
        assert s[j] == w[j];
        NoDashesAtSpace(s, j);
      } else if j + 3 <= |s| {
        NoDashesInside(s, |w|, k, j);
      }
    }
  }

  /** In `w + k + "\n\n---" + y`, with `w` whitespace and no `---` in `k`,
      no `---` starts before the one shown. */
  lemma NoSeparatorBefore(w: string, k: string, y: string, j: nat)
    requires AllSpace(w) && !Contains(k, Separator)
    requires j < |w| + |k| + 2
    ensures !OccursAt(w + k + "\n\n" + Separator + y, Separator, j)
  {
    var s := w + k + "\n\n" + Separator + y;
    if j < |w| {
      assert s[j] == w[j];
      NoDashesAtSpace(s, j);
    } else if j + 3 <= |w| + |k| {
      assert s[|w|..|w| + |k|] == k;
      NoDashesInside(s, |w|, k, j);
    } else if j + 2 == |w| + |k| {
      assert s[j + 2] == '\n';
      assert s[j..j + 3][2] == s[j + 2];
    } else if j >= |w| + |k| {
      assert s[j] == '\n';
      assert s[j..j + 3][0] == s[j];
    } else {
      assert s[j + 1] == '\n';
      assert s[j..j + 3][1] == s[j + 1];
    }
  }

  lemma FirstSeparatorAfterSection(w: string, k: string, y: string)
    requires AllSpace(w) && !Contains(k, Separator)
    ensures forall j | 0 <= j < |w + k + "\n\n"| :: !OccursAt(w + k + "\n\n" + Separator + y, Separator, j)
  {
    forall j | 0 <= j < |w + k + "\n\n"|
      ensures !OccursAt(w + k + "\n\n" + Separator + y, Separator, j)
    {
      NoSeparatorBefore(w, k, y, j);
    }
  }

  /** The first joined section, after some whitespace, is cut off at its
      joiner. */
  lemma SplitJoinedStep(w: string, k: string, rest: string)
    requires AllSpace(w) && !Contains(k, Separator)
    ensures Split(w + k + SectionJoiner + rest, Separator) == [w + k + "\n\n"] + Split("\n\n" + rest, Separator)
  {
    var gap := "\n\n";
    assert w + k + SectionJoiner + rest == (w + k + gap) + Separator + (gap + rest);
    FirstSeparatorAfterSection(w, k, gap + rest);
    SplitAtFirst(w + k + gap, Separator, gap + rest);
  }

  /** ... and kept as it is. */
  lemma KeptOfJoinedStep(w: string, k: string, rest: string)
    requires AllSpace(w) && k != "" && IsStripped(k) && !Contains(k, Separator)
    ensures Kept(Split(w + k + SectionJoiner + rest, Separator)) == [k] + Kept(Split("\n\n" + rest, Separator))
  {
    var first := w + k + "\n\n";
    var tail := Split("\n\n" + rest, Separator);
    assert Split(w + k + SectionJoiner + rest, Separator) == [first] + tail by {
      SplitJoinedStep(w, k, rest);
    }
    assert Strip(first) == k by {
      StripPadded(w, k, "\n\n");
    }
    KeptCons(first, tail);
  }

  /** The last joined section, after some whitespace, is one piece, kept as
      it is. */
  lemma KeptOfLast(w: string, k: string)
    requires AllSpace(w) && k != "" && IsStripped(k) && !Contains(k, Separator)
    ensures Kept(Split(w + k, Separator)) == [k]
  {
    NoSeparatorAfterSpace(w, k);
    assert Split(w + k, Separator) == [w + k];
    assert w + k + [] == w + k;
    StripPadded(w, k, []);
    KeptCons(w + k, []);
  }

  /** One more section in front of sections that come back keeps them coming
      back. */
  lemma KeptOfJoinedCons(w: string, k: string, tail: seq<string>)
    requires AllSpace(w) && k != "" && IsStripped(k) && !Contains(k, Separator) && |tail| >= 1
    requires Kept(Split("\n\n" + Join(SectionJoiner, tail), Separator)) == tail
    ensures Kept(Split(w + Join(SectionJoiner, [k] + tail), Separator)) == [k] + tail
  {
    var rest := Join(SectionJoiner, tail);
    assert ([k] + tail)[1..] == tail;
    assert Join(SectionJoiner, [k] + tail) == k + SectionJoiner + rest;
    assert w + (k + SectionJoiner + rest) == w + k + SectionJoiner + rest;
    KeptOfJoinedStep(w, k, rest);
  }

  /** Splitting the joined sections (after some leading whitespace) on `---`
      and keeping the non-empty stripped pieces gives the sections back. */
  lemma {:induction false} KeptOfJoined(w: string, sections: seq<string>)
    requires AllSpace(w) && |sections| >= 1
    requires forall k | k in sections :: k != "" && IsStripped(k) && !Contains(k, Separator)
    ensures Kept(Split(w + Join(SectionJoiner, sections), Separator)) == sections
    decreases |sections|
  {
    var k := sections[0];
    assert k in sections;
    if |sections| == 1 {
      KeptOfLast(w, k);
    } else {
      var tail := sections[1..];
      assert sections == [k] + tail;
      assert forall x | x in tail :: x in sections;
      KeptOfJoined("\n\n", tail);
      KeptOfJoinedCons(w, k, tail);
    }
  }

  /** Normalisation: with no answers the filler emits the non-empty stripped
      `---` pieces joined by `SectionJoiner`, and filling that output again
      with no answers returns it unchanged. */
  lemma FillDocNormalises(template: string)
    ensures FillDoc(template, map[]) == Join(SectionJoiner, Kept(Split(template, Separator)))
    ensures FillDoc(FillDoc(template, map[]), map[]) == FillDoc(template, map[])
  {
    var pieces := Split(template, Separator);
    var sections := Kept(pieces);
    forall section
      ensures Filler(map[])(section) == section
    {
      NoAnswersLeaveSections(section);
    }
    FilledSectionsUnchanged(pieces, |pieces|, Filler(map[]));
    var out := Join(SectionJoiner, sections);
    var again := Split(out, Separator);
    FilledSectionsUnchanged(again, |again|, Filler(map[]));
    if sections == [] {
      assert out == "";
      assert Find(out, Separator).None?;
      assert again == [""];
    } else {
      KeptKeepsAbsence(pieces, |pieces|, Separator);
      KeptAreStripped(pieces, |pieces|);
      assert [] + out == out;
      KeptOfJoined([], sections);
    }
  }
}

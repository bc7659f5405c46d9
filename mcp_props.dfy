/** What the server's regex parser guarantees: where its matches lie, which
    keys it produces, which match wins a key, and that no answer holds the
    start of another answer heading. */
module McpProps {
  import opened Outcomes
  import opened PyText
  import opened Headings
  import opened AnswerDoc
  import opened ParseProps
  import opened McpParse

  /** A match is an answer heading `## A<digits>.` at its start, followed by
      at least one character; it ends at the first index after that
      character where `## A` and a digit follow or the text ends (before a
      final newline, if any). */
  lemma MatchShape(s: string, m: Match)
    requires MatchAt(s, m.start) == Some(m)
    ensures IsDigits(m.digits) && OccursAt(s, "## A" + m.digits + ".", m.start)
    ensures m.start + |m.digits| + 6 <= m.end <= |s|
    ensures AnswerHeadAt(s, m.end) || m.end == |s| || (m.end + 1 == |s| && s[m.end] == '\n')
    ensures forall j | m.start + |m.digits| + 6 <= j < m.end :: !AnswerHeadAt(s, j)
  {
    HeadingAtIff(s, m.start, AnswerTag, m.digits);
    assert "## " + [AnswerTag] == "## A";
    forall j | m.start + |m.digits| + 6 <= j < m.end
      ensures !AnswerHeadAt(s, j)
    {
      assert !LookaheadAt(s, j);
    }
  }

  /** The matches from index `p` on lie in order and do not overlap, and no
      match starts in the gap before the first of them. */
  lemma {:induction false} MatchesOrdered(s: string, p: nat)
    ensures forall i | 0 <= i < |MatchesFrom(s, p)| :: p <= MatchesFrom(s, p)[i].start
    ensures forall i | 0 <= i < |MatchesFrom(s, p)| - 1 :: MatchesFrom(s, p)[i].end <= MatchesFrom(s, p)[i + 1].start
    ensures |MatchesFrom(s, p)| > 0 ==> forall q | p <= q < MatchesFrom(s, p)[0].start :: MatchAt(s, q).None?
    ensures |MatchesFrom(s, p)| == 0 ==> forall q | p <= q :: MatchAt(s, q).None?
    decreases |s| - p
  {
    match NextMatch(s, p)
    case None =>
      forall q | p <= q
        ensures MatchAt(s, q).None?
      {
        if q < |s| {
          NoMatchBefore(s, p, q);
        }
      }
    case Some(m) =>
      MatchesOrdered(s, m.end);
      var r := MatchesFrom(s, p);
      assert r == [m] + MatchesFrom(s, m.end);
      assert m.start < m.end;
  }

  /** No match starts at any index in `[lo, hi)`. */
  predicate NoMatchIn(s: string, lo: nat, hi: nat) {
    forall q | lo <= q < hi :: MatchAt(s, q).None?
  }

  /** No match starts at any index from `lo` on. */
  ghost predicate NoMatchFrom(s: string, lo: nat) {
    forall q | lo <= q :: MatchAt(s, q).None?
  }

  /** No match starts in a gap between two matches, nor after the last one:
      together with `MatchesOrdered`, `finditer` misses no match that does
      not overlap an earlier one. */
  lemma {:induction false} MatchesLeaveNoGap(s: string, p: nat)
    ensures forall i | 0 <= i < |MatchesFrom(s, p)| - 1 ::
      NoMatchIn(s, MatchesFrom(s, p)[i].end, MatchesFrom(s, p)[i + 1].start)
    ensures |MatchesFrom(s, p)| > 0 ==> NoMatchFrom(s, MatchesFrom(s, p)[|MatchesFrom(s, p)| - 1].end)
    decreases |s| - p
  {
    match NextMatch(s, p)
    case None =>
    case Some(m) =>
      var rest := MatchesFrom(s, m.end);
      var r := MatchesFrom(s, p);
      assert r == [m] + rest;
      MatchesLeaveNoGap(s, m.end);
      if |rest| == 0 {
        assert NoMatchFrom(s, m.end) by {
          MatchesOrdered(s, m.end);
        }
      } else {
        assert NoMatchIn(s, m.end, rest[0].start) by {
          MatchesOrdered(s, m.end);
        }
        assert r[|r| - 1] == rest[|rest| - 1];
      }
      forall i | 0 <= i < |r| - 1
        ensures NoMatchIn(s, r[i].end, r[i + 1].start)
      {
        if i > 0 {
          assert r[i] == rest[i - 1] && r[i + 1] == rest[i];
        }
      }
  }

  /** When no match is found from `p` on, none starts at any `q >= p`. */
  lemma {:induction false} NoMatchBefore(s: string, p: nat, q: nat)
    requires NextMatch(s, p).None? && p <= q < |s|
    ensures MatchAt(s, q).None?
    decreases q - p
  {
    if p < q {
      assert MatchAt(s, p).None?;
      NoMatchBefore(s, p + 1, q);
    }
  }

  /** The text after the first line of `t`: nothing when `t` has a single
      line, otherwise everything after its first newline. */
  lemma RestAfterFirstLine(t: string)
    ensures Find(t, "\n").None? ==> Join("\n", DropFirst(Split(t, "\n"))) == ""
    ensures Find(t, "\n").Some? ==> Join("\n", DropFirst(Split(t, "\n"))) == t[Find(t, "\n").value + 1..]
  {
    match Find(t, "\n")
    case None =>
    case Some(i) =>
      var rest := Split(t[i + 1..], "\n");
      assert Split(t, "\n") == [t[..i]] + rest;
      assert DropFirst(Split(t, "\n")) == rest;
      JoinSplit(t[i + 1..], "\n");
  }

  /** A slice of `s` inside a stretch where no answer heading starts holds
      no answer heading. */
  lemma SliceNoHead(s: string, a: nat, b: nat, lo: nat, hi: nat)
    requires lo <= a <= b <= hi <= |s|
    requires forall j | lo <= j < hi :: !AnswerHeadAt(s, j)
    ensures NoAnswerHead(s[a..b])
  {
    var t := s[a..b];
    forall j | 0 <= j < |t|
      ensures !AnswerHeadAt(t, j)
    {
      if AnswerHeadAt(t, j) {
        assert AnswerHeadAt(s, a + j);
      }
    }
  }

  /** No character of a match's heading `## A<digits>.` is a newline. */
  lemma HeadingHasNoNewline(s: string, m: Match)
    requires MatchAt(s, m.start) == Some(m)
    ensures forall j | m.start <= j < m.start + |m.digits| + 5 :: s[j] != '\n'
  {
    var h := "## A" + m.digits + ".";
    MatchShape(s, m);
    forall j | m.start <= j < m.start + |h|
      ensures s[j] != '\n'
    {
      assert s[j] == h[j - m.start];
      if 4 <= j - m.start < 4 + |m.digits| {
        assert h[j - m.start] == m.digits[j - m.start - 4];
      }
    }
  }

  /** A newline in a match text comes after its heading. */
  lemma NewlineAfterHeading(s: string, m: Match, i: nat)
    requires MatchAt(s, m.start) == Some(m)
    requires OccursAt(s[m.start..m.end], "\n", i)
    ensures i >= |m.digits| + 5
  {
    HeadingHasNoNewline(s, m);
    var section := s[m.start..m.end];
    assert section[i..i + 1] == "\n";
    assert section[i] == '\n';
    assert s[m.start + i] == '\n';
  }

  /** The text a match's answer is stripped from: everything after the
      match text's first line, a stretch of the document that starts after
      the character following the heading's dot. */
  lemma RawAnswerSlice(s: string, m: Match) returns (a: nat)
    requires MatchAt(s, m.start) == Some(m)
    ensures m.start + |m.digits| + 6 <= a <= m.end
    ensures Join("\n", DropFirst(Split(s[m.start..m.end], "\n"))) == s[a..m.end]
  {
    var section := s[m.start..m.end];
    RestAfterFirstLine(section);
    var f := Find(section, "\n");
    if f.None? {
      a := m.end;
    } else {
      var i := f.value;
      assert OccursAt(section, "\n", i);
      NewlineAfterHeading(s, m, i);
      a := m.start + i + 1;
      assert section[i + 1..] == s[a..m.end];
    }
  }

  /** The answer of a match: its text after the first line, stripped. */
  function MatchAnswer(s: string, m: Match): string
    requires m.start <= m.end <= |s|
  {
    Strip(Join("\n", DropFirst(Split(s[m.start..m.end], "\n"))))
  }

  /** Stripping a slice of a stretch without answer headings leaves a
      slice of that stretch, so it holds none either. */
  lemma StrippedSliceNoHead(s: string, a: nat, b: nat, lo: nat, hi: nat)
    requires lo <= a <= b <= hi <= |s|
    requires forall j | lo <= j < hi :: !AnswerHeadAt(s, j)
    ensures NoAnswerHead(Strip(s[a..b]))
  {
    var raw := s[a..b];
    StripIsSlice(raw);
    var o := StripOffset(raw);
    var n := |Strip(raw)|;
    assert Strip(raw) == s[a + o..a + o + n] by {
      var left := raw[o..o + n];
      var right := s[a + o..a + o + n];
      assert |left| == |right|;
      forall t | 0 <= t < n
        ensures left[t] == right[t]
      {
        assert left[t] == raw[o + t];
        assert raw[o + t] == s[a + o + t];
      }
      assert left == right;
    }
    SliceNoHead(s, a + o, a + o + n, lo, hi);
  }

  /** The answer of a match is a slice of the match's stretch after the
      character that follows its heading's dot, where the lazy match saw no
      answer heading: so it holds none. */
  lemma MatchBodyClean(s: string, m: Match)
    requires MatchAt(s, m.start) == Some(m)
    ensures NoAnswerHead(MatchAnswer(s, m))
  {
    var a := RawAnswerSlice(s, m);
    MatchShape(s, m);
    StrippedSliceNoHead(s, a, m.end, m.start + |m.digits| + 6, m.end);
  }

  /** Every match text's entry is keyed by `Q` and the match's digits, its
      answer is the match's answer, and that answer holds no answer
      heading. */
  lemma MatchEntries(s: string, i: nat)
    requires i < |MatchesFrom(s, 0)|
    ensures McpEntry(MatchTexts(s)[i]) ==
      Some(([QuestionTag] + MatchesFrom(s, 0)[i].digits, MatchAnswer(s, MatchesFrom(s, 0)[i])))
    ensures NoAnswerHead(MatchAnswer(s, MatchesFrom(s, 0)[i]))
  {
    var m := MatchesFrom(s, 0)[i];
    MatchTextsHaveHeadings(s);
    MatchBodyClean(s, m);
  }

  /** Match `i` gives key `k`. */
  predicate MatchKey(s: string, i: nat, k: string) {
    i < |MatchesFrom(s, 0)| && [QuestionTag] + MatchesFrom(s, 0)[i].digits == k
  }

  /** A key is in the parsed answers exactly when it is `Q` followed by the
      digits of some match. */
  lemma McpKeys(s: string, k: string)
    ensures k in McpAnswers(s) <==> exists i :: MatchKey(s, i, k)
  {
    var texts := MatchTexts(s);
    ParseSectionsKeys(texts, |texts|, McpEntry, k);
    if k in McpAnswers(s) {
      var i :| 0 <= i < |texts| && HasEntry(texts, i, McpEntry, k);
      MatchEntries(s, i);
      assert MatchKey(s, i, k);
    }
    if exists i :: MatchKey(s, i, k) {
      var i :| MatchKey(s, i, k);
      MatchEntries(s, i);
      assert HasEntry(texts, i, McpEntry, k);
    }
  }

  /** The answer stored under a match's key is that match's answer when no
      later match has the same digits. */
  lemma McpLastWins(s: string, i: nat)
    requires i < |MatchesFrom(s, 0)|
    requires forall j | i < j < |MatchesFrom(s, 0)| :: MatchesFrom(s, 0)[j].digits != MatchesFrom(s, 0)[i].digits
    ensures [QuestionTag] + MatchesFrom(s, 0)[i].digits in McpAnswers(s)
    ensures McpAnswers(s)[[QuestionTag] + MatchesFrom(s, 0)[i].digits] == MatchAnswer(s, MatchesFrom(s, 0)[i])
  {
    var texts := MatchTexts(s);
    var ms := MatchesFrom(s, 0);
    var k := [QuestionTag] + ms[i].digits;
    MatchEntries(s, i);
    forall j | i < j < |texts|
      ensures !HasEntry(texts, j, McpEntry, k)
    {
      MatchEntries(s, j);
      assert ([QuestionTag] + ms[j].digits)[1..] == ms[j].digits;
      assert k[1..] == ms[i].digits;
    }
    ParseSectionsLastWins(texts, |texts|, McpEntry, i);
  }

  /** No parsed answer holds `## A` followed by a digit. */
  lemma McpBodiesClean(s: string)
    ensures forall k | k in McpAnswers(s) :: NoAnswerHead(McpAnswers(s)[k])
  {
    var texts := MatchTexts(s);
    forall i | 0 <= i < |texts|
      ensures McpEntry(texts[i]).Some? ==> NoAnswerHead(McpEntry(texts[i]).value.1)
    {
      MatchEntries(s, i);
    }
    StoredBodiesClean(texts, |texts|);
  }

  /** When no entry's answer holds an answer heading, no stored one does. */
  lemma {:induction false} StoredBodiesClean(texts: seq<string>, n: nat)
    requires n <= |texts|
    requires forall i | 0 <= i < |texts| :: McpEntry(texts[i]).Some? ==> NoAnswerHead(McpEntry(texts[i]).value.1)
    ensures forall k | k in ParseSections(texts, n, McpEntry) :: NoAnswerHead(ParseSections(texts, n, McpEntry)[k])
  {
    if n > 0 {
      StoredBodiesClean(texts, n - 1);
    }
  }
}

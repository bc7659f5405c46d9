/** The heading patterns the pipeline searches for with `re.search`:
    `## (A\d+)\..+` in answer documents and `## (Q\d+)\.` in question
    templates.  `\d` is restricted to the ASCII digits. */
module Headings {
  import opened Outcomes
  import opened PyText

  const AnswerTag: char := 'A'
  const QuestionTag: char := 'Q'

  predicate IsDigit(c: char) {
    '0' <= c <= '9'
  }

  /** A non-empty run of digits: what `\d+` captures. */
  predicate IsDigits(s: string) {
    |s| > 0 && forall i | 0 <= i < |s| :: IsDigit(s[i])
  }

  /** A question key: `Q` followed by the digits of a heading. */
  predicate IsQuestionKey(k: string) {
    |k| >= 2 && k[0] == 'Q' && IsDigits(k[1..])
  }

  /** The length of the run of digits in `s` that starts at index `k`. */
  function DigitRun(s: string, k: nat): (n: nat)
    requires k <= |s|
    decreases |s| - k
    ensures k + n <= |s|
    ensures forall i | k <= i < k + n :: IsDigit(s[i])
    ensures k + n == |s| || !IsDigit(s[k + n])
  {
    if k < |s| && IsDigit(s[k]) then 1 + DigitRun(s, k + 1) else 0
  }

  /** The digits captured when `## <tag>(\d+)\.` matches `s` at index `i`,
      followed, when `withTail` is set, by `.+`: at least one character that
      is not a newline.  The greedy `\d+` can only be followed by `.` once the
      whole digit run is consumed, so the capture is that run. */
  function HeadingAt(s: string, i: nat, tag: char, withTail: bool): (r: Option<string>)
    ensures r.Some? ==> IsDigits(r.value)
  {
    if i + 4 <= |s| && s[i..i + 4] == "## " + [tag] then
      var n := DigitRun(s, i + 4);
      var dot := i + 4 + n;
      if n > 0 && dot < |s| && s[dot] == '.' && (!withTail || (dot + 1 < |s| && s[dot + 1] != '\n')) then
        Some(s[i + 4..dot])
      else None
    else None
  }

  /** `re.search`: the leftmost index at or after `k` where the heading
      pattern matches, with the captured digits. */
  function SearchHeadingFrom(s: string, tag: char, withTail: bool, k: nat): (r: Option<(nat, string)>)
    decreases |s| - k
    ensures r.Some? ==> k <= r.value.0 && HeadingAt(s, r.value.0, tag, withTail) == Some(r.value.1)
    ensures r.Some? ==> forall j | k <= j < r.value.0 :: HeadingAt(s, j, tag, withTail).None?
    ensures r.None? ==> forall j | k <= j :: HeadingAt(s, j, tag, withTail).None?
  {
    if k >= |s| then None
    else match HeadingAt(s, k, tag, withTail)
      case Some(digits) => Some((k, digits))
      case None => SearchHeadingFrom(s, tag, withTail, k + 1)
  }

  function SearchHeading(s: string, tag: char, withTail: bool): Option<(nat, string)>
  {
    SearchHeadingFrom(s, tag, withTail, 0)
  }

  /** A digit run followed by a non-digit (or the end) has the length
      `DigitRun` reports. */
  lemma {:induction false} DigitRunOf(s: string, k: nat, n: nat)
    requires k + n <= |s|
    requires forall i | k <= i < k + n :: IsDigit(s[i])
    requires k + n == |s| || !IsDigit(s[k + n])
    ensures DigitRun(s, k) == n
    decreases n
  {
    if n > 0 {
      DigitRunOf(s, k + 1, n - 1);
    }
  }

  /** The heading pattern (without the tail) matches at `i` with capture `d`
      exactly when the text `## <tag><d>.` occurs there and `d` is a run of
      digits: the `.` after `d` is what makes the run maximal, so leading
      zeros and every digit are kept. */
  lemma HeadingAtIff(s: string, i: nat, tag: char, d: string)
    ensures HeadingAt(s, i, tag, false) == Some(d) <==> IsDigits(d) && OccursAt(s, "## " + [tag] + d + ".", i)
  {
    if IsDigits(d) && OccursAt(s, "## " + [tag] + d + ".", i) {
      var h := "## " + [tag] + d + ".";
      assert s[i..i + |h|] == h;
      assert s[i..i + 4] == h[..4] == "## " + [tag];
      forall j | i + 4 <= j < i + 4 + |d|
        ensures IsDigit(s[j]) && s[j] == d[j - i - 4]
      {
        assert s[j] == h[j - i] == d[j - i - 4];
      }
      assert s[i + 4 + |d|] == h[4 + |d|] == '.';
      DigitRunOf(s, i + 4, |d|);
      forall j | 0 <= j < |d|
        ensures s[i + 4..i + 4 + |d|][j] == d[j]
      {
        assert s[i + 4..i + 4 + |d|][j] == s[i + 4 + j];
      }
      assert s[i + 4..i + 4 + |d|] == d;
    }
  }

  /** With the `.+` tail the heading matches exactly where it matches without
      it and the character after the `.` exists and is not a newline: a bare
      `## A3.` at the end of a line is no answer heading. */
  lemma HeadingAtTail(s: string, i: nat, tag: char, d: string)
    ensures HeadingAt(s, i, tag, true) == Some(d) <==>
      HeadingAt(s, i, tag, false) == Some(d) && i + |d| + 5 < |s| && s[i + |d| + 5] != '\n'
  {
    if HeadingAt(s, i, tag, false) == Some(d) {
      assert |s[i + 4..i + 4 + DigitRun(s, i + 4)]| == |d|;
    }
    if HeadingAt(s, i, tag, true) == Some(d) {
      assert |s[i + 4..i + 4 + DigitRun(s, i + 4)]| == |d|;
    }
  }
}

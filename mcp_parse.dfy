/** The server's answer parser: instead of cutting the document at `---`, it
    takes every match of `## (A\d+)\..+?(?=## A\d+|$)`, searched with DOTALL
    so that `.` matches newlines too.  A match is an answer heading, at least
    one more character, and then as little as possible until the next
    `## A<digit>` or the end of the text.  The key of a match is `Q` followed
    by its heading's digits; its answer is everything after its first line,
    stripped. */
module McpParse {
  import opened Outcomes
  import opened PyText
  import opened Headings
  import opened AnswerDoc

  /** `## A` followed by a digit starts at index `j`. */
  predicate AnswerHeadAt(s: string, j: int) {
    0 <= j && j + 5 <= |s| &&
    s[j] == '#' && s[j + 1] == '#' && s[j + 2] == ' ' && s[j + 3] == 'A' && IsDigit(s[j + 4])
  }

  /** No `## A` followed by a digit anywhere in `t`. */
  predicate NoAnswerHead(t: string) {
    forall j | 0 <= j < |t| :: !AnswerHeadAt(t, j)
  }

  /** The lookahead `(?=## A\d+|$)` holds at index `e`: an answer heading
      starts there, or `e` is the end of the text, or the index of a newline
      that ends the text (where `$` also matches). */
  predicate LookaheadAt(s: string, e: nat) {
    AnswerHeadAt(s, e) || e == |s| || (e + 1 == |s| && s[e] == '\n')
  }

  /** Where the lazy `.+?` stops: the first index at or after `e` where the
      lookahead holds. */
  function MatchEnd(s: string, e: nat): (r: nat)
    requires e <= |s|
    decreases |s| - e
    ensures e <= r <= |s| && LookaheadAt(s, r)
    ensures forall j | e <= j < r :: !LookaheadAt(s, j)
  {
    if LookaheadAt(s, e) then e else MatchEnd(s, e + 1)
  }

  /** One match: where it starts, the digits of its heading, and where it
      ends (exclusive). */
  datatype Match = Match(start: nat, digits: string, end: nat)

  /** The match that starts at index `p`, if any: `## A<digits>.`, one
      character of any kind, then up to the first index where the lookahead
      holds. */
  function MatchAt(s: string, p: nat): (r: Option<Match>)
    ensures r.Some? ==> r.value.start == p && HeadingAt(s, p, AnswerTag, false) == Some(r.value.digits)
    ensures r.Some? ==> p + |r.value.digits| + 6 <= r.value.end <= |s| && LookaheadAt(s, r.value.end)
    ensures r.Some? ==> forall j | p + |r.value.digits| + 6 <= j < r.value.end :: !LookaheadAt(s, j)
    ensures r.None? <==>
      (HeadingAt(s, p, AnswerTag, false).None? || p + |HeadingAt(s, p, AnswerTag, false).value| + 6 > |s|)
  {
    match HeadingAt(s, p, AnswerTag, false)
    case None => None
    case Some(digits) =>
      var dot := p + 4 + |digits|;
      if dot + 2 <= |s| then Some(Match(p, digits, MatchEnd(s, dot + 2))) else None
  }

  /** The leftmost match that starts at or after index `p`. */
  function NextMatch(s: string, p: nat): (r: Option<Match>)
    decreases |s| - p
    ensures r.Some? ==> p <= r.value.start && MatchAt(s, r.value.start) == Some(r.value)
    ensures r.Some? ==> forall q | p <= q < r.value.start :: MatchAt(s, q).None?
  {
    if p >= |s| then None
    else match MatchAt(s, p)
      case Some(m) => Some(m)
      case None => NextMatch(s, p + 1)
  }

  /** The matches `re.finditer` yields from index `p` on: each search
      resumes where the previous match ended. */
  function MatchesFrom(s: string, p: nat): (r: seq<Match>)
    decreases |s| - p
    ensures forall i | 0 <= i < |r| :: MatchAt(s, r[i].start) == Some(r[i])
  {
    match NextMatch(s, p)
    case None => []
    case Some(m) => [m] + MatchesFrom(s, m.end)
  }

  /** The text of every match of the document, in order. */
  function MatchTexts(s: string): (r: seq<string>)
    ensures |r| == |MatchesFrom(s, 0)|
  {
    var ms := MatchesFrom(s, 0);
    seq(|ms|, i requires 0 <= i < |ms| => s[ms[i].start..ms[i].end])
  }

  /** Python's `lines[1:]`. */
  function DropFirst(lines: seq<string>): seq<string>
  {
    if |lines| == 0 then [] else lines[1..]
  }

  /** The entry of one match text: its key is `Q` followed by the digits of
      the first `## (A\d+)\.` in it, its answer everything after its first
      line, stripped.  A text without that heading has no entry. */
  function McpEntry(section: string): (r: Option<(string, string)>)
    ensures r.Some? ==> IsQuestionKey(r.value.0)
    ensures r.Some? <==> SearchHeading(section, AnswerTag, false).Some?
  {
    match SearchHeading(section, AnswerTag, false)
    case None => None
    case Some((_, digits)) =>
      var answerNum := [AnswerTag] + digits;
      assert answerNum[1..] == digits;
      Some(("Q" + answerNum[1..], Strip(Join("\n", DropFirst(Split(section, "\n"))))))
  }

  /** The answers of a document: the entry of every match assigned in turn,
      a later match replacing an earlier one under the same key. */
  function McpAnswers(content: string): map<string, string>
  {
    var texts := MatchTexts(content);
    ParseSections(texts, |texts|, McpEntry)
  }

  /** Store the entry of one match text. */
  method StoreMatch(answers: map<string, string>, section: string) returns (updated: map<string, string>)
    requires SearchHeading(section, AnswerTag, false).Some?
    ensures updated == AddEntry(answers, McpEntry(section))
  {
    var answerNum := [AnswerTag] + SearchHeading(section, AnswerTag, false).value.1;
    var lines := Split(section, "\n");
    var answerText := Strip(Join("\n", DropFirst(lines)));
    var questionNum := "Q" + answerNum[1..];
    updated := answers[questionNum := answerText];
  }

  /** The heading of a match text is found again at its start, with the
      digits of the match. */
  lemma MatchTextHeading(s: string, m: Match)
    requires MatchAt(s, m.start) == Some(m)
    ensures SearchHeading(s[m.start..m.end], AnswerTag, false) == Some((0, m.digits))
  {
    var section := s[m.start..m.end];
    var h := "## " + [AnswerTag] + m.digits + ".";
    HeadingAtIff(s, m.start, AnswerTag, m.digits);
    assert section[0..|h|] == s[m.start..m.start + |h|];
    HeadingAtIff(section, 0, AnswerTag, m.digits);
  }

  /** Every text of `texts` holds an answer heading. */
  predicate Headed(texts: seq<string>) {
    forall i | 0 <= i < |texts| :: SearchHeading(texts[i], AnswerTag, false).Some?
  }

  /** Every match text has an answer heading, so the search for it in the
      parser always succeeds. */
  lemma MatchTextsHaveHeadings(s: string)
    ensures Headed(MatchTexts(s))
    ensures forall i | 0 <= i < |MatchTexts(s)| ::
      MatchTexts(s)[i] == s[MatchesFrom(s, 0)[i].start..MatchesFrom(s, 0)[i].end] &&
      SearchHeading(MatchTexts(s)[i], AnswerTag, false) == Some((0, MatchesFrom(s, 0)[i].digits))
  {
    forall i | 0 <= i < |MatchTexts(s)|
      ensures MatchTexts(s)[i] == s[MatchesFrom(s, 0)[i].start..MatchesFrom(s, 0)[i].end]
      ensures SearchHeading(MatchTexts(s)[i], AnswerTag, false) == Some((0, MatchesFrom(s, 0)[i].digits))
    {
      MatchTextHeading(s, MatchesFrom(s, 0)[i]);
    }
  }

  /** Parse the answers of a document, match by match. */
  method ParseAnswersFromContent(content: string) returns (answers: map<string, string>)
    ensures answers == McpAnswers(content)
  {
    var sections := MatchTexts(content);
    MatchTextsHaveHeadings(content);
    answers := map[];
    for i := 0 to |sections|
      invariant answers == ParseSections(sections, i, McpEntry)
    {
      answers := StoreMatch(answers, sections[i]);
    }
  }
}

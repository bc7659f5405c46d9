/** The pieces of Python's `str` behaviour the pipeline relies on: `in`,
    `startswith`, `split` on a fixed separator, `join`, `strip()` and
    `replace`.  Strings are sequences of Unicode scalar values. */
module PyText {
  import opened Outcomes

  /** The characters for which Python's `str.isspace()` holds; `str.strip()`
      with no argument removes exactly these from both ends. */
  predicate IsSpace(c: char) {
    || ('\t' <= c <= '\r')
    || ('\U{001C}' <= c <= ' ')
    || c == '\U{0085}' || c == '\U{00A0}' || c == '\U{1680}'
    || ('\U{2000}' <= c <= '\U{200A}')
    || c == '\U{2028}' || c == '\U{2029}' || c == '\U{202F}'
    || c == '\U{205F}' || c == '\U{3000}'
  }

  predicate AllSpace(s: string) {
    forall i | 0 <= i < |s| :: IsSpace(s[i])
  }

  /** Neither end of `s` is whitespace: what `strip()` produces. */
  predicate IsStripped(s: string) {
    s == [] || (!IsSpace(s[0]) && !IsSpace(s[|s| - 1]))
  }

  /** `t` occurs in `s` at index `i`. */
  predicate OccursAt(s: string, t: string, i: int) {
    0 <= i && i + |t| <= |s| && s[i..i + |t|] == t
  }


  /** Python's `s.startswith(prefix)`. */
  predicate StartsWith(s: string, prefix: string) {
    OccursAt(s, prefix, 0)
  }

  /** The leftmost occurrence of `t` in `s` at or after index `k`. */
  function FindFrom(s: string, t: string, k: nat): (r: Option<nat>)
    decreases |s| - k
    ensures r.Some? ==> k <= r.value && OccursAt(s, t, r.value)
    ensures r.Some? ==> forall j | k <= j < r.value :: !OccursAt(s, t, j)
    ensures r.None? ==> forall j | k <= j :: !OccursAt(s, t, j)
  {
    if k + |t| > |s| then None
    else if OccursAt(s, t, k) then Some(k)
    else FindFrom(s, t, k + 1)
  }

  /** Python's `s.find(t)`, with `None` for -1. */
  function Find(s: string, t: string): Option<nat>
  {
    FindFrom(s, t, 0)
  }

  /** Python's `t in s`. */
  predicate Contains(s: string, t: string) {
    Find(s, t).Some?
  }

  /** `t in s` holds exactly when `t` occurs in `s` at some index. */
  lemma ContainsAt(s: string, t: string, i: int)
    requires OccursAt(s, t, i)
    ensures Contains(s, t)
  {
  }

  lemma ContainsWitness(s: string, t: string) returns (i: nat)
    requires Contains(s, t)
    ensures OccursAt(s, t, i)
  {
    i := Find(s, t).value;
  }

  /** Python's `sep.join(xs)`. */
  function Join(sep: string, xs: seq<string>): string
  {
    if |xs| == 0 then ""
    else if |xs| == 1 then xs[0]
    else xs[0] + sep + Join(sep, xs[1..])
  }

  /** A prefix of `s` that ends before the first occurrence of `t` does not
      contain `t`. */
  lemma PrefixBeforeFirst(s: string, t: string, i: nat)
    requires |t| > 0 && i <= |s|
    requires forall j | 0 <= j < i :: !OccursAt(s, t, j)
    ensures !Contains(s[..i], t)
  {
    if Contains(s[..i], t) {
      var j := ContainsWitness(s[..i], t);
      assert s[..i][j..j + |t|] == s[j..j + |t|];
      assert OccursAt(s, t, j);
    }
  }

  /** Python's `s.split(sep)` for a non-empty separator: cut at every
      occurrence of `sep`, leftmost first and without overlap.  Joining the
      pieces with `sep` gives `s` back, and no piece contains `sep`. */
  function Split(s: string, sep: string): (r: seq<string>)
    requires |sep| > 0
    decreases |s|
    ensures forall p | p in r :: !Contains(p, sep)
  {
    match Find(s, sep)
    case None => [s]
    case Some(i) =>
      PrefixBeforeFirst(s, sep, i);
      [s[..i]] + Split(s[i + |sep|..], sep)
  }

  /** `sep.join(s.split(sep)) == s`: the pieces, put back together with the
      separator, are the text that was split. */
  lemma {:induction false} JoinSplit(s: string, sep: string)
    requires |sep| > 0
    ensures Join(sep, Split(s, sep)) == s
    decreases |s|
  {
    match Find(s, sep)
    case None =>
    case Some(i) =>
      var rest := Split(s[i + |sep|..], sep);
      JoinSplit(s[i + |sep|..], sep);
      assert Split(s, sep) == [s[..i]] + rest;
      assert Join(sep, [s[..i]] + rest) == s[..i] + sep + Join(sep, rest);
      assert s[..i] + sep + s[i + |sep|..] == s;
  }

  /** Python's `s.replace(pattern, replacement)` for a non-empty pattern: every
      occurrence, leftmost first and without overlap, becomes `replacement`.
      This is `replacement.join(s.split(pattern))`. */
  function Replace(s: string, pattern: string, replacement: string): (r: string)
    requires |pattern| > 0
    ensures !Contains(s, pattern) ==> r == s
    ensures replacement == pattern ==> r == s
  {
    JoinSplit(s, pattern);
    Join(replacement, Split(s, pattern))
  }

  /** `s` without its leading whitespace. */
  function TrimStart(s: string): (r: string)
    ensures |r| <= |s|
    ensures r == [] || !IsSpace(r[0])
  {
    if |s| > 0 && IsSpace(s[0]) then TrimStart(s[1..]) else s
  }

  /** `s` without its trailing whitespace. */
  function TrimEnd(s: string): (r: string)
    ensures |r| <= |s|
    ensures r == [] || !IsSpace(r[|r| - 1])
  {
    if |s| > 0 && IsSpace(s[|s| - 1]) then TrimEnd(s[..|s| - 1]) else s
  }

  /** What `TrimStart` removes is a run of whitespace in front. */
  lemma {:induction false} TrimStartIsSuffix(s: string)
    ensures TrimStart(s) == s[|s| - |TrimStart(s)|..]
    ensures forall i | 0 <= i < |s| - |TrimStart(s)| :: IsSpace(s[i])
    decreases |s|
  {
    if |s| > 0 && IsSpace(s[0]) {
      TrimStartIsSuffix(s[1..]);
      forall i | 1 <= i < |s| - |TrimStart(s)|
        ensures IsSpace(s[i])
      {
        assert s[i] == s[1..][i - 1];
      }
    }
  }

  /** What `TrimEnd` removes is a run of whitespace at the back. */
  lemma {:induction false} TrimEndIsPrefix(s: string)
    ensures TrimEnd(s) == s[..|TrimEnd(s)|]
    ensures forall i | |TrimEnd(s)| <= i < |s| :: IsSpace(s[i])
    decreases |s|
  {
    if |s| > 0 && IsSpace(s[|s| - 1]) {
      TrimEndIsPrefix(s[..|s| - 1]);
      forall i | |TrimEnd(s)| <= i < |s| - 1
        ensures IsSpace(s[i])
      {
        assert s[i] == s[..|s| - 1][i];
      }
    }
  }

  /** Where the stripped text starts inside `s`. */
  function StripOffset(s: string): nat
  {
    |s| - |TrimStart(s)|
  }

  /** Python's `s.strip()`: the result starts and ends with a non-space
      character or is empty. */
  function Strip(s: string): (r: string)
    ensures IsStripped(r)
  {
    var t := TrimStart(s);
    TrimEndIsPrefix(t);
    var r := TrimEnd(t);
    assert r == [] || r[0] == t[0];
    r
  }

  /** The stripped text is the slice of `s` left once the whitespace at both
      ends is gone. */
  lemma StripIsSlice(s: string)
    ensures StripOffset(s) + |Strip(s)| <= |s| && Strip(s) == s[StripOffset(s)..StripOffset(s) + |Strip(s)|]
    ensures forall i | 0 <= i < StripOffset(s) :: IsSpace(s[i])
    ensures forall i | StripOffset(s) + |Strip(s)| <= i < |s| :: IsSpace(s[i])
  {
    var t := TrimStart(s);
    var r := TrimEnd(t);
    TrimStartIsSuffix(s);
    TrimEndIsPrefix(t);
    assert t[..|r|] == s[StripOffset(s)..StripOffset(s) + |r|];
    forall i | StripOffset(s) + |r| <= i < |s|
      ensures IsSpace(s[i])
    {
      assert s[i] == t[i - StripOffset(s)];
    }
  }

  /** A text `t` that occurs inside a slice of `s` occurs inside `s`. */
  lemma ContainsFromSlice(s: string, a: nat, b: nat, t: string)
    requires a <= b <= |s|
    requires Contains(s[a..b], t)
    ensures Contains(s, t)
  {
    var j := ContainsWitness(s[a..b], t);
    forall k | j <= k < j + |t|
      ensures s[a..b][k] == s[a + k]
    {
    }
    assert s[a..b][j..j + |t|] == s[a + j..a + j + |t|];
    ContainsAt(s, t, a + j);
  }

  /** A slice of `s` holds no text that `s` does not hold. */
  lemma SliceKeepsAbsence(s: string, a: nat, b: nat, t: string)
    requires a <= b <= |s|
    requires !Contains(s, t)
    ensures !Contains(s[a..b], t)
  {
    if Contains(s[a..b], t) {
      ContainsFromSlice(s, a, b, t);
    }
  }

  /** The pieces of a split hold no text that the whole does not hold. */
  lemma {:induction false} SplitKeepsAbsence(s: string, sep: string, t: string)
    requires |sep| > 0 && !Contains(s, t)
    ensures forall p | p in Split(s, sep) :: !Contains(p, t)
    decreases |s|
  {
    match Find(s, sep)
    case None =>
    case Some(i) =>
      var rest := s[i + |sep|..];
      assert s[..i] == s[0..i];
      SliceKeepsAbsence(s, 0, i, t);
      assert rest == s[i + |sep|..|s|];
      SliceKeepsAbsence(s, i + |sep|, |s|, t);
      SplitKeepsAbsence(rest, sep, t);
      assert Split(s, sep) == [s[..i]] + Split(rest, sep);
  }

  /** Stripping never introduces a text that was not already there. */
  lemma StripKeepsAbsence(s: string, t: string)
    requires !Contains(s, t)
    ensures !Contains(Strip(s), t)
  {
    var a := StripOffset(s);
    StripIsSlice(s);
    if Contains(Strip(s), t) {
      ContainsFromSlice(s, a, a + |Strip(s)|, t);
    }
  }

  lemma {:induction false} TrimStartPadded(w: string, t: string)
    requires AllSpace(w)
    requires t == [] || !IsSpace(t[0])
    ensures TrimStart(w + t) == t
    decreases |w|
  {
    if w == [] {
      assert w + t == t;
    } else {
      assert (w + t)[1..] == w[1..] + t;
      TrimStartPadded(w[1..], t);
    }
  }

  lemma {:induction false} TrimEndPadded(t: string, w: string)
    requires AllSpace(w)
    requires t == [] || !IsSpace(t[|t| - 1])
    ensures TrimEnd(t + w) == t
    decreases |w|
  {
    if w == [] {
      assert t + w == t;
    } else {
      assert (t + w)[..|t + w| - 1] == t + w[..|w| - 1];
      TrimEndPadded(t, w[..|w| - 1]);
    }
  }

  /** Whitespace around an already stripped text is exactly what `strip()`
      removes. */
  lemma StripPadded(w1: string, k: string, w2: string)
    requires AllSpace(w1) && AllSpace(w2) && IsStripped(k)
    ensures Strip(w1 + k + w2) == k
  {
    if k == [] {
      assert w1 + k + w2 == (w1 + w2) + k;
      TrimStartPadded(w1 + w2, k);
    } else {
      assert w1 + k + w2 == w1 + (k + w2);
      TrimStartPadded(w1, k + w2);
      TrimEndPadded(k, w2);
    }
  }

  /** `strip()` is idempotent. */
  lemma StripIdempotent(s: string)
    ensures Strip(Strip(s)) == Strip(s)
  {
    var k := Strip(s);
    assert [] + k + [] == k;
    StripPadded([], k, []);
  }

  /** Splitting `x + sep + y` cuts at the separator shown when no occurrence
      of `sep` starts earlier. */
  lemma SplitAtFirst(x: string, sep: string, y: string)
    requires |sep| > 0
    requires forall j | 0 <= j < |x| :: !OccursAt(x + sep + y, sep, j)
    ensures Split(x + sep + y, sep) == [x] + Split(y, sep)
  {
    var s := x + sep + y;
    assert s[|x|..|x| + |sep|] == sep;
    assert OccursAt(s, sep, |x|);
    assert Find(s, sep) == Some(|x|);
    assert s[..|x|] == x;
    assert s[|x| + |sep|..] == y;
  }

  /** For a one-character separator that no piece contains, `split` undoes
      `join`. */
  lemma {:induction false} SplitJoin(sep: string, xs: seq<string>)
    requires |sep| == 1 && |xs| >= 1
    requires forall x | x in xs :: !Contains(x, sep)
    ensures Split(Join(sep, xs), sep) == xs
    decreases |xs|
  {
    if |xs| == 1 {
      assert Join(sep, xs) == xs[0];
      assert xs[0] in xs;
    } else {
      var x, y := xs[0], Join(sep, xs[1..]);
      assert x in xs;
      forall j | 0 <= j < |x|
        ensures !OccursAt(x + sep + y, sep, j)
      {
        if OccursAt(x + sep + y, sep, j) {
          assert (x + sep + y)[j..j + 1] == [x[j]];
          assert x[j..j + 1] == [x[j]];
          ContainsAt(x, sep, j);
        }
      }
      SplitAtFirst(x, sep, y);
      assert forall z | z in xs[1..] :: z in xs;
      SplitJoin(sep, xs[1..]);
    }
  }

  /** The join of a tail of `xs` is a suffix of the join of `xs`. */
  lemma {:induction false} JoinTailIsSuffix(sep: string, xs: seq<string>, k: nat)
    requires k <= |xs|
    ensures |Join(sep, xs[k..])| <= |Join(sep, xs)|
    ensures Join(sep, xs[k..]) == Join(sep, xs)[|Join(sep, xs)| - |Join(sep, xs[k..])|..]
    decreases k
  {
    if k == 0 {
      assert xs[k..] == xs;
    } else if |xs| == 1 {
      assert xs[k..] == [];
    } else {
      assert xs[k..] == xs[1..][k - 1..];
      JoinTailIsSuffix(sep, xs[1..], k - 1);
    }
  }

  /** What one piece keeps: its stripped text, or nothing when that is
      empty. */
  function KeepPiece(piece: string): (r: seq<string>)
    ensures |r| <= 1
  {
    var section := Strip(piece);
    if section == "" then [] else [section]
  }

  /** The first `n` pieces that are not empty once stripped, stripped, in
      order: `[p.strip() for p in pieces[:n] if p.strip()]`. */
  function KeptUpTo(pieces: seq<string>, n: nat): (r: seq<string>)
    requires n <= |pieces|
    ensures |r| <= n
  {
    if n == 0 then [] else KeptUpTo(pieces, n - 1) + KeepPiece(pieces[n - 1])
  }

  /** All the pieces that are not empty once stripped, stripped, in order. */
  function Kept(pieces: seq<string>): seq<string>
  {
    KeptUpTo(pieces, |pieces|)
  }

  /** The kept pieces are stripped and not empty. */
  lemma {:induction false} KeptAreStripped(pieces: seq<string>, n: nat)
    requires n <= |pieces|
    ensures forall k | k in KeptUpTo(pieces, n) :: k != "" && IsStripped(k)
  {
    if n > 0 {
      KeptAreStripped(pieces, n - 1);
    }
  }

  /** The kept pieces never hold a text that none of the pieces holds. */
  lemma {:induction false} KeptKeepsAbsence(pieces: seq<string>, n: nat, t: string)
    requires n <= |pieces|
    requires forall p | p in pieces :: !Contains(p, t)
    ensures forall k | k in KeptUpTo(pieces, n) :: !Contains(k, t)
  {
    if n > 0 {
      var last := pieces[n - 1];
      assert last in pieces;
      StripKeepsAbsence(last, t);
      KeptKeepsAbsence(pieces, n - 1, t);
    }
  }

  /** Keeping distributes over the first piece and the rest. */
  lemma {:induction false} KeptDropFirst(pieces: seq<string>, n: nat)
    requires 1 <= n <= |pieces|
    ensures KeptUpTo(pieces, n) == KeepPiece(pieces[0]) + KeptUpTo(pieces[1..], n - 1)
  {
    if n > 1 {
      KeptDropFirst(pieces, n - 1);
      assert pieces[1..][n - 2] == pieces[n - 1];
      AppendAssoc(KeepPiece(pieces[0]), KeptUpTo(pieces[1..], n - 2), KeepPiece(pieces[n - 1]));
    }
  }

  lemma AppendAssoc(a: seq<string>, b: seq<string>, c: seq<string>)
    ensures (a + b) + c == a + (b + c)
  {
  }

  /** A first piece that strips to a non-empty text is kept as that text,
      in front of whatever the rest keeps. */
  lemma KeptCons(first: string, tail: seq<string>)
    requires Strip(first) != ""
    ensures Kept([first] + tail) == [Strip(first)] + Kept(tail)
  {
    assert ([first] + tail)[1..] == tail;
    KeptDropFirst([first] + tail, |tail| + 1);
  }
}

/** Merging the answers of several sources: the answer map of every source
    that could be read is merged in turn into the result with dictionary
    `update`, so a later source's answer replaces an earlier one under the
    same key, and a source that could not be read adds nothing and stops
    nothing. */
module Merge {
  import opened Outcomes

  /** `merged.update(found)` when the source was read, `merged` otherwise. */
  function MergeOne(merged: map<string, string>, found: Option<map<string, string>>): map<string, string>
  {
    match found
    case None => merged
    case Some(answers) => merged + answers
  }

  /** The merged answers of the first `n` sources, where `answersOf` gives
      a source's answer map, or nothing when it cannot be read. */
  function MergeSources<S>(sources: seq<S>, n: nat, answersOf: S -> Option<map<string, string>>): map<string, string>
    requires n <= |sources|
  {
    if n == 0 then map[] else MergeOne(MergeSources(sources, n - 1, answersOf), answersOf(sources[n - 1]))
  }

  /** Source `i` was read and has an answer under key `k`. */
  predicate Provides<S>(sources: seq<S>, i: nat, answersOf: S -> Option<map<string, string>>, k: string)
    requires i < |sources|
  {
    answersOf(sources[i]).Some? && k in answersOf(sources[i]).value
  }

  /** One of the first `n` sources provides key `k`. */
  predicate SomeProvides<S>(sources: seq<S>, n: nat, answersOf: S -> Option<map<string, string>>, k: string)
    requires n <= |sources|
  {
    exists i | 0 <= i < n :: Provides(sources, i, answersOf, k)
  }

  /** A key is merged exactly when some source that was read provides it. */
  lemma {:induction false} MergeKeys<S>(sources: seq<S>, n: nat, answersOf: S -> Option<map<string, string>>, k: string)
    requires n <= |sources|
    ensures k in MergeSources(sources, n, answersOf) <==> SomeProvides(sources, n, answersOf, k)
  {
    if n > 0 {
      MergeKeys(sources, n - 1, answersOf, k);
      if Provides(sources, n - 1, answersOf, k) {
        assert k in MergeSources(sources, n, answersOf);
      } else if k in MergeSources(sources, n, answersOf) {
        var i :| 0 <= i < n - 1 && Provides(sources, i, answersOf, k);
      } else {
        forall i | 0 <= i < n
          ensures !Provides(sources, i, answersOf, k)
        {
          if i < n - 1 {
            assert k !in MergeSources(sources, n - 1, answersOf);
          }
        }
      }
    }
  }

  /** The merged answer under a key is the one of the last source that was
      read and provides that key. */
  lemma {:induction false} MergeLastWins<S>(sources: seq<S>, n: nat, answersOf: S -> Option<map<string, string>>, i: nat, k: string)
    requires i < n <= |sources|
    requires Provides(sources, i, answersOf, k)
    requires forall j | i < j < n :: !Provides(sources, j, answersOf, k)
    ensures k in MergeSources(sources, n, answersOf)
    ensures MergeSources(sources, n, answersOf)[k] == answersOf(sources[i]).value[k]
  {
    if i < n - 1 {
      MergeLastWins(sources, n - 1, answersOf, i, k);
      assert !Provides(sources, n - 1, answersOf, k);
    }
  }

  /** Merging the first `n` sources with unreadable source `i` in place
      gives the same as merging them with source `i` left out. */
  lemma {:induction false} MergeSkipsFailureUpTo<S>(sources: seq<S>, n: nat, answersOf: S -> Option<map<string, string>>, i: nat)
    requires i < |sources| && answersOf(sources[i]).None?
    requires n <= |sources|
    ensures n <= i ==> MergeSources(sources, n, answersOf) == MergeSources(sources[..i] + sources[i + 1..], n, answersOf)
    ensures i < n ==> MergeSources(sources, n, answersOf) == MergeSources(sources[..i] + sources[i + 1..], n - 1, answersOf)
  {
    var rest := sources[..i] + sources[i + 1..];
    if n > 0 {
      MergeSkipsFailureUpTo(sources, n - 1, answersOf, i);
      if n - 1 < i {
        assert rest[n - 1] == sources[n - 1];
      } else if n - 1 > i {
        assert rest[n - 2] == sources[n - 1];
      }
    }
  }

  /** A source that cannot be read contributes nothing: the merge is the
      merge of the other sources, in their order. */
  lemma MergeSkipsFailure<S>(sources: seq<S>, answersOf: S -> Option<map<string, string>>, i: nat)
    requires i < |sources| && answersOf(sources[i]).None?
    ensures MergeSources(sources, |sources|, answersOf) ==
      MergeSources(sources[..i] + sources[i + 1..], |sources| - 1, answersOf)
  {
    var rest := sources[..i] + sources[i + 1..];
    assert |rest| == |sources| - 1;
    assert MergeSources(sources, |sources|, answersOf) == MergeSources(rest, |sources| - 1, answersOf) by {
      MergeSkipsFailureUpTo(sources, |sources|, answersOf, i);
    }
  }
}

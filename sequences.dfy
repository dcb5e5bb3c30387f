/** Distinctness of sequences: the lot queue holds each trade object once. */
module Sequences {

  /** No element occurs twice: distinct objects, so updating one leaves
      every other untouched. */
  ghost predicate Distinct<T>(s: seq<T>)
  {
    |s| == 0 || (s[0] !in s[1..] && Distinct(s[1..]))
  }

  /** The recursive definition says what it should: no two positions hold
      the same element. */
  lemma {:induction false} DistinctPairs<T>(s: seq<T>)
    ensures Distinct(s) <==> forall i, j :: 0 <= i < j < |s| ==> s[i] != s[j]
  {
    if s != [] {
      DistinctPairs(s[1..]);
      if Distinct(s) {
        forall i, j | 0 <= i < j < |s|
          ensures s[i] != s[j]
        {
          if i > 0 {
            assert s[i] == s[1..][i - 1] && s[j] == s[1..][j - 1];
          } else {
            assert s[j] == s[1..][j - 1];
          }
        }
      }
      if forall i, j :: 0 <= i < j < |s| ==> s[i] != s[j] {
        forall i, j | 0 <= i < j < |s| - 1
          ensures s[1..][i] != s[1..][j]
        {
          assert s[1..][i] == s[i + 1] && s[1..][j] == s[j + 1];
        }
      }
    }
  }

  /** Appending a new element keeps a sequence distinct. */
  lemma {:induction false} DistinctSnoc<T>(s: seq<T>, x: T)
    requires Distinct(s) && x !in s
    ensures Distinct(s + [x])
  {
    if s != [] {
      DistinctSnoc(s[1..], x);
      assert (s + [x])[1..] == s[1..] + [x];
    }
  }
}

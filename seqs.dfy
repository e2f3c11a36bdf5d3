/** Facts about sequences used across the model: distinct elements and permutations. */
module Seqs {

  /** No element occurs twice. */
  ghost predicate Distinct<T>(s: seq<T>)
  {
    forall i, j :: 0 <= i < j < |s| ==> s[i] != s[j]
  }

  /** In a sequence without repeats every element occurs at most once. */
  lemma {:induction false} DistinctCount<T>(s: seq<T>, x: T)
    requires Distinct(s)
    ensures multiset(s)[x] <= 1
  {
    if s != [] {
      var s0, last := s[..|s| - 1], s[|s| - 1];
      assert s == s0 + [last];
      DistinctCount(s0, x);
      if last == x {
        assert x !in s0;
      }
    }
  }

  /** A reordering of a sequence without repeats has no repeats. */
  lemma DistinctPermutation<T>(a: seq<T>, b: seq<T>)
    requires multiset(a) == multiset(b) && Distinct(a)
    ensures Distinct(b)
  {
    forall i, j | 0 <= i < j < |b|
      ensures b[i] != b[j]
    {
      if b[i] == b[j] {
        var x := b[i];
        assert b == b[..j] + b[j..];
        assert x in b[..j] && x == b[j..][0];
        assert multiset(b[..j])[x] >= 1 && multiset(b[j..])[x] >= 1;
        DistinctCount(a, x);
      }
    }
  }

  /** Removing one occurrence of `x` from two permutations of each other leaves permutations. */
  lemma MultisetRemove<T>(a0: seq<T>, x: T, front: seq<T>, back: seq<T>)
    requires multiset(a0 + [x]) == multiset(front + [x] + back)
    ensures multiset(a0) == multiset(front + back)
  {
    assert multiset(a0 + [x]) == multiset(a0) + multiset{x};
    assert multiset(front + [x] + back) == multiset(front + back) + multiset{x};
    forall y ensures multiset(a0)[y] == multiset(front + back)[y] {
      assert (multiset(a0) + multiset{x})[y] == (multiset(front + back) + multiset{x})[y];
    }
  }
}

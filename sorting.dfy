/** In-place sorting of an array by an integer key, as `Array.prototype.sort` with a subtracting comparator. */
module Sorting {

  /** `s` is in non-decreasing order of `key`. */
  ghost predicate SortedBy<T>(s: seq<T>, key: T -> int)
  {
    forall i, j :: 0 <= i < j < |s| ==> key(s[i]) <= key(s[j])
  }

  /** Insertion sort: rearranges `a` into non-decreasing order of `key`, keeping its elements. */
  method SortByKey<T>(a: array<T>, key: T -> int)
    modifies a
    ensures SortedBy(a[..], key)
    ensures multiset(a[..]) == old(multiset(a[..]))
  {
    var i := 0;
    while i < a.Length
      invariant 0 <= i <= a.Length
      invariant forall p, q :: 0 <= p < q < i ==> key(a[p]) <= key(a[q])
      invariant multiset(a[..]) == old(multiset(a[..]))
    {
      Insert(a, i, key);
      i := i + 1;
    }
  }

  /** Moves `a[i]` left into the sorted prefix `a[..i]`, leaving `a[..i + 1]` sorted. */
  method Insert<T>(a: array<T>, i: int, key: T -> int)
    requires 0 <= i < a.Length
    requires forall p, q :: 0 <= p < q < i ==> key(a[p]) <= key(a[q])
    modifies a
    ensures forall p, q :: 0 <= p < q <= i ==> key(a[p]) <= key(a[q])
    ensures multiset(a[..]) == old(multiset(a[..]))
  {
    var j := i;
    while j > 0 && key(a[j - 1]) > key(a[j])
      invariant 0 <= j <= i
      invariant forall p, q :: 0 <= p < q <= i && p != j && q != j ==> key(a[p]) <= key(a[q])
      invariant forall q :: j < q <= i ==> key(a[j]) < key(a[q])
      invariant multiset(a[..]) == old(multiset(a[..]))
    {
      Swap(a, j - 1, j);
      j := j - 1;
    }
  }

  /** Exchanges two neighbouring elements. */
  method Swap<T>(a: array<T>, i: int, j: int)
    requires 0 <= i < j < a.Length
    modifies a
    ensures a[i] == old(a[j]) && a[j] == old(a[i])
    ensures forall k :: 0 <= k < a.Length && k != i && k != j ==> a[k] == old(a[k])
    ensures multiset(a[..]) == old(multiset(a[..]))
  {
    a[i], a[j] := a[j], a[i];
  }
}

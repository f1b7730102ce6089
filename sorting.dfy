/** `Array.prototype.sort` with a comparator `(a, b) => key(a) - key(b)`, as `getAllBuilds`,
    `findInstalled` and `mergeBuilds` call it on their result arrays. */
module Sorting {

  predicate SortedBy<T>(s: seq<T>, key: T -> int)
  {
    forall i, j :: 0 <= i < j < |s| ==> key(s[i]) <= key(s[j])
  }

  /** Exchanges two adjacent elements, keeping the multiset of the array. */
  method SwapDown<T>(a: array<T>, j: int)
    requires 0 < j < a.Length
    modifies a
    ensures a[..] == old(a[..])[j - 1 := old(a[j])][j := old(a[j - 1])]
    ensures multiset(a[..]) == multiset(old(a[..]))
  {
    a[j - 1], a[j] := a[j], a[j - 1];
  }

  /** Moves `a[i]` down into the sorted prefix `a[..i]`, leaving `a[..i + 1]` sorted. */
  method InsertAt<T>(a: array<T>, key: T -> int, i: int)
    requires 0 <= i < a.Length
    requires SortedBy(a[..i], key)
    modifies a
    ensures SortedBy(a[..i + 1], key)
    ensures multiset(a[..]) == multiset(old(a[..]))
  {
    var j := i;
    while j > 0 && key(a[j - 1]) > key(a[j])
      invariant 0 <= j <= i
      invariant forall p, q :: 0 <= p < q <= i && p != j && q != j ==> key(a[p]) <= key(a[q])
      invariant forall q :: j < q <= i ==> key(a[j]) <= key(a[q])
      invariant forall p, q :: 0 <= p < j < q <= i ==> key(a[p]) <= key(a[q])
      invariant multiset(a[..]) == multiset(old(a[..]))
    {
      SwapDown(a, j);
      j := j - 1;
    }
  }

  /** Sorts `a` in place into ascending key order. Only the order and the permutation are
      promised: which of two elements with equal keys comes first is left open. */
  method SortByKey<T>(a: array<T>, key: T -> int)
    modifies a
    ensures SortedBy(a[..], key)
    ensures multiset(a[..]) == multiset(old(a[..]))
  {
    var i := 0;
    while i < a.Length
      invariant 0 <= i <= a.Length
      invariant SortedBy(a[..i], key)
      invariant multiset(a[..]) == multiset(old(a[..]))
    {
      InsertAt(a, key, i);
      i := i + 1;
    }
    assert a[..i] == a[..];
  }

  /** The last element of a sorted non-empty sequence has the largest key. */
  lemma LastIsLatest<T>(s: seq<T>, key: T -> int)
    requires SortedBy(s, key) && |s| > 0
    ensures forall x :: x in s ==> key(x) <= key(s[|s| - 1])
  {
    forall x | x in s ensures key(x) <= key(s[|s| - 1]) {
      var k :| 0 <= k < |s| && s[k] == x;
      if k < |s| - 1 {
        assert key(s[k]) <= key(s[|s| - 1]);
      }
    }
  }

  /** `b` is an element of `s` with the largest key. */
  predicate IsLatest<T(==)>(s: seq<T>, b: T, key: T -> int)
  {
    b in s && forall x :: x in s ==> key(x) <= key(b)
  }

  /** What `builds.pop()` takes from a sorted reordering of `c` is a latest element of `c`. */
  lemma PoppedIsLatest<T>(s: seq<T>, c: seq<T>, key: T -> int)
    requires SortedBy(s, key) && multiset(s) == multiset(c) && |s| > 0
    ensures IsLatest(c, s[|s| - 1], key)
  {
    LastIsLatest(s, key);
    assert s[|s| - 1] in multiset(s);
    forall x | x in c ensures key(x) <= key(s[|s| - 1]) {
      assert x in multiset(c);
    }
  }
}

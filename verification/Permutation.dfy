// Reordered sequences, compared as multisets.
module Permutation {

  // The value at i taken out.
  function Without<T>(s: seq<T>, i: nat): seq<T>
    requires i < |s|
  {
    s[..i] + s[i + 1..]
  }

  lemma WithoutLast<T>(s: seq<T>, i: nat)
    requires i < |s|
    ensures i == |s| - 1 ==> Without(s, i) == s[..|s| - 1]
    ensures i < |s| - 1 ==> Without(s, i)[..|s| - 2] == Without(s[..|s| - 1], i)
    ensures i < |s| - 1 ==> Without(s, i)[|s| - 2] == s[|s| - 1]
  {
  }

  lemma MultisetWithout<T>(s: seq<T>, i: nat)
    requires i < |s|
    ensures multiset(Without(s, i)) == multiset(s) - multiset{s[i]}
    ensures multiset(s) == multiset(Without(s, i)) + multiset{s[i]}
  {
    assert s == s[..i] + [s[i]] + s[i + 1..];
  }

  // The last value of s, found in t.
  lemma IndexIn<T>(s: seq<T>, t: seq<T>) returns (j: nat)
    requires s != [] && multiset(s) == multiset(t)
    ensures j < |t| && t[j] == s[|s| - 1]
    ensures multiset(s[..|s| - 1]) == multiset(Without(t, j))
  {
    var x := s[|s| - 1];
    MultisetWithout(s, |s| - 1);
    assert x in multiset(t);
    j :| 0 <= j < |t| && t[j] == x;
    MultisetWithout(t, j);
    WithoutLast(s, |s| - 1);
  }

  lemma SameSize<T>(s: seq<T>, t: seq<T>)
    requires multiset(s) == multiset(t)
    ensures |s| == |t|
  {
    assert |multiset(s)| == |s| && |multiset(t)| == |t|;
  }

  function Map<T, U>(f: T -> U, s: seq<T>): (r: seq<U>)
    ensures |r| == |s|
    ensures forall i :: 0 <= i < |s| ==> r[i] == f(s[i])
  {
    if s == [] then [] else Map(f, s[..|s| - 1]) + [f(s[|s| - 1])]
  }

  lemma WithoutAt<T>(s: seq<T>, i: nat, k: nat)
    requires i < |s| && k < |s| - 1
    ensures |Without(s, i)| == |s| - 1
    ensures Without(s, i)[k] == s[if k < i then k else k + 1]
  {
  }

  lemma MapWithout<T, U>(f: T -> U, s: seq<T>, i: nat)
    requires i < |s|
    ensures Map(f, Without(s, i)) == Without(Map(f, s), i)
  {
    assert |Without(s, i)| == |Without(Map(f, s), i)| == |s| - 1;
    hide *;
    var l, r := Map(f, Without(s, i)), Without(Map(f, s), i);
    forall k | 0 <= k < |s| - 1
      ensures l[k] == r[k]
    {
      WithoutAt(s, i, k);
      WithoutAt(Map(f, s), i, k);
    }
  }

  // The image of a reordering is a reordering of the image.
  lemma {:induction false} MapPermutes<T, U>(f: T -> U, s: seq<T>, t: seq<T>)
    requires multiset(s) == multiset(t)
    ensures multiset(Map(f, s)) == multiset(Map(f, t))
    decreases |s|
  {
    SameSize(s, t);
    if s != [] {
      var j := IndexIn(s, t);
      MapPermutes(f, s[..|s| - 1], Without(t, j));
      MapWithout(f, t, j);
      MultisetWithout(Map(f, t), j);
    }
  }

  ghost predicate Distinct<T(!new)>(s: seq<T>) {
    forall i, j :: 0 <= i < j < |s| ==> s[i] != s[j]
  }

  lemma {:induction false} DistinctCounts<T(!new)>(s: seq<T>, x: T)
    requires Distinct(s)
    ensures multiset(s)[x] == if x in s then 1 else 0
  {
    if s != [] {
      var p, y := s[..|s| - 1], s[|s| - 1];
      DistinctCounts(p, x);
      assert s == p + [y];
      assert y !in p;
    }
  }

  // Two lists of the same values, each without repetition, are reorderings of each other.
  lemma DistinctPermutes<T(!new)>(s: seq<T>, t: seq<T>)
    requires Distinct(s) && Distinct(t)
    requires forall x :: x in s <==> x in t
    ensures multiset(s) == multiset(t)
  {
    forall x: T
      ensures multiset(s)[x] == multiset(t)[x]
    {
      DistinctCounts(s, x);
      DistinctCounts(t, x);
    }
  }
}

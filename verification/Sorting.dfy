/**
 The quadratic exchange sort that the solvers repeat for routes, edges and loads.
 */
module Sorting {

  ghost predicate SortedBy<T>(s: seq<T>, key: T -> real) {
    forall i, j :: 0 <= i < j < |s| ==> key(s[i]) <= key(s[j])
  }

  ghost predicate NoDuplicates<T>(s: seq<T>) {
    forall i, j :: 0 <= i < j < |s| ==> s[i] != s[j]
  }

  /** The first i positions hold the i least keys in order. */
  ghost predicate Settled<T>(s: seq<T>, key: T -> real, i: int) {
    forall x, y :: 0 <= x < y < |s| && x < i ==> key(s[x]) <= key(s[y])
  }

  lemma SwapKeeps<T>(s: seq<T>, key: T -> real, i: nat, j: nat)
    requires i < j < |s| && Settled(s, key, i)
    ensures var t := s[i := s[j]][j := s[i]]; multiset(t) == multiset(s) && Settled(t, key, i)
  {
    var t := s[i := s[j]][j := s[i]];
    forall x, y | 0 <= x < y < |t| && x < i
      ensures key(t[x]) <= key(t[y])
    {
      assert t[x] == s[x] && t[y] == s[if y == i then j else if y == j then i else y];
    }
  }

  /** Brings the least key of s[i..] to position i. */
  method Select<T>(s: seq<T>, key: T -> real, i: nat) returns (r: seq<T>)
    requires i < |s| && Settled(s, key, i)
    ensures multiset(r) == multiset(s) && |r| == |s| && Settled(r, key, i + 1)
  {
    r := s;
    for j := i + 1 to |s|
      invariant multiset(r) == multiset(s) && |r| == |s| && Settled(r, key, i)
      invariant forall y :: i < y < j ==> key(r[i]) <= key(r[y])
    {
      if key(r[j]) < key(r[i]) {
        SwapKeeps(r, key, i, j);
        r := r[i := r[j]][j := r[i]];
      }
    }
  }

  method ExchangeSort<T>(a: seq<T>, key: T -> real) returns (r: seq<T>)
    ensures multiset(r) == multiset(a) && |r| == |a|
    ensures SortedBy(r, key)
  {
    r := a;
    for i := 0 to |a|
      invariant |r| == |a| && multiset(r) == multiset(a) && Settled(r, key, i)
    {
      r := Select(r, key, i);
    }
  }

  lemma SnocMembers<T>(s: seq<T>, x: T)
    ensures forall y :: y in s + [x] <==> y in s || y == x
  {
    assert x == (s + [x])[|s|];
  }

  lemma SnocDistinct<T>(s: seq<T>, x: T)
    requires NoDuplicates(s) && x !in s
    ensures NoDuplicates(s + [x])
  {
  }

  lemma PermutationMembers<T>(a: seq<T>, b: seq<T>)
    requires multiset(a) == multiset(b)
    ensures forall x :: x in a <==> x in b
  {
    forall x
      ensures x in a <==> x in b
    {
      assert x in a <==> x in multiset(a);
      assert x in b <==> x in multiset(b);
    }
  }

  lemma {:induction false} CountAtMostOne<T>(s: seq<T>)
    ensures NoDuplicates(s) <==> forall x :: x in s ==> multiset(s)[x] == 1
  {
    if |s| > 0 {
      var n := |s| - 1;
      var r := s[..n];
      assert s == r + [s[n]];
      CountAtMostOne(r);
      if NoDuplicates(s) {
        assert NoDuplicates(r);
      }
      if forall x :: x in s ==> multiset(s)[x] == 1 {
        forall x | x in r
          ensures multiset(r)[x] == 1
        {
          assert x in s && x in multiset(r);
        }
        assert s[n] in s;
      }
    }
  }

  lemma PermutationDistinct<T>(a: seq<T>, b: seq<T>)
    requires multiset(a) == multiset(b) && NoDuplicates(a)
    ensures NoDuplicates(b)
  {
    CountAtMostOne(a);
    CountAtMostOne(b);
    PermutationMembers(a, b);
  }
}

/**
 Permutations of 0..n-1 held in a sequence, and counting.
 */
module Permutations {

  ghost predicate Permutation(p: seq<int>, n: nat) {
    && |p| == n
    && (forall i :: 0 <= i < n ==> 0 <= p[i] < n)
    && (forall i, j :: 0 <= i < j < n ==> p[i] != p[j])
  }

  ghost function Below(n: nat): (s: set<int>)
    ensures |s| == n
    ensures forall x :: x in s <==> 0 <= x < n
  {
    if n == 0 then {} else Below(n - 1) + {n - 1}
  }

  ghost function Elements(s: seq<int>): set<int> {
    set i | 0 <= i < |s| :: s[i]
  }

  lemma {:induction false} ElementsDistinct(s: seq<int>)
    requires forall i, j :: 0 <= i < j < |s| ==> s[i] != s[j]
    ensures |Elements(s)| == |s|
  {
    if |s| > 0 {
      var t := s[..|s| - 1];
      ElementsDistinct(t);
      assert Elements(s) == Elements(t) + {s[|s| - 1]};
      assert s[|s| - 1] !in Elements(t);
    }
  }

  lemma SubsetSameSize<T>(a: set<T>, b: set<T>)
    requires a <= b && |a| == |b|
    ensures a == b
  {
    assert b == a + (b - a);
    assert |b| == |a| + |b - a|;
  }

  lemma SubsetSize<T>(a: set<T>, b: set<T>)
    requires a <= b
    ensures |a| <= |b|
  {
    assert b == a + (b - a);
  }

  lemma Member<T>(a: set<T>) returns (x: T)
    requires a != {}
    ensures x in a
  {
    x :| x in a;
  }

  /** Every value below n occurs in a permutation of 0..n-1. */
  lemma {:induction false} PermutationOnto(p: seq<int>, n: nat, v: int)
    requires Permutation(p, n) && 0 <= v < n
    ensures v in p
  {
    ElementsDistinct(p);
    assert Elements(p) <= Below(n);
    SubsetSameSize(Elements(p), Below(n));
    assert v in Elements(p);
  }

  /** Distinct values below n cannot be more than n. */
  lemma {:induction false} Pigeonhole(s: seq<int>, n: nat)
    requires forall i :: 0 <= i < |s| ==> 0 <= s[i] < n
    requires forall i, j :: 0 <= i < j < |s| ==> s[i] != s[j]
    ensures |s| <= n
  {
    ElementsDistinct(s);
    SubsetSize(Elements(s), Below(n));
  }

  /** The position of `v` in a permutation. */
  ghost function IndexOf(p: seq<int>, n: nat, v: int): (i: int)
    requires Permutation(p, n) && 0 <= v < n
    ensures 0 <= i < n && p[i] == v
  {
    PermutationOnto(p, n, v);
    var i :| 0 <= i < n && p[i] == v;
    i
  }
}

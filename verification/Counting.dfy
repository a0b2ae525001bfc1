/**
 Occurrence counts of symbols: the tables `ftab`, `unzftab` and `cftab` all hold
 values of these functions.
 */
module Counting {
  import opened Permutations

  /** How often `c` occurs in `s`. */
  function Count(s: seq<nat>, c: int): (k: nat)
    ensures k <= |s|
  {
    if |s| == 0 then 0
    else Count(s[..|s| - 1], c) + if s[|s| - 1] == c then 1 else 0
  }

  /** How many symbols of `s` are smaller than `c`. */
  function CountBelow(s: seq<nat>, c: nat): nat {
    if c == 0 then 0 else CountBelow(s, c - 1) + Count(s, c - 1)
  }

  lemma CountPrefixStep(s: seq<nat>, i: int, c: int)
    requires 0 <= i < |s|
    ensures Count(s[..i + 1], c) == Count(s[..i], c) + if s[i] == c then 1 else 0
  {
    assert s[..i + 1][..i] == s[..i];
  }

  lemma {:induction false} CountMono(s: seq<nat>, i: int, j: int, c: int)
    requires 0 <= i <= j <= |s|
    ensures Count(s[..i], c) <= Count(s[..j], c) <= Count(s, c)
    decreases |s| - i
  {
    if i < |s| {
      CountPrefixStep(s, i, c);
      CountMono(s, i + 1, if i == j then j + 1 else j, c);
      if i == j { assert Count(s[..i], c) <= Count(s[..i + 1], c); }
    } else {
      assert s[..|s|] == s;
    }
  }

  lemma {:induction false} CountBelowMono(s: seq<nat>, c: nat, d: nat)
    requires c <= d
    ensures CountBelow(s, c) <= CountBelow(s, d)
    ensures c < d ==> CountBelow(s, c) + Count(s, c) <= CountBelow(s, d)
  {
    if c < d { CountBelowMono(s, c, d - 1); }
  }

  lemma {:induction false} CountBelowAppend(s: seq<nat>, x: nat, c: nat)
    ensures CountBelow(s + [x], c) == CountBelow(s, c) + if x < c then 1 else 0
  {
    if c > 0 {
      CountBelowAppend(s, x, c - 1);
      assert (s + [x])[..|s|] == s;
    }
  }

  lemma {:induction false} CountBelowAll(s: seq<nat>, limit: nat)
    requires forall i :: 0 <= i < |s| ==> s[i] < limit
    ensures CountBelow(s, limit) == |s|
  {
    if |s| > 0 {
      var t := s[..|s| - 1];
      CountBelowAll(t, limit);
      CountBelowAppend(t, s[|s| - 1], limit);
      assert s == t + [s[|s| - 1]];
    } else {
      CountBelowEmpty(limit);
    }
  }

  lemma CountBelowEmpty(c: nat)
    ensures CountBelow([], c) == 0
  {
  }

  /** The positions of symbols smaller than `c`, and of `c` itself. */
  ghost function PlacesBelow(s: seq<nat>, c: int): set<int> {
    set i | 0 <= i < |s| && s[i] < c
  }

  ghost function Places(s: seq<nat>, c: int): set<int> {
    set i | 0 <= i < |s| && s[i] == c
  }

  /** Counts are sizes of sets of positions. */
  lemma {:induction false} CountBelowIsSize(s: seq<nat>, c: nat)
    ensures CountBelow(s, c) == |PlacesBelow(s, c)|
  {
    if |s| == 0 {
      CountBelowEmpty(c);
      assert PlacesBelow(s, c) == {};
    } else {
      var m := |s| - 1;
      var t := s[..m];
      CountBelowIsSize(t, c);
      CountBelowAppend(t, s[m], c);
      assert s == t + [s[m]];
      var before := PlacesBelow(t, c);
      assert PlacesBelow(s, c) == before + if s[m] < c then {m} else {};
      assert m !in before;
    }
  }

  lemma {:induction false} CountIsSize(s: seq<nat>, c: int)
    ensures Count(s, c) == |Places(s, c)|
  {
    if |s| == 0 {
      assert Places(s, c) == {};
    } else {
      var m := |s| - 1;
      var t := s[..m];
      CountIsSize(t, c);
      var before := Places(t, c);
      assert Places(s, c) == before + if s[m] == c then {m} else {};
      assert m !in before;
    }
  }

  /** The symbols of `s` read in the order given by a permutation. */
  function Reorder(s: seq<nat>, p: seq<int>): (r: seq<nat>)
    requires forall i :: 0 <= i < |p| ==> 0 <= p[i] < |s|
    ensures |r| == |p|
    ensures forall i :: 0 <= i < |p| ==> r[i] == s[p[i]]
  {
    seq(|p|, i requires 0 <= i < |p| => s[p[i]])
  }

  ghost function Image(a: set<int>, p: seq<int>): set<int>
    requires forall i :: i in a ==> 0 <= i < |p|
  {
    set i | i in a :: p[i]
  }

  lemma {:induction false} ImageSize(a: set<int>, p: seq<int>)
    requires forall i :: i in a ==> 0 <= i < |p|
    requires forall i, j :: i in a && j in a && i != j ==> p[i] != p[j]
    ensures |Image(a, p)| == |a|
    decreases |a|
  {
    if a == {} {
      assert Image(a, p) == {};
    } else {
      var x := Member(a);
      var a' := a - {x};
      ImageSize(a', p);
      assert Image(a, p) == Image(a', p) + {p[x]};
      assert p[x] !in Image(a', p);
    }
  }

  lemma {:induction false} CountReorder(s: seq<nat>, p: seq<int>, c: int)
    requires Permutation(p, |s|)
    ensures Count(Reorder(s, p), c) == Count(s, c)
  {
    var r := Reorder(s, p);
    CountIsSize(r, c);
    CountIsSize(s, c);
    var a := Places(r, c);
    ImageSize(a, p);
    var image := Image(a, p);
    var target := Places(s, c);
    forall v | v in target ensures v in image {
      var i := IndexOf(p, |s|, v);
      assert i in a;
    }
    assert image == target;
  }

  lemma {:induction false} CountBelowReorder(s: seq<nat>, p: seq<int>, c: nat)
    requires Permutation(p, |s|)
    ensures CountBelow(Reorder(s, p), c) == CountBelow(s, c)
  {
    if c > 0 {
      CountBelowReorder(s, p, c - 1);
      CountReorder(s, p, c - 1);
    }
  }

  ghost predicate Ascending(f: seq<nat>) {
    forall i, j :: 0 <= i < j < |f| ==> f[i] <= f[j]
  }

  /** In an ascending sequence the copies of `c` occupy exactly the places between the
      count of smaller symbols and the count of symbols up to `c`. */
  lemma {:induction false} AscendingPlaces(f: seq<nat>, c: nat, k: int)
    requires Ascending(f) && 0 <= k < |f|
    ensures f[k] < c <==> k < CountBelow(f, c)
    ensures f[k] == c <==> CountBelow(f, c) <= k < CountBelow(f, c + 1)
  {
    forall d: nat ensures f[k] < d <==> k < CountBelow(f, d) {
      CountBelowIsSize(f, d);
      var a := PlacesBelow(f, d);
      if f[k] < d {
        assert Permutations.Below(k + 1) <= a;
        SubsetSize(Permutations.Below(k + 1), a);
      } else {
        assert a <= Permutations.Below(k);
        SubsetSize(a, Permutations.Below(k));
      }
    }
  }

  lemma CountBelowAtMost(s: seq<nat>, c: nat)
    ensures CountBelow(s, c) <= |s|
  {
    CountBelowIsSize(s, c);
    SubsetSize(PlacesBelow(s, c), Permutations.Below(|s|));
  }
}

/**
 What a scan over sorted rotations that start with one symbol yields: the rotations
 one place earlier, sorted for each of their first symbols.
 */
module Predecessors {
  import opened Rotations
  import opened Permutations
  import opened Counting
  import opened MainRadix

  ghost predicate Positions(b: seq<byte>, s: seq<int>) {
    forall k :: 0 <= k < |s| ==> 0 <= s[k] < |b|
  }

  /** Rotations that start with `ss`, no two of them the same, in order. */
  ghost predicate Row(b: seq<byte>, s: seq<int>, ss: byte) {
    && Positions(b, s)
    && (forall k :: 0 <= k < |s| ==> b[s[k]] == ss)
    && (forall k, l :: 0 <= k < l < |s| ==> s[k] != s[l] && RotLe(b, s[k], s[l]))
  }

  lemma RowPart(b: seq<byte>, s: seq<int>, ss: byte, i: int, j: int)
    requires Row(b, s, ss) && 0 <= i <= j <= |s|
    ensures Row(b, s[i..j], ss)
  {
  }

  /** The predecessors, with first symbol `t`, of the rotations in `s`. */
  ghost function Preds(b: seq<byte>, s: seq<int>, t: byte): (r: seq<int>)
    requires Positions(b, s)
    ensures |r| <= |s|
  {
    if s == [] then []
    else
      var x := Prev(|b|, s[|s| - 1]);
      Preds(b, s[..|s| - 1], t) + if b[x] == t then [x] else []
  }

  lemma PredsAppend(b: seq<byte>, s: seq<int>, x: int, t: byte)
    requires Positions(b, s) && 0 <= x < |b|
    ensures Positions(b, s + [x])
    ensures Preds(b, s + [x], t) == Preds(b, s, t) + if b[Prev(|b|, x)] == t then [Prev(|b|, x)] else []
  {
    assert (s + [x])[..|s|] == s;
  }

  lemma {:induction false} PredsConcat(b: seq<byte>, s: seq<int>, u: seq<int>, t: byte)
    requires Positions(b, s) && Positions(b, u)
    ensures Positions(b, s + u) && Preds(b, s + u, t) == Preds(b, s, t) + Preds(b, u, t)
    decreases |u|
  {
    hide Preds;
    if u == [] {
      assert s + u == s;
      PredsNil(b, t);
      assert Preds(b, s, t) + [] == Preds(b, s, t);
    } else {
      var u', x := u[..|u| - 1], u[|u| - 1];
      PredsConcat(b, s, u', t);
      assert s + u == (s + u') + [x] && u == u' + [x];
      PredsAppend(b, s + u', x, t);
      PredsAppend(b, u', x, t);
      var last := if b[Prev(|b|, x)] == t then [Prev(|b|, x)] else [];
      assert Preds(b, s, t) + (Preds(b, u', t) + last) == (Preds(b, s, t) + Preds(b, u', t)) + last;
    }
  }

  lemma PredsNil(b: seq<byte>, t: byte)
    ensures Preds(b, [], t) == []
  {
  }

  lemma PredsCons(b: seq<byte>, x: int, s: seq<int>, t: byte)
    requires Positions(b, s) && 0 <= x < |b|
    ensures Positions(b, [x] + s)
    ensures Preds(b, [x] + s, t) == (if b[Prev(|b|, x)] == t then [Prev(|b|, x)] else []) + Preds(b, s, t)
  {
    hide Preds;
    PredsConcat(b, [x], s, t);
    assert [x] == [] + [x];
    PredsAppend(b, [], x, t);
    PredsNil(b, t);
  }

  /** Where an element of the result comes from. */
  lemma {:induction false} PredsFrom(b: seq<byte>, s: seq<int>, t: byte, i: int) returns (k: int)
    requires Positions(b, s) && 0 <= i < |Preds(b, s, t)|
    ensures 0 <= k < |s| && Preds(b, s, t)[i] == Prev(|b|, s[k]) && b[Preds(b, s, t)[i]] == t
    decreases |s|
  {
    var s' := s[..|s| - 1];
    if i < |Preds(b, s', t)| {
      k := PredsFrom(b, s', t, i);
    } else {
      k := |s| - 1;
    }
  }

  lemma {:induction false} PredsHas(b: seq<byte>, s: seq<int>, t: byte, k: int)
    requires Positions(b, s) && 0 <= k < |s| && b[Prev(|b|, s[k])] == t
    ensures Prev(|b|, s[k]) in Preds(b, s, t)
    decreases |s|
  {
    if k < |s| - 1 { PredsHas(b, s[..|s| - 1], t, k); }
  }

  /** The predecessors with one first symbol are distinct and in order. */
  lemma {:induction false} PredsRow(b: seq<byte>, s: seq<int>, ss: byte, t: byte)
    requires Row(b, s, ss)
    ensures Row(b, Preds(b, s, t), t)
    ensures forall k :: 0 <= k < |Preds(b, s, t)| ==>
      0 <= Preds(b, s, t)[k] < |b| && b[Next(|b|, Preds(b, s, t)[k])] == ss
    decreases |s|
  {
    if s != [] {
      var s', x := s[..|s| - 1], s[|s| - 1];
      var y := Prev(|b|, x);
      RowPart(b, s, ss, 0, |s| - 1);
      assert s[0..|s| - 1] == s';
      PredsRow(b, s', ss, t);
      var r', r := Preds(b, s', t), Preds(b, s, t);
      if b[y] == t {
        forall k, l | 0 <= k < l < |r| ensures r[k] != r[l] && RotLe(b, r[k], r[l]) {
          if l == |r'| {
            var i := PredsFrom(b, s', t, k);
            CmpPrev(b, s'[i], x);
          }
        }
      }
    }
  }

  /** Distinct rotations with the same first two symbols are no more than there are. */
  lemma PairRoom(b: seq<byte>, r: seq<int>, c: nat)
    requires Positions(b, r) && forall k :: 0 <= k < |r| ==> Pairs(b)[r[k]] == c
    requires forall k, l :: 0 <= k < l < |r| ==> r[k] != r[l]
    ensures |r| <= Count(Pairs(b), c)
  {
    hide Count;
    ElementsDistinct(r);
    CountIsSize(Pairs(b), c);
    SubsetSize(Elements(r), Counting.Places(Pairs(b), c));
  }

  /** The predecessors of distinct rotations fit in their small bucket. */
  lemma PredsRoom(b: seq<byte>, s: seq<int>, ss: byte, t: byte)
    requires Positions(b, s) && (forall k :: 0 <= k < |s| ==> b[s[k]] == ss)
    requires forall k, l :: 0 <= k < l < |s| ==> s[k] != s[l]
    ensures |Preds(b, s, t)| <= Count(Pairs(b), Pair(t, ss))
  {
    hide Count;
    var r := Preds(b, s, t);
    forall k | 0 <= k < |r| ensures 0 <= r[k] < |b| && Pairs(b)[r[k]] == Pair(t, ss) { var i := PredsFrom(b, s, t, k); }
    PredsDistinct(b, s, t);
    PairRoom(b, r, Pair(t, ss));
  }

  lemma {:induction false} PredsDistinct(b: seq<byte>, s: seq<int>, t: byte)
    requires Positions(b, s) && forall k, l :: 0 <= k < l < |s| ==> s[k] != s[l]
    ensures forall k, l :: 0 <= k < l < |Preds(b, s, t)| ==> Preds(b, s, t)[k] != Preds(b, s, t)[l]
    decreases |s|
  {
    if s != [] {
      var s', x := s[..|s| - 1], s[|s| - 1];
      PredsDistinct(b, s', t);
      var r', r := Preds(b, s', t), Preds(b, s, t);
      forall k, l | 0 <= k < l < |r| ensures r[k] != r[l] {
        if l == |r'| {
          var i := PredsFrom(b, s', t, k);
        }
      }
    }
  }

  // ---------------------------------------------------------------- below and above the run

  /** Comparison of rotation `x` with a run of `ss`: negative when the first other symbol is
      smaller, zero when there is none. */
  function Against(b: seq<byte>, x: int, ss: byte, m: nat): int
    requires 0 <= x < |b|
    decreases m
  {
    if m == 0 then 0
    else if b[x] != ss then b[x] - ss
    else Against(b, Next(|b|, x), ss, m - 1)
  }

  predicate Low(b: seq<byte>, x: int, ss: byte) {
    0 <= x < |b| && b[x] == ss && Against(b, x, ss, |b|) < 0
  }

  predicate High(b: seq<byte>, x: int, ss: byte) {
    0 <= x < |b| && b[x] == ss && Against(b, x, ss, |b|) > 0
  }

  lemma {:induction false} AgainstSplit(b: seq<byte>, x: int, ss: byte, k: nat, l: nat)
    requires 0 <= x < |b|
    ensures Against(b, x, ss, k + l) ==
      if Against(b, x, ss, k) != 0 then Against(b, x, ss, k) else Against(b, Adv(|b|, x, k), ss, l)
    decreases k
  {
    if k > 0 && b[x] == ss { AgainstSplit(b, Next(|b|, x), ss, k - 1, l); }
  }

  /** One more `ss` in front makes no difference. */
  lemma AgainstNext(b: seq<byte>, x: int, ss: byte)
    requires 0 <= x < |b| && b[x] == ss
    ensures Against(b, Next(|b|, x), ss, |b|) == Against(b, x, ss, |b|)
  {
    var n := |b|;
    AgainstSplit(b, Next(n, x), ss, n - 1, 1);
    AdvWrap(n, x, n);
    assert Adv(n, Next(n, x), n - 1) == Adv(n, x, n) == x;
    assert Against(b, x, ss, 1) == Against(b, Next(n, x), ss, 0) == 0;
  }

  lemma {:induction false} LowBeforeHighBy(b: seq<byte>, x: int, y: int, ss: byte, m: nat)
    requires 0 <= x < |b| && 0 <= y < |b|
    requires Against(b, x, ss, m) <= 0 <= Against(b, y, ss, m) && Against(b, x, ss, m) != Against(b, y, ss, m)
    ensures Cmp(b, x, y, m) < 0
    decreases m
  {
    if m > 0 && b[x] == ss && b[y] == ss { LowBeforeHighBy(b, Next(|b|, x), Next(|b|, y), ss, m - 1); }
  }

  lemma LowBeforeHigh(b: seq<byte>, x: int, y: int, ss: byte)
    requires Low(b, x, ss) && High(b, y, ss)
    ensures RotLe(b, x, y) && x != y
  {
    LowBeforeHighBy(b, x, y, ss, |b|);
  }

  /** The symbol after the first decides, unless it is `ss` too. */
  lemma SecondDecides(b: seq<byte>, x: int, ss: byte)
    requires 0 <= x < |b| && b[x] == ss && |b| >= 2
    ensures b[Next(|b|, x)] < ss ==> Low(b, x, ss)
    ensures b[Next(|b|, x)] > ss ==> High(b, x, ss)
    ensures b[Next(|b|, x)] == ss ==>
      (Low(b, x, ss) <==> Low(b, Next(|b|, x), ss)) && (High(b, x, ss) <==> High(b, Next(|b|, x), ss))
  {
    AgainstNext(b, x, ss);
  }

  /** A list with all rotations `ss c`, `c < ss`, that is closed under going back over `ss`,
      has all rotations below the run. */
  lemma {:induction false} LowComplete(b: seq<byte>, s: seq<int>, ss: byte, x: int, m: nat)
    requires Positions(b, s) && 0 <= x < |b| && b[x] == ss && Against(b, x, ss, m) < 0
    requires forall y :: 0 <= y < |b| && b[y] == ss && b[Next(|b|, y)] < ss ==> y in s
    requires forall k :: 0 <= k < |s| && b[Prev(|b|, s[k])] == ss ==> Prev(|b|, s[k]) in s
    ensures x in s
    decreases m
  {
    var y := Next(|b|, x);
    if b[y] == ss {
      LowComplete(b, s, ss, y, m - 1);
      var k :| 0 <= k < |s| && s[k] == y;
      assert Prev(|b|, y) == x;
    }
  }

  lemma {:induction false} HighComplete(b: seq<byte>, s: seq<int>, ss: byte, x: int, m: nat)
    requires Positions(b, s) && 0 <= x < |b| && b[x] == ss && Against(b, x, ss, m) > 0
    requires forall y :: 0 <= y < |b| && b[y] == ss && b[Next(|b|, y)] > ss ==> y in s
    requires forall k :: 0 <= k < |s| && b[Prev(|b|, s[k])] == ss ==> Prev(|b|, s[k]) in s
    ensures x in s
    decreases m
  {
    var y := Next(|b|, x);
    if b[y] == ss {
      HighComplete(b, s, ss, y, m - 1);
      var k :| 0 <= k < |s| && s[k] == y;
      assert Prev(|b|, y) == x;
    }
  }

  /** A rotation that is all `ss` means a block that is all `ss`. */
  lemma {:induction false} AllSame(b: seq<byte>, x: int, ss: byte, m: nat, d: nat)
    requires 0 <= x < |b| && Against(b, x, ss, m) == 0 && d < m
    ensures b[Adv(|b|, x, d)] == ss
    decreases m
  {
    if d > 0 { AllSame(b, Next(|b|, x), ss, m - 1, d - 1); }
  }

  lemma OneSymbol(b: seq<byte>, x: int, ss: byte)
    requires 0 <= x < |b| && Against(b, x, ss, |b|) == 0
    ensures forall i :: 0 <= i < |b| ==> b[i] == ss
  {
    forall i | 0 <= i < |b| ensures b[i] == ss {
      var d := if i >= x then i - x else i - x + |b|;
      AdvWrap(|b|, x, d);
      AllSame(b, x, ss, |b|, d);
    }
  }
}

/**
 Undoing the block sort.  The decoder has the last column of the sorted rotations
 and the row of rotation 0; it rebuilds the block by following row numbers.
 */
module BwtSpec {
  import opened Rotations
  import opened Permutations
  import opened Counting

  /** `ptr` lists the rotations of `b` in non-decreasing order. */
  ghost predicate SortedRotations(b: seq<byte>, ptr: seq<int>) {
    && Permutation(ptr, |b|)
    && forall p, q :: 0 <= p < q < |b| ==> RotLe(b, ptr[p], ptr[q])
  }

  /** The symbol before each rotation, in sorted order. */
  function LastColumn(b: seq<byte>, ptr: seq<int>): (l: seq<byte>)
    requires forall i :: 0 <= i < |ptr| ==> 0 <= ptr[i] < |b|
    ensures |l| == |ptr|
  {
    seq(|ptr|, i requires 0 <= i < |ptr| => b[Prev(|b|, ptr[i])])
  }

  /** The row at which the rotation one symbol earlier than row `i` is found. */
  function LF(l: seq<nat>, i: int): (r: int)
    requires 0 <= i < |l|
  {
    CountBelow(l, l[i]) + Count(l[..i], l[i])
  }

  lemma {:induction false} LFRange(l: seq<nat>, i: int)
    requires 0 <= i < |l|
    ensures CountBelow(l, l[i]) <= LF(l, i) < CountBelow(l, l[i] + 1) <= |l|
  {
    CountPrefixStep(l, i, l[i]);
    CountMono(l, i + 1, |l|, l[i]);
    CountBelowAtMost(l, l[i] + 1);
  }

  /** `LF` orders rows by symbol first and then by row. */
  lemma {:induction false} LFMonotone(l: seq<nat>, i: int, j: int)
    requires 0 <= i < |l| && 0 <= j < |l| && i != j
    ensures LF(l, i) < LF(l, j) <==> l[i] < l[j] || (l[i] == l[j] && i < j)
    ensures LF(l, i) != LF(l, j)
  {
    LFOrder(l, i, j);
    LFOrder(l, j, i);
  }

  lemma {:induction false} LFOrder(l: seq<nat>, i: int, j: int)
    requires 0 <= i < |l| && 0 <= j < |l|
    ensures l[i] < l[j] || (l[i] == l[j] && i < j) ==> LF(l, i) < LF(l, j)
  {
    LFRange(l, i);
    LFRange(l, j);
    if l[i] < l[j] {
      CountBelowMono(l, l[i] + 1, l[j]);
    } else if l[i] == l[j] && i < j {
      CountPrefixStep(l, i, l[i]);
      CountMono(l, i + 1, j, l[i]);
    }
  }

  ghost function LFTable(l: seq<nat>): (t: seq<int>)
    ensures |t| == |l|
    ensures forall i :: 0 <= i < |l| ==> t[i] == LF(l, i)
  {
    seq(|l|, i requires 0 <= i < |l| => LF(l, i))
  }

  lemma {:induction false} LFPermutation(l: seq<nat>)
    ensures Permutation(LFTable(l), |l|)
  {
    forall i | 0 <= i < |l| ensures 0 <= LF(l, i) < |l| { LFRange(l, i); }
    forall i, j | 0 <= i < j < |l| ensures LF(l, i) != LF(l, j) { LFMonotone(l, i, j); }
  }

  lemma {:induction false} LFOnto(l: seq<nat>, k: int)
    requires 0 <= k < |l|
    ensures exists i :: 0 <= i < |l| && LF(l, i) == k
  {
    LFPermutation(l);
    var i := IndexOf(LFTable(l), |l|, k);
    assert LF(l, i) == k;
  }

  /** The inverse of `LF`: the row that leads to row `k`. */
  ghost function FL(l: seq<byte>, k: int): (i: int)
    requires 0 <= k < |l|
    ensures 0 <= i < |l| && LF(l, i) == k
  {
    LFOnto(l, k);
    var i :| 0 <= i < |l| && LF(l, i) == k;
    i
  }

  lemma {:induction false} FLUnique(l: seq<byte>, i: int)
    requires 0 <= i < |l|
    ensures 0 <= LF(l, i) < |l| && FL(l, LF(l, i)) == i
  {
    LFRange(l, i);
    if FL(l, LF(l, i)) != i { LFMonotone(l, i, FL(l, LF(l, i))); }
  }

  /** Two sorted listings of all rotations agree place by place, up to equal rotations. */
  lemma {:induction false} SortedListingsAgree(b: seq<byte>, s: seq<int>, t: seq<int>, k: int)
    requires SortedRotations(b, s) && SortedRotations(b, t) && 0 <= k < |b|
    ensures Cmp(b, s[k], t[k], |b|) == 0
  {
    CmpAnti(b, s[k], t[k], |b|);
    NotSmallerAtSamePlace(b, s, t, k);
    NotSmallerAtSamePlace(b, t, s, k);
  }

  lemma {:induction false} NotSmallerAtSamePlace(b: seq<byte>, s: seq<int>, t: seq<int>, k: int)
    requires SortedRotations(b, s) && SortedRotations(b, t) && 0 <= k < |b|
    ensures Cmp(b, s[k], t[k], |b|) >= 0
  {
    var n := |b|;
    if Cmp(b, s[k], t[k], n) < 0 {
      // the first k+1 rotations of s must all sit among the first k of t
      var places := seq(k + 1, i requires 0 <= i <= k => IndexOf(t, n, s[i]));
      forall i | 0 <= i <= k ensures places[i] < k {
        CmpRefl(b, s[k], n);
        CmpRefl(b, t[k], n);
        CmpRefl(b, s[i], n);
        assert RotLe(b, s[i], s[k]);
        CmpTrans(b, s[i], s[k], t[k], n);
        if k <= places[i] {
          assert RotLe(b, t[k], t[places[i]]);
          CmpTrans(b, s[i], t[k], s[i], n);
        }
      }
      Pigeonhole(places, k);
    }
  }

  /** Row `LF(l, i)` holds the rotation that starts one symbol before that of row `i`
      (or an equal one, when the block is periodic). */
  lemma {:induction false} LFStepsBack(b: seq<byte>, ptr: seq<int>, i: int)
    requires SortedRotations(b, ptr) && 0 <= i < |b|
    ensures var l := LastColumn(b, ptr); 0 <= LF(l, i) < |b| && Cmp(b, Prev(|b|, ptr[i]), ptr[LF(l, i)], |b|) == 0
  {
    var n := |b|;
    var l := LastColumn(b, ptr);
    var s := seq(n, k requires 0 <= k < n => Prev(n, ptr[FL(l, k)]));
    forall p, q | 0 <= p < q < n ensures s[p] != s[q] && RotLe(b, s[p], s[q]) {
      var i, j := FL(l, p), FL(l, q);
      LFMonotone(l, i, j);
      assert ptr[i] != ptr[j];
      CmpPrev(b, ptr[i], ptr[j]);
      if i < j { assert RotLe(b, ptr[i], ptr[j]); }
    }
    FLUnique(l, i);
    SortedListingsAgree(b, s, ptr, LF(l, i));
  }

  /** The symbols read by following `next` from row `pos`, taking one symbol of `l` per row. */
  function Chain(l: seq<byte>, next: seq<int>, pos: int, k: nat): (s: seq<byte>)
    requires |next| == |l| && 0 <= pos < |l|
    requires forall i :: 0 <= i < |l| ==> 0 <= next[i] < |l|
    ensures |s| == k
    decreases k
  {
    if k == 0 then [] else [l[pos]] + Chain(l, next, next[pos], k - 1)
  }

  ghost function FLTable(l: seq<byte>): (t: seq<int>)
    ensures |t| == |l|
    ensures forall k :: 0 <= k < |l| ==> 0 <= t[k] < |l| && t[k] == FL(l, k)
  {
    seq(|l|, k requires 0 <= k < |l| => FL(l, k))
  }

  /** Rotation `i` of the block, spelled out for `k` symbols. */
  function Spell(b: seq<byte>, i: int, k: nat): (s: seq<byte>)
    requires 0 <= i < |b|
    ensures |s| == k
    decreases k
  {
    if k == 0 then [] else [b[i]] + Spell(b, Next(|b|, i), k - 1)
  }

  lemma {:induction false} SpellWhole(b: seq<byte>, i: int, k: nat)
    requires 0 <= i && i + k == |b| && 0 < |b| && i < |b|
    ensures Spell(b, i, k) == b[i..]
    decreases k
  {
    if k > 1 { SpellWhole(b, i + 1, k - 1); }
    assert k > 0;
    assert b[i..] == [b[i]] + b[i + 1..];
    if k == 1 { assert Spell(b, Next(|b|, i), 0) == []; }
  }

  /** If the rotation before that of row `pos` equals rotation `i`, the chain of rows from
      `pos` spells rotation `i`. */
  lemma {:induction false} ChainSpells(b: seq<byte>, ptr: seq<int>, pos: int, i: int, k: nat)
    requires SortedRotations(b, ptr) && 0 <= pos < |b| && 0 <= i < |b|
    requires Cmp(b, Prev(|b|, ptr[pos]), i, |b|) == 0
    ensures var l := LastColumn(b, ptr); Chain(l, FLTable(l), pos, k) == Spell(b, i, k)
    decreases k
  {
    if k > 0 {
      var n := |b|;
      var l := LastColumn(b, ptr);
      var pos', i' := FL(l, pos), Next(n, i);
      // the symbols agree, and so do the rotations one further on
      assert b[Prev(n, ptr[pos])] == b[i];
      CmpPrev(b, ptr[pos], i');
      assert Prev(n, i') == i;
      LFStepsBack(b, ptr, pos');
      var u := Prev(n, ptr[pos']);
      CmpAnti(b, u, ptr[pos], n);
      CmpTrans(b, u, ptr[pos], i', n);
      CmpAnti(b, ptr[pos], i', n);
      CmpTrans(b, i', ptr[pos], u, n);
      CmpAnti(b, u, i', n);
      ChainSpells(b, ptr, pos', i', k - 1);
    }
  }

  /** The inverse transform: from the last column and the row of rotation 0 alone, the chain
      of rows spells the block, whatever sorted listing the encoder chose. */
  lemma {:induction false} ChainRecoversBlock(b: seq<byte>, ptr: seq<int>, origPtr: int)
    requires |b| > 0 && SortedRotations(b, ptr) && 0 <= origPtr < |b| && ptr[origPtr] == 0
    ensures var l := LastColumn(b, ptr); Chain(l, FLTable(l), FL(l, origPtr), |b|) == b
  {
    var l := LastColumn(b, ptr);
    LFStepsBack(b, ptr, FL(l, origPtr));
    ChainSpells(b, ptr, FL(l, origPtr), 0, |b|);
    SpellWhole(b, 0, |b|);
    assert b[0..] == b;
  }
}

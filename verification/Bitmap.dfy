/**
 The bucket-header bitmap of the fallback sort: 32 flags a word, with scans that skip
 whole words.
 */
module Bitmap {

  function Mask(k: int): bv32
    requires 0 <= k < 32
  {
    (1 as bv32) << k
  }

  function WithBits(w: bv32, m: bv32): bv32 {
    w | m
  }

  function WithoutBits(w: bv32, m: bv32): bv32 {
    w & !m
  }

  /** The word and the mask have a bit in common. */
  predicate Meets(w: bv32, m: bv32) {
    w & m != 0
  }

  predicate BitOf(w: bv32, k: int)
    requires 0 <= k < 32
  {
    Meets(w, Mask(k))
  }

  /** Flag `z` of the bitmap; flags beyond its end are clear. */
  predicate IsSet(bh: seq<bv32>, z: int) {
    0 <= z < 32 * |bh| && BitOf(bh[z / 32], z % 32)
  }

  lemma MasksDistinct(i: int, j: int)
    requires 0 <= i < 32 && 0 <= j < 32 && i != j
    ensures !Meets(Mask(i), Mask(j))
  {
  }

  lemma MaskNonZero(i: int)
    requires 0 <= i < 32
    ensures Mask(i) != 0
  {
  }

  lemma SetOwn(w: bv32, m: bv32)
    requires m != 0
    ensures Meets(WithBits(w, m), m)
  {
    assert (w | m) & m == m;
  }

  lemma ClearOwn(w: bv32, m: bv32)
    ensures !Meets(WithoutBits(w, m), m)
  {
  }

  lemma SetOther(w: bv32, m: bv32, o: bv32)
    requires !Meets(m, o)
    ensures Meets(WithBits(w, m), o) == Meets(w, o)
  {
    OrAnd(w, m, o);
    OrNothing(w & o);
  }

  lemma OrAnd(w: bv32, m: bv32, o: bv32)
    ensures (w | m) & o == (w & o) | (m & o)
  {
  }

  lemma OrNothing(w: bv32)
    ensures w | 0 == w
  {
  }

  lemma ClearOther(w: bv32, m: bv32, o: bv32)
    requires !Meets(m, o)
    ensures Meets(WithoutBits(w, m), o) == Meets(w, o)
  {
    MaskedOut(m, o);
    AndAnd(w, !m, o);
  }

  lemma MaskedOut(m: bv32, o: bv32)
    requires !Meets(m, o)
    ensures !m & o == o
  {
  }

  lemma AndAnd(w: bv32, x: bv32, o: bv32)
    ensures (w & x) & o == w & (x & o)
  {
  }

  lemma SetBit(w: bv32, i: int, j: int)
    requires 0 <= i < 32 && 0 <= j < 32
    ensures BitOf(WithBits(w, Mask(i)), j) <==> i == j || BitOf(w, j)
  {
    hide Mask, Meets, WithBits;
    if i == j { MaskNonZero(i); SetOwn(w, Mask(i)); }
    else { MasksDistinct(i, j); SetOther(w, Mask(i), Mask(j)); }
  }

  lemma ClearBit(w: bv32, i: int, j: int)
    requires 0 <= i < 32 && 0 <= j < 32
    ensures BitOf(WithoutBits(w, Mask(i)), j) <==> i != j && BitOf(w, j)
  {
    hide Mask, Meets, WithoutBits;
    if i == j { ClearOwn(w, Mask(i)); }
    else { MasksDistinct(i, j); ClearOther(w, Mask(i), Mask(j)); }
  }

  lemma FullWord(w: bv32, k: int)
    requires 0 <= k < 32 && w == 0xffff_ffff
    ensures BitOf(w, k)
  {
    hide Mask;
    MaskNonZero(k);
    assert 0xffff_ffff & Mask(k) == Mask(k);
  }

  lemma EmptyWord(w: bv32, k: int)
    requires 0 <= k < 32 && w == 0
    ensures !BitOf(w, k)
  {
    hide Mask;
    assert 0 & Mask(k) == 0;
  }

  method SetBh(bhtab: array<bv32>, z: int)
    requires 0 <= z < 32 * bhtab.Length
    modifies bhtab
    ensures forall y :: IsSet(bhtab[..], y) <==> y == z || old(IsSet(bhtab[..], y))
  {
    hide BitOf, WithBits, WithoutBits, Mask;
    ghost var before := bhtab[..];
    bhtab[z / 32] := WithBits(bhtab[z / 32], Mask(z % 32));
    forall y ensures IsSet(bhtab[..], y) <==> y == z || IsSet(before, y) {
      if 0 <= y < 32 * |before| && y / 32 == z / 32 {
        SetBit(before[z / 32], z % 32, y % 32);
      }
    }
  }

  method ClearBh(bhtab: array<bv32>, z: int)
    requires 0 <= z < 32 * bhtab.Length
    modifies bhtab
    ensures forall y :: IsSet(bhtab[..], y) <==> y != z && old(IsSet(bhtab[..], y))
  {
    hide BitOf, WithBits, WithoutBits, Mask;
    ghost var before := bhtab[..];
    bhtab[z / 32] := WithoutBits(bhtab[z / 32], Mask(z % 32));
    forall y ensures IsSet(bhtab[..], y) <==> y != z && IsSet(before, y) {
      if 0 <= y < 32 * |before| && y / 32 == z / 32 {
        ClearBit(before[z / 32], z % 32, y % 32);
      }
    }
  }

  method TestBh(bhtab: array<bv32>, z: int) returns (r: bool)
    requires 0 <= z < 32 * bhtab.Length
    ensures r == IsSet(bhtab[..], z)
  {
    hide Meets, Mask;
    r := Meets(bhtab[z / 32], Mask(z % 32));
  }

  /** All flags from `k` up to but not including `e` have value `v`, and flag `e` does not. */
  ghost predicate RunEndsAt(bh: seq<bv32>, k: int, e: int, v: bool) {
    && k <= e && IsSet(bh, e) != v
    && forall y :: k <= y < e ==> IsSet(bh, y) == v
  }

  /** The end of the run of equal flags that starts at `from`: single flags up to a word
      boundary, then whole words, then single flags again.  It is the same place that a scan
      flag by flag would find. */
  method ScanRun(bhtab: array<bv32>, from: int, v: bool, ghost stop: int) returns (k: int)
    requires 0 <= from <= stop < 32 * bhtab.Length
    requires IsSet(bhtab[..], stop) != v
    ensures RunEndsAt(bhtab[..], from, k, v) && k <= stop
  {
    hide BitOf;
    ghost var bh := bhtab[..];
    var full: bv32 := if v then 0xffff_ffff else 0;
    k := from;
    var b := TestBh(bhtab, k);
    while b == v && k % 32 != 0
      invariant from <= k <= stop && b == IsSet(bh, k)
      invariant forall y :: from <= y < k ==> IsSet(bh, y) == v
      decreases stop - k
    {
      k := k + 1;
      b := TestBh(bhtab, k);
    }
    if b == v {
      while bhtab[k / 32] == full
        invariant from <= k <= stop && k % 32 == 0
        invariant forall y :: from <= y < k ==> IsSet(bh, y) == v
        decreases stop - k
      {
        SameWord(bh, k, v);
        k := k + 32;
      }
      b := TestBh(bhtab, k);
      while b == v
        invariant from <= k <= stop && b == IsSet(bh, k)
        invariant forall y :: from <= y < k ==> IsSet(bh, y) == v
        decreases stop - k
      {
        k := k + 1;
        b := TestBh(bhtab, k);
      }
    }
  }

  lemma SameWord(bh: seq<bv32>, k: int, v: bool)
    requires 0 <= k < 32 * |bh| && k % 32 == 0
    requires bh[k / 32] == if v then 0xffff_ffff else 0
    ensures forall y :: k <= y < k + 32 ==> IsSet(bh, y) == v
  {
    forall y | k <= y < k + 32 ensures IsSet(bh, y) == v {
      assert y / 32 == k / 32;
      if v { FullWord(bh[k / 32], y % 32); } else { EmptyWord(bh[k / 32], y % 32); }
    }
  }
}

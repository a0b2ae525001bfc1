/**
 Prefix doubling, the idea of the fallback sort: when the listing is ordered by the
 first `h` symbols and headers mark the classes of rotations that agree on them, the
 class of the rotation `h` places on is a key that orders by the first `2h`.
 */
module Doubling {
  import opened Rotations
  import opened Permutations
  import opened RangeSort
  import opened Bitmap
  import opened FallbackQSort

  /** The listing is ordered by the first `h` symbols. */
  ghost predicate OrderedTo(b: seq<byte>, f: seq<int>, h: nat) {
    && Permutation(f, |b|)
    && forall p, q :: 0 <= p < q < |b| ==> Cmp(b, f[p], f[q], h) <= 0
  }

  /** Headers mark exactly the places where the first `h` symbols change. */
  ghost predicate Classes(b: seq<byte>, f: seq<int>, bh: seq<bv32>, h: nat) {
    && OrderedTo(b, f, h) && IsSet(bh, 0)
    && forall p :: 0 < p < |b| ==> IsSet(bh, p) == (Cmp(b, f[p - 1], f[p], h) != 0)
  }

  /** The round with step `h` has refined the places up to and including `r`. */
  ghost predicate Refining(b: seq<byte>, f: seq<int>, bh: seq<bv32>, h: nat, r: int) {
    && OrderedTo(b, f, h) && IsSet(bh, 0) && r < |b|
    && (forall p, q :: 0 <= p < q <= r ==> Cmp(b, f[p], f[q], 2 * h) <= 0)
    && (forall p :: 0 < p <= r ==> IsSet(bh, p) == (Cmp(b, f[p - 1], f[p], 2 * h) != 0))
    && (forall p :: r < p < |b| && 0 < p ==> IsSet(bh, p) == (Cmp(b, f[p - 1], f[p], h) != 0))
  }

  ghost predicate Sentinels(bh: seq<bv32>, n: nat) {
    IsSet(bh, n) && !IsSet(bh, n + 1) && n + 1 < 32 * |bh|
  }

  /** The class of a place: the nearest header at or before it. */
  ghost function LastHeader(bh: seq<bv32>, p: int): (j: int)
    requires 0 <= p
    ensures 0 <= j <= p
  {
    if p == 0 || IsSet(bh, p) then p else LastHeader(bh, p - 1)
  }

  lemma {:induction false} CmpZeroTrans(b: seq<byte>, i: int, j: int, k: int, m: nat)
    requires 0 <= i < |b| && 0 <= j < |b| && 0 <= k < |b|
    requires Cmp(b, j, k, m) == 0
    ensures Cmp(b, i, j, m) == 0 <==> Cmp(b, i, k, m) == 0
    ensures Cmp(b, i, j, m) <= 0 <==> Cmp(b, i, k, m) <= 0
    ensures Cmp(b, j, i, m) <= 0 <==> Cmp(b, k, i, m) <= 0
  {
    CmpAnti(b, j, k, m);
    CmpAnti(b, i, j, m);
    CmpAnti(b, i, k, m);
    if Cmp(b, i, j, m) <= 0 { CmpTrans(b, i, j, k, m); }
    if Cmp(b, i, k, m) <= 0 { CmpTrans(b, i, k, j, m); }
    if Cmp(b, j, i, m) <= 0 { CmpTrans(b, k, j, i, m); }
    if Cmp(b, k, i, m) <= 0 { CmpTrans(b, j, k, i, m); }
  }

  lemma {:induction false} ClassOrder(b: seq<byte>, f: seq<int>, bh: seq<bv32>, h: nat, p: int, q: int)
    requires Classes(b, f, bh, h) && 0 <= p <= q < |b|
    ensures LastHeader(bh, p) <= LastHeader(bh, q)
    ensures LastHeader(bh, p) == LastHeader(bh, q) <==> Cmp(b, f[p], f[q], h) == 0
    decreases q
  {
    if p == q {
      CmpRefl(b, f[p], h);
    } else {
      ClassOrder(b, f, bh, h, p, q - 1);
      assert Cmp(b, f[p], f[q], h) <= 0;
      if IsSet(bh, q) {
        assert Cmp(b, f[q - 1], f[q], h) < 0;
        if p < q - 1 { assert Cmp(b, f[p], f[q - 1], h) <= 0; } else { CmpRefl(b, f[p], h); }
        CmpTrans(b, f[p], f[q - 1], f[q], h);
      } else {
        CmpZeroTrans(b, f[p], f[q - 1], f[q], h);
      }
    }
  }

  /** `y` moved `h` places back. */
  function Back(n: nat, y: int, h: nat): int {
    if y - h < 0 then y - h + n else y - h
  }

  lemma BackAdv(n: nat, y: int, h: nat)
    requires 0 <= y < n && h <= n
    ensures 0 <= Back(n, y, h) < n && Adv(n, Back(n, y, h), h) == y
    ensures Back(n, Adv(n, y, h), h) == y
  {
    AdvWrap(n, Back(n, y, h), h);
    AdvWrap(n, y, h);
  }

  /** The class numbers order rotations by what follows their first `h` symbols. */
  ghost predicate ClassNumbers(b: seq<byte>, e: seq<int>, h: nat) {
    && |e| == |b|
    && forall x, y :: 0 <= x < |b| && 0 <= y < |b| ==>
      (e[x] <= e[y] <==> Cmp(b, Adv(|b|, x, h), Adv(|b|, y, h), h) <= 0)
  }

  lemma {:induction false} ClassNumbersFrom(b: seq<byte>, f: seq<int>, bh: seq<bv32>, e: seq<int>, h: nat)
    requires Classes(b, f, bh, h) && h <= |b| == |e|
    requires forall p :: 0 <= p < |b| ==> 0 <= Back(|b|, f[p], h) < |b| && e[Back(|b|, f[p], h)] == LastHeader(bh, p)
    ensures ClassNumbers(b, e, h)
  {
    var n := |b|;
    forall x, y | 0 <= x < n && 0 <= y < n
      ensures e[x] <= e[y] <==> Cmp(b, Adv(n, x, h), Adv(n, y, h), h) <= 0
    {
      BackAdv(n, x, h);
      BackAdv(n, y, h);
      var p, q := IndexOf(f, n, Adv(n, x, h)), IndexOf(f, n, Adv(n, y, h));
      CmpAnti(b, f[p], f[q], h);
      if p <= q { ClassOrder(b, f, bh, h, p, q); CmpRefl(b, f[p], h); assert Cmp(b, f[p], f[q], h) <= 0; }
      else { ClassOrder(b, f, bh, h, q, p); assert Cmp(b, f[q], f[p], h) <= 0; }
    }
  }

  /** Within a class of the first `h` symbols, the class numbers order by the first `2h`. */
  lemma {:induction false} WithinClass(b: seq<byte>, e: seq<int>, h: nat, x: int, y: int)
    requires ClassNumbers(b, e, h) && 0 <= x < |b| && 0 <= y < |b| && Cmp(b, x, y, h) == 0
    ensures e[x] <= e[y] <==> Cmp(b, x, y, 2 * h) <= 0
    ensures e[x] == e[y] <==> Cmp(b, x, y, 2 * h) == 0
  {
    var n := |b|;
    CmpSplit(b, x, y, h, h);
    CmpAnti(b, Adv(n, x, h), Adv(n, y, h), h);
    assert e[y] <= e[x] <==> Cmp(b, Adv(n, y, h), Adv(n, x, h), h) <= 0;
  }

  /** Between two places with a header in between, or at the later one, the difference is
      already within the first `h` symbols. */
  lemma {:induction false} AcrossHeader(b: seq<byte>, f: seq<int>, h: nat, p: int, m: int, q: int)
    requires OrderedTo(b, f, h) && 0 <= p < m <= q < |b| && Cmp(b, f[m - 1], f[m], h) != 0
    ensures Cmp(b, f[p], f[q], h) < 0 && Cmp(b, f[p], f[q], 2 * h) < 0
  {
    assert Cmp(b, f[m - 1], f[m], h) <= 0;
    if p < m - 1 {
      assert Cmp(b, f[p], f[m - 1], h) <= 0;
      CmpTrans(b, f[p], f[m - 1], f[m], h);
    }
    if m < q {
      assert Cmp(b, f[m], f[q], h) <= 0;
      CmpTrans(b, f[p], f[m], f[q], h);
    }
    CmpEarly(b, f[p], f[q], h, 2 * h);
  }

  /** A stretch of headers is a stretch of classes of one, and needs no sorting. */
  lemma {:induction false} SkipSingles(b: seq<byte>, f: seq<int>, bh: seq<bv32>, h: nat, r: int, l: int)
    requires Refining(b, f, bh, h, r) && -1 <= r <= l < |b|
    requires forall y :: r < y <= l ==> IsSet(bh, y)
    ensures Refining(b, f, bh, h, l)
  {
    forall p, q | 0 <= p < q <= l ensures Cmp(b, f[p], f[q], 2 * h) <= 0 {
      if q > r { AcrossHeader(b, f, h, p, q, q); }
    }
    forall p | 0 < p <= l ensures IsSet(bh, p) == (Cmp(b, f[p - 1], f[p], 2 * h) != 0) {
      if p > r { AcrossHeader(b, f, h, p - 1, p, p); }
    }
  }

  /** All rotations of a bucket agree on their first `h` symbols. */
  lemma {:induction false} BucketAgrees(b: seq<byte>, f: seq<int>, bh: seq<bv32>, h: nat, l: int, p: int, q: int)
    requires OrderedTo(b, f, h) && 0 <= l <= p <= q < |b|
    requires forall y :: l < y <= q ==> Cmp(b, f[y - 1], f[y], h) == 0
    ensures Cmp(b, f[p], f[q], h) == 0
    decreases q
  {
    if p == q { CmpRefl(b, f[p], h); }
    else {
      BucketAgrees(b, f, bh, h, l, p, q - 1);
      CmpZeroTrans(b, f[p], f[q - 1], f[q], h);
    }
  }

  /** `l..r` is a bucket that the round has not yet touched. */
  ghost predicate Bucket(bh: seq<bv32>, l: int, r: int) {
    && 0 <= l <= r && IsSet(bh, l) && IsSet(bh, r + 1)
    && forall y :: l < y <= r ==> !IsSet(bh, y)
  }

  /** Headers of a sorted bucket mark the changes of class number, and nothing else changed. */
  ghost predicate Reheaded(bh: seq<bv32>, bh': seq<bv32>, g: seq<int>, e: seq<int>, l: int, r: int)
    requires 0 <= l && r < |g| && forall k :: l <= k <= r ==> 0 <= g[k] < |e|
  {
    && (forall y :: !(l < y <= r) ==> IsSet(bh', y) == IsSet(bh, y))
    && forall y :: l < y <= r ==> IsSet(bh', y) == (e[g[y - 1]] != e[g[y]])
  }

  /** Rearranging a bucket keeps the order by the first `h` symbols. */
  lemma {:induction false} BucketKeepsOrder(b: seq<byte>, f: seq<int>, g: seq<int>, h: nat, l: int, r: int, p: int,
    q: int)
    requires OrderedTo(b, f, h) && Rearranged(f, g, l, r) && Permutation(g, |b|) && l <= r
    requires forall y :: l < y <= r ==> Cmp(b, f[y - 1], f[y], h) == 0
    requires 0 <= p < q < |b|
    ensures Cmp(b, g[p], g[q], h) <= 0
    ensures l <= p && q <= r ==> Cmp(b, g[p], g[q], h) == 0
    ensures p < l <= q && l > 0 && Cmp(b, f[l - 1], f[l], h) != 0 ==> Cmp(b, g[p], g[q], h) < 0
    ensures p <= r < q && Cmp(b, f[r], f[r + 1], h) != 0 ==> Cmp(b, g[p], g[q], h) < 0
  {
    var p', q' := p, q;
    if l <= p <= r { p' := RearrangedFrom(f, g, l, r, p); }
    if l <= q <= r { q' := RearrangedFrom(f, g, l, r, q); }
    if l <= p && q <= r {
      if p' <= q' {
        BucketAgrees(b, f, [], h, l, p', q');
      } else {
        BucketAgrees(b, f, [], h, l, q', p');
        CmpAnti(b, f[p'], f[q'], h);
      }
    } else {
      assert p' < q';
      if p < l <= q && l > 0 && Cmp(b, f[l - 1], f[l], h) != 0 { AcrossHeader(b, f, h, p', l, q'); }
      if p <= r < q && Cmp(b, f[r], f[r + 1], h) != 0 { AcrossHeader(b, f, h, p', r + 1, q'); }
    }
  }

  /** After sorting one bucket by class number, places up to its end are ordered by the first `2h`
      symbols. */
  lemma {:induction false} RefinedPair(b: seq<byte>, f: seq<int>, g: seq<int>, bh: seq<bv32>, e: seq<int>, h: nat,
    l: int, r: int, p: int, q: int)
    requires Refining(b, f, bh, h, l - 1) && Bucket(bh, l, r) && r < |b| && ClassNumbers(b, e, h)
    requires Rearranged(f, g, l, r) && Permutation(g, |b|) && SortedByKey(g, e, l, r)
    requires 0 <= p < q < |b|
    ensures Cmp(b, g[p], g[q], h) <= 0 && (q <= r ==> Cmp(b, g[p], g[q], 2 * h) <= 0)
  {
    hide Cmp, IsSet;
    BucketKeepsOrder(b, f, g, h, l, r, p, q);
    if l <= q <= r {
      if p < l {
        CmpEarly(b, g[p], g[q], h, 2 * h);
      } else {
        WithinClass(b, e, h, g[p], g[q]);
        assert KeyLe(e)(g[p], g[q]);
      }
    }
  }

  lemma {:induction false} RefinedHeader(b: seq<byte>, f: seq<int>, g: seq<int>, bh: seq<bv32>, bh': seq<bv32>,
    e: seq<int>, h: nat, l: int, r: int, p: int)
    requires Refining(b, f, bh, h, l - 1) && Bucket(bh, l, r) && r < |b| && ClassNumbers(b, e, h)
    requires Rearranged(f, g, l, r) && Permutation(g, |b|) && SortedByKey(g, e, l, r)
    requires Reheaded(bh, bh', g, e, l, r) && 0 < p < |b|
    ensures IsSet(bh', p) == (Cmp(b, g[p - 1], g[p], if p <= r then 2 * h else h) != 0)
  {
    hide Cmp, IsSet;
    BucketKeepsOrder(b, f, g, h, l, r, p - 1, p);
    if p == l {
      CmpEarly(b, g[p - 1], g[p], h, 2 * h);
    } else if l < p <= r {
      WithinClass(b, e, h, g[p - 1], g[p]);
    }
  }

  /** Sorting one bucket by class number and marking the changes refines it. */
  lemma {:induction false} BucketRefined(b: seq<byte>, f: seq<int>, g: seq<int>, bh: seq<bv32>, bh': seq<bv32>,
    e: seq<int>, h: nat, l: int, r: int)
    requires Refining(b, f, bh, h, l - 1) && Bucket(bh, l, r) && r < |b|
    requires ClassNumbers(b, e, h)
    requires Rearranged(f, g, l, r) && Permutation(g, |b|) && SortedByKey(g, e, l, r)
    requires Reheaded(bh, bh', g, e, l, r)
    ensures Refining(b, g, bh', h, r)
  {
    hide Cmp, IsSet, Rearranged, ClassNumbers, Bucket;
    assert 0 <= l && IsSet(bh', 0) by { HeaderStays(b, f, bh, bh', g, e, h, l, r); }
    forall p, q | 0 <= p < q < |b| ensures Cmp(b, g[p], g[q], h) <= 0 && (q <= r ==> Cmp(b, g[p], g[q], 2 * h) <= 0) {
      RefinedPair(b, f, g, bh, e, h, l, r, p, q);
    }
    forall p | 0 < p < |b| ensures IsSet(bh', p) == (Cmp(b, g[p - 1], g[p], if p <= r then 2 * h else h) != 0) {
      RefinedHeader(b, f, g, bh, bh', e, h, l, r, p);
    }
  }

  lemma HeaderStays(b: seq<byte>, f: seq<int>, bh: seq<bv32>, bh': seq<bv32>, g: seq<int>, e: seq<int>, h: nat,
    l: int, r: int)
    requires Refining(b, f, bh, h, l - 1) && Bucket(bh, l, r) && r < |b|
    requires ClassNumbers(b, e, h) && Permutation(g, |b|) && Reheaded(bh, bh', g, e, l, r)
    ensures 0 <= l && IsSet(bh', 0)
  {
    hide IsSet, Cmp;
  }

  /** The end of a round: everything refined is the next state of the classes. */
  lemma {:induction false} RoundEnds(b: seq<byte>, f: seq<int>, bh: seq<bv32>, h: nat)
    requires |b| > 0 && Refining(b, f, bh, h, |b| - 1)
    ensures Classes(b, f, bh, 2 * h)
  {
  }

  /** The start of a round. */
  lemma RoundStarts(b: seq<byte>, f: seq<int>, bh: seq<bv32>, h: nat)
    requires |b| > 0 && Classes(b, f, bh, h)
    ensures Refining(b, f, bh, h, -1)
  {
  }

  /** Order by `h` symbols is the order of rotations once `h` reaches the block length, or all
      classes are single. */
  lemma {:induction false} OrderedEnough(b: seq<byte>, f: seq<int>, bh: seq<bv32>, h: nat)
    requires |b| > 0 && Classes(b, f, bh, h)
    requires h >= |b| || forall p :: 0 < p < |b| ==> IsSet(bh, p)
    ensures forall p, q :: 0 <= p < q < |b| ==> RotLe(b, f[p], f[q])
  {
    forall p, q | 0 <= p < q < |b| ensures RotLe(b, f[p], f[q]) {
      assert Cmp(b, f[p], f[q], h) <= 0;
      if h >= |b| {
        CmpFull(b, f[p], f[q], h);
      } else {
        AcrossHeader(b, f, h, p, q, q);
        CmpEarly(b, f[p], f[q], h, |b|);
      }
    }
  }
}

/**
 The cyclic rotations of a block and their lexicographic order.  A rotation is
 named by the position at which it starts.  Both block sorters, and the decoder's
 inverse transform, are specified against the order defined here.
 */
module Rotations {

  type byte = x: nat | x < 256

  /** The position after `i`, cyclically. */
  function Next(n: nat, i: int): (r: int)
    requires 0 <= i < n
    ensures 0 <= r < n
  {
    if i + 1 == n then 0 else i + 1
  }

  /** The position before `i`, cyclically. */
  function Prev(n: nat, i: int): (r: int)
    requires 0 <= i < n
    ensures 0 <= r < n
    ensures Next(n, r) == i
  {
    if i == 0 then n - 1 else i - 1
  }

  /** `i` moved `k` places forward, cyclically. */
  function Adv(n: nat, i: int, k: nat): (r: int)
    requires 0 <= i < n
    ensures 0 <= r < n
    decreases k
  {
    if k == 0 then i else Adv(n, Next(n, i), k - 1)
  }

  /** Lexicographic comparison of the first `m` symbols of rotations `i` and `j`:
      negative, zero or positive. */
  function Cmp(b: seq<byte>, i: int, j: int, m: nat): (c: int)
    requires 0 <= i < |b| && 0 <= j < |b|
    decreases m
  {
    if m == 0 then 0
    else if b[i] != b[j] then b[i] - b[j]
    else Cmp(b, Next(|b|, i), Next(|b|, j), m - 1)
  }

  /** Rotation `i` does not come after rotation `j`. */
  predicate RotLe(b: seq<byte>, i: int, j: int)
    requires 0 <= i < |b| && 0 <= j < |b|
  {
    Cmp(b, i, j, |b|) <= 0
  }

  /** The symbol `d` places into rotation `i`. */
  function At(b: seq<byte>, i: int, d: nat): byte
    requires 0 <= i < |b|
  {
    b[Adv(|b|, i, d)]
  }

  /** `Cmp` is the lexicographic order: it is zero when all symbols agree, and negative
      exactly when some common prefix is followed by a smaller symbol. */
  lemma {:induction false} CmpIsLexicographic(b: seq<byte>, i: int, j: int, m: nat)
    requires 0 <= i < |b| && 0 <= j < |b|
    ensures Cmp(b, i, j, m) == 0 <==> forall d: nat | d < m :: At(b, i, d) == At(b, j, d)
    ensures Cmp(b, i, j, m) < 0 <==>
            exists d: nat :: d < m && At(b, i, d) < At(b, j, d) && forall e: nat | e < d :: At(b, i, e) == At(b, j, e)
    decreases m
  {
    if m > 0 {
      var i', j' := Next(|b|, i), Next(|b|, j);
      CmpIsLexicographic(b, i', j', m - 1);
      assert At(b, i, 0) == b[i] && At(b, j, 0) == b[j];
      assert forall d: nat | d < m - 1 :: At(b, i', d) == At(b, i, d + 1) && At(b, j', d) == At(b, j, d + 1);
      assert forall d: nat | 0 < d < m :: At(b, i, d) == At(b, i', d - 1) && At(b, j, d) == At(b, j', d - 1);
    }
  }

  lemma {:induction false} CmpAnti(b: seq<byte>, i: int, j: int, m: nat)
    requires 0 <= i < |b| && 0 <= j < |b|
    ensures Cmp(b, i, j, m) == -Cmp(b, j, i, m)
    decreases m
  {
    if m > 0 && b[i] == b[j] {
      CmpAnti(b, Next(|b|, i), Next(|b|, j), m - 1);
    }
  }

  lemma CmpRefl(b: seq<byte>, i: int, m: nat)
    requires 0 <= i < |b|
    ensures Cmp(b, i, i, m) == 0
    decreases m
  {
    if m > 0 { CmpRefl(b, Next(|b|, i), m - 1); }
  }

  lemma {:induction false} CmpTrans(b: seq<byte>, i: int, j: int, k: int, m: nat)
    requires 0 <= i < |b| && 0 <= j < |b| && 0 <= k < |b|
    requires Cmp(b, i, j, m) <= 0 && Cmp(b, j, k, m) <= 0
    ensures Cmp(b, i, k, m) <= 0
    ensures Cmp(b, i, j, m) < 0 || Cmp(b, j, k, m) < 0 ==> Cmp(b, i, k, m) < 0
    decreases m
  {
    if m > 0 && b[i] == b[j] == b[k] {
      CmpTrans(b, Next(|b|, i), Next(|b|, j), Next(|b|, k), m - 1);
    }
  }

  lemma {:induction false} AdvAdd(n: nat, i: int, k: nat, l: nat)
    requires 0 <= i < n
    ensures Adv(n, Adv(n, i, k), l) == Adv(n, i, k + l)
    decreases k
  {
    if k > 0 { AdvAdd(n, Next(n, i), k - 1, l); }
  }

  lemma {:induction false} AdvWrap(n: nat, i: int, k: nat)
    requires 0 <= i < n && k <= n
    ensures Adv(n, i, k) == if i + k < n then i + k else i + k - n
    decreases k
  {
    if k > 0 { AdvWrap(n, Next(n, i), k - 1); }
  }

  /** Comparing `k + l` symbols is comparing `k`, then `l` more from `k` places on. */
  lemma {:induction false} CmpSplit(b: seq<byte>, i: int, j: int, k: nat, l: nat)
    requires 0 <= i < |b| && 0 <= j < |b|
    ensures Cmp(b, i, j, k + l) ==
            if Cmp(b, i, j, k) != 0 then Cmp(b, i, j, k) else Cmp(b, Adv(|b|, i, k), Adv(|b|, j, k), l)
    decreases k
  {
    if k > 0 && b[i] == b[j] {
      CmpSplit(b, Next(|b|, i), Next(|b|, j), k - 1, l);
    }
  }

  lemma {:induction false} CmpZeroForever(b: seq<byte>, i: int, j: int, m: nat)
    requires 0 <= i < |b| && 0 <= j < |b|
    requires Cmp(b, i, j, |b|) == 0
    ensures Cmp(b, i, j, m) == 0
    decreases m
  {
    var n := |b|;
    if m <= n {
      CmpSplit(b, i, j, m, n - m);
    } else {
      CmpSplit(b, i, j, n, m - n);
      AdvWrap(n, i, n);
      AdvWrap(n, j, n);
      CmpZeroForever(b, i, j, m - n);
    }
  }

  /** Looking further than the block length decides nothing more. */
  lemma {:induction false} CmpFull(b: seq<byte>, i: int, j: int, m: nat)
    requires 0 <= i < |b| && 0 <= j < |b| && m >= |b|
    ensures Cmp(b, i, j, m) == Cmp(b, i, j, |b|)
  {
    CmpSplit(b, i, j, |b|, m - |b|);
    if Cmp(b, i, j, |b|) == 0 { CmpZeroForever(b, i, j, m); }
  }

  /** A difference within the first `k` symbols is final. */
  lemma {:induction false} CmpEarly(b: seq<byte>, i: int, j: int, k: nat, m: nat)
    requires 0 <= i < |b| && 0 <= j < |b| && k <= m
    ensures Cmp(b, i, j, k) != 0 ==> Cmp(b, i, j, m) == Cmp(b, i, j, k)
    ensures Cmp(b, i, j, m) <= 0 ==> Cmp(b, i, j, k) <= 0
    ensures Cmp(b, i, j, m) == 0 ==> Cmp(b, i, j, k) == 0
  {
    CmpSplit(b, i, j, k, m - k);
  }

  /** Rotations that agree on their first `d` symbols compare as their continuations do. */
  lemma {:induction false} CmpDrop(b: seq<byte>, i: int, j: int, d: nat)
    requires 0 <= i < |b| && 0 <= j < |b|
    requires Cmp(b, i, j, d) == 0
    ensures Cmp(b, Adv(|b|, i, d), Adv(|b|, j, d), |b|) == Cmp(b, i, j, |b|)
  {
    CmpSplit(b, i, j, d, |b|);
    CmpFull(b, i, j, d + |b|);
  }

  /** Prefixing equal symbols does not change the order of two rotations. */
  lemma {:induction false} CmpPrev(b: seq<byte>, i: int, j: int)
    requires 0 <= i < |b| && 0 <= j < |b|
    ensures var n := |b|; var pi, pj := Prev(n, i), Prev(n, j);
            Cmp(b, pi, pj, n) == if b[pi] != b[pj] then b[pi] - b[pj] else Cmp(b, i, j, n)
  {
    var n := |b|;
    CmpFull(b, Prev(n, i), Prev(n, j), n + 1);
  }
}

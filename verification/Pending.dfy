/**
 Quicksort with an explicit stack: the ranges on the stack are still to be sorted, and
 every pair of places not inside one of them is already in order.
 */
module Pending {
  import opened RangeSort

  /** A range of places still to be sorted; the elements in it agree to depth `d`. */
  datatype Range = Range(lo: int, hi: int, d: int)

  ghost predicate Covered(st: seq<Range>, p: int, q: int) {
    exists i :: 0 <= i < |st| && st[i].lo <= p && q <= st[i].hi
  }

  ghost predicate DisjointRanges(st: seq<Range>) {
    forall i, j :: 0 <= i < j < |st| ==> st[i].hi < st[j].lo || st[j].hi < st[i].lo
  }

  ghost predicate Within(st: seq<Range>, lo: int, hi: int) {
    forall i :: 0 <= i < |st| ==> lo <= st[i].lo <= st[i].hi + 1 <= hi + 1
  }

  ghost predicate OrderedOutside(f: seq<int>, le: (int, int) -> bool, st: seq<Range>, lo: int, hi: int)
    requires 0 <= lo && hi < |f|
  {
    forall p, q :: lo <= p < q <= hi && !le(f[p], f[q]) ==> Covered(st, p, q)
  }

  ghost predicate StackOk(f: seq<int>, le: (int, int) -> bool, st: seq<Range>, lo: int, hi: int)
    requires 0 <= lo && hi < |f|
  {
    DisjointRanges(st) && Within(st, lo, hi) && OrderedOutside(f, le, st, lo, hi)
  }

  /** Rearranging the top range, and replacing it by ranges inside it that cover what is still
      out of order there, keeps the stack's meaning. */
  lemma {:induction false} RangeStep(f: seq<int>, g: seq<int>, le: (int, int) -> bool, st: seq<Range>, e: Range,
    sub: seq<Range>, lo: int, hi: int)
    requires 0 <= lo && hi < |f|
    requires StackOk(f, le, st + [e], lo, hi)
    requires Rearranged(f, g, e.lo, e.hi)
    requires DisjointRanges(sub) && Within(sub, e.lo, e.hi)
    requires forall p, q :: e.lo <= p < q <= e.hi && !le(g[p], g[q]) ==> Covered(sub, p, q)
    ensures StackOk(g, le, st + sub, lo, hi)
  {
    var old', new' := st + [e], st + sub;
    assert old'[|st|] == e;
    forall i, j | 0 <= i < j < |new'| ensures new'[i].hi < new'[j].lo || new'[j].hi < new'[i].lo {
      if i < |st| {
        assert old'[i] == st[i];
        if j < |st| { assert old'[j] == st[j]; }
        else { assert new'[j] == sub[j - |st|]; }
      } else {
        assert new'[i] == sub[i - |st|] && new'[j] == sub[j - |st|];
      }
    }
    forall i | 0 <= i < |new'| ensures lo <= new'[i].lo <= new'[i].hi + 1 <= hi + 1 {
      if i < |st| { assert old'[i] == st[i]; } else { assert new'[i] == sub[i - |st|]; }
    }
    forall p, q | lo <= p < q <= hi && !le(g[p], g[q]) ensures Covered(new', p, q) {
      if e.lo <= p && q <= e.hi {
        var i :| 0 <= i < |sub| && sub[i].lo <= p && q <= sub[i].hi;
        assert new'[|st| + i] == sub[i];
      } else {
        PairOutside(f, g, le, st, e, lo, hi, p, q);
        var i :| 0 <= i < |st| && st[i].lo <= p && q <= st[i].hi;
        assert new'[i] == st[i];
      }
    }
  }

  lemma {:induction false} PairOutside(f: seq<int>, g: seq<int>, le: (int, int) -> bool, st: seq<Range>, e: Range,
    lo: int, hi: int, p: int, q: int)
    requires 0 <= lo && hi < |f|
    requires StackOk(f, le, st + [e], lo, hi)
    requires Rearranged(f, g, e.lo, e.hi)
    requires lo <= p < q <= hi && !le(g[p], g[q]) && !(e.lo <= p && q <= e.hi)
    ensures Covered(st, p, q)
  {
    var old' := st + [e];
    assert old'[|st|] == e;
    var p', q' := p, q;
    if e.lo <= p <= e.hi { p' := RearrangedFrom(f, g, e.lo, e.hi, p); }
    if e.lo <= q <= e.hi { q' := RearrangedFrom(f, g, e.lo, e.hi, q); }
    var i :| 0 <= i < |old'| && old'[i].lo <= p' && q' <= old'[i].hi;
    if i == |st| {
      assert false;
    }
    assert old'[i] == st[i];
    assert st[i].hi < e.lo || e.hi < st[i].lo;
  }

  /** With nothing pending everything is in order. */
  lemma StackEmpty(f: seq<int>, le: (int, int) -> bool, lo: int, hi: int)
    requires 0 <= lo && hi < |f| && StackOk(f, le, [], lo, hi)
    ensures forall p, q :: lo <= p < q <= hi ==> le(f[p], f[q])
  {
  }

  // ---------------------------------------------------------------- depth of the stack

  function Size(e: Range): int {
    e.hi - e.lo + 1
  }

  function Pow3(k: nat): (p: nat)
    ensures p >= 1
  {
    if k == 0 then 1 else 3 * Pow3(k - 1)
  }

  lemma Pow3Mono(a: nat, b: nat)
    requires a <= b
    ensures Pow3(a) <= Pow3(b)
    decreases b - a
  {
    if a < b { Pow3Mono(a + 1, b); }
  }

  /** Entry `i` is smaller than the whole by a factor of the square root of 3 to the `i`. */
  ghost predicate Shallow(st: seq<Range>, n: nat) {
    forall i {:trigger st[i]} :: 0 <= i < |st| ==> Fits(Size(st[i]), i, n)
  }

  ghost predicate Fits(size: int, i: nat, n: nat) {
    size * size * Pow3(i) <= n * n
  }

  /** A part at most half as large may go one place higher, and a part at most a third as
      large two places higher. */
  lemma {:induction false} FitsHigher(s: int, t: int, i: nat, n: nat)
    requires 0 <= t && Fits(s, i, n)
    ensures t <= s ==> Fits(t, i, n)
    ensures 2 * t <= s ==> Fits(t, i + 1, n)
    ensures 3 * t <= s ==> Fits(t, i + 2, n)
  {
    var p := Pow3(i);
    assert Pow3(i + 1) == 3 * p && Pow3(i + 2) == 9 * p;
    if t <= s {
      ProductMono(t, s, p);
    }
    if 2 * t <= s {
      ProductMono(2 * t, s, p);
      assert (2 * t) * (2 * t) * p == 4 * (t * t * p) by { Factor(2, t, p); }
      assert t * t * (3 * p) == 3 * (t * t * p) by { Move(t * t, 3, p); }
      NonNeg(t, p);
    }
    if 3 * t <= s {
      ProductMono(3 * t, s, p);
      assert (3 * t) * (3 * t) * p == 9 * (t * t * p) by { Factor(3, t, p); }
      assert t * t * (9 * p) == 9 * (t * t * p) by { Move(t * t, 9, p); }
    }
  }

  lemma ProductMono(t: int, s: int, p: nat)
    requires 0 <= t <= s
    ensures t * t * p <= s * s * p
  {
    assert t * t <= s * t <= s * s;
  }

  lemma Factor(c: int, t: int, p: nat)
    ensures (c * t) * (c * t) * p == c * c * (t * t * p)
  {
    assert (c * t) * (c * t) == (c * c) * (t * t);
  }

  lemma Move(x: int, c: int, p: int)
    ensures x * (c * p) == c * (x * p)
  {
  }

  lemma NonNeg(t: int, p: nat)
    ensures t * t * p >= 0
  {
    assert t * t >= 0;
  }

  lemma Pow3Add(a: nat, b: nat)
    ensures Pow3(a + b) == Pow3(a) * Pow3(b)
  {
    if a > 0 { Pow3Add(a - 1, b); }
  }

  lemma Pow3At21()
    ensures Pow3(21) == 10460353203
  {
    var x := Pow3(7);
    assert x == 2187;
    Pow3Add(7, 7);
    Pow3Add(14, 7);
    assert Pow3(14) == 4782969;
  }

  /** A range large enough to be split lies low in the stack. */
  lemma {:induction false} SplitLow(s: int, i: nat, n: nat)
    requires s >= 11 && n <= 900000 && Fits(s, i, n)
    ensures i <= 20
  {
    if i > 20 {
      hide Pow3;
      Pow3Mono(21, i);
      Pow3At21();
      MulMono(n, 900000, n, 900000);
      MulMono(11, s, 11, s);
      MulMono(121, s * s, Pow3(21), Pow3(i));
    }
  }

  lemma MulMono(a: int, b: int, c: int, d: int)
    requires 0 <= a <= b && 0 <= c <= d
    ensures a * c <= b * d
  {
    assert a * c <= b * c <= b * d;
  }

  // ---------------------------------------------------------------- progress

  /** Splitting off the pivots, or moving them one symbol deeper, lowers the total weight. */
  function Weight(st: seq<Range>): int {
    if |st| == 0 then 0 else Weight(st[..|st| - 1]) + 4 * Size(st[|st| - 1]) * (16 - st[|st| - 1].d) + 1
  }

  lemma WeightPush(st: seq<Range>, e: Range)
    ensures Weight(st + [e]) == Weight(st) + 4 * Size(e) * (16 - e.d) + 1
  {
    assert (st + [e])[..|st|] == st;
  }

  lemma ProductNonNeg(s: int, w: int)
    requires s >= 0 && w >= 0
    ensures 4 * s * w >= 0
  {
  }

  lemma {:induction false} WeightNonNeg(st: seq<Range>)
    requires forall i :: 0 <= i < |st| ==> Size(st[i]) >= 0 && st[i].d <= 15
    ensures Weight(st) >= 0
  {
    if |st| > 0 {
      WeightNonNeg(st[..|st| - 1]);
      var e := st[|st| - 1];
      ProductNonNeg(Size(e), 16 - e.d);
    }
  }
}

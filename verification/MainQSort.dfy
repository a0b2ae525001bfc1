/**
 Three-way string quicksort of a range of rotations that agree on their first two
 symbols, with an explicit stack.
 */
module MainQSort {
  import opened Rotations
  import opened RangeSort
  import opened Pending
  import opened MainOrder
  import opened MainSimpleSort

  const SMALL_THRESH := 20
  const DEPTH_THRESH := 14
  const STACK_SIZE := 100

  /** The order of rotations, as a relation on all integers. */
  ghost function RotOrder(b: seq<byte>): (int, int) -> bool {
    (x: int, y: int) => 0 <= x < |b| && 0 <= y < |b| ==> RotLe(b, x, y)
  }

  function Median3(a: int, b: int, c: int): (m: int)
    ensures m == a || m == b || m == c
    ensures (a <= m || b <= m) && (b <= m || c <= m) && (a <= m || c <= m)
    ensures (a >= m || b >= m) && (b >= m || c >= m) && (a >= m || c >= m)
  {
    var (a', b') := if a > b then (b, a) else (a, b);
    if b' > c then (if a' > c then a' else c) else b'
  }

  /** The keys of the partition: the symbol `d` places into each rotation. */
  function KeyAt(block: seq<int>, n: nat, d: nat): (key: seq<int>)
    ensures |key| == n && forall x :: 0 <= x < n ==> key[x] == Get(block, x + d)
  {
    seq(n, x requires 0 <= x < n => Get(block, x + d))
  }

  // ---------------------------------------------------------------- what the sort computes

  /** A moment of the quicksort. */
  datatype Sorting = Sorting(part: Partial, stack: seq<Range>)

  /** Three ranges, the largest first. */
  function LargestFirst(e0: Range, e1: Range, e2: Range): seq<Range> {
    var (x, y) := if Size(e0) < Size(e1) then (e1, e0) else (e0, e1);
    var (y', z) := if Size(y) < Size(e2) then (e2, y) else (y, e2);
    if Size(x) < Size(y') then [y', x, z] else [x, y', z]
  }

  function PivotOf(f: seq<int>, block: seq<int>, top: Range): int {
    Median3(Get(block, Get(f, top.lo) + top.d), Get(block, Get(f, top.hi) + top.d),
      Get(block, Get(f, (top.lo + top.hi) / 2) + top.d))
  }

  /** The range `top` has been split by the symbol at its depth. */
  function Split(s: Partial, x: Text, rest: seq<Range>, top: Range): (t: Sorting)
    ensures |t.part.f| == |s.f|
  {
    var key := KeyAt(x.block, x.n, if top.d < 0 then 0 else top.d);
    var sc := Scanned(Scan(s.f, top.lo, top.lo, top.hi, top.hi), key, PivotOf(s.f, x.block, top));
    if sc.gtHi < sc.ltLo then Sorting(s.(f := sc.f), rest + [top.(d := top.d + 1)])
    else
      var n, m := top.lo + sc.unLo - sc.ltLo - 1, top.hi - (sc.gtHi - sc.unHi) + 1;
      var parts := LargestFirst(Range(top.lo, n, top.d), Range(m, top.hi, top.d), Range(n + 1, m - 1, top.d + 1));
      Sorting(s.(f := Gathered(sc, top.lo, top.hi)), rest + parts)
  }

  function SmallSorted(s: Partial, x: Text, top: Range): (r: Partial)
    ensures |r.f| == |s.f|
  {
    var r := SimplySorted(s, x, top.lo, top.hi, if top.d < 0 then 0 else top.d);
    r.(abandoned := r.budget < 0)
  }

  /** One turn of the loop over the stack. */
  function Turned(s: Sorting, x: Text): (t: Sorting)
    requires |s.stack| > 0
    ensures |t.part.f| == |s.part.f|
  {
    var top, rest := s.stack[|s.stack| - 1], s.stack[..|s.stack| - 1];
    if top.hi - top.lo < SMALL_THRESH || top.d > DEPTH_THRESH then Sorting(SmallSorted(s.part, x, top), rest)
    else Split(s.part, x, rest, top)
  }

  /** The listing when the stack is empty or the sort is abandoned.  Every turn makes the stack
      lighter. */
  function QSorted(s: Sorting, x: Text): (r: Partial)
    ensures |r.f| == |s.part.f|
    decreases Weight(s.stack)
  {
    if |s.stack| == 0 || s.part.abandoned then s.part
    else
      var t := Turned(s, x);
      if 0 <= Weight(t.stack) < Weight(s.stack) then QSorted(t, x) else t.part
  }

  lemma QSortedStep(s: Sorting, x: Text)
    ensures |s.stack| == 0 || s.part.abandoned ==> QSorted(s, x) == s.part
    ensures |s.stack| > 0 && !s.part.abandoned && 0 <= Weight(Turned(s, x).stack) < Weight(s.stack) ==>
              QSorted(s, x) == QSorted(Turned(s, x), x)
  {
    hide Turned, Weight;
  }

  /** Two rotations of which the first is not greater stay; they cost one comparison. */
  lemma TwoSorted(f: seq<int>, budget: int, x: Text, lo: int)
    requires 0 <= lo && lo + 1 < |f| && !Compared(x.block, x.quadrant, x.n, f[lo] + 2, f[lo + 1] + 2).gtu
    ensures var left := budget - Compared(x.block, x.quadrant, x.n, f[lo] + 2, f[lo + 1] + 2).cost;
      QSorted(Sorting(Partial(f, budget, false), [Range(lo, lo + 1, 2)]), x) == Partial(f, left, left < 0)
  {
    hide SimplySorted, Split, Compared;
    var s := Sorting(Partial(f, budget, false), [Range(lo, lo + 1, 2)]);
    TwoEqual(s.part, x, lo, 2);
    WeightPush([], s.stack[0]);
    assert [] + [s.stack[0]] == s.stack;
    assert s.stack[..0] == [];
    QSortedStep(s, x);
    QSortedStep(Turned(s, x), x);
  }

  /** What holds of the ranges on the stack, besides their meaning for the order. */
  ghost predicate StackFits(st: seq<Range>, total: nat) {
    && Shallow(st, total)
    && forall i :: 0 <= i < |st| ==> Size(st[i]) >= 0 && 2 <= st[i].d <= 15
  }

  /** The elements of each pending range agree to its depth. */
  ghost predicate StackAgrees(f: seq<int>, b: seq<byte>, st: seq<Range>) {
    forall i :: 0 <= i < |st| ==> 0 <= st[i].d && Agree(f, b, st[i].lo, st[i].hi, st[i].d)
  }

  lemma {:induction false} PopRange(st: seq<Range>, e: Range, total: nat)
    requires StackFits(st + [e], total)
    ensures StackFits(st, total) && Size(e) >= 0 && 2 <= e.d <= 15 && Fits(Size(e), |st|, total)
    ensures 0 <= Weight(st) < Weight(st + [e])
  {
    var o := st + [e];
    assert o[|st|] == e;
    forall i {:trigger st[i]} | 0 <= i < |st|
      ensures Fits(Size(st[i]), i, total) && Size(st[i]) >= 0 && 2 <= st[i].d <= 15 {
      assert o[i] == st[i];
    }
    WeightPush(st, e);
    WeightNonNeg(st);
    ProductNonNeg(Size(e), 16 - e.d);
  }

  /** The whole range goes back, one symbol deeper. */
  lemma {:induction false} PushDeeper(st: seq<Range>, e: Range, total: nat)
    requires StackFits(st + [e], total) && Size(e) >= 1 && e.d <= 14
    ensures StackFits(st + [e.(d := e.d + 1)], total)
    ensures 0 <= Weight(st + [e.(d := e.d + 1)]) < Weight(st + [e])
  {
    var e' := e.(d := e.d + 1);
    var o, o' := st + [e], st + [e'];
    assert o[|st|] == e && o'[|st|] == e';
    forall i {:trigger o'[i]} | 0 <= i < |o'|
      ensures Fits(Size(o'[i]), i, total) && Size(o'[i]) >= 0 && 2 <= o'[i].d <= 15 {
      if i < |st| { assert o[i] == o'[i]; } else { assert Fits(Size(o[i]), i, total); }
    }
    WeightPush(st, e);
    WeightPush(st, e');
    WeightNonNeg(o');
    Shallower(Size(e), e.d);
  }

  lemma Shallower(s: int, d: int)
    ensures 4 * s * (16 - (d + 1)) == 4 * s * (16 - d) - 4 * s
  {
  }

  /** Three parts replace a range, in order of size, the largest at the bottom. */
  ghost predicate Parts(e: Range, x: Range, y: Range, z: Range) {
    && Size(x) >= Size(y) >= Size(z) >= 0
    && Size(x) + Size(y) + Size(z) == Size(e)
    && e.d <= x.d <= e.d + 1 && e.d <= y.d <= e.d + 1 && e.d <= z.d <= e.d + 1
    && Size(x) * (x.d - e.d) + Size(y) * (y.d - e.d) + Size(z) * (z.d - e.d) >= 1
  }

  lemma {:induction false} PushThree(st: seq<Range>, e: Range, x: Range, y: Range, z: Range, total: nat)
    requires StackFits(st + [e], total) && total <= 900000 && Size(e) >= 21 && e.d <= 14
    requires Parts(e, x, y, z)
    ensures StackFits(st + [x, y, z], total) && |st| <= 20
    ensures 0 <= Weight(st + [x, y, z]) < Weight(st + [e])
  {
    PopRange(st, e, total);
    FitsHigher(Size(e), Size(x), |st|, total);
    FitsHigher(Size(e), Size(y), |st|, total);
    FitsHigher(Size(e), Size(z), |st|, total);
    SplitLow(Size(e), |st|, total);
    var o := st + [x, y, z];
    assert o[|st|] == x && o[|st| + 1] == y && o[|st| + 2] == z;
    forall i {:trigger o[i]} | 0 <= i < |o| ensures Fits(Size(o[i]), i, total) && Size(o[i]) >= 0 && 2 <= o[i].d <= 15 {
      if i < |st| { assert o[i] == st[i]; }
    }
    ThreeWeights(st, e, x, y, z);
    WeightNonNeg(o);
  }

  lemma ThreeWeights(st: seq<Range>, e: Range, x: Range, y: Range, z: Range)
    requires Parts(e, x, y, z)
    ensures Weight(st + [x, y, z]) < Weight(st + [e])
  {
    WeightPush(st, e);
    WeightPush(st, x);
    WeightPush(st + [x], y);
    WeightPush(st + [x] + [y], z);
    assert st + [x, y, z] == st + [x] + [y] + [z];
    DepthGain(Size(x), x.d, e.d);
    DepthGain(Size(y), y.d, e.d);
    DepthGain(Size(z), z.d, e.d);
    Distribute(Size(x), Size(y), Size(z), 16 - e.d);
  }

  lemma DepthGain(s: int, d: int, d0: int)
    ensures 4 * s * (16 - d) == 4 * (s * (16 - d0)) - 4 * (s * (d - d0))
  {
    assert s * (16 - d) == s * (16 - d0) - s * (d - d0);
  }

  lemma Distribute(x: int, y: int, z: int, w: int)
    ensures 4 * (x + y + z) * w == 4 * (x * w) + 4 * (y * w) + 4 * (z * w)
  {
  }

  // ---------------------------------------------------------------- keys and order

  lemma KeyDecides(b: seq<byte>, block: seq<byte>, x: int, y: int, d: nat)
    requires Extended(block, b) && 0 <= x < |b| && 0 <= y < |b| && d <= 14 && Cmp(b, x, y, d) == 0
    ensures block[x + d] < block[y + d] ==> RotLe(b, x, y)
    ensures block[x + d] == block[y + d] ==> Cmp(b, x, y, d + 1) == 0
  {
    var n := |b|;
    AdvWrap(n, x, d);
    AdvWrap(n, y, d);
    CmpSplit(b, x, y, d, 1);
    CmpEarly(b, x, y, d + 1, n);
    assert Cmp(b, Next(n, Adv(n, x, d)), Next(n, Adv(n, y, d)), 0) == 0;
  }

  /** Only pairs inside one of the three parts can still be out of order. */
  lemma PartsCover(g: seq<int>, b: seq<byte>, block: seq<byte>, lo: int, n: int, m: int, hi: int, d: nat, med: int,
    sub: seq<Range>)
    requires Extended(block, b) && d <= 14 && Agree(g, b, lo, hi, d)
    requires ThreeWay(g, KeyAt(block, |b|, d), lo, n, m, hi, med)
    requires Range(lo, n, d) in sub && Range(m, hi, d) in sub && Range(n + 1, m - 1, d + 1) in sub
    ensures forall p, q :: lo <= p < q <= hi && !RotOrder(b)(g[p], g[q]) ==> Covered(sub, p, q)
  {
    hide Cmp, Extended;
    BlockLong(block, b);
    forall p, q | lo <= p < q <= hi && !RotOrder(b)(g[p], g[q]) ensures Covered(sub, p, q) {
      KeyDecides(b, block, g[p], g[q], d);
      var e := if q <= n then Range(lo, n, d) else if p >= m then Range(m, hi, d) else Range(n + 1, m - 1, d + 1);
      var i :| 0 <= i < |sub| && sub[i] == e;
      assert sub[i].lo <= p && q <= sub[i].hi;
    }
  }

  lemma AgreePart(f: seq<int>, b: seq<byte>, lo: int, hi: int, lo': int, hi': int, d: nat)
    requires Agree(f, b, lo, hi, d) && lo <= lo' && hi' <= hi
    ensures Agree(f, b, lo', hi', d)
  {
  }

  /** The middle part agrees on one symbol more. */
  lemma AgreeDeeper(g: seq<int>, b: seq<byte>, block: seq<byte>, lo: int, hi: int, d: nat, med: int)
    requires Extended(block, b) && d <= 14 && Agree(g, b, lo, hi, d)
    requires forall k :: lo <= k <= hi ==> 0 <= g[k] < |b| && block[g[k] + d] == med
    ensures Agree(g, b, lo, hi, d + 1)
  {
    hide Cmp;
    forall p, q | lo <= p <= hi && lo <= q <= hi ensures Cmp(b, g[p], g[q], d + 1) == 0 {
      KeyDecides(b, block, g[p], g[q], d);
    }
  }

  /** Ranges elsewhere are untouched. */
  lemma {:induction false} AgreeRest(f: seq<int>, g: seq<int>, b: seq<byte>, st: seq<Range>, e: Range, sub: seq<Range>)
    requires StackAgrees(f, b, st + [e]) && DisjointRanges(st + [e]) && Rearranged(f, g, e.lo, e.hi)
    requires StackAgrees(g, b, sub)
    ensures StackAgrees(g, b, st + sub)
  {
    hide Cmp;
    var o, o' := st + [e], st + sub;
    assert o[|st|] == e;
    forall i | 0 <= i < |o'| ensures 0 <= o'[i].d && Agree(g, b, o'[i].lo, o'[i].hi, o'[i].d) {
      if i < |st| {
        assert o[i] == o'[i];
        assert o[i].hi < e.lo || e.hi < o[i].lo;
        AgreeSame(f, g, b, o[i].lo, o[i].hi, o[i].d);
      } else {
        assert o'[i] == sub[i - |st|];
      }
    }
  }

  lemma AgreeSame(f: seq<int>, g: seq<int>, b: seq<byte>, lo: int, hi: int, d: nat)
    requires Agree(f, b, lo, hi, d) && |g| == |f| && forall k :: lo <= k <= hi ==> g[k] == f[k]
    ensures Agree(g, b, lo, hi, d)
  {
  }

  lemma TopAgrees(f: seq<int>, b: seq<byte>, st: seq<Range>, e: Range)
    requires StackAgrees(f, b, st + [e])
    ensures 0 <= e.d && Agree(f, b, e.lo, e.hi, e.d)
    ensures StackAgrees(f, b, st)
  {
    var o := st + [e];
    assert o[|st|] == e;
    forall i | 0 <= i < |st| ensures 0 <= st[i].d && Agree(f, b, st[i].lo, st[i].hi, st[i].d) { assert o[i] == st[i]; }
  }

  lemma OrderedRange(g: seq<int>, b: seq<byte>, lo: int, hi: int)
    requires InOrder(g, b, lo, hi)
    ensures forall p, q :: lo <= p < q <= hi && !RotOrder(b)(g[p], g[q]) ==> Covered([], p, q)
  {
  }

  lemma DisjointOf(f: seq<int>, le: (int, int) -> bool, st: seq<Range>, lo: int, hi: int)
    requires 0 <= lo && hi < |f| && StackOk(f, le, st, lo, hi)
    ensures DisjointRanges(st)
  {
  }

  lemma TopInside(f: seq<int>, le: (int, int) -> bool, st: seq<Range>, e: Range, lo: int, hi: int)
    requires 0 <= lo && hi < |f| && StackOk(f, le, st + [e], lo, hi)
    ensures lo <= e.lo <= e.hi + 1 <= hi + 1
  {
    assert (st + [e])[|st|] == e;
  }

  /** The three parts of a range, largest first. */
  method OrderParts(e0: Range, e1: Range, e2: Range) returns (x: Range, y: Range, z: Range)
    ensures [x, y, z] == LargestFirst(e0, e1, e2)
    ensures Size(x) >= Size(y) >= Size(z)
    ensures [x, y, z] == [e0, e1, e2] || [x, y, z] == [e0, e2, e1] || [x, y, z] == [e1, e0, e2]
         || [x, y, z] == [e1, e2, e0] || [x, y, z] == [e2, e0, e1] || [x, y, z] == [e2, e1, e0]
  {
    x, y, z := e0, e1, e2;
    if Size(x) < Size(y) { x, y := y, x; }
    if Size(y) < Size(z) { y, z := z, y; }
    if Size(x) < Size(y) { x, y := y, x; }
  }

  /** What the stack means. */
  ghost predicate StackMeans(f: seq<int>, b: seq<byte>, st: seq<Range>, lo: int, hi: int, total: nat) {
    && 0 <= lo && hi < |f|
    && StackOk(f, RotOrder(b), st, lo, hi) && StackAgrees(f, b, st) && StackFits(st, total)
  }

  lemma ThreeRanges(g: seq<int>, b: seq<byte>, x: Range, y: Range, z: Range, e: Range)
    requires StackAgrees(g, b, [x]) && StackAgrees(g, b, [y]) && StackAgrees(g, b, [z])
    requires Within([x], e.lo, e.hi) && Within([y], e.lo, e.hi) && Within([z], e.lo, e.hi)
    requires DisjointRanges([x, y]) && DisjointRanges([y, z]) && DisjointRanges([x, z])
    ensures StackAgrees(g, b, [x, y, z]) && Within([x, y, z], e.lo, e.hi) && DisjointRanges([x, y, z])
  {
    assert [x][0] == x && [y][0] == y && [z][0] == z;
    assert [x, y][0] == x && [x, y][1] == y && [y, z][0] == y && [y, z][1] == z && [x, z][0] == x && [x, z][1] == z;
  }

  lemma RangeOf(g: seq<int>, b: seq<byte>, x: Range, lo: int, hi: int)
    requires 0 <= x.d && Agree(g, b, x.lo, x.hi, x.d) && lo <= x.lo <= x.hi + 1 <= hi + 1
    ensures StackAgrees(g, b, [x]) && Within([x], lo, hi)
  {
  }

  /** Replacing the top range by its three parts keeps the stack's meaning. */
  lemma SplitMeans(f: seq<int>, g: seq<int>, b: seq<byte>, block: seq<byte>, st: seq<Range>, e: Range, n: int,
    m: int, med: int,
                   x: Range, y: Range, z: Range, lo: int, hi: int, total: nat)
    requires StackMeans(f, b, st + [e], lo, hi, total) && total <= 900000 && Size(e) >= 21 && 2 <= e.d <= 14
    requires Extended(block, b) && Rearranged(f, g, e.lo, e.hi)
    requires ThreeWay(g, KeyAt(block, |b|, e.d), e.lo, n, m, e.hi, med) && n + 1 < m
    requires var e0, e1, e2 := Range(e.lo, n, e.d), Range(m, e.hi, e.d), Range(n + 1, m - 1, e.d + 1);
      [x, y, z] == [e0, e1, e2] || [x, y, z] == [e0, e2, e1] || [x, y, z] == [e1, e0, e2]
      || [x, y, z] == [e1, e2, e0] || [x, y, z] == [e2, e0, e1] || [x, y, z] == [e2, e1, e0]
    requires Size(x) >= Size(y) >= Size(z)
    ensures StackMeans(g, b, st + [x, y, z], lo, hi, total) && |st| <= 20
    ensures 0 <= Weight(st + [x, y, z]) < Weight(st + [e])
  {
    hide Rearranged, StackOk, StackFits, StackAgrees, Weight, Agree, Extended, ThreeWay, Covered;
    var le, d := RotOrder(b), e.d;
    TopInside(f, le, st, e, lo, hi);
    TopAgrees(f, b, st, e);
    RearrangedAgree(f, g, b, e.lo, e.hi, d);
    PartRanges(g, b, block, e, n, m, med);
    var e0, e1, e2 := Range(e.lo, n, d), Range(m, e.hi, d), Range(n + 1, m - 1, d + 1);
    var sub := [x, y, z];
    assert sub[0] == x && sub[1] == y && sub[2] == z;
    assert e0 in sub && e1 in sub && e2 in sub;
    PartsFit(e, n, m, x, y, z);
    ThreeRanges(g, b, x, y, z, e);
    PartsCover(g, b, block, e.lo, n, m, e.hi, d, med, sub);
    RangeStep(f, g, le, st, e, sub, lo, hi);
    DisjointOf(f, le, st + [e], lo, hi);
    AgreeRest(f, g, b, st, e, sub);
    PushThree(st, e, x, y, z, total);
    SameLength(f, g, e.lo, e.hi);
  }

  lemma SameLength(f: seq<int>, g: seq<int>, lo: int, hi: int)
    requires Rearranged(f, g, lo, hi)
    ensures |g| == |f|
  {
  }

  lemma PartsFit(e: Range, n: int, m: int, x: Range, y: Range, z: Range)
    requires e.lo - 1 <= n && n + 1 < m <= e.hi + 1
    requires var e0, e1, e2 := Range(e.lo, n, e.d), Range(m, e.hi, e.d), Range(n + 1, m - 1, e.d + 1);
      [x, y, z] == [e0, e1, e2] || [x, y, z] == [e0, e2, e1] || [x, y, z] == [e1, e0, e2]
      || [x, y, z] == [e1, e2, e0] || [x, y, z] == [e2, e0, e1] || [x, y, z] == [e2, e1, e0]
    requires Size(x) >= Size(y) >= Size(z)
    ensures Parts(e, x, y, z)
    ensures DisjointRanges([x, y]) && DisjointRanges([y, z]) && DisjointRanges([x, z])
  {
    var s := [x, y, z];
    assert s[0] == x && s[1] == y && s[2] == z;
  }

  lemma PartRanges(g: seq<int>, b: seq<byte>, block: seq<byte>, e: Range, n: int, m: int, med: int)
    requires Extended(block, b) && 2 <= e.d <= 14 && Agree(g, b, e.lo, e.hi, e.d)
    requires ThreeWay(g, KeyAt(block, |b|, e.d), e.lo, n, m, e.hi, med)
    ensures e.lo - 1 <= n < m <= e.hi + 1
    ensures var e0, e1, e2 := Range(e.lo, n, e.d), Range(m, e.hi, e.d), Range(n + 1, m - 1, e.d + 1);
      && StackAgrees(g, b, [e0]) && StackAgrees(g, b, [e1]) && StackAgrees(g, b, [e2])
      && Within([e0], e.lo, e.hi) && Within([e1], e.lo, e.hi) && Within([e2], e.lo, e.hi)
  {
    hide Cmp, Extended;
    BlockLong(block, b);
    AgreePart(g, b, e.lo, e.hi, e.lo, n, e.d);
    AgreePart(g, b, e.lo, e.hi, m, e.hi, e.d);
    AgreePart(g, b, e.lo, e.hi, n + 1, m - 1, e.d);
    forall k | n + 1 <= k <= m - 1 ensures 0 <= g[k] < |b| && block[g[k] + e.d] == med {
      assert KeyAt(block, |b|, e.d)[g[k]] == med;
    }
    AgreeDeeper(g, b, block, n + 1, m - 1, e.d, med);
    RangeOf(g, b, Range(e.lo, n, e.d), e.lo, e.hi);
    RangeOf(g, b, Range(m, e.hi, e.d), e.lo, e.hi);
    RangeOf(g, b, Range(n + 1, m - 1, e.d + 1), e.lo, e.hi);
  }

  // ---------------------------------------------------------------- the sort

  lemma MeansFirst(f: seq<int>, b: seq<byte>, lo: int, hi: int)
    requires Agree(f, b, lo, hi, 2) && lo <= hi
    ensures StackMeans(f, b, [Range(lo, hi, 2)], lo, hi, hi - lo + 1)
  {
    var st := [Range(lo, hi, 2)];
    forall p, q | lo <= p < q <= hi ensures Covered(st, p, q) { assert st[0].lo <= p && q <= st[0].hi; }
    assert Fits(Size(st[0]), 0, hi - lo + 1);
  }

  lemma MeansTop(f: seq<int>, b: seq<byte>, st: seq<Range>, e: Range, lo: int, hi: int, total: nat)
    requires StackMeans(f, b, st + [e], lo, hi, total)
    ensures 0 <= lo <= e.lo <= e.hi + 1 <= hi + 1 <= |f| && 2 <= e.d <= 15 && Agree(f, b, e.lo, e.hi, e.d)
    ensures 0 <= Weight(st) < Weight(st + [e])
  {
    hide StackOk, StackFits, StackAgrees, Weight;
    TopInside(f, RotOrder(b), st, e, lo, hi);
    TopAgrees(f, b, st, e);
    PopRange(st, e, total);
  }

  /** The range has been put in order. */
  lemma MeansSorted(f: seq<int>, g: seq<int>, b: seq<byte>, st: seq<Range>, e: Range, lo: int, hi: int, total: nat)
    requires StackMeans(f, b, st + [e], lo, hi, total)
    requires Rearranged(f, g, e.lo, e.hi) && InOrder(g, b, e.lo, e.hi)
    ensures StackMeans(g, b, st, lo, hi, total)
  {
    hide Rearranged, StackOk, StackFits, StackAgrees, InOrder;
    TopInside(f, RotOrder(b), st, e, lo, hi);
    OrderedRange(g, b, e.lo, e.hi);
    RangeStep(f, g, RotOrder(b), st, e, [], lo, hi);
    DisjointOf(f, RotOrder(b), st + [e], lo, hi);
    NoRanges(g, b);
    AgreeRest(f, g, b, st, e, []);
    assert st + [] == st;
    PopRange(st, e, total);
    SameLength(f, g, e.lo, e.hi);
  }

  lemma NoRanges(g: seq<int>, b: seq<byte>)
    ensures StackAgrees(g, b, [])
  {
  }

  /** All elements of the range share the pivot symbol. */
  lemma MeansDeeper(f: seq<int>, g: seq<int>, b: seq<byte>, block: seq<byte>, st: seq<Range>, e: Range, med: int,
    lo: int, hi: int, total: nat)
    requires StackMeans(f, b, st + [e], lo, hi, total) && Extended(block, b) && 0 <= e.d <= 14 && Size(e) >= 1
    requires Rearranged(f, g, e.lo, e.hi)
    requires forall k :: e.lo <= k <= e.hi ==> 0 <= g[k] < |b| && block[g[k] + e.d] == med
    ensures StackMeans(g, b, st + [e.(d := e.d + 1)], lo, hi, total)
    ensures 0 <= Weight(st + [e.(d := e.d + 1)]) < Weight(st + [e])
  {
    hide Rearranged, StackOk, StackFits, StackAgrees, Agree, Extended;
    var e' := e.(d := e.d + 1);
    TopInside(f, RotOrder(b), st, e, lo, hi);
    TopAgrees(f, b, st, e);
    RearrangedAgree(f, g, b, e.lo, e.hi, e.d);
    AgreeDeeper(g, b, block, e.lo, e.hi, e.d, med);
    PopRange(st, e, total);
    RangeOf(g, b, e', e.lo, e.hi);
    WholeCovered(e', e.lo, e.hi);
    RangeStep(f, g, RotOrder(b), st, e, [e'], lo, hi);
    DisjointOf(f, RotOrder(b), st + [e], lo, hi);
    AgreeRest(f, g, b, st, e, [e']);
    PushDeeper(st, e, total);
    SameLength(f, g, e.lo, e.hi);
  }

  lemma WholeCovered(e: Range, lo: int, hi: int)
    requires e.lo == lo && e.hi == hi
    ensures forall p, q :: lo <= p < q <= hi ==> Covered([e], p, q)
    ensures DisjointRanges([e])
  {
    forall p, q | lo <= p < q <= hi ensures Covered([e], p, q) { assert [e][0].lo <= p && q <= [e][0].hi; }
  }

  /** The median symbol at the range's depth, and where it occurs. */
  method ChoosePivot(ptr: array<int>, block: seq<byte>, nblock: nat, top: Range, ghost b: seq<byte>)
    returns (med: int, ghost at: int)
    requires Extended(block, b) && nblock == |b| && 0 <= top.d <= 14 && 0 <= top.lo <= top.hi < ptr.Length
    requires forall k :: top.lo <= k <= top.hi ==> 0 <= ptr[k] < nblock
    ensures med == PivotOf(ptr[..], block, top)
    ensures top.lo <= at <= top.hi && 0 <= ptr[at] < nblock && KeyAt(block, nblock, top.d)[ptr[at]] == med
  {
    BlockLong(block, b);
    var lo, hi, d := top.lo, top.hi, top.d;
    med := Median3(block[ptr[lo] + d], block[ptr[hi] + d], block[ptr[(lo + hi) / 2] + d]);
    at := if med == block[ptr[lo] + d] then lo else if med == block[ptr[hi] + d] then hi else (lo + hi) / 2;
  }

  lemma AllSame(s: Scan, key: seq<int>, lo: int, hi: int, med: int)
    requires Parted(s, key, lo, hi, med) && s.gtHi < s.ltLo
    ensures forall k :: lo <= k <= hi ==> 0 <= s.f[k] < |key| && key[s.f[k]] == med
  {
  }

  lemma KeyedIn(f: seq<int>, block: seq<byte>, n: nat, lo: int, hi: int, d: nat)
    requires 0 <= lo && hi < |f| && forall k :: lo <= k <= hi ==> 0 <= f[k] < n
    ensures Keyed(f, KeyAt(block, n, d), lo, hi)
  {
  }

  /** Partitions a range around the median symbol at its depth, unless all symbols there are
      the same. */
  method Partition(ptr: array<int>, block: seq<byte>, nblock: nat, top: Range, ghost b: seq<byte>)
    returns (same: bool, n: int, m: int, med: int)
    requires Extended(block, b) && nblock == |b| && 0 <= top.d <= 14 && 0 <= top.lo <= top.hi < ptr.Length
    requires forall k :: top.lo <= k <= top.hi ==> 0 <= ptr[k] < nblock
    modifies ptr
    ensures Rearranged(old(ptr[..]), ptr[..], top.lo, top.hi)
    ensures same ==> forall k :: top.lo <= k <= top.hi ==>
      0 <= ptr[k] < nblock && KeyAt(block, nblock, top.d)[ptr[k]] == med
    ensures !same ==> ThreeWay(ptr[..], KeyAt(block, nblock, top.d), top.lo, n, m, top.hi, med) && n + 1 < m
    ensures med == PivotOf(old(ptr[..]), block, top)
    ensures var sc := Scanned(Scan(old(ptr[..]), top.lo, top.lo, top.hi, top.hi), KeyAt(block, nblock, top.d), med);
      && same == (sc.gtHi < sc.ltLo)
      && ptr[..] == (if same then sc.f else Gathered(sc, top.lo, top.hi))
      && (!same ==> n == top.lo + sc.unLo - sc.ltLo - 1 && m == top.hi - (sc.gtHi - sc.unHi) + 1)
  {
    hide Rearranged, Extended, KeyAt, Parted, ThreeWay, Scanned, Gathered, PivotOf, Keyed;
    ghost var f := ptr[..];
    var lo, hi, d := top.lo, top.hi, top.d;
    ghost var at;
    med, at := ChoosePivot(ptr, block, nblock, top, b);
    var key := KeyAt(block, nblock, d);
    KeyedIn(f, block, nblock, lo, hi, d);
    var ltLo, unLo, unHi, gtHi := PartitionScan(ptr, key, lo, hi, med);
    ghost var sc := Scan(ptr[..], ltLo, unLo, unHi, gtHi);
    n, m := 0, 0;
    if gtHi < ltLo {
      AllSame(sc, key, lo, hi, med);
      return true, n, m, med;
    }
    PivotStays(f, sc, key, lo, hi, med, at);
    n, m := GatherPivots(ptr, key, lo, hi, med, ltLo, unLo, unHi, gtHi);
    RearrangedTrans(f, sc.f, ptr[..], lo, hi);
    same := false;
  }

  /** Partitions the popped range and pushes its parts, the largest first. */
  method SplitRange(ptr: array<int>, block: seq<byte>, nblock: nat, rest: seq<Range>, top: Range, ghost b: seq<byte>,
                    ghost loSt: int, ghost hiSt: int, ghost total: nat, ghost x: Text, ghost budget: int)
    returns (stack: seq<Range>)
    requires Extended(block, b) && nblock == |b| && total <= 900000 && Size(top) >= 21 && top.d <= 14
    requires StackMeans(ptr[..], b, rest + [top], loSt, hiSt, total)
    requires 0 <= loSt <= top.lo && top.hi <= hiSt < ptr.Length && 2 <= top.d
      && Agree(ptr[..], b, top.lo, top.hi, top.d)
    requires x.block == block && x.n == nblock
    modifies ptr
    ensures Rearranged(old(ptr[..]), ptr[..], loSt, hiSt)
    ensures StackMeans(ptr[..], b, stack, loSt, hiSt, total)
    ensures 0 <= Weight(stack) < Weight(rest + [top])
    ensures |stack| <= 23 || |stack| <= |rest| + 1
    ensures Sorting(Partial(ptr[..], budget, false), stack) == Split(Partial(old(ptr[..]), budget, false), x, rest, top)
  {
    hide Rearranged, StackMeans, Weight, Extended, ThreeWay, Cmp, KeyAt, LargestFirst, PivotOf, Scanned, Gathered;
    ghost var f := ptr[..];
    var lo, hi, d := top.lo, top.hi, top.d;
    var same, n, m, med := Partition(ptr, block, nblock, top, b);
    RearrangedWiden(f, ptr[..], lo, hi, loSt, hiSt);
    if same {
      stack := rest + [top.(d := d + 1)];
      SameSymbol(ptr[..], block, b, lo, hi, d, med);
      MeansDeeper(f, ptr[..], b, block, rest, top, med, loSt, hiSt, total);
      return;
    }
    var e0, e1, e2 := OrderParts(Range(lo, n, d), Range(m, hi, d), Range(n + 1, m - 1, d + 1));
    stack := rest + [e0, e1, e2];
    SplitMeans(f, ptr[..], b, block, rest, top, n, m, med, e0, e1, e2, loSt, hiSt, total);
  }

  lemma SameSymbol(f: seq<int>, block: seq<byte>, b: seq<byte>, lo: int, hi: int, d: nat, med: int)
    requires Extended(block, b) && d <= 14 && 0 <= lo && hi < |f|
    requires forall k :: lo <= k <= hi ==> 0 <= f[k] < |b| && KeyAt(block, |b|, d)[f[k]] == med
    ensures forall k :: lo <= k <= hi ==> 0 <= f[k] < |b| && f[k] + d < |block| && block[f[k] + d] == med
  {
    BlockLong(block, b);
  }

  /** mainQSort3: unless it is abandoned, the range ends up in order; the stack never comes
      near its fixed size. */
  method Sort(ptr: array<int>, block: seq<byte>, quadrant: seq<int>, nblock: nat, loSt: int, hiSt: int, dSt: nat,
    budget: int, ghost b: seq<byte>)
    returns (budget': int)
    requires 0 <= loSt <= hiSt < ptr.Length && hiSt - loSt < 900000 && dSt == 2
    requires Extended(block, b) && QuadrantOk(quadrant, b) && nblock == |b|
    requires Agree(ptr[..], b, loSt, hiSt, dSt)
    modifies ptr
    ensures Rearranged(old(ptr[..]), ptr[..], loSt, hiSt) && budget' <= budget
    ensures budget' >= 0 ==> InOrder(ptr[..], b, loSt, hiSt)
    ensures var r := QSorted(Sorting(Partial(old(ptr[..]), budget, false), [Range(loSt, hiSt, dSt)]),
      Text(block, quadrant, nblock));
      ptr[..] == r.f && budget' == r.budget
  {
    hide Rearranged, StackMeans, Weight, Extended, QuadrantOk, Cmp, Agree, InOrder, QSorted, SimplySorted, Split;
    ghost var f, total, x := ptr[..], hiSt - loSt + 1, Text(block, quadrant, nblock);
    budget' := budget;
    var stack := [Range(loSt, hiSt, dSt)];
    ghost var r := QSorted(Sorting(Partial(f, budget, false), stack), x);
    MeansFirst(f, b, loSt, hiSt);
    RearrangedRefl(f, loSt, hiSt);
    while |stack| > 0
      invariant Rearranged(f, ptr[..], loSt, hiSt) && budget' <= budget
      invariant StackMeans(ptr[..], b, stack, loSt, hiSt, total) && |stack| <= 23
      invariant QSorted(Sorting(Partial(ptr[..], budget', false), stack), x) == r
      decreases Weight(stack)
    {
      assert |stack| < STACK_SIZE - 2; // 1001
      var top := stack[|stack| - 1];
      ghost var before, g := stack, ptr[..];
      stack := stack[..|stack| - 1];
      assert before == stack + [top];
      QSortedStep(Sorting(Partial(g, budget', false), before), x);
      MeansTop(g, b, stack, top, loSt, hiSt, total);
      if top.hi - top.lo < SMALL_THRESH || top.d > DEPTH_THRESH {
        budget' := MainSimpleSort.Sort(ptr, block, quadrant, nblock, top.lo, top.hi, top.d, budget', b);
        RearrangedWiden(g, ptr[..], top.lo, top.hi, loSt, hiSt);
        RearrangedTrans(f, g, ptr[..], loSt, hiSt);
        QSortedStep(Sorting(Partial(ptr[..], budget', budget' < 0), stack), x);
        if budget' < 0 { return; }
        MeansSorted(g, ptr[..], b, stack, top, loSt, hiSt, total);
      } else {
        stack := SplitRange(ptr, block, nblock, stack, top, b, loSt, hiSt, total, x, budget');
        RearrangedTrans(f, g, ptr[..], loSt, hiSt);
      }
    }
    assert stack == [];
    QSortedStep(Sorting(Partial(ptr[..], budget', false), stack), x);
    MeansDone(ptr[..], b, loSt, hiSt, total);
    if budget' >= 0 {
      RearrangedAgree(f, ptr[..], b, loSt, hiSt, 2);
      DoneInOrder(ptr[..], b, loSt, hiSt, total);
    }
  }

  lemma MeansDone(f: seq<int>, b: seq<byte>, lo: int, hi: int, total: nat)
    requires StackMeans(f, b, [], lo, hi, total)
    ensures 0 <= lo && hi < |f| && StackOk(f, RotOrder(b), [], lo, hi)
  {
  }

  lemma DoneInOrder(f: seq<int>, b: seq<byte>, lo: int, hi: int, total: nat)
    requires Agree(f, b, lo, hi, 2) && StackOk(f, RotOrder(b), [], lo, hi)
    ensures InOrder(f, b, lo, hi)
  {
    StackEmpty(f, RotOrder(b), lo, hi);
    forall p, q | lo <= p < q <= hi ensures RotLe(b, f[p], f[q]) { assert RotOrder(b)(f[p], f[q]); }
  }
}

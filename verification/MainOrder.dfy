/**
 The comparison at the bottom of the main block sort: first a stretch of symbols, then
 symbols together with the orderings already found, until all of the block is seen.
 */
module MainOrder {
  import opened Rotations
  import opened RangeSort

  const OVERSHOOT := 34

  /** The block followed by a copy of its first symbols. */
  ghost predicate Extended(block: seq<byte>, b: seq<byte>) {
    && |b| > OVERSHOOT && |block| == |b| + OVERSHOOT
    && forall i :: 0 <= i < |block| ==> block[i] == b[Wrapped(|b|, i)]
  }

  /** A position up to one block length too large. */
  function Wrapped(n: nat, i: int): int {
    if i >= n then i - n else i
  }

  /** The quadrant numbers of two rotations with the same first symbol never contradict their
      order, and the numbers behind the block mirror those at its start. */
  ghost predicate QuadrantOk(quadrant: seq<int>, b: seq<byte>) {
    && |quadrant| == |b| + OVERSHOOT
    && (forall i :: 0 <= i < OVERSHOOT && i < |b| ==> quadrant[|b| + i] == quadrant[i])
    && forall i, j :: 0 <= i < |b| && 0 <= j < |b| && b[i] == b[j] && quadrant[i] < quadrant[j] ==> RotLe(b, i, j)
  }

  /** The meaning that the program's comments give to the quadrant numbers of the rotations that
      start with `ss`: a smaller number means a smaller rotation. */
  ghost predicate StatedMeaning(q: seq<int>, b: seq<byte>, ss: byte) {
    |q| >= |b| && forall i, j :: 0 <= i < |b| && 0 <= j < |b| && b[i] == b[j] == ss && q[i] < q[j] ==>
      Cmp(b, i, j, |b|) < 0
  }

  /** The quadrants have that meaning for every first symbol. */
  ghost predicate AllMeant(q: seq<int>, b: seq<byte>) {
    forall ss: byte :: StatedMeaning(q, b, ss)
  }

  /** The answer says exactly whether `x` is the greater rotation. */
  predicate Exact(b: seq<byte>, x: int, y: int, gtu: bool)
    requires 0 <= x < |b| && 0 <= y < |b|
  {
    gtu <==> Cmp(b, x, y, |b|) > 0
  }

  // ---------------------------------------------------------------- the comparison, step by step

  /** The answer, and how much work it is charged. */
  datatype Verdict = Verdict(gtu: bool, cost: nat)

  /** `s` more steps over symbols alone, then the groups of eight. */
  function Symbols(block: seq<int>, quadrant: seq<int>, n: nat, i1: int, i2: int, s: nat): Verdict
    decreases s
  {
    if s == 0 then Groups(block, quadrant, n, i1, i2, 8, n + 8, 0)
    else if Get(block, i1) != Get(block, i2) then Verdict(Get(block, i1) > Get(block, i2), 0)
    else Symbols(block, quadrant, n, i1 + 1, i2 + 1, s - 1)
  }

  /** `s` more steps of a group of eight over symbols and quadrants, and further groups while
      `k` lasts. */
  function Groups(block: seq<int>, quadrant: seq<int>, n: nat, i1: int, i2: int, s: nat, k: nat, cost: nat): Verdict
    decreases k, s
  {
    if s == 0 then
      if k < 8 then Verdict(false, cost + 1)
      else Groups(block, quadrant, n, Wrapped(n, i1), Wrapped(n, i2), 8, k - 8, cost + 1)
    else if Get(block, i1) != Get(block, i2) then Verdict(Get(block, i1) > Get(block, i2), cost)
    else if Get(quadrant, i1) != Get(quadrant, i2) then Verdict(Get(quadrant, i1) > Get(quadrant, i2), cost)
    else Groups(block, quadrant, n, i1 + 1, i2 + 1, s - 1, k, cost)
  }

  /** The verdict on the rotations at `i1` and `i2`. */
  function Compared(block: seq<int>, quadrant: seq<int>, n: nat, i1: int, i2: int): Verdict {
    Symbols(block, quadrant, n, i1, i2, 12)
  }

  lemma GroupsStep(block: seq<int>, quadrant: seq<int>, n: nat, i1: int, i2: int, s: nat, k: nat, cost: nat)
    ensures Groups(block, quadrant, n, i1, i2, s, k, cost) ==
      if s == 0 then
        if k < 8 then Verdict(false, cost + 1)
        else Groups(block, quadrant, n, Wrapped(n, i1), Wrapped(n, i2), 8, k - 8, cost + 1)
      else if Get(block, i1) != Get(block, i2) then Verdict(Get(block, i1) > Get(block, i2), cost)
      else if Get(quadrant, i1) != Get(quadrant, i2) then Verdict(Get(quadrant, i1) > Get(quadrant, i2), cost)
      else Groups(block, quadrant, n, i1 + 1, i2 + 1, s - 1, k, cost)
  {
  }

  lemma SymbolsStep(block: seq<int>, quadrant: seq<int>, n: nat, i1: int, i2: int, s: nat)
    ensures Symbols(block, quadrant, n, i1, i2, s) ==
      if s == 0 then Groups(block, quadrant, n, i1, i2, 8, n + 8, 0)
      else if Get(block, i1) != Get(block, i2) then Verdict(Get(block, i1) > Get(block, i2), 0)
      else Symbols(block, quadrant, n, i1 + 1, i2 + 1, s - 1)
  {
    hide Groups;
  }

  // ---------------------------------------------------------------- what it means

  /** What a comparison of the rotations `x` and `y` may answer.  Equal rotations may be called
      greater, since they can have different quadrant numbers. */
  predicate Answers(b: seq<byte>, x: int, y: int, gtu: bool)
    requires 0 <= x < |b| && 0 <= y < |b|
  {
    if gtu then RotLe(b, y, x) else RotLe(b, x, y)
  }

  /** `i1` and `i2` have moved `t` places on from `x` and `y`, over equal symbols. */
  ghost predicate Matched(b: seq<byte>, x: int, y: int, i1: int, i2: int, t: nat) {
    && 0 <= x < |b| && 0 <= y < |b|
    && 0 <= i1 < 2 * |b| && 0 <= i2 < 2 * |b|
    && Cmp(b, x, y, t) == 0
    && Wrapped(|b|, i1) == Adv(|b|, x, t) && Wrapped(|b|, i2) == Adv(|b|, y, t)
  }

  lemma AdvNext(n: nat, x: int, t: nat)
    requires 0 <= x < n
    ensures Adv(n, x, t + 1) == Next(n, Adv(n, x, t))
  {
    AdvAdd(n, x, t, 1);
  }

  lemma SymbolsDecide(block: seq<byte>, b: seq<byte>, x: int, y: int, i1: int, i2: int, t: nat)
    requires Extended(block, b) && Matched(b, x, y, i1, i2, t) && i1 < |block| && i2 < |block|
    ensures block[i1] != block[i2] ==> Answers(b, x, y, block[i1] > block[i2]) && Exact(b, x, y, block[i1] > block[i2])
    ensures block[i1] == block[i2] && i1 + 1 < 2 * |b| && i2 + 1 < 2 * |b| ==> Matched(b, x, y, i1 + 1, i2 + 1, t + 1)
  {
    var n := |b|;
    CmpSplit(b, x, y, t, 1);
    AdvNext(n, x, t);
    AdvNext(n, y, t);
    if block[i1] != block[i2] {
      CmpDrop(b, x, y, t);
      CmpEarly(b, Adv(n, x, t), Adv(n, y, t), 1, n);
      CmpAnti(b, x, y, n);
    } else {
      var u, v := Adv(n, x, t), Adv(n, y, t);
      assert Cmp(b, Next(n, u), Next(n, v), 0) == 0;
    }
  }

  lemma QuadrantsDecide(quadrant: seq<int>, block: seq<byte>, b: seq<byte>, x: int, y: int, i1: int, i2: int, t: nat)
    requires Extended(block, b) && QuadrantOk(quadrant, b) && Matched(b, x, y, i1, i2, t) && i1 < |block|
      && i2 < |block|
    requires block[i1] == block[i2] && quadrant[i1] != quadrant[i2]
    ensures Answers(b, x, y, quadrant[i1] > quadrant[i2])
    ensures AllMeant(quadrant, b) ==> Exact(b, x, y, quadrant[i1] > quadrant[i2])
  {
    var n := |b|;
    var u, v := Wrapped(n, i1), Wrapped(n, i2);
    assert quadrant[i1] == quadrant[u] && quadrant[i2] == quadrant[v];
    if AllMeant(quadrant, b) { assert StatedMeaning(quadrant, b, b[u]); }
    CmpDrop(b, x, y, t);
    CmpAnti(b, x, y, n);
    CmpAnti(b, u, v, n);
  }

  /** mainGtU.  When the quadrants have their stated meaning, the answer is "greater" if and only
      if the first rotation is strictly greater.  From the largest start, `n + 14`, it reads up
      to position `n + 33` before it wraps around, which is what the overshoot of 34 allows. */
  method MainGtU(i1st: int, i2st: int, block: seq<byte>, quadrant: seq<int>, nblock: nat, budget: int,
    ghost b: seq<byte>)
    returns (gtu: bool, budget': int)
    requires Extended(block, b) && QuadrantOk(quadrant, b) && nblock == |b|
    requires 0 <= i1st <= nblock + 14 && 0 <= i2st <= nblock + 14
    ensures Answers(b, Wrapped(nblock, i1st), Wrapped(nblock, i2st), gtu)
    ensures AllMeant(quadrant, b) ==> Exact(b, Wrapped(nblock, i1st), Wrapped(nblock, i2st), gtu)
    ensures budget' <= budget && Verdict(gtu, budget - budget') == Compared(block, quadrant, nblock, i1st, i2st)
  {
    hide Cmp, Extended, QuadrantOk, Answers, Exact, AllMeant, Matched, Symbols, Groups;
    var i1, i2 := i1st, i2st;
    ghost var x, y := Wrapped(nblock, i1st), Wrapped(nblock, i2st);
    ghost var t: nat := 0;
    ghost var verdict := Compared(block, quadrant, nblock, i1st, i2st);
    budget' := budget;
    StartMatch(block, b, x, y, i1, i2);
    for s := 0 to 12
      invariant i1 == i1st + s && i2 == i2st + s && t == s
      invariant Matched(b, x, y, i1, i2, t)
      invariant Symbols(block, quadrant, nblock, i1, i2, 12 - s) == verdict
    {
      BlockLong(block, b);
      SymbolsDecide(block, b, x, y, i1, i2, t);
      SymbolsStep(block, quadrant, nblock, i1, i2, 12 - s);
      var c1, c2 := block[i1], block[i2];
      if c1 != c2 { return c1 > c2, budget'; }
      i1, i2, t := i1 + 1, i2 + 1, t + 1;
    }
    SymbolsStep(block, quadrant, nblock, i1, i2, 0);
    var k := nblock + 8;
    while true
      invariant 0 <= i1 <= nblock + 26 && 0 <= i2 <= nblock + 26
      invariant 0 <= k <= nblock + 8 && t + k >= nblock + 20
      invariant Matched(b, x, y, i1, i2, t) && budget' <= budget
      invariant Groups(block, quadrant, nblock, i1, i2, 8, k, budget - budget') == verdict
      decreases k
    {
      for s := 0 to 8
        invariant 0 <= i1 <= nblock + 26 + s && 0 <= i2 <= nblock + 26 + s
        invariant t + k >= nblock + 20 + s
        invariant Matched(b, x, y, i1, i2, t)
        invariant Groups(block, quadrant, nblock, i1, i2, 8 - s, k, budget - budget') == verdict
      {
        BlockLong(block, b);
        QuadrantsInside(quadrant, b);
        SymbolsDecide(block, b, x, y, i1, i2, t);
        GroupsStep(block, quadrant, nblock, i1, i2, 8 - s, k, budget - budget');
        var c1, c2 := block[i1], block[i2];
        if c1 != c2 { return c1 > c2, budget'; }
        var s1, s2 := quadrant[i1], quadrant[i2];
        if s1 != s2 {
          QuadrantsDecide(quadrant, block, b, x, y, i1, i2, t);
          return s1 > s2, budget';
        }
        i1, i2, t := i1 + 1, i2 + 1, t + 1;
      }
      WrapMatch(b, x, y, i1, i2, t);
      GroupsStep(block, quadrant, nblock, i1, i2, 0, k, budget - budget');
      if i1 >= nblock { i1 := i1 - nblock; }
      if i2 >= nblock { i2 := i2 - nblock; }
      k := k - 8;
      budget' := budget' - 1;
      if k < 0 { break; }
    }
    AllEqual(b, x, y, i1, i2, t);
    gtu := false;
  }

  lemma StartMatch(block: seq<byte>, b: seq<byte>, x: int, y: int, i1: int, i2: int)
    requires Extended(block, b) && 0 <= i1 <= |b| + 14 && 0 <= i2 <= |b| + 14
    requires x == Wrapped(|b|, i1) && y == Wrapped(|b|, i2)
    ensures |b| > OVERSHOOT && |block| == |b| + OVERSHOOT && Matched(b, x, y, i1, i2, 0)
  {
  }

  lemma BlockLong(block: seq<byte>, b: seq<byte>)
    requires Extended(block, b)
    ensures |b| > OVERSHOOT && |block| == |b| + OVERSHOOT
  {
  }

  lemma QuadrantsInside(quadrant: seq<int>, b: seq<byte>)
    requires QuadrantOk(quadrant, b)
    ensures |quadrant| == |b| + OVERSHOOT
  {
  }

  lemma WrapMatch(b: seq<byte>, x: int, y: int, i1: int, i2: int, t: nat)
    requires Matched(b, x, y, i1, i2, t)
    ensures Matched(b, x, y, Wrapped(|b|, i1), Wrapped(|b|, i2), t)
  {
  }

  lemma AllEqual(b: seq<byte>, x: int, y: int, i1: int, i2: int, t: nat)
    requires Matched(b, x, y, i1, i2, t) && t >= |b|
    ensures Answers(b, x, y, false) && Exact(b, x, y, false)
  {
    CmpFull(b, x, y, t);
  }

  /** When no two of the rotations compared are equal, the comparison is exact. */
  lemma ExactWhenDistinct(b: seq<byte>, x: int, y: int, gtu: bool)
    requires 0 <= x < |b| && 0 <= y < |b| && Answers(b, x, y, gtu)
    ensures Cmp(b, x, y, |b|) != 0 ==> Exact(b, x, y, gtu)
  {
    CmpAnti(b, x, y, |b|);
  }

  // ---------------------------------------------------------------- how much is read and charged

  /** One unit a group: a comparison is never charged more than `n / 8 + 2`. */
  lemma {:induction false} GroupsCost(block: seq<int>, quadrant: seq<int>, n: nat, i1: int, i2: int, s: nat, k: nat,
    cost: nat)
    ensures Groups(block, quadrant, n, i1, i2, s, k, cost).cost <= cost + k / 8 + 1
    decreases k, s
  {
    if s == 0 {
      if k >= 8 { GroupsCost(block, quadrant, n, Wrapped(n, i1), Wrapped(n, i2), 8, k - 8, cost + 1); }
    } else if Get(block, i1) == Get(block, i2) && Get(quadrant, i1) == Get(quadrant, i2) {
      GroupsCost(block, quadrant, n, i1 + 1, i2 + 1, s - 1, k, cost);
    }
  }

  lemma {:induction false} SymbolsCost(block: seq<int>, quadrant: seq<int>, n: nat, i1: int, i2: int, s: nat)
    ensures Symbols(block, quadrant, n, i1, i2, s).cost <= n / 8 + 2
    decreases s
  {
    if s == 0 {
      GroupsCost(block, quadrant, n, i1, i2, 8, n + 8, 0);
    } else if Get(block, i1) == Get(block, i2) {
      SymbolsCost(block, quadrant, n, i1 + 1, i2 + 1, s - 1);
    }
  }

  /** Symbols reached from equal rotations are equal. */
  lemma EqualStep(block: seq<byte>, b: seq<byte>, x: int, y: int, i1: int, i2: int, t: nat)
    requires Extended(block, b) && Matched(b, x, y, i1, i2, t) && i1 < |block| && i2 < |block| && Cmp(b, x, y, |b|) == 0
    ensures block[i1] == block[i2]
    ensures i1 + 1 < 2 * |b| && i2 + 1 < 2 * |b| ==> Matched(b, x, y, i1 + 1, i2 + 1, t + 1)
  {
    CmpZeroForever(b, x, y, t + 1);
    CmpSplit(b, x, y, t, 1);
    SymbolsDecide(block, b, x, y, i1, i2, t);
  }

  ghost predicate NoneNumbered(quadrant: seq<int>) {
    forall i :: 0 <= i < |quadrant| ==> quadrant[i] == 0
  }

  lemma {:induction false} GroupsEqual(block: seq<byte>, quadrant: seq<int>, b: seq<byte>, x: int, y: int, i1: int,
    i2: int, s: nat, k: nat, cost: nat, t: nat)
    requires Extended(block, b) && NoneNumbered(quadrant) && Matched(b, x, y, i1, i2, t) && Cmp(b, x, y, |b|) == 0
    requires s <= 8 && i1 <= |b| + 34 - s && i2 <= |b| + 34 - s
    ensures var v := Groups(block, quadrant, |b|, i1, i2, s, k, cost); !v.gtu && v.cost > cost
    decreases k, s
  {
    hide Cmp, Matched, Extended;
    BlockLong(block, b);
    GroupsStep(block, quadrant, |b|, i1, i2, s, k, cost);
    if s == 0 {
      if k >= 8 {
        WrapMatch(b, x, y, i1, i2, t);
        GroupsEqual(block, quadrant, b, x, y, Wrapped(|b|, i1), Wrapped(|b|, i2), 8, k - 8, cost + 1, t);
      }
    } else {
      MatchedInside(b, x, y, i1, i2, t);
      EqualStep(block, b, x, y, i1, i2, t);
      GroupsEqual(block, quadrant, b, x, y, i1 + 1, i2 + 1, s - 1, k, cost, t + 1);
    }
  }

  lemma MatchedInside(b: seq<byte>, x: int, y: int, i1: int, i2: int, t: nat)
    requires Matched(b, x, y, i1, i2, t)
    ensures 0 <= i1 < 2 * |b| && 0 <= i2 < 2 * |b|
  {
  }

  lemma {:induction false} SymbolsEqual(block: seq<byte>, quadrant: seq<int>, b: seq<byte>, x: int, y: int, i1: int,
    i2: int, s: nat, t: nat)
    requires Extended(block, b) && NoneNumbered(quadrant) && Matched(b, x, y, i1, i2, t) && Cmp(b, x, y, |b|) == 0
    requires s <= 12 && i1 <= |b| + 26 - s && i2 <= |b| + 26 - s
    ensures var v := Symbols(block, quadrant, |b|, i1, i2, s); !v.gtu && v.cost > 0
    decreases s
  {
    hide Cmp, Matched, Extended, Groups;
    BlockLong(block, b);
    SymbolsStep(block, quadrant, |b|, i1, i2, s);
    if s == 0 {
      GroupsEqual(block, quadrant, b, x, y, i1, i2, 8, |b| + 8, 0, t);
    } else {
      MatchedInside(b, x, y, i1, i2, t);
      EqualStep(block, b, x, y, i1, i2, t);
      SymbolsEqual(block, quadrant, b, x, y, i1 + 1, i2 + 1, s - 1, t + 1);
    }
  }

  /** As long as nothing is numbered, equal rotations are not called greater, but the comparison
      is charged for. */
  lemma EqualCompared(block: seq<byte>, quadrant: seq<int>, b: seq<byte>, i1: int, i2: int)
    requires Extended(block, b) && NoneNumbered(quadrant) && 0 <= i1 <= |b| + 14 && 0 <= i2 <= |b| + 14
    requires Cmp(b, Wrapped(|b|, i1), Wrapped(|b|, i2), |b|) == 0
    ensures var v := Compared(block, quadrant, |b|, i1, i2); !v.gtu && 0 < v.cost <= |b| / 8 + 2
  {
    hide Cmp, Matched, Extended, Symbols;
    var x, y := Wrapped(|b|, i1), Wrapped(|b|, i2);
    StartMatch(block, b, x, y, i1, i2);
    SymbolsEqual(block, quadrant, b, x, y, i1, i2, 12, 0);
    SymbolsCost(block, quadrant, |b|, i1, i2, 12);
  }

  predicate SameAt(s: seq<int>, i1: int, i2: int, d: int) {
    Get(s, i1 + d) == Get(s, i2 + d)
  }

  lemma {:induction false} SymbolsSkip(block: seq<int>, quadrant: seq<int>, n: nat, i1: int, i2: int, s: nat)
    requires forall d :: 0 <= d < s ==> SameAt(block, i1, i2, d)
    ensures Symbols(block, quadrant, n, i1, i2, s) == Groups(block, quadrant, n, i1 + s, i2 + s, 8, n + 8, 0)
    decreases s
  {
    hide Groups;
    if s > 0 {
      assert SameAt(block, i1, i2, 0);
      var j1, j2 := i1 + 1, i2 + 1;
      forall d | 0 <= d < s - 1 ensures SameAt(block, j1, j2, d) { assert SameAt(block, i1, i2, d + 1); }
      SymbolsSkip(block, quadrant, n, j1, j2, s - 1);
    }
  }

  lemma {:induction false} GroupsSkip(block: seq<int>, quadrant: seq<int>, n: nat, i1: int, i2: int, s: nat, m: nat,
    k: nat, cost: nat)
    requires m <= s && forall d :: 0 <= d < m ==> SameAt(block, i1, i2, d) && SameAt(quadrant, i1, i2, d)
    ensures Groups(block, quadrant, n, i1, i2, s, k, cost) == Groups(block, quadrant, n, i1 + m, i2 + m, s - m, k, cost)
    decreases m
  {
    if m > 0 {
      assert SameAt(block, i1, i2, 0) && SameAt(quadrant, i1, i2, 0);
      var j1, j2 := i1 + 1, i2 + 1;
      forall d | 0 <= d < m - 1 ensures SameAt(block, j1, j2, d) && SameAt(quadrant, j1, j2, d) {
        assert SameAt(block, i1, i2, d + 1) && SameAt(quadrant, i1, i2, d + 1);
      }
      GroupsSkip(block, quadrant, n, j1, j2, s - 1, m - 1, k, cost);
    }
  }

  /** An overshoot of 33 would not do: in a block of equal symbols the answer for the starts
      `n + 14` and 0 depends on the symbol at position `n + 33`. */
  lemma OvershootNeeded(n: nat, last: byte)
    requires n > OVERSHOOT && last > 0
    ensures var block: seq<byte> := seq(n + 34, i => if i == n + 33 then last else 0);
      Compared(block, seq(n + 34, _ => 0), n, n + 14, 0).gtu
  {
    hide Groups, Symbols;
    var block: seq<byte> := seq(n + 34, i => if i == n + 33 then last else 0);
    var quadrant := seq(n + 34, _ => 0);
    SymbolsSkip(block, quadrant, n, n + 14, 0, 12);
    GroupsSkip(block, quadrant, n, n + 26, 12, 8, 7, n + 8, 0);
    GroupsStep(block, quadrant, n, n + 33, 19, 1, n + 8, 0);
  }
}

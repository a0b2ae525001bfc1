/**
 Shell sort of a short range of rotations that agree on their first symbols.
 */
module MainSimpleSort {
  import opened Rotations
  import opened RangeSort
  import opened MainOrder

  const INCS: seq<nat> := [1, 4, 13, 40, 121, 364, 1093, 3280, 9841, 29524, 88573, 265720, 797161, 2391484]

  /** The rotations listed at `lo..hi` agree on their first `d` symbols. */
  ghost predicate Agree(f: seq<int>, b: seq<byte>, lo: int, hi: int, d: nat) {
    && 0 <= lo && hi < |f|
    && (forall k :: lo <= k <= hi ==> 0 <= f[k] < |b|)
    && forall p, q :: lo <= p <= hi && lo <= q <= hi ==> Cmp(b, f[p], f[q], d) == 0
  }

  ghost predicate InOrder(f: seq<int>, b: seq<byte>, lo: int, hi: int) {
    && 0 <= lo && hi < |f|
    && (forall k :: lo <= k <= hi ==> 0 <= f[k] < |b|)
    && forall p, q :: lo <= p < q <= hi ==> RotLe(b, f[p], f[q])
  }

  lemma RearrangedAgree(f: seq<int>, g: seq<int>, b: seq<byte>, lo: int, hi: int, d: nat)
    requires Rearranged(f, g, lo, hi) && Agree(f, b, lo, hi, d)
    ensures Agree(g, b, lo, hi, d)
  {
    forall k | lo <= k <= hi ensures 0 <= g[k] < |b| { var j := RearrangedFrom(f, g, lo, hi, k); }
    forall p, q | lo <= p <= hi && lo <= q <= hi ensures Cmp(b, g[p], g[q], d) == 0 {
      var p' := RearrangedFrom(f, g, lo, hi, p);
      var q' := RearrangedFrom(f, g, lo, hi, q);
    }
  }

  /** Comparing `d` places on is comparing from the start, for rotations that agree so far. */
  lemma DeepAnswer(b: seq<byte>, x: int, y: int, d: nat, gtu: bool)
    requires 0 <= x < |b| && 0 <= y < |b| && d <= 15 && |b| > OVERSHOOT && Cmp(b, x, y, d) == 0
    requires Answers(b, Wrapped(|b|, x + d), Wrapped(|b|, y + d), gtu)
    ensures Answers(b, x, y, gtu)
  {
    AdvWrap(|b|, x, d);
    AdvWrap(|b|, y, d);
    CmpDrop(b, x, y, d);
    CmpDrop(b, y, x, d) by { CmpAnti(b, x, y, d); }
  }

  // ---------------------------------------------------------------- what the sort computes

  /** What comparisons look at: the extended block, the quadrants, and the block's length. */
  datatype Text = Text(block: seq<int>, quadrant: seq<int>, n: nat)

  /** A moment of a sort: the listing, the budget left, and whether the sort has given up. */
  datatype Partial = Partial(f: seq<int>, budget: int, abandoned: bool)

  /** Greater elements move up by `h` from the hole at `j`, and `v` goes into the hole. */
  function Inserted(s: Partial, x: Text, v: int, j: int, lo: int, h: nat, d: nat): (r: Partial)
    ensures |r.f| == |s.f| && r.abandoned == s.abandoned
    decreases j - lo
  {
    var c := Compared(x.block, x.quadrant, x.n, Get(s.f, j - h) + d, v + d);
    var left := s.budget - c.cost;
    if !c.gtu || h == 0 then s.(f := Put(s.f, j, v), budget := left)
    else if j - h <= lo + h - 1 then s.(f := Put(Put(s.f, j, Get(s.f, j - h)), j - h, v), budget := left)
    else Inserted(s.(f := Put(s.f, j, Get(s.f, j - h)), budget := left), x, v, j - h, lo, h, d)
  }

  /** Insertions at distance `h` from place `i` on; the budget is looked at after every third. */
  function InsertedApart(s: Partial, x: Text, i: int, copies: nat, lo: int, hi: int, h: nat, d: nat): (r: Partial)
    ensures |r.f| == |s.f|
    decreases if i <= hi then hi - i + 1 else 0, if copies >= 3 then 1 else 0
  {
    if copies >= 3 then if s.budget < 0 then s.(abandoned := true) else InsertedApart(s, x, i, 0, lo, hi, h, d)
    else if i > hi then s
    else InsertedApart(Inserted(s, x, Get(s.f, i), i, lo, h, d), x, i + 1, copies + 1, lo, hi, h, d)
  }

  /** The first increment that is not below the size of the range. */
  function FirstIncrement(bigN: int, hp: nat): (r: nat)
    ensures hp <= 13 ==> r <= 13
    decreases 13 - hp
  {
    if hp < 13 && INCS[hp] < bigN then FirstIncrement(bigN, hp + 1) else hp
  }

  /** The remaining increments. */
  function Increments(s: Partial, x: Text, hp: int, lo: int, hi: int, d: nat): (r: Partial)
    ensures |r.f| == |s.f|
    decreases hp
  {
    if hp < 0 || hp > 13 || s.abandoned then s
    else Increments(InsertedApart(s, x, lo + INCS[hp], 0, lo, hi, INCS[hp], d), x, hp - 1, lo, hi, d)
  }

  function SimplySorted(s: Partial, x: Text, lo: int, hi: int, d: nat): (r: Partial)
    ensures |r.f| == |s.f|
  {
    if hi - lo + 1 < 2 then s else Increments(s, x, FirstIncrement(hi - lo + 1, 0) - 1, lo, hi, d)
  }

  lemma InsertedStep(s: Partial, x: Text, v: int, j: int, lo: int, h: nat, d: nat)
    requires h > 0
    ensures var c, r := Compared(x.block, x.quadrant, x.n, Get(s.f, j - h) + d, v + d), Inserted(s, x, v, j, lo, h, d);
      var left := s.budget - c.cost;
      if !c.gtu then r == s.(f := Put(s.f, j, v), budget := left)
      else if j - h <= lo + h - 1 then r == s.(f := Put(Put(s.f, j, Get(s.f, j - h)), j - h, v), budget := left)
      else r == Inserted(s.(f := Put(s.f, j, Get(s.f, j - h)), budget := left), x, v, j - h, lo, h, d)
  {
    hide Compared;
  }

  lemma InsertedApartStep(s: Partial, x: Text, i: int, copies: nat, lo: int, hi: int, h: nat, d: nat)
    ensures InsertedApart(s, x, i, copies, lo, hi, h, d) ==
      if copies >= 3 then if s.budget < 0 then s.(abandoned := true) else InsertedApart(s, x, i, 0, lo, hi, h, d)
      else if i > hi then s
      else InsertedApart(Inserted(s, x, Get(s.f, i), i, lo, h, d), x, i + 1, copies + 1, lo, hi, h, d)
  {
    hide Inserted;
  }

  lemma IncrementsStep(s: Partial, x: Text, hp: int, lo: int, hi: int, d: nat)
    requires hp <= 13
    ensures Increments(s, x, hp, lo, hi, d) ==
      if hp < 0 || s.abandoned then s
      else Increments(InsertedApart(s, x, lo + INCS[hp], 0, lo, hi, INCS[hp], d), x, hp - 1, lo, hi, d)
  {
    hide InsertedApart;
  }

  /** Two rotations of which the first is not greater stay; they cost one comparison. */
  lemma TwoEqual(s: Partial, x: Text, lo: int, d: nat)
    requires 0 <= lo && lo + 1 < |s.f| && !s.abandoned
    requires !Compared(x.block, x.quadrant, x.n, s.f[lo] + d, s.f[lo + 1] + d).gtu
    ensures SimplySorted(s, x, lo, lo + 1, d) ==
      s.(budget := s.budget - Compared(x.block, x.quadrant, x.n, s.f[lo] + d, s.f[lo + 1] + d).cost)
  {
    hide Compared;
    assert FirstIncrement(2, 0) == 1 by { assert INCS[0] == 1 && INCS[1] == 4; }
    IncrementsStep(s, x, 0, lo, lo + 1, d);
    InsertedApartStep(s, x, lo + 1, 0, lo, lo + 1, 1, d);
    InsertedStep(s, x, s.f[lo + 1], lo + 1, lo, 1, d);
    var r := Inserted(s, x, s.f[lo + 1], lo + 1, lo, 1, d);
    assert r.f == s.f;
    InsertedApartStep(r, x, lo + 2, 1, lo, lo + 1, 1, d);
    IncrementsStep(r, x, -1, lo, lo + 1, d);
  }

  // ---------------------------------------------------------------- one insertion

  /** What the insertion of `v` has reached: the hole is at `j`, everything passed is not
      smaller than `v`. */
  ghost predicate Inserting(f: seq<int>, g: seq<int>, b: seq<byte>, lo: int, hi: int, d: nat, i: int, j: int, h: int)
  {
    && 0 <= lo <= j <= i <= hi < |f| && |g| == |f| && h > 0
    && Rearranged(f, g[j := f[i]], lo, hi) && Agree(f, b, lo, hi, d)
    && (forall k :: i < k < |f| ==> g[k] == f[k])
    && (h == 1 ==>
        && (forall k :: 0 <= k < j ==> g[k] == f[k])
        && (forall k :: j < k <= i ==> g[k] == f[k - 1])
        && (forall k :: j <= k < i ==> RotLe(b, f[i], f[k])))
  }

  lemma InsertStart(f: seq<int>, b: seq<byte>, lo: int, hi: int, d: nat, i: int, h: int)
    requires 0 <= lo <= i <= hi < |f| && h > 0 && Agree(f, b, lo, hi, d)
    ensures Inserting(f, f, b, lo, hi, d, i, i, h)
  {
    assert f[i := f[i]] == f;
  }

  lemma InsertBounds(f: seq<int>, g: seq<int>, b: seq<byte>, lo: int, hi: int, d: nat, i: int, j: int, h: int)
    requires Inserting(f, g, b, lo, hi, d, i, j, h) && lo + h <= j
    ensures 0 <= lo <= j <= i <= hi < |f| && |g| == |f| && h > 0
    ensures 0 <= g[j - h] < |b| && 0 <= f[i] < |b| && Cmp(b, g[j - h], f[i], d) == 0
  {
    RearrangedAgree(f, g[j := f[i]], b, lo, hi, d);
    assert g[j := f[i]][j - h] == g[j - h];
    assert g[j := f[i]][j] == f[i];
  }

  lemma InsertStep(f: seq<int>, g: seq<int>, b: seq<byte>, lo: int, hi: int, d: nat, i: int, j: int, h: int)
    requires Inserting(f, g, b, lo, hi, d, i, j, h) && lo + h <= j
    requires 0 <= g[j - h] < |b| && 0 <= f[i] < |b| && RotLe(b, f[i], g[j - h])
    ensures Inserting(f, g[j := g[j - h]], b, lo, hi, d, i, j - h, h)
  {
    HoleMoves(f, g, lo, hi, i, j, h);
  }

  lemma HoleMoves(f: seq<int>, g: seq<int>, lo: int, hi: int, i: int, j: int, h: int)
    requires 0 <= lo <= j - h < j <= i <= hi < |f| == |g| && Rearranged(f, g[j := f[i]], lo, hi)
    ensures Rearranged(f, g[j := g[j - h]][j - h := f[i]], lo, hi)
  {
    var before := g[j := f[i]];
    var after := g[j := g[j - h]][j - h := f[i]];
    assert after == before[j := before[j - h]][j - h := before[j]];
  }

  /** `v` goes into the hole. */
  lemma InsertEnd(f: seq<int>, g: seq<int>, b: seq<byte>, lo: int, hi: int, d: nat, i: int, j: int, h: int)
    requires Inserting(f, g, b, lo, hi, d, i, j, h)
    requires j >= lo + h ==> 0 <= g[j - h] < |b| && 0 <= f[i] < |b| && RotLe(b, g[j - h], f[i])
    ensures Rearranged(f, g[j := f[i]], lo, hi)
    ensures h == 1 && InOrder(f, b, lo, i - 1) ==> InOrder(g[j := f[i]], b, lo, i)
  {
    if h == 1 && InOrder(f, b, lo, i - 1) {
      var r := g[j := f[i]];
      forall k | lo <= k <= i
        ensures 0 <= r[k] < |b| { assert r[k] == f[if k < j then k else if k == j then i else k - 1]; }
      forall p, q | lo <= p < q <= i ensures RotLe(b, r[p], r[q]) {
        InsertPair(f, g, b, lo, hi, d, i, j, p, q);
      }
    }
  }

  lemma InsertPair(f: seq<int>, g: seq<int>, b: seq<byte>, lo: int, hi: int, d: nat, i: int, j: int, p: int, q: int)
    requires Inserting(f, g, b, lo, hi, d, i, j, 1) && InOrder(f, b, lo, i - 1) && lo <= p < q <= i
    requires j >= lo + 1 ==> 0 <= g[j - 1] < |b| && 0 <= f[i] < |b| && RotLe(b, g[j - 1], f[i])
    ensures var r := g[j := f[i]]; 0 <= r[p] < |b| && 0 <= r[q] < |b| && RotLe(b, r[p], r[q])
  {
    hide Cmp;
    var r := g[j := f[i]];
    assert 0 <= f[i] < |b|;
    if q == j {
      assert r[p] == f[p] && g[j - 1] == f[j - 1];
      if p < j - 1 { CmpTrans(b, f[p], f[j - 1], f[i], |b|); }
    } else if p == j {
      assert r[q] == f[q - 1];
    } else {
      assert r[p] == f[if p < j then p else p - 1] && r[q] == f[if q < j then q else q - 1];
    }
  }

  /** One insertion among the elements `h` apart. */
  method InsertAt(ptr: array<int>, block: seq<byte>, quadrant: seq<int>, nblock: nat, lo: int, hi: int, d: nat,
    i: int, h: int, budget: int, ghost b: seq<byte>)
    returns (budget': int)
    requires 0 <= lo && lo + h <= i <= hi < ptr.Length && h > 0 && d <= 15
    requires Extended(block, b) && QuadrantOk(quadrant, b) && nblock == |b|
    requires Agree(ptr[..], b, lo, hi, d)
    modifies ptr
    ensures Rearranged(old(ptr[..]), ptr[..], lo, hi) && budget' <= budget
    ensures h == 1 && old(InOrder(ptr[..], b, lo, i - 1)) ==> InOrder(ptr[..], b, lo, i)
    ensures Partial(ptr[..], budget', false) ==
            Inserted(Partial(old(ptr[..]), budget, false), Text(block, quadrant, nblock), old(ptr[i]), i, lo, h, d)
  {
    hide Cmp, Extended, QuadrantOk, Answers, Exact, AllMeant, Compared, Inserting, Agree, Rearranged, InOrder, Inserted;
    ghost var f, x := ptr[..], Text(block, quadrant, nblock);
    var v := ptr[i];
    var j := i;
    budget' := budget;
    InsertStart(f, b, lo, hi, d, i, h);
    while true
      invariant lo + h <= j <= i
      invariant Inserting(f, ptr[..], b, lo, hi, d, i, j, h) && budget' <= budget
      invariant Inserted(Partial(ptr[..], budget', false), x, v, j, lo, h, d) ==
        Inserted(Partial(f, budget, false), x, v, i, lo, h, d)
      decreases j
    {
      ghost var g := ptr[..];
      InsertedStep(Partial(g, budget', false), x, v, j, lo, h, d);
      InsertBounds(f, g, b, lo, hi, d, i, j, h);
      BlockLong(block, b);
      var gtu;
      gtu, budget' := MainGtU(ptr[j - h] + d, v + d, block, quadrant, nblock, budget', b);
      DeepAnswer(b, ptr[j - h], v, d, gtu);
      AnswerIs(b, ptr[j - h], v, gtu);
      if !gtu { break; }
      InsertStep(f, g, b, lo, hi, d, i, j, h);
      ptr[j] := ptr[j - h];
      assert ptr[..] == g[j := g[j - h]];
      j := j - h;
      if j <= lo + h - 1 { break; }
    }
    InsertEnd(f, ptr[..], b, lo, hi, d, i, j, h);
    ghost var g := ptr[..];
    ptr[j] := v;
    assert ptr[..] == g[j := f[i]];
  }

  lemma OneInOrder(f: seq<int>, b: seq<byte>, lo: int, hi: int, d: nat)
    requires Agree(f, b, lo, hi, d) && lo <= hi
    ensures InOrder(f, b, lo, lo)
  {
  }

  lemma AnswerIs(b: seq<byte>, x: int, y: int, gtu: bool)
    requires 0 <= x < |b| && 0 <= y < |b| && Answers(b, x, y, gtu)
    ensures if gtu then RotLe(b, y, x) else RotLe(b, x, y)
  {
  }

  /** All insertions at distance `h`, in groups of three after which the budget is looked at. */
  method SortApart(ptr: array<int>, block: seq<byte>, quadrant: seq<int>, nblock: nat, lo: int, hi: int, d: nat,
    h: int, budget: int, ghost b: seq<byte>)
    returns (budget': int, abandoned: bool)
    requires 0 <= lo <= hi < ptr.Length && 0 < h && d <= 15
    requires Extended(block, b) && QuadrantOk(quadrant, b) && nblock == |b|
    requires Agree(ptr[..], b, lo, hi, d)
    modifies ptr
    ensures Rearranged(old(ptr[..]), ptr[..], lo, hi) && budget' <= budget
    ensures abandoned ==> budget' < 0
    ensures !abandoned && h == 1 ==> InOrder(ptr[..], b, lo, hi)
    ensures Partial(ptr[..], budget', abandoned) ==
            InsertedApart(Partial(old(ptr[..]), budget, false), Text(block, quadrant, nblock), lo + h, 0, lo, hi, h, d)
  {
    hide Cmp, Extended, QuadrantOk, Rearranged, Agree, InOrder, InsertedApart, Inserted;
    ghost var f, x := ptr[..], Text(block, quadrant, nblock);
    ghost var r := InsertedApart(Partial(f, budget, false), x, lo + h, 0, lo, hi, h, d);
    RearrangedRefl(f, lo, hi);
    budget', abandoned := budget, false;
    var i := lo + h;
    OneInOrder(ptr[..], b, lo, hi, d);
    while true
      invariant lo + h <= i && (i <= hi + 1 || i == lo + h)
      invariant Rearranged(f, ptr[..], lo, hi) && Agree(ptr[..], b, lo, hi, d) && budget' <= budget
      invariant h == 1 ==> InOrder(ptr[..], b, lo, i - 1)
      invariant InsertedApart(Partial(ptr[..], budget', false), x, i, 0, lo, hi, h, d) == r
      decreases hi - i
    {
      var copies := 0;
      ghost var i0 := i;
      while copies < 3 && i <= hi
        invariant 0 <= copies <= 3 && lo + h <= i && (i <= hi + 1 || i == lo + h) && i == i0 + copies
        invariant Rearranged(f, ptr[..], lo, hi) && Agree(ptr[..], b, lo, hi, d) && budget' <= budget
        invariant h == 1 ==> InOrder(ptr[..], b, lo, i - 1)
        invariant InsertedApart(Partial(ptr[..], budget', false), x, i, copies, lo, hi, h, d) == r
        decreases 3 - copies
      {
        ghost var g := ptr[..];
        InsertedApartStep(Partial(g, budget', false), x, i, copies, lo, hi, h, d);
        budget' := InsertAt(ptr, block, quadrant, nblock, lo, hi, d, i, h, budget', b);
        RearrangedAgree(g, ptr[..], b, lo, hi, d);
        RearrangedTrans(f, g, ptr[..], lo, hi);
        i := i + 1;
        copies := copies + 1;
      }
      InsertedApartStep(Partial(ptr[..], budget', false), x, i, copies, lo, hi, h, d);
      if copies < 3 { break; }
      if budget' < 0 { return budget', true; }
    }
  }

  method ChooseIncrement(bigN: int) returns (hp: nat)
    requires 2 <= bigN <= 900000
    ensures hp == FirstIncrement(bigN, 0) && 1 <= hp <= 13
  {
    hp := 0;
    assert INCS[12] == 797161 && INCS[13] == 2391484;
    while INCS[hp] < bigN
      invariant 0 <= hp <= 13 && FirstIncrement(bigN, hp) == FirstIncrement(bigN, 0)
      decreases 13 - hp
    {
      hp := hp + 1;
    }
  }

  /** mainSimpleSort: unless it is abandoned, the range ends up in order. */
  method Sort(ptr: array<int>, block: seq<byte>, quadrant: seq<int>, nblock: nat, lo: int, hi: int, d: nat,
    budget: int, ghost b: seq<byte>)
    returns (budget': int)
    requires 0 <= lo <= hi + 1 && hi < ptr.Length && d <= 15 && hi - lo < 900000
    requires Extended(block, b) && QuadrantOk(quadrant, b) && nblock == |b|
    requires Agree(ptr[..], b, lo, hi, d)
    modifies ptr
    ensures Rearranged(old(ptr[..]), ptr[..], lo, hi) && budget' <= budget
    ensures budget' >= 0 ==> InOrder(ptr[..], b, lo, hi)
    ensures var r := SimplySorted(Partial(old(ptr[..]), budget, false), Text(block, quadrant, nblock), lo, hi, d);
      ptr[..] == r.f && budget' == r.budget
  {
    hide Cmp, Extended, QuadrantOk, Rearranged, Agree, InOrder, Increments, InsertedApart, FirstIncrement;
    ghost var f, x := ptr[..], Text(block, quadrant, nblock);
    RearrangedRefl(f, lo, hi);
    budget' := budget;
    var bigN := hi - lo + 1;
    if bigN < 2 {
      ShortInOrder(f, b, lo, hi, d);
      return;
    }
    var hp: int := ChooseIncrement(bigN);
    hp := hp - 1;
    ghost var r := Increments(Partial(f, budget, false), x, hp, lo, hi, d);
    while hp >= 0
      invariant -1 <= hp <= 12
      invariant Rearranged(f, ptr[..], lo, hi) && Agree(ptr[..], b, lo, hi, d) && budget' <= budget
      invariant hp == -1 ==> InOrder(ptr[..], b, lo, hi)
      invariant Increments(Partial(ptr[..], budget', false), x, hp, lo, hi, d) == r
      decreases hp
    {
      var h := INCS[hp];
      ghost var g := ptr[..];
      var abandoned;
      IncrementsStep(Partial(g, budget', false), x, hp, lo, hi, d);
      budget', abandoned := SortApart(ptr, block, quadrant, nblock, lo, hi, d, h, budget', b);
      RearrangedAgree(g, ptr[..], b, lo, hi, d);
      RearrangedTrans(f, g, ptr[..], lo, hi);
      IncrementsStep(Partial(ptr[..], budget', abandoned), x, hp - 1, lo, hi, d);
      if abandoned { return; }
      hp := hp - 1;
    }
    IncrementsStep(Partial(ptr[..], budget', false), x, -1, lo, hi, d);
  }

  lemma ShortInOrder(f: seq<int>, b: seq<byte>, lo: int, hi: int, d: nat)
    requires Agree(f, b, lo, hi, d) && hi <= lo
    ensures InOrder(f, b, lo, hi)
  {
  }
}

/**
 The budget of the main sort decides only whether it finishes, not what it finds.
 */
module Budget {
  import opened Rotations
  import opened RangeSort
  import opened Pending
  import opened MainOrder
  import opened MainSimpleSort
  import opened MainRadix
  import opened MainSort
  import MainQSort

  /** The same with `k` more left. */
  function More(s: Partial, k: nat): Partial {
    s.(budget := s.budget + k)
  }

  lemma {:induction false} InsertedMore(s: Partial, x: Text, v: int, j: int, lo: int, h: nat, d: nat, k: nat)
    requires h > 0
    ensures Inserted(More(s, k), x, v, j, lo, h, d) == More(Inserted(s, x, v, j, lo, h, d), k)
    decreases j - lo
  {
    hide Compared;
    InsertedStep(s, x, v, j, lo, h, d);
    InsertedStep(More(s, k), x, v, j, lo, h, d);
    var c := Compared(x.block, x.quadrant, x.n, Get(s.f, j - h) + d, v + d);
    if c.gtu && j - h > lo + h - 1 {
      InsertedMore(s.(f := Put(s.f, j, Get(s.f, j - h)), budget := s.budget - c.cost), x, v, j - h, lo, h, d, k);
    }
  }

  /** Only a sort without budget is abandoned. */
  lemma {:induction false} ApartMore(s: Partial, x: Text, i: int, copies: nat, lo: int, hi: int, h: nat, d: nat, k: nat)
    requires h > 0 && !s.abandoned
    ensures var r := InsertedApart(s, x, i, copies, lo, hi, h, d);
      && (r.abandoned ==> r.budget < 0)
      && (!r.abandoned ==> InsertedApart(More(s, k), x, i, copies, lo, hi, h, d) == More(r, k))
    decreases if i <= hi then hi - i + 1 else 0, if copies >= 3 then 1 else 0
  {
    hide Inserted;
    InsertedApartStep(s, x, i, copies, lo, hi, h, d);
    InsertedApartStep(More(s, k), x, i, copies, lo, hi, h, d);
    if copies >= 3 {
      if s.budget >= 0 { ApartMore(s, x, i, 0, lo, hi, h, d, k); }
    } else if i <= hi {
      InsertedMore(s, x, Get(s.f, i), i, lo, h, d, k);
      ApartMore(Inserted(s, x, Get(s.f, i), i, lo, h, d), x, i + 1, copies + 1, lo, hi, h, d, k);
    }
  }

  lemma {:induction false} IncrementsMore(s: Partial, x: Text, hp: int, lo: int, hi: int, d: nat, k: nat)
    requires hp <= 13 && (s.abandoned ==> s.budget < 0)
    ensures var r := Increments(s, x, hp, lo, hi, d);
      (r.abandoned ==> r.budget < 0) && (!r.abandoned ==> Increments(More(s, k), x, hp, lo, hi, d) == More(r, k))
    decreases hp
  {
    hide InsertedApart;
    IncrementsStep(s, x, hp, lo, hi, d);
    IncrementsStep(More(s, k), x, hp, lo, hi, d);
    if hp >= 0 && !s.abandoned {
      ApartMore(s, x, lo + INCS[hp], 0, lo, hi, INCS[hp], d, k);
      IncrementsMore(InsertedApart(s, x, lo + INCS[hp], 0, lo, hi, INCS[hp], d), x, hp - 1, lo, hi, d, k);
    }
  }

  lemma SmallMore(s: Partial, x: Text, top: Range, k: nat)
    requires !s.abandoned
    ensures var r := MainQSort.SmallSorted(s, x, top);
      (r.abandoned <==> r.budget < 0) && (!r.abandoned ==> MainQSort.SmallSorted(More(s, k), x, top) == More(r, k))
  {
    hide Increments;
    if top.hi - top.lo + 1 >= 2 {
      var d := if top.d < 0 then 0 else top.d;
      IncrementsMore(s, x, FirstIncrement(top.hi - top.lo + 1, 0) - 1, top.lo, top.hi, d, k);
    }
  }

  lemma {:induction false} QSortedMore(s: MainQSort.Sorting, x: Text, k: nat)
    requires s.part.abandoned <==> s.part.budget < 0
    ensures var r := MainQSort.QSorted(s, x);
      && (r.abandoned <==> r.budget < 0)
      && (!r.abandoned ==> MainQSort.QSorted(s.(part := More(s.part, k)), x) == More(r, k))
    decreases Weight(s.stack)
  {
    hide MainQSort.SmallSorted, Scanned, Gathered, MainQSort.LargestFirst;
    if |s.stack| > 0 && !s.part.abandoned {
      var t, t' := MainQSort.Turned(s, x), MainQSort.Turned(s.(part := More(s.part, k)), x);
      var top := s.stack[|s.stack| - 1];
      if top.hi - top.lo < MainQSort.SMALL_THRESH || top.d > MainQSort.DEPTH_THRESH { SmallMore(s.part, x, top, k); }
      assert !t.part.abandoned ==> t' == t.(part := More(t.part, k));
      if 0 <= Weight(t.stack) < Weight(s.stack) { QSortedMore(t, x, k); }
    }
  }

  // ---------------------------------------------------------------- big buckets

  function MoreLeft(m: State, k: nat): State {
    m.(budget := m.budget + k)
  }

  lemma SmallDoneMore(m: State, block: seq<int>, n: nat, sb: int, k: nat)
    requires m.budget >= 0 && SmallDone(m, block, n, sb).budget >= 0
    ensures SmallDone(MoreLeft(m, k), block, n, sb) == MoreLeft(SmallDone(m, block, n, sb), k)
  {
    hide MainQSort.QSorted;
    var lo, hi := ClearMask(Get(m.ftab, sb)), ClearMask(Get(m.ftab, sb + 1)) - 1;
    QSortedMore(MainQSort.Sorting(Partial(m.ptr, m.budget, false), [Range(lo, hi, 2)]), Text(block, m.quadrant, n), k);
  }

  lemma {:induction false} RowMore(m: State, block: seq<int>, n: nat, ss: int, j: nat, k: nat)
    requires m.budget >= 0 && RowDone(m, block, n, ss, j).budget >= 0
    ensures RowDone(MoreLeft(m, k), block, n, ss, j) == MoreLeft(RowDone(m, block, n, ss, j), k)
    decreases 256 - j
  {
    hide SmallDone;
    RowDoneStep(m, block, n, ss, j);
    RowDoneStep(MoreLeft(m, k), block, n, ss, j);
    if j < 256 {
      var m1 := if j == ss then m else SmallDone(m, block, n, Pair(ss, j));
      RowDoneStep(m1, block, n, ss, j + 1);
      if j != ss { SmallDoneMore(m, block, n, Pair(ss, j), k); }
      RowMore(m1, block, n, ss, j + 1, k);
    }
  }

  lemma BucketMore(m: State, block: seq<int>, done: seq<bool>, n: nat, ss: int, last: bool, k: nat)
    requires m.budget >= 0 && BucketDone(m, block, done, n, ss, last).budget >= 0
    ensures BucketDone(MoreLeft(m, k), block, done, n, ss, last) == MoreLeft(BucketDone(m, block, done, n, ss, last), k)
  {
    hide RowDone, ScansDone, Renumbered;
    RowMore(m, block, n, ss, 0, k);
  }

  /** With more budget the sort that has finished finds the same listing. */
  lemma {:induction false} AfterMore(b: seq<byte>, budget: nat, more: nat, k: nat)
    requires k <= 256 && After(b, budget, k).budget >= 0
    ensures After(b, budget + more, k) == MoreLeft(After(b, budget, k), more)
  {
    hide BucketDone, Overshot, DoneAfter, OrderOf, After;
    if k == 0 {
      AfterStart(b, budget);
      AfterStart(b, budget + more);
    } else {
      AfterStep(b, budget, k - 1);
      AfterMore(b, budget, more, k - 1);
      AfterStep(b, budget + more, k - 1);
      BucketMore(After(b, budget, k - 1), Overshot(b), DoneAfter(b, k - 1), |b|, OrderOf(b)[k - 1], k == 256, more);
    }
  }

  /** Two budgets with which the sort finishes lead to one listing. */
  lemma OneListing(b: seq<byte>, budget1: nat, budget2: nat)
    requires After(b, budget1, 256).budget >= 0 && After(b, budget2, 256).budget >= 0
    ensures After(b, budget1, 256).ptr == After(b, budget2, 256).ptr
  {
    hide After;
    if budget1 <= budget2 {
      AfterMore(b, budget1, budget2 - budget1, 256);
    } else {
      AfterMore(b, budget2, budget1 - budget2, 256);
    }
  }
}

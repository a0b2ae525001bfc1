/**
 The sorts used inside the fallback block sort: they order a range of `fmap` by the
 class number of each element.
 */
module FallbackQSort {
  import opened RangeSort
  import opened Pending

  const SMALL_THRESH := 10
  const STACK_SIZE := 100

  /** Order of elements by key, as a relation on elements. */
  ghost function KeyLe(key: seq<int>): (int, int) -> bool {
    (x: int, y: int) => 0 <= x < |key| && 0 <= y < |key| ==> key[x] <= key[y]
  }

  ghost predicate SortedByKey(a: seq<int>, key: seq<int>, lo: int, hi: int)
    requires 0 <= lo && hi < |a|
  {
    forall p, q :: lo <= p < q <= hi ==> KeyLe(key)(a[p], a[q])
  }

  // ---------------------------------------------------------------- what the sorts compute

  /** Smaller elements from place `j` on move down by `gap`, and `tmp` goes into the hole. */
  function MovedDown(f: seq<int>, key: seq<int>, tmp: int, j: int, gap: int, hi: int): (g: seq<int>)
    ensures |g| == |f|
    decreases hi - j
  {
    if gap > 0 && j <= hi && Get(key, tmp) > Get(key, Get(f, j))
    then MovedDown(Put(f, j - gap, Get(f, j)), key, tmp, j + gap, gap, hi)
    else Put(f, j - gap, tmp)
  }

  /** Insertions at `gap` from place `i` down to `lo`. */
  function InsertedDown(f: seq<int>, key: seq<int>, i: int, gap: int, lo: int, hi: int): (g: seq<int>)
    ensures |g| == |f|
    decreases i - lo
  {
    if i < lo then f else InsertedDown(MovedDown(f, key, Get(f, i), i + gap, gap, hi), key, i - 1, gap, lo, hi)
  }

  function SimplySorted(f: seq<int>, key: seq<int>, lo: int, hi: int): (g: seq<int>)
    ensures |g| == |f|
  {
    if lo == hi then f
    else InsertedDown(if hi - lo > 3 then InsertedDown(f, key, hi - 4, 4, lo, hi) else f, key, hi - 1, 1, lo, hi)
  }

  /** A moment of the quicksort: the listing, the stack and the pseudo-random number. */
  datatype Sorting = Sorting(f: seq<int>, stack: seq<Range>, r: int)

  /** The range `top` has been split around `med`. */
  function Split(f: seq<int>, key: seq<int>, rest: seq<Range>, top: Range, med: int, r: int): (t: Sorting)
    ensures |t.f| == |f|
  {
    var s := Scanned(Scan(f, top.lo, top.lo, top.hi, top.hi), key, med);
    if s.gtHi < s.ltLo then Sorting(s.f, rest, r)
    else
      var low := Range(top.lo, top.lo + s.unLo - s.ltLo - 1, 0);
      var high := Range(top.hi - (s.gtHi - s.unHi) + 1, top.hi, 0);
      Sorting(Gathered(s, top.lo, top.hi), if Size(low) > Size(high) then rest + [low, high] else rest + [high, low], r)
  }

  /** One turn of the loop over the stack. */
  function Turned(s: Sorting, key: seq<int>): (t: Sorting)
    requires |s.stack| > 0
    ensures |t.f| == |s.f|
  {
    var top, rest := s.stack[|s.stack| - 1], s.stack[..|s.stack| - 1];
    if top.hi - top.lo < SMALL_THRESH then Sorting(SimplySorted(s.f, key, top.lo, top.hi), rest, s.r)
    else
      var r := (s.r * 7621 + 1) % 32768;
      var at := if r % 3 == 0 then top.lo else if r % 3 == 1 then (top.lo + top.hi) / 2 else top.hi;
      Split(s.f, key, rest, top, Get(key, Get(s.f, at)), r)
  }

  /** The listing when the stack is empty.  Every turn makes the stack lighter. */
  function QSorted(s: Sorting, key: seq<int>): (g: seq<int>)
    ensures |g| == |s.f|
    decreases Weight(s.stack)
  {
    if |s.stack| == 0 then s.f
    else
      var t := Turned(s, key);
      if 0 <= Weight(t.stack) < Weight(s.stack) then QSorted(t, key) else t.f
  }

  // ---------------------------------------------------------------- the sorts

  /** One insertion into the elements above `i` that lie `gap` apart. */
  method InsertGap(fmap: array<int>, eclass: seq<int>, i: int, gap: int, lo: int, hi: int)
    requires 0 <= lo <= i && i + gap <= hi < fmap.Length && gap > 0
    requires forall k :: lo <= k <= hi ==> 0 <= fmap[k] < |eclass|
    modifies fmap
    ensures Rearranged(old(fmap[..]), fmap[..], lo, hi)
    ensures forall k :: lo <= k <= hi ==> 0 <= fmap[k] < |eclass|
    ensures gap == 1 && old(SortedByKey(fmap[..], eclass, i + 1, hi)) ==> SortedByKey(fmap[..], eclass, i, hi)
    ensures fmap[..] == MovedDown(old(fmap[..]), eclass, old(fmap[i]), i + gap, gap, hi)
  {
    hide Rearranged, MovedDown;
    ghost var f := fmap[..];
    var tmp := fmap[i];
    var ec_tmp := eclass[tmp];
    var j := i + gap;
    assert f[i := tmp] == f;
    RearrangedRefl(f, lo, hi);
    while j <= hi && ec_tmp > eclass[fmap[j]]
      invariant i + gap <= j <= hi + gap
      invariant forall k :: lo <= k <= hi ==> 0 <= fmap[k] < |eclass|
      invariant forall k :: j - gap <= k < fmap.Length ==> fmap[k] == f[k]
      invariant forall k :: 0 <= k < i ==> fmap[k] == f[k]
      invariant Rearranged(f, fmap[..][j - gap := tmp], lo, hi)
      invariant gap == 1 ==> forall k :: i <= k < j - 1 ==> fmap[k] == f[k + 1] && ec_tmp > eclass[fmap[k]]
      invariant MovedDown(fmap[..], eclass, tmp, j, gap, hi) == MovedDown(f, eclass, tmp, i + gap, gap, hi)
    {
      ghost var g := fmap[..];
      MovedDownStep(g, eclass, tmp, j, gap, hi);
      fmap[j - gap] := fmap[j];
      MoveHole(f, g, tmp, j - gap, j, lo, hi);
      assert fmap[..][j := tmp] == g[j - gap := g[j]][j := tmp];
      j := j + gap;
    }
    ghost var g := fmap[..];
    MovedDownStep(g, eclass, tmp, j, gap, hi);
    fmap[j - gap] := tmp;
    assert fmap[..] == g[j - gap := tmp];
  }

  lemma MovedDownStep(f: seq<int>, key: seq<int>, tmp: int, j: int, gap: int, hi: int)
    requires gap > 0
    ensures MovedDown(f, key, tmp, j, gap, hi) ==
            if j <= hi && Get(key, tmp) > Get(key, Get(f, j))
              then MovedDown(Put(f, j - gap, Get(f, j)), key, tmp, j + gap, gap, hi)
            else Put(f, j - gap, tmp)
  {
  }

  /** The element held aside may be thought of as sitting in the hole; the hole can move. */
  lemma MoveHole(f: seq<int>, g: seq<int>, tmp: int, h: int, j: int, lo: int, hi: int)
    requires 0 <= lo <= h < j <= hi < |f| && |g| == |f|
    requires Rearranged(f, g[h := tmp], lo, hi)
    ensures Rearranged(f, g[h := g[j]][j := tmp], lo, hi)
  {
    var before := g[h := tmp];
    var after := g[h := g[j]][j := tmp];
    assert after == before[h := before[j]][j := before[h]];
  }

  /** Insertion sort, preceded for longer ranges by a pass over elements four apart. */
  method FallbackSimpleSort(fmap: array<int>, eclass: seq<int>, lo: int, hi: int)
    requires 0 <= lo <= hi + 1 && hi < fmap.Length
    requires forall k :: lo <= k <= hi ==> 0 <= fmap[k] < |eclass|
    modifies fmap
    ensures Rearranged(old(fmap[..]), fmap[..], lo, hi)
    ensures forall k :: lo <= k <= hi ==> 0 <= fmap[k] < |eclass|
    ensures SortedByKey(fmap[..], eclass, lo, hi)
    ensures fmap[..] == SimplySorted(old(fmap[..]), eclass, lo, hi)
  {
    hide Rearranged, MovedDown, InsertedDown;
    ghost var f := fmap[..];
    RearrangedRefl(f, lo, hi);
    if lo == hi { return; }
    if hi - lo > 3 {
      var i := hi - 4;
      while i >= lo
        invariant lo - 1 <= i <= hi - 4
        invariant Rearranged(f, fmap[..], lo, hi)
        invariant forall k :: lo <= k <= hi ==> 0 <= fmap[k] < |eclass|
        invariant InsertedDown(fmap[..], eclass, i, 4, lo, hi) == InsertedDown(f, eclass, hi - 4, 4, lo, hi)
      {
        ghost var g := fmap[..];
        InsertedDownStep(g, eclass, i, 4, lo, hi);
        InsertGap(fmap, eclass, i, 4, lo, hi);
        RearrangedTrans(f, g, fmap[..], lo, hi);
        i := i - 1;
      }
      InsertedDownStep(fmap[..], eclass, i, 4, lo, hi);
    }
    var i := hi - 1;
    ghost var f1 := fmap[..];
    while i >= lo
      invariant hi < lo || lo - 1 <= i <= hi - 1
      invariant Rearranged(f, fmap[..], lo, hi)
      invariant forall k :: lo <= k <= hi ==> 0 <= fmap[k] < |eclass|
      invariant hi < lo || SortedByKey(fmap[..], eclass, i + 1, hi)
      invariant InsertedDown(fmap[..], eclass, i, 1, lo, hi) == InsertedDown(f1, eclass, hi - 1, 1, lo, hi)
    {
      ghost var g := fmap[..];
      InsertedDownStep(g, eclass, i, 1, lo, hi);
      InsertGap(fmap, eclass, i, 1, lo, hi);
      RearrangedTrans(f, g, fmap[..], lo, hi);
      i := i - 1;
    }
    InsertedDownStep(fmap[..], eclass, i, 1, lo, hi);
  }

  lemma InsertedDownStep(f: seq<int>, key: seq<int>, i: int, gap: int, lo: int, hi: int)
    ensures InsertedDown(f, key, i, gap, lo, hi) ==
            if i < lo then f else InsertedDown(MovedDown(f, key, Get(f, i), i + gap, gap, hi), key, i - 1, gap, lo, hi)
  {
    hide MovedDown;
  }

  /** After the partition only the two outer parts can still be out of order. */
  lemma {:induction false} PartitionCovers(g: seq<int>, key: seq<int>, med: int, lo: int, n: int, m: int, hi: int,
    sub: seq<Range>)
    requires ThreeWay(g, key, lo, n, m, hi, med)
    requires |sub| == 2 && Range(lo, n, 0) in sub && Range(m, hi, 0) in sub
    ensures forall p, q :: lo <= p < q <= hi && !KeyLe(key)(g[p], g[q]) ==> Covered(sub, p, q)
  {
    forall p, q | lo <= p < q <= hi && !KeyLe(key)(g[p], g[q]) ensures Covered(sub, p, q) {
      assert key[g[p]] > key[g[q]];
      var e := if q <= n then Range(lo, n, 0) else Range(m, hi, 0);
      var i :| 0 <= i < |sub| && sub[i] == e;
      assert sub[i].lo <= p && q <= sub[i].hi;
    }
  }

  /** What holds of the ranges on the stack, besides their meaning for the order. */
  ghost predicate StackSizes(st: seq<Range>, n: nat) {
    && Shallow(st, n)
    && forall i :: 0 <= i < |st| ==> Size(st[i]) >= 0 && st[i].d == 0
  }

  /** Replacing the top by two parts, the larger below the smaller. */
  lemma {:induction false} PushParts(st: seq<Range>, e: Range, big: Range, little: Range, n: nat)
    requires StackSizes(st + [e], n) && n <= 900000 && Size(e) >= 11
    requires big.d == little.d == 0 && 0 <= Size(little) <= Size(big)
    requires Size(big) + Size(little) < Size(e)
    ensures StackSizes(st + [big, little], n) && |st| <= 20
    ensures 0 <= Weight(st + [big, little]) < Weight(st + [e])
  {
    var o := st + [e];
    assert o[|st|] == e;
    assert Fits(Size(e), |st|, n);
    FitsHigher(Size(e), Size(big), |st|, n);
    FitsHigher(Size(e), Size(little), |st|, n);
    SplitLow(Size(e), |st|, n);
    forall i {:trigger (st + [big, little])[i]} | 0 <= i < |st|
      ensures Fits(Size(st[i]), i, n) && Size(st[i]) >= 0 && st[i].d == 0 {
      assert o[i] == st[i];
    }
    WeightPush(st, e);
    WeightPush(st, big);
    WeightPush(st + [big], little);
    assert st + [big, little] == st + [big] + [little];
    WeightNonNeg(st + [big, little]);
  }

  lemma {:induction false} PopTop(st: seq<Range>, e: Range, n: nat)
    requires StackSizes(st + [e], n)
    ensures StackSizes(st, n) && Size(e) >= 0 && e.d == 0
    ensures 0 <= Weight(st) < Weight(st + [e])
  {
    var o := st + [e];
    assert o[|st|] == e;
    forall i {:trigger st[i]} | 0 <= i < |st| ensures Fits(Size(st[i]), i, n) && Size(st[i]) >= 0 && st[i].d == 0 {
      assert o[i] == st[i];
    }
    WeightPush(st, e);
    WeightNonNeg(st);
  }

  lemma FirstRange(f: seq<int>, le: (int, int) -> bool, lo: int, hi: int)
    requires 0 <= lo <= hi < |f|
    ensures StackOk(f, le, [Range(lo, hi, 0)], lo, hi)
    ensures StackSizes([Range(lo, hi, 0)], hi - lo + 1)
    ensures Rearranged(f, f, lo, hi)
  {
    var st := [Range(lo, hi, 0)];
    forall p, q | lo <= p < q <= hi ensures Covered(st, p, q) {
      assert st[0].lo <= p && q <= st[0].hi;
    }
    assert Fits(Size(st[0]), 0, hi - lo + 1);
  }

  lemma TopWithin(f: seq<int>, le: (int, int) -> bool, st: seq<Range>, e: Range, lo: int, hi: int)
    requires 0 <= lo && hi < |f| && StackOk(f, le, st + [e], lo, hi)
    ensures lo <= e.lo <= e.hi + 1 <= hi + 1
  {
    assert (st + [e])[|st|] == e;
  }

  lemma StackDone(f: seq<int>, key: seq<int>, lo: int, hi: int)
    requires 0 <= lo && hi < |f| && StackOk(f, KeyLe(key), [], lo, hi)
    ensures SortedByKey(f, key, lo, hi)
  {
    StackEmpty(f, KeyLe(key), lo, hi);
  }

  /** Partitions the popped range and pushes its two outer parts, the larger one first. */
  method SplitRange(fmap: array<int>, eclass: seq<int>, rest: seq<Range>, top: Range, med: int, ghost total: nat,
                    ghost loSt: int, ghost hiSt: int, ghost r: int)
    returns (stack: seq<Range>)
    requires 0 <= loSt <= top.lo && top.hi <= hiSt < fmap.Length && Size(top) >= 11 && top.d == 0
    requires Keyed(fmap[..], eclass, loSt, hiSt)
    requires exists k :: top.lo <= k <= top.hi && eclass[fmap[k]] == med
    requires StackOk(fmap[..], KeyLe(eclass), rest + [top], loSt, hiSt)
    requires StackSizes(rest + [top], total) && total <= 900000 && |rest| < 22
    modifies fmap
    ensures Rearranged(old(fmap[..]), fmap[..], loSt, hiSt) && Keyed(fmap[..], eclass, loSt, hiSt)
    ensures StackOk(fmap[..], KeyLe(eclass), stack, loSt, hiSt)
    ensures StackSizes(stack, total) && |stack| <= 22 && 0 <= Weight(stack) < Weight(rest + [top])
    ensures Sorting(fmap[..], stack, r) == Split(old(fmap[..]), eclass, rest, top, med, r)
  {
    hide Rearranged, StackOk, StackSizes, Weight, Scanned, Gathered, Parted, ThreeWay, Keyed;
    ghost var f := fmap[..];
    var lo, hi := top.lo, top.hi;
    ghost var at := PivotPlace(f, eclass, loSt, hiSt, lo, hi, med);
    KeyedPart(f, eclass, loSt, hiSt, lo, hi);
    var ltLo, unLo, unHi, gtHi := PartitionScan(fmap, eclass, lo, hi, med);
    ghost var s := Scan(fmap[..], ltLo, unLo, unHi, gtHi);
    RearrangedWiden(f, s.f, lo, hi, loSt, hiSt);
    RearrangedKeyed(f, s.f, eclass, loSt, hiSt, lo, hi);
    if gtHi < ltLo {
      stack := rest;
      AllPivot(f, s, eclass, med, rest, top, total, loSt, hiSt);
      return;
    }
    PivotStays(f, s, eclass, lo, hi, med, at);
    var n, m := GatherPivots(fmap, eclass, lo, hi, med, ltLo, unLo, unHi, gtHi);
    RearrangedTrans(f, s.f, fmap[..], lo, hi);
    RearrangedWiden(f, fmap[..], lo, hi, loSt, hiSt);
    RearrangedKeyed(f, fmap[..], eclass, loSt, hiSt, lo, hi);
    var low, high := Range(lo, n, 0), Range(m, hi, 0);
    stack := if n - lo > hi - m then rest + [low, high] else rest + [high, low];
    TwoParts(f, fmap[..], eclass, med, n, m, rest, top, total, loSt, hiSt);
  }

  lemma PivotPlace(f: seq<int>, key: seq<int>, loSt: int, hiSt: int, lo: int, hi: int, med: int) returns (at: int)
    requires Keyed(f, key, loSt, hiSt) && loSt <= lo && hi <= hiSt
    requires exists k :: lo <= k <= hi && key[f[k]] == med
    ensures lo <= at <= hi < |f| && 0 <= f[at] < |key| && key[f[at]] == med
  {
    at :| lo <= at <= hi && key[f[at]] == med;
  }

  lemma KeyedPart(f: seq<int>, key: seq<int>, loSt: int, hiSt: int, lo: int, hi: int)
    requires Keyed(f, key, loSt, hiSt) && loSt <= lo && hi <= hiSt
    ensures Keyed(f, key, lo, hi)
  {
  }

  /** All keys equal the pivot: nothing is left to do in the range. */
  lemma AllPivot(f: seq<int>, s: Scan, key: seq<int>, med: int, rest: seq<Range>, top: Range, total: nat, loSt: int,
    hiSt: int)
    requires 0 <= loSt <= top.lo && top.hi <= hiSt < |f|
    requires StackOk(f, KeyLe(key), rest + [top], loSt, hiSt) && StackSizes(rest + [top], total)
    requires Rearranged(f, s.f, top.lo, top.hi) && Parted(s, key, top.lo, top.hi, med) && s.gtHi < s.ltLo
      && |s.f| == |f|
    ensures StackOk(s.f, KeyLe(key), rest, loSt, hiSt)
    ensures StackSizes(rest, total) && 0 <= Weight(rest) < Weight(rest + [top])
  {
    hide StackOk, StackSizes, Weight, Rearranged;
    PopTop(rest, top, total);
    RangeStep(f, s.f, KeyLe(key), rest, top, [], loSt, hiSt);
    assert rest + [] == rest;
  }

  lemma TwoParts(f: seq<int>, g: seq<int>, key: seq<int>, med: int, n: int, m: int, rest: seq<Range>, top: Range,
    total: nat, loSt: int, hiSt: int)
    requires 0 <= loSt <= top.lo && top.hi <= hiSt < |f| == |g| && Size(top) >= 11 && top.d == 0
    requires StackOk(f, KeyLe(key), rest + [top], loSt, hiSt)
    requires StackSizes(rest + [top], total) && total <= 900000
    requires Rearranged(f, g, top.lo, top.hi) && ThreeWay(g, key, top.lo, n, m, top.hi, med) && n + 1 < m
    ensures var low, high := Range(top.lo, n, 0), Range(m, top.hi, 0);
      var stack := if Size(low) > Size(high) then rest + [low, high] else rest + [high, low];
      && StackOk(g, KeyLe(key), stack, loSt, hiSt) && StackSizes(stack, total) && |stack| <= 22
      && 0 <= Weight(stack) < Weight(rest + [top])
  {
    hide StackOk, StackSizes, Weight, Rearranged, ThreeWay;
    ThreeWayBounds(g, key, top.lo, n, m, top.hi, med);
    var low, high := Range(top.lo, n, 0), Range(m, top.hi, 0);
    var sub := if Size(low) > Size(high) then [low, high] else [high, low];
    PushParts(rest, top, sub[0], sub[1], total);
    PartitionCovers(g, key, med, top.lo, n, m, top.hi, sub);
    RangeStep(f, g, KeyLe(key), rest, top, sub, loSt, hiSt);
  }

  lemma ThreeWayBounds(g: seq<int>, key: seq<int>, lo: int, n: int, m: int, hi: int, med: int)
    requires ThreeWay(g, key, lo, n, m, hi, med)
    ensures 0 <= lo && hi < |g| && lo - 1 <= n < m <= hi + 1
  {
  }

  lemma QSortedStep(s: Sorting, key: seq<int>)
    ensures |s.stack| == 0 ==> QSorted(s, key) == s.f
    ensures |s.stack| > 0 && 0 <= Weight(Turned(s, key).stack) < Weight(s.stack) ==>
      QSorted(s, key) == QSorted(Turned(s, key), key)
  {
    hide Turned, Weight;
  }

  /** Three-way quicksort of a range by class number.  The stack never comes near its fixed
      size, since the larger part is always pushed first. */
  method FallbackQSort3(fmap: array<int>, eclass: seq<int>, loSt: int, hiSt: int)
    requires 0 <= loSt <= hiSt < fmap.Length && hiSt - loSt < 900000
    requires forall k :: loSt <= k <= hiSt ==> 0 <= fmap[k] < |eclass|
    modifies fmap
    ensures Rearranged(old(fmap[..]), fmap[..], loSt, hiSt)
    ensures forall k :: loSt <= k <= hiSt ==> 0 <= fmap[k] < |eclass|
    ensures SortedByKey(fmap[..], eclass, loSt, hiSt)
    ensures fmap[..] == QSorted(Sorting(old(fmap[..]), [Range(loSt, hiSt, 0)], 0), eclass)
  {
    hide Rearranged, StackOk, StackSizes, Weight, QSorted, SimplySorted, Split, Keyed;
    ghost var f, le, total := fmap[..], KeyLe(eclass), hiSt - loSt + 1;
    var r := 0;
    var stack := [Range(loSt, hiSt, 0)];
    FirstRange(f, le, loSt, hiSt);
    KeyedFrom(f, eclass, loSt, hiSt);
    while |stack| > 0
      invariant Rearranged(f, fmap[..], loSt, hiSt) && Keyed(fmap[..], eclass, loSt, hiSt)
      invariant StackOk(fmap[..], le, stack, loSt, hiSt)
      invariant StackSizes(stack, total) && |stack| <= 22
      invariant QSorted(Sorting(fmap[..], stack, r), eclass) == QSorted(Sorting(f, [Range(loSt, hiSt, 0)], 0), eclass)
      decreases Weight(stack)
    {
      assert |stack| < STACK_SIZE - 1; // 1004
      var top := stack[|stack| - 1];
      ghost var before, g := stack, fmap[..];
      stack := stack[..|stack| - 1];
      assert before == stack + [top];
      QSortedStep(Sorting(g, before, r), eclass);
      PopTop(stack, top, total);
      TopWithin(g, le, stack, top, loSt, hiSt);
      KeyedAll(g, eclass, loSt, hiSt);
      if top.hi - top.lo < SMALL_THRESH {
        FallbackSimpleSort(fmap, eclass, top.lo, top.hi);
        RearrangedWiden(g, fmap[..], top.lo, top.hi, loSt, hiSt);
        RearrangedKeyed(g, fmap[..], eclass, loSt, hiSt, top.lo, top.hi);
        RearrangedTrans(f, g, fmap[..], loSt, hiSt);
        RangeStep(g, fmap[..], le, stack, top, [], loSt, hiSt);
        assert stack + [] == stack;
      } else {
        r := (r * 7621 + 1) % 32768;
        var lo, hi := top.lo, top.hi;
        var r3 := r % 3;
        var med := if r3 == 0 then eclass[fmap[lo]]
                   else if r3 == 1 then eclass[fmap[(lo + hi) / 2]] else eclass[fmap[hi]];
        stack := SplitRange(fmap, eclass, stack, top, med, total, loSt, hiSt, r);
        RearrangedTrans(f, g, fmap[..], loSt, hiSt);
      }
    }
    QSortedStep(Sorting(fmap[..], stack, r), eclass);
    StackDone(fmap[..], eclass, loSt, hiSt);
    KeyedAll(fmap[..], eclass, loSt, hiSt);
  }

  lemma KeyedFrom(f: seq<int>, key: seq<int>, lo: int, hi: int)
    requires 0 <= lo && hi < |f| && forall k :: lo <= k <= hi ==> 0 <= f[k] < |key|
    ensures Keyed(f, key, lo, hi)
  {
  }

  lemma KeyedAll(f: seq<int>, key: seq<int>, lo: int, hi: int)
    requires Keyed(f, key, lo, hi)
    ensures 0 <= lo && hi < |f| && forall k :: lo <= k <= hi ==> 0 <= f[k] < |key|
  {
  }
}

/**
 The main block sort: a radix sort on two symbols, quicksort of small buckets, and
 pointer-scan synthesis of the others.
 */
module MainSort {
  import opened Rotations
  import opened Permutations
  import opened Counting
  import opened BwtSpec
  import opened Radix
  import opened RangeSort
  import opened MainOrder
  import opened MainSimpleSort
  import opened MainRadix
  import opened Predecessors
  import opened Synthesis
  import opened SynthesisDone
  import opened Pending
  import opened Repetition
  import Bits
  import MainQSort
  import RunningOrder

  // ---------------------------------------------------------------- table entries

  const SETMASK := 2097152 // 1 << 21

  function Marked(v: int): bool {
    v >= SETMASK
  }

  function ClearMask(v: int): int {
    v % SETMASK
  }

  function SetMask(v: int): int {
    if v >= SETMASK then v else v + SETMASK
  }

  /** The table holds the bucket starts, with or without the mark. */
  ghost predicate Starts(ft: seq<int>, b: seq<byte>) {
    |ft| == 65537 && forall c :: 0 <= c <= 65536 ==> 0 <= ft[c] < 2 * SETMASK && ClearMask(ft[c]) == S(b, c)
  }

  /** Marked small buckets are in order; the rows of finished big buckets are marked. */
  ghost predicate Marks(ft: seq<int>, p: seq<int>, b: seq<byte>, done: seq<bool>) {
    && |ft| == 65537 && |done| == 256
    && (forall c :: 0 <= c < 65536 && Marked(ft[c]) ==> SmallSorted(p, b, c))
    && forall t: byte, c: byte :: done[t] ==> Marked(ft[Pair(t, c)])
  }

  lemma SmallStart(b: seq<byte>, c: nat)
    requires |b| <= 900000
    ensures S(b, c) <= |b| < SETMASK
  {
    SOrder(b, c, c + 1);
  }

  // ---------------------------------------------------------------- what the sort computes

  /** A moment of the sort: the listing, the quadrants, the table of bucket starts with its
      marks, and the budget left. */
  datatype State = State(ptr: seq<int>, quadrant: seq<int>, ftab: seq<int>, budget: int)

  /** A small bucket that is not marked is sorted, and then marked unless the sort is abandoned. */
  function SmallDone(m: State, block: seq<int>, n: nat, sb: int): State {
    var v := Get(m.ftab, sb);
    var lo, hi := ClearMask(v), ClearMask(Get(m.ftab, sb + 1)) - 1;
    var r := if !Marked(v) && hi > lo
      then MainQSort.QSorted(MainQSort.Sorting(Partial(m.ptr, m.budget, false), [Range(lo, hi, 2)]),
        Text(block, m.quadrant, n))
      else Partial(m.ptr, m.budget, false);
    State(r.f, m.quadrant, if r.budget < 0 then m.ftab else Put(m.ftab, sb, SetMask(v)), r.budget)
  }

  /** Step 1 on the small buckets [ss,j] from `j` on. */
  function RowDone(m: State, block: seq<int>, n: nat, ss: int, j: nat): State
    decreases 256 - j
  {
    if j >= 256 || m.budget < 0 then m
    else RowDone(if j == ss then m else SmallDone(m, block, n, Pair(ss, j)), block, n, ss, j + 1)
  }

  /** The symbol's big bucket has not been done. */
  predicate Open(done: seq<bool>, c: int) {
    0 <= c < |done| && !done[c]
  }

  function Preceding(x: int, n: nat): int {
    if x - 1 < 0 then x - 1 + n else x - 1
  }

  /** The upward scan of step 2 from place `j` on. */
  function FilledUp(p: seq<int>, copyStart: seq<int>, block: seq<int>, done: seq<bool>, n: nat, ss: int, j: int)
    : (r: (seq<int>, seq<int>))
    ensures |r.0| == |p|
    decreases |p| - j
  {
    if j >= Get(copyStart, ss) || j >= |p| then (p, copyStart)
    else
      var k := Preceding(Get(p, j), n);
      var c := Get(block, k);
      if Open(done, c) then FilledUp(Put(p, Get(copyStart, c), k), Put(copyStart, c, Get(copyStart, c) + 1), block,
        done, n, ss, j + 1)
      else FilledUp(p, copyStart, block, done, n, ss, j + 1)
  }

  /** The downward scan of step 2 from place `j` on. */
  function FilledDown(p: seq<int>, copyEnd: seq<int>, block: seq<int>, done: seq<bool>, n: nat, ss: int, j: int)
    : (r: (seq<int>, seq<int>))
    ensures |r.0| == |p|
    decreases j
  {
    if j <= Get(copyEnd, ss) || j < 0 then (p, copyEnd)
    else
      var k := Preceding(Get(p, j), n);
      var c := Get(block, k);
      if Open(done, c) then FilledDown(Put(p, Get(copyEnd, c), k), Put(copyEnd, c, Get(copyEnd, c) - 1), block, done,
        n, ss, j - 1)
      else FilledDown(p, copyEnd, block, done, n, ss, j - 1)
  }

  function CopyStarts(ftab: seq<int>, ss: int): (r: seq<int>)
    ensures |r| == 256
  {
    seq(256, t => ClearMask(Get(ftab, Pair(t, ss))))
  }

  function CopyEnds(ftab: seq<int>, ss: int): (r: seq<int>)
    ensures |r| == 256
  {
    seq(256, t => ClearMask(Get(ftab, Pair(t, ss) + 1)) - 1)
  }

  /** The entries [t,ss] from `t` on are marked. */
  function ColumnMarked(ftab: seq<int>, ss: int, t: nat): (r: seq<int>)
    ensures |r| == |ftab|
    decreases 256 - t
  {
    if t >= 256 then ftab else ColumnMarked(Put(ftab, Pair(t, ss), SetMask(Get(ftab, Pair(t, ss)))), ss, t + 1)
  }

  /** Step 2: the listing after both scans, and the table with the column of `ss` marked. */
  function ScansDone(ptr: seq<int>, ftab: seq<int>, block: seq<int>, done: seq<bool>, n: nat, ss: int)
    : (seq<int>, seq<int>)
  {
    var up := FilledUp(ptr, CopyStarts(ftab, ss), block, done, n, ss, ClearMask(Get(ftab, Pair(ss, 0)))).0;
    var down := FilledDown(up, CopyEnds(ftab, ss), block, done, n, ss, ClearMask(Get(ftab, Pair(ss, 256))) - 1).0;
    (down, ColumnMarked(ftab, ss, 0))
  }

  /** The power of two that brings `size` down to 16 bits. */
  function Unit(size: nat, unit: nat): (u: nat)
    requires unit > 0
    ensures u > 0
    decreases size - unit
  {
    if unit < size && size / unit > 65534 then Unit(size, 2 * unit) else unit
  }

  /** One quadrant number, and its mirror image if the position is near the start. */
  function NumberPut(q: seq<int>, n: nat, x: int, v: int): (r: seq<int>)
    ensures |r| == |q|
  {
    if x < OVERSHOOT then Put(Put(q, x, v), x + n, v) else Put(q, x, v)
  }

  /** Quadrant numbers for the places of a row from `j` downwards. */
  function NumberedDown(q: seq<int>, ptr: seq<int>, n: nat, start: int, unit: nat, j: int): (r: seq<int>)
    requires unit > 0
    ensures |r| == |q|
    decreases j
  {
    if j < 0 then q else NumberedDown(NumberPut(q, n, Get(ptr, start + j), j / unit), ptr, n, start, unit, j - 1)
  }

  /** Step 3. */
  function Renumbered(quadrant: seq<int>, ptr: seq<int>, ftab: seq<int>, n: nat, ss: int): seq<int> {
    var start := ClearMask(Get(ftab, Pair(ss, 0)));
    var size := ClearMask(Get(ftab, Pair(ss, 256))) - start;
    if size < 0 then quadrant else NumberedDown(quadrant, ptr, n, start, Unit(size, 1), size - 1)
  }

  /** One big bucket. */
  function BucketDone(m: State, block: seq<int>, done: seq<bool>, n: nat, ss: int, last: bool): State {
    var m1 := RowDone(m, block, n, ss, 0);
    if m1.budget < 0 then m1
    else
      var (p, ft) := ScansDone(m1.ptr, m1.ftab, block, done, n, ss);
      State(p, if last then m1.quadrant else Renumbered(m1.quadrant, p, ft, n, ss), ft, m1.budget)
  }

  function StartTable(b: seq<byte>): (ft: seq<int>)
    ensures |ft| == 65537 && forall c :: 0 <= c <= 65536 ==> ft[c] == CountBelow(Pairs(b), c)
  {
    seq(65537, c requires 0 <= c => CountBelow(Pairs(b), c))
  }

  /** The block followed by a copy of its first symbols. */
  function Overshot(b: seq<byte>): seq<int> {
    seq(|b| + OVERSHOOT, i => Get(b, Wrapped(|b|, i)))
  }

  function OrderOf(b: seq<byte>): (o: seq<int>)
    ensures |o| == 256
  {
    RunningOrder.Order(StartTable(b))
  }

  /** Which big buckets are among the first `k` of the running order. */
  function DoneAfter(b: seq<byte>, k: nat): (done: seq<bool>)
    requires k <= 256
    ensures |done| == 256
  {
    seq(256, t => t in OrderOf(b)[..k])
  }

  /** The state after the radix pass and `k` big buckets, or when the sort was abandoned. */
  ghost function After(b: seq<byte>, budget: int, k: nat): State
    requires k <= 256
  {
    if k == 0 then State(Listing(LFTable(Pairs(b))), Cleared(|b|), StartTable(b), budget)
    else
      var m := After(b, budget, k - 1);
      if m.budget < 0 then m
      else BucketDone(m, Overshot(b), DoneAfter(b, k - 1), |b|, OrderOf(b)[k - 1], k == 256)
  }

  // ---------------------------------------------------------------- step 1

  /** Rotations of one small bucket agree on two symbols. */
  lemma BucketAgrees(p: seq<int>, b: seq<byte>, c: nat)
    requires |b| >= 2 && Bucketed(p, Pairs(b))
    ensures Agree(p, b, S(b, c), S(b, c + 1) - 1, 2) && S(b, c) <= S(b, c + 1) <= |b| == |p|
  {
    hide S, Bucketed;
    SOrder(b, c, c + 1);
    KeyOfPlace(p, b, 0);
    forall k | S(b, c) <= k < S(b, c + 1) ensures 0 <= p[k] < |b| && Pairs(b)[p[k]] == c { KeyIs(p, b, k, c); }
    forall q, r | S(b, c) <= q < S(b, c + 1) && S(b, c) <= r < S(b, c + 1) ensures Cmp(b, p[q], p[r], 2) == 0 {
      SamePairs(b, p[q], p[r]);
    }
  }

  lemma SamePairs(b: seq<byte>, x: int, y: int)
    requires 0 <= x < |b| && 0 <= y < |b| && Pairs(b)[x] == Pairs(b)[y]
    ensures Cmp(b, x, y, 2) == 0
  {
    PairsBelow(b, x);
    PairsBelow(b, y);
    var x', y' := Next(|b|, x), Next(|b|, y);
    assert Cmp(b, x', y', 1) == 0 by { assert Cmp(b, Next(|b|, x'), Next(|b|, y'), 0) == 0; }
  }

  /** Rearranging inside a small bucket keeps the listing bucketed and other buckets alone. */
  lemma BucketRearranged(p: seq<int>, p': seq<int>, b: seq<byte>, c: nat)
    requires |b| >= 2 && Bucketed(p, Pairs(b)) && Rearranged(p, p', S(b, c), S(b, c + 1) - 1)
    ensures Bucketed(p', Pairs(b))
    ensures forall d: nat :: d != c && SmallSorted(p, b, d) ==> SmallSorted(p', b, d)
  {
    hide S, Bucketed, RotLe, Rearranged;
    var lo, hi: int := S(b, c), S(b, c + 1) - 1;
    RearrangedBounds(p, p', lo, hi);
    KeyOfPlace(p, b, 0);
    forall k | 0 <= k < |b| ensures InBucket(Pairs(b), p'[k], k) {
      if lo <= k <= hi {
        var j := RearrangedFrom(p, p', lo, hi, k);
        KeyIs(p, b, j, c);
        PlaceIn(b, p'[k], k);
      } else {
        KeyOfPlace(p, b, k);
        PlaceIn(b, p[k], k);
      }
    }
    BucketedPermutation(p, Pairs(b));
    RearrangedPermutation(p, p', lo, hi, |b|);
    MakeBucketed(p', Pairs(b));
    forall d: nat | d != c && SmallSorted(p, b, d) ensures SmallSorted(p', b, d) {
      SmallSame(p, p', b, c, d);
    }
  }

  lemma RearrangedBounds(p: seq<int>, p': seq<int>, lo: int, hi: int)
    requires Rearranged(p, p', lo, hi)
    ensures 0 <= lo && hi < |p| == |p'| && forall k :: 0 <= k < |p| && !(lo <= k <= hi) ==> p'[k] == p[k]
  {
  }

  lemma BucketedPermutation(p: seq<int>, s: seq<nat>)
    requires Bucketed(p, s)
    ensures Permutation(p, |s|)
  {
  }

  lemma SmallSame(p: seq<int>, p': seq<int>, b: seq<byte>, c: nat, d: nat)
    requires |p'| == |p| == |b| && d != c && SmallSorted(p, b, d)
    requires forall k :: 0 <= k < |p| && !(S(b, c) <= k < S(b, c + 1)) ==> p'[k] == p[k]
    ensures SmallSorted(p', b, d)
  {
    hide S, RotLe;
    if d < c { if d + 1 < c { SOrder(b, d + 1, c); } } else { if c + 1 < d { SOrder(b, c + 1, d); } }
    forall q, r | S(b, d) <= q < r < S(b, d + 1) && r < |b| ensures PairSorted(p', b, q, r) {
      assert PairSorted(p, b, q, r);
      assert p'[q] == p[q] && p'[r] == p[r];
    }
  }

  lemma SortedBucket(p: seq<int>, b: seq<byte>, c: nat)
    requires |p| == |b| && InOrder(p, b, S(b, c), S(b, c + 1) - 1)
    ensures SmallSorted(p, b, c)
  {
    hide S, RotLe;
    forall q, r | S(b, c) <= q < r < S(b, c + 1) && r < |b| ensures PairSorted(p, b, q, r) {
    }
  }

  lemma TinyBucket(p: seq<int>, b: seq<byte>, c: nat)
    requires |p| == |b| && S(b, c + 1) - 1 <= S(b, c)
    ensures SmallSorted(p, b, c)
  {
  }

  /** Quicksorts the small buckets [ss,j], j != ss, that are not yet in order. */
  method StepOne(ptr: array<int>, block: seq<byte>, quadrant: seq<int>, ftab: array<int>, nblock: nat, ss: byte,
    budget: int, ghost b: seq<byte>, ghost done: seq<bool>)
    returns (budget': int)
    requires budget >= 0 && ptr != ftab && nblock == |b| == ptr.Length <= 900000 && ftab.Length == 65537
    requires Extended(block, b) && QuadrantOk(quadrant, b) && Bucketed(ptr[..], Pairs(b))
    requires Starts(ftab[..], b) && Marks(ftab[..], ptr[..], b, done)
    modifies ptr, ftab
    ensures budget' <= budget
    ensures budget' >= 0 ==>
      && Bucketed(ptr[..], Pairs(b)) && Starts(ftab[..], b) && Marks(ftab[..], ptr[..], b, done)
      && forall c: byte :: c != ss ==> Marked(ftab[Pair(ss, c)])
    ensures State(ptr[..], quadrant, ftab[..], budget') ==
      RowDone(State(old(ptr[..]), quadrant, old(ftab[..]), budget), block, nblock, ss, 0)
  {
    hide S, Bucketed, Extended, QuadrantOk, SmallSorted, Starts, Marks, RowDone, SmallDone;
    budget' := budget;
    BlockLong(block, b);
    ghost var r := RowDone(State(ptr[..], quadrant, ftab[..], budget), block, nblock, ss, 0);
    for j := 0 to 256
      invariant RowDone(State(ptr[..], quadrant, ftab[..], budget'), block, nblock, ss, j) == r
      invariant Bucketed(ptr[..], Pairs(b)) && Starts(ftab[..], b) && Marks(ftab[..], ptr[..], b, done)
        && budget' <= budget
      invariant forall c :: 0 <= c < j && c != ss ==> Marked(ftab[Pair(ss, c)])
      invariant budget' >= 0
    {
      RowDoneStep(State(ptr[..], quadrant, ftab[..], budget'), block, nblock, ss, j);
      if j != ss {
        ghost var ft := ftab[..];
        budget' := SortSmall(ptr, block, quadrant, ftab, nblock, Pair(ss, j), budget', b, done);
        if budget' < 0 {
          RowDoneStep(State(ptr[..], quadrant, ftab[..], budget'), block, nblock, ss, j + 1);
          return;
        }
        assert forall c :: 0 <= c < 65537 && c != Pair(ss, j) ==> ftab[c] == ft[c];
      }
    }
    RowDoneStep(State(ptr[..], quadrant, ftab[..], budget'), block, nblock, ss, 256);
  }

  lemma RowDoneStep(m: State, block: seq<int>, n: nat, ss: int, j: nat)
    ensures RowDone(m, block, n, ss, j) ==
      if j >= 256 || m.budget < 0 then m
      else RowDone(if j == ss then m else SmallDone(m, block, n, Pair(ss, j)), block, n, ss, j + 1)
  {
    hide SmallDone;
  }

  /** The number of rotations that start with `ss`. */
  ghost function BigSize(b: seq<byte>, ss: byte): int {
    RowEnd(b, ss) - RowStart(b, ss)
  }

  lemma EntryOf(ft: seq<int>, b: seq<byte>, c: nat)
    requires Starts(ft, b) && c < 65536
    ensures |ft| == 65537 && ClearMask(ft[c]) == S(b, c) && ClearMask(ft[c + 1]) == S(b, c + 1)
    ensures 0 <= ft[c] < 2 * SETMASK
  {
  }

  lemma MarkStarts(ft: seq<int>, b: seq<byte>, c: nat)
    requires Starts(ft, b) && c < 65536
    ensures Starts(ft[c := SetMask(ft[c])], b)
  {
    hide S;
    Masked(ft[c]);
  }

  lemma Masked(v: int)
    requires 0 <= v < 2 * SETMASK
    ensures 0 <= SetMask(v) < 2 * SETMASK && ClearMask(SetMask(v)) == ClearMask(v) && Marked(SetMask(v))
  {
  }

  lemma MarkMarks(ft: seq<int>, p: seq<int>, p': seq<int>, b: seq<byte>, done: seq<bool>, c: nat)
    requires Marks(ft, p, b, done) && c < 65536 && SmallSorted(p', b, c)
    requires forall d: nat :: d != c && SmallSorted(p, b, d) ==> SmallSorted(p', b, d)
    ensures Marks(ft[c := SetMask(ft[c])], p', b, done)
  {
    hide SmallSorted;
  }

  /** One small bucket: sorted if it is not marked and has more than one element, then marked. */
  method SortSmall(ptr: array<int>, block: seq<byte>, quadrant: seq<int>, ftab: array<int>, nblock: nat, sb: nat,
    budget: int, ghost b: seq<byte>, ghost done: seq<bool>)
    returns (budget': int)
    requires budget >= 0 && ptr != ftab && nblock == |b| == ptr.Length <= 900000 && ftab.Length == 65537
      && sb < 65536 && |b| >= 2
    requires Extended(block, b) && QuadrantOk(quadrant, b) && Bucketed(ptr[..], Pairs(b))
    requires Starts(ftab[..], b) && Marks(ftab[..], ptr[..], b, done)
    modifies ptr, ftab
    ensures budget' <= budget
    ensures forall c :: 0 <= c < 65537 && c != sb ==> ftab[c] == old(ftab[c])
    ensures budget' >= 0 ==>
      && Bucketed(ptr[..], Pairs(b)) && Starts(ftab[..], b) && Marks(ftab[..], ptr[..], b, done) && Marked(ftab[sb])
    ensures State(ptr[..], quadrant, ftab[..], budget') ==
      SmallDone(State(old(ptr[..]), quadrant, old(ftab[..]), budget), block, nblock, sb)
  {
    hide S, Bucketed, Extended, QuadrantOk, SmallSorted, Starts, Marks, Agree, InOrder, Rearranged, MainQSort.QSorted;
    ghost var p, ft := ptr[..], ftab[..];
    budget' := budget;
    EntryOf(ft, b, sb);
    Masked(ft[sb]);
    BucketAgrees(p, b, sb);
    if !Marked(ftab[sb]) {
      var lo := ClearMask(ftab[sb]);
      var hi := ClearMask(ftab[sb + 1]) - 1;
      if hi > lo {
        budget' := MainQSort.Sort(ptr, block, quadrant, nblock, lo, hi, 2, budget', b);
        if budget' < 0 { return; }
        SortedBucket(ptr[..], b, sb);
        BucketRearranged(p, ptr[..], b, sb);
      } else {
        TinyBucket(p, b, sb);
      }
    } else {
      MarkedSorted(ft, p, b, done, sb);
    }
    ftab[sb] := SetMask(ftab[sb]);
    assert ftab[..] == ft[sb := SetMask(ft[sb])];
    MarkStarts(ft, b, sb);
    MarkMarks(ft, p, ptr[..], b, done, sb);
  }

  lemma MarkedSorted(ft: seq<int>, p: seq<int>, b: seq<byte>, done: seq<bool>, c: nat)
    requires Marks(ft, p, b, done) && c < 65536 && Marked(ft[c])
    ensures SmallSorted(p, b, c)
  {
  }

  // ---------------------------------------------------------------- step 2

  /** Where the scans fill each bucket [t,ss]. */
  method CopyBounds(ftab: array<int>, copyStart: array<int>, copyEnd: array<int>, ss: byte, ghost b: seq<byte>)
    requires ftab.Length == 65537 && copyStart.Length == copyEnd.Length == 256
    requires copyStart != copyEnd && copyStart != ftab && copyEnd != ftab && Starts(ftab[..], b)
    modifies copyStart, copyEnd
    ensures forall t: byte :: copyStart[t] == BStart(b, t, ss) && copyEnd[t] == BEnd(b, t, ss) - 1
    ensures copyStart[..] == CopyStarts(ftab[..], ss) && copyEnd[..] == CopyEnds(ftab[..], ss)
  {
    hide S, Starts, ClearMask;
    for j := 0 to 256
      invariant forall t: byte :: t < j ==> copyStart[t] == BStart(b, t, ss) && copyEnd[t] == BEnd(b, t, ss) - 1
      invariant forall t :: 0 <= t < j ==>
        copyStart[t] == CopyStarts(ftab[..], ss)[t] && copyEnd[t] == CopyEnds(ftab[..], ss)[t]
    {
      EntryOf(ftab[..], b, Pair(j, ss));
      copyStart[j] := ClearMask(ftab[Pair(j, ss)]);
      copyEnd[j] := ClearMask(ftab[Pair(j, ss) + 1]) - 1;
    }
  }

  /** The upward scan, over the row and over what it appends to the row itself. */
  method ScanUp(ptr: array<int>, block: seq<byte>, bigDone: seq<bool>, copyStart: array<int>, nblock: nat, from: int,
    ss: byte, ghost b: seq<byte>, ghost p1: seq<int>)
    requires ptr != copyStart && nblock == |b| == ptr.Length && copyStart.Length == 256 && Extended(block, b)
    requires RowReady(p1, b, ss, bigDone) && from == RowStart(b, ss)
    requires ptr[..] == p1 && forall t: byte :: copyStart[t] == BStart(b, t, ss)
    modifies ptr, copyStart
    ensures Up(b, ss, bigDone, p1, ptr[..], copyStart[..], copyStart[ss])
    ensures (ptr[..], copyStart[..]) == FilledUp(old(ptr[..]), old(copyStart[..]), block, bigDone, nblock, ss, from)
  {
    hide S, Up, Extended, RowStart, BStart, BEnd, Bucketed, SmallSorted, SecondBelow, LowRow, FilledUp;
    ghost var r := FilledUp(ptr[..], copyStart[..], block, bigDone, nblock, ss, from);
    RowEnds(p1, b, ss, bigDone);
    UpStart(b, ss, bigDone, p1, copyStart[..]);
    var j := from;
    while j < copyStart[ss]
      invariant Up(b, ss, bigDone, p1, ptr[..], copyStart[..], j)
      invariant FilledUp(ptr[..], copyStart[..], block, bigDone, nblock, ss, j) == r
      decreases |b| - j
    {
      ghost var p, cs := ptr[..], copyStart[..];
      FilledUpStep(p, cs, block, bigDone, nblock, ss, j);
      ghost var x, kk, t := UpRoom(b, ss, bigDone, p1, p, cs, j);
      var k := ptr[j] - 1;
      if k < 0 { k := k + nblock; }
      SymbolAt(block, b, k);
      var c1 := block[k];
      if !bigDone[c1] {
        UpPut(b, ss, bigDone, p1, p, cs, j, x, k, t);
        ptr[copyStart[c1]] := k;
        copyStart[c1] := copyStart[c1] + 1;
        assert ptr[..] == p[cs[t] := k] && copyStart[..] == cs[t := cs[t] + 1];
      } else {
        UpSkip(b, ss, bigDone, p1, p, cs, j);
      }
      j := j + 1;
    }
    FilledUpStep(ptr[..], copyStart[..], block, bigDone, nblock, ss, j);
    UpAtEnd(b, ss, bigDone, p1, ptr[..], copyStart[..], j);
  }

  lemma FilledUpStep(p: seq<int>, cs: seq<int>, block: seq<int>, done: seq<bool>, n: nat, ss: int, j: int)
    ensures FilledUp(p, cs, block, done, n, ss, j) ==
      if j >= Get(cs, ss) || j >= |p| then (p, cs)
      else
        var k := Preceding(Get(p, j), n);
        var c := Get(block, k);
        if Open(done, c) then FilledUp(Put(p, Get(cs, c), k), Put(cs, c, Get(cs, c) + 1), block, done, n, ss, j + 1)
        else FilledUp(p, cs, block, done, n, ss, j + 1)
  {
    hide Preceding, Open, Put, Get;
  }

  lemma FilledDownStep(p: seq<int>, ce: seq<int>, block: seq<int>, done: seq<bool>, n: nat, ss: int, j: int)
    ensures FilledDown(p, ce, block, done, n, ss, j) ==
      if j <= Get(ce, ss) || j < 0 then (p, ce)
      else
        var k := Preceding(Get(p, j), n);
        var c := Get(block, k);
        if Open(done, c) then FilledDown(Put(p, Get(ce, c), k), Put(ce, c, Get(ce, c) - 1), block, done, n, ss, j - 1)
        else FilledDown(p, ce, block, done, n, ss, j - 1)
  {
    hide Preceding, Open, Put, Get;
  }

  lemma SymbolAt(block: seq<byte>, b: seq<byte>, k: int)
    requires Extended(block, b) && 0 <= k < |b|
    ensures k < |block| && block[k] == b[k]
  {
  }

  lemma UpAtEnd(b: seq<byte>, ss: byte, done: seq<bool>, p1: seq<int>, p: seq<int>, cs: seq<int>, j: int)
    requires |cs| == 256 && Up(b, ss, done, p1, p, cs, j) && j >= cs[ss]
    ensures j == cs[ss]
  {
  }

  /** The downward scan. */
  method ScanDown(ptr: array<int>, block: seq<byte>, bigDone: seq<bool>, copyStart: seq<int>, copyEnd: array<int>,
    nblock: nat, from: int, ss: byte, ghost b: seq<byte>, ghost p1: seq<int>)
    requires ptr != copyEnd && nblock == |b| == ptr.Length && copyEnd.Length == 256 == |copyStart| && Extended(block, b)
    requires RowReady(p1, b, ss, bigDone) && from == RowEnd(b, ss) - 1
    requires Up(b, ss, bigDone, p1, ptr[..], copyStart, copyStart[ss])
    requires forall t: byte :: copyEnd[t] == BEnd(b, t, ss) - 1
    modifies ptr, copyEnd
    ensures Met(b, ss, bigDone, p1, old(ptr[..]), ptr[..], copyStart, copyEnd[..])
    ensures (ptr[..], copyEnd[..]) == FilledDown(old(ptr[..]), old(copyEnd[..]), block, bigDone, nblock, ss, from)
  {
    hide S, Up, Down, UpDone, Extended, RowStart, RowEnd, BStart, BEnd, Bucketed, SmallSorted, SecondAbove, HighRow,
      FilledDown;
    ghost var pm := ptr[..];
    ghost var r := FilledDown(pm, copyEnd[..], block, bigDone, nblock, ss, from);
    DownStart(b, ss, bigDone, p1, pm, copyStart, copyEnd[..], copyStart[ss]);
    UpFinished(b, ss, bigDone, p1, pm, copyStart, copyStart[ss]);
    var j := from;
    while j > copyEnd[ss]
      invariant Down(b, ss, bigDone, pm, ptr[..], copyStart, copyEnd[..], j)
      invariant FilledDown(ptr[..], copyEnd[..], block, bigDone, nblock, ss, j) == r
      decreases j - copyEnd[ss], j
    {
      ghost var p, ce := ptr[..], copyEnd[..];
      FilledDownStep(p, ce, block, bigDone, nblock, ss, j);
      ghost var x, kk, t := DownRoom(b, ss, bigDone, pm, p, copyStart, ce, j);
      var k := ptr[j] - 1;
      if k < 0 { k := k + nblock; }
      SymbolAt(block, b, k);
      var c1 := block[k];
      if !bigDone[c1] {
        DownPut(b, ss, bigDone, pm, p, copyStart, ce, j, x, k, t);
        ptr[copyEnd[c1]] := k;
        copyEnd[c1] := copyEnd[c1] - 1;
        assert ptr[..] == p[ce[t] := k] && copyEnd[..] == ce[t := ce[t] - 1];
      } else {
        DownSkip(b, ss, bigDone, pm, p, copyStart, ce, j);
      }
      j := j - 1;
    }
    FilledDownStep(ptr[..], copyEnd[..], block, bigDone, nblock, ss, j);
    DownAtEnd(b, ss, bigDone, pm, ptr[..], copyStart, copyEnd[..], j);
  }

  lemma DownAtEnd(b: seq<byte>, ss: byte, done: seq<bool>, pm: seq<int>, p: seq<int>, cs: seq<int>, ce: seq<int>,
    j: int)
    requires |cs| == |ce| == 256 && Down(b, ss, done, pm, p, cs, ce, j) && j <= ce[ss]
    ensures j == ce[ss] && RowStart(b, ss) <= cs[ss] <= ce[ss] + 1
  {
  }

  /** The row of `ss` is ready to be scanned once its small buckets are marked. */
  lemma ReadyFrom(ft: seq<int>, p: seq<int>, b: seq<byte>, ss: byte, done: seq<bool>)
    requires |b| >= 2 && Bucketed(p, Pairs(b)) && Marks(ft, p, b, done) && !done[ss]
    requires forall c: byte :: c != ss ==> Marked(ft[Pair(ss, c)])
    ensures RowReady(p, b, ss, done)
  {
    hide SmallSorted;
    BucketedSize(p, b);
  }

  lemma BucketedSize(p: seq<int>, b: seq<byte>)
    requires Bucketed(p, Pairs(b))
    ensures |p| == |b|
  {
  }

  /** The row of `ss` and the ends of the downward scan, from the table. */
  lemma RowBounds(ft: seq<int>, b: seq<byte>, ss: byte)
    requires Starts(ft, b)
    ensures |ft| == 65537 && ClearMask(ft[Pair(ss, 0)]) == RowStart(b, ss)
      && ClearMask(ft[Pair(ss, 256)]) == RowEnd(b, ss)
  {
  }

  /** Marks stay right when only the column of `ss` changes. */
  lemma MarksAfterScan(ft: seq<int>, p1: seq<int>, p: seq<int>, b: seq<byte>, ss: byte, done: seq<bool>)
    requires Marks(ft, p1, b, done) && Bucketed(p1, Pairs(b)) && Synthesised(b, ss, done, p1, p)
    ensures Marks(ft, p, b, done)
    ensures forall t: byte :: SmallSorted(p, b, Pair(t, ss))
  {
    hide S, Bucketed, SmallSorted;
    forall c | 0 <= c < 65536 && SmallSorted(p1, b, c)
      ensures SmallSorted(p, b, c) { ColumnKeeps(p1, p, b, ss, done, c); }
    forall t: byte ensures SmallSorted(p, b, Pair(t, ss)) {
      if done[t] { assert Marked(ft[Pair(t, ss)]); }
    }
  }

  lemma ColumnKeeps(p1: seq<int>, p: seq<int>, b: seq<byte>, ss: byte, done: seq<bool>, c: nat)
    requires c < 65536 && Bucketed(p1, Pairs(b)) && Synthesised(b, ss, done, p1, p) && SmallSorted(p1, b, c)
    ensures SmallSorted(p, b, c)
  {
    hide S, Bucketed;
    var t: byte := c / 256;
    if c % 256 == ss && !done[t] {
      assert c == Pair(t, ss);
    } else {
      forall q, r | S(b, c) <= q < r < S(b, c + 1) && r < |b| ensures PairSorted(p, b, q, r) {
        assert PairSorted(p1, b, q, r);
        KeyIs(p1, b, q, c);
        KeyIs(p1, b, r, c);
        PairsBelow(b, p1[q]);
        PairsBelow(b, p1[r]);
      }
    }
  }

  /** Step 2, with its assertion. */
  method StepTwo(ptr: array<int>, block: seq<byte>, ftab: array<int>, bigDone: seq<bool>, nblock: nat, ss: byte,
    ghost b: seq<byte>)
    requires ptr != ftab && nblock == |b| == ptr.Length && ftab.Length == 65537 && Extended(block, b)
    requires Bucketed(ptr[..], Pairs(b)) && Starts(ftab[..], b) && Marks(ftab[..], ptr[..], b, bigDone) && !bigDone[ss]
    requires forall c: byte :: c != ss ==> Marked(ftab[Pair(ss, c)])
    modifies ptr, ftab
    ensures Bucketed(ptr[..], Pairs(b)) && Starts(ftab[..], b)
    ensures Marks(ftab[..], ptr[..], b, bigDone[ss := true])
    ensures (ptr[..], ftab[..]) == ScansDone(old(ptr[..]), old(ftab[..]), block, bigDone, nblock, ss)
  {
    hide S, Up, Extended, Bucketed, SmallSorted, Starts, Marks, Met, RowReady, Synthesised, RowStart, RowEnd, BStart,
      BEnd;
    hide FilledUp, FilledDown, ColumnMarked, CopyStarts, CopyEnds;
    ghost var p1, ft := ptr[..], ftab[..];
    BlockLong(block, b);
    ReadyFrom(ft, p1, b, ss, bigDone);
    RowBounds(ft, b, ss);
    var copyStart, copyEnd := new int[256], new int[256];
    CopyBounds(ftab, copyStart, copyEnd, ss, b);
    ScanUp(ptr, block, bigDone, copyStart, nblock, ClearMask(ftab[Pair(ss, 0)]), ss, b, p1);
    ghost var pm := ptr[..];
    ScanDown(ptr, block, bigDone, copyStart[..], copyEnd, nblock, ClearMask(ftab[Pair(ss, 256)]) - 1, ss, b, p1);
    Finish(b, ss, bigDone, p1, pm, ptr[..], copyStart[..], copyEnd[..]);
    assert ScansMeet(copyStart[ss], copyEnd[ss], nblock); // 1007
    assert ftab[..] == ft;
    MarksAfterScan(ft, p1, ptr[..], b, ss, bigDone);
    SynthesisedBuckets(b, ss, bigDone, p1, ptr[..]);
    MarkColumn(ftab, ss, b, ptr[..], bigDone);
  }

  lemma SynthesisedBuckets(b: seq<byte>, ss: byte, done: seq<bool>, p1: seq<int>, p: seq<int>)
    requires Synthesised(b, ss, done, p1, p)
    ensures Bucketed(p, Pairs(b))
  {
  }

  /** The column of `ss` is marked, which completes the row of `ss`. */
  method MarkColumn(ftab: array<int>, ss: byte, ghost b: seq<byte>, ghost p: seq<int>, ghost done: seq<bool>)
    requires ftab.Length == 65537 && Starts(ftab[..], b) && Marks(ftab[..], p, b, done)
    requires forall t: byte :: SmallSorted(p, b, Pair(t, ss))
    requires forall c: byte :: c != ss ==> Marked(ftab[Pair(ss, c)])
    modifies ftab
    ensures Starts(ftab[..], b) && Marks(ftab[..], p, b, done[ss := true])
    ensures ftab[..] == ColumnMarked(old(ftab[..]), ss, 0)
  {
    hide S, SmallSorted, Starts, Marks, ColumnMarked;
    ghost var ft0 := ftab[..];
    for j := 0 to 256
      invariant ColumnMarked(ftab[..], ss, j) == ColumnMarked(ft0, ss, 0)
      invariant Starts(ftab[..], b) && Marks(ftab[..], p, b, done)
      invariant forall t: byte :: t < j ==> Marked(ftab[Pair(t, ss)])
      invariant forall c: byte :: c != ss ==> Marked(ftab[Pair(ss, c)])
    {
      ghost var ft := ftab[..];
      var c: nat := Pair(j, ss);
      ColumnStep(ft, ss, j);
      EntryOf(ft, b, c);
      Masked(ft[c]);
      ftab[c] := SetMask(ftab[c]);
      assert ftab[..] == ft[c := SetMask(ft[c])];
      MarkStarts(ft, b, c);
      MarkMarks(ft, p, p, b, done, c);
    }
    ColumnStep(ftab[..], ss, 256);
    RowComplete(ftab[..], p, b, ss, done);
  }

  lemma ColumnStep(ftab: seq<int>, ss: int, t: nat)
    ensures ColumnMarked(ftab, ss, t) ==
      if t >= 256 then ftab else ColumnMarked(Put(ftab, Pair(t, ss), SetMask(Get(ftab, Pair(t, ss)))), ss, t + 1)
  {
    hide SetMask;
  }

  lemma RowComplete(ft: seq<int>, p: seq<int>, b: seq<byte>, ss: byte, done: seq<bool>)
    requires Marks(ft, p, b, done) && forall c: byte :: Marked(ft[Pair(ss, c)])
    ensures Marks(ft, p, b, done[ss := true])
  {
    hide SmallSorted;
  }

  // ---------------------------------------------------------------- step 3

  /** The rotations of a finished big bucket are in order. */
  lemma BigSorted(ft: seq<int>, p: seq<int>, b: seq<byte>, ss: byte, done: seq<bool>)
    requires |b| >= 2 && Bucketed(p, Pairs(b)) && Marks(ft, p, b, done) && done[ss]
    ensures |p| == |b| && RowStart(b, ss) <= RowEnd(b, ss) <= |b| && Row(b, p[RowStart(b, ss)..RowEnd(b, ss)], ss)
    ensures forall x :: 0 <= x < |b| && b[x] == ss ==> exists k :: RowStart(b, ss) <= k < RowEnd(b, ss) && p[k] == x
  {
    hide S, Bucketed, SmallSorted;
    BucketedSize(p, b);
    Layout(b, ss, ss);
    var a, e := RowStart(b, ss), RowEnd(b, ss);
    forall k | a <= k < e ensures 0 <= p[k] < |b| && b[p[k]] == ss && SmallSorted(p, b, Pairs(b)[p[k]]) {
      RowPlace(p, b, ss, k);
      assert Marked(ft[Pair(ss, b[Next(|b|, p[k])])]);
    }
    StretchSorted(p, b, ss, a, e);
    forall x | 0 <= x < |b| && b[x] == ss ensures exists k :: a <= k < e && p[k] == x {
      var k := PlaceOf(p, b, x);
      PairsBelow(b, x);
      var c := Pairs(b)[x];
      if Pair(ss, 0) < c { SOrder(b, Pair(ss, 0), c); }
      if c + 1 < Pair(ss, 256) { SOrder(b, c + 1, Pair(ss, 256)); }
    }
  }

  /** The quadrant numbers of a row: the places in the row, shifted down to 16 bits. */
  ghost predicate Numbered(q: seq<int>, row: seq<int>, n: nat, unit: nat, from: int) {
    unit > 0 && |q| == n + OVERSHOOT
    && forall k :: from <= k < |row| && 0 <= k ==> 0 <= row[k] < n && q[row[k]] == k / unit
  }

  ghost predicate Mirrored(q: seq<int>, n: nat) {
    |q| == n + OVERSHOOT && forall i :: 0 <= i < OVERSHOOT && i < n ==> q[n + i] == q[i]
  }

  lemma QuotientOrder(k: nat, l: nat, unit: nat)
    requires unit > 0 && k / unit < l / unit
    ensures k < l
  {
    if l <= k {
      var a, c := k / unit, l / unit;
      assert k == unit * a + k % unit && l == unit * c + l % unit;
      assert (a + 1) * unit <= c * unit by { Bits.FactorOrder(a + 1, c, unit); }
      assert false;
    }
  }

  /** The new numbers never contradict the order, and the old ones still do not. */
  lemma QuadrantUpdated(q0: seq<int>, q: seq<int>, b: seq<byte>, ss: byte, row: seq<int>, unit: nat)
    requires QuadrantOk(q0, b) && Row(b, row, ss) && Numbered(q, row, |b|, unit, 0) && Mirrored(q, |b|)
    requires forall x :: 0 <= x < |b| && b[x] == ss ==> x in row
    requires forall x :: 0 <= x < |b| && b[x] != ss ==> q[x] == q0[x]
    ensures QuadrantOk(q, b)
  {
    hide Cmp;
    forall i, j | 0 <= i < |b| && 0 <= j < |b| && b[i] == b[j] && q[i] < q[j] ensures RotLe(b, i, j) {
      if b[i] == ss {
        var k :| 0 <= k < |row| && row[k] == i;
        var l :| 0 <= l < |row| && row[l] == j;
        QuotientOrder(k, l, unit);
      }
    }
  }

  /** How far places must be shifted down to fit in 16 bits; the result is the power of two. */
  method FindShift(bbSize: nat) returns (unit: nat)
    ensures unit == Unit(bbSize, 1) && bbSize / unit <= 65534
    ensures bbSize <= 65534 ==> unit == 1
  {
    unit := 1;
    while bbSize / unit > 65534
      invariant 1 <= unit && Unit(bbSize, unit) == Unit(bbSize, 1)
      invariant bbSize <= 65534 ==> unit == 1
      decreases bbSize - unit
    {
      QuotientLarge(bbSize, unit);
      unit := 2 * unit;
      if unit >= bbSize { QuotientSmall(bbSize, unit); }
    }
  }

  /** One quadrant number, and its mirror image if the position is near the start. */
  method NumberOne(quadrant: array<int>, a2update: int, qVal: int, nblock: nat)
    requires OVERSHOOT < nblock && 0 <= a2update < nblock && Mirrored(quadrant[..], nblock)
    modifies quadrant
    ensures Mirrored(quadrant[..], nblock) && quadrant[a2update] == qVal
    ensures forall x :: 0 <= x < nblock && x != a2update ==> quadrant[x] == old(quadrant[x])
    ensures quadrant[..] == NumberPut(old(quadrant[..]), nblock, a2update, qVal)
  {
    assert forall i :: 0 <= i < OVERSHOOT ==> quadrant[nblock + i] == quadrant[i];
    quadrant[a2update] := qVal;
    if a2update < OVERSHOOT { quadrant[a2update + nblock] := qVal; }
    assert forall i :: 0 <= i < OVERSHOOT ==> quadrant[nblock + i] == quadrant[i];
  }

  /** A place shifted down keeps all its bits in 16. */
  method Narrowed(j: nat, bbSize: nat, unit: nat) returns (qVal: nat)
    requires unit > 0 && j < bbSize && bbSize / unit <= 65534
    ensures qVal == j / unit
  {
    QuotientMono(j, bbSize, unit);
    var shifted := j / unit;
    assert shifted <= 65535; // 1002
    qVal := shifted % 65536;
  }

  /** Step 3: the quadrants of a finished big bucket. */
  method StepThree(quadrant: array<int>, ptr: seq<int>, nblock: nat, bbStart: nat, bbSize: nat, ghost b: seq<byte>,
    ghost ss: byte)
    returns (ghost unit: nat)
    requires nblock == |b| && OVERSHOOT < nblock <= 900000 && bbStart + bbSize <= |ptr| == |b|
    requires QuadrantOk(quadrant[..], b) && Row(b, ptr[bbStart..bbStart + bbSize], ss)
    requires forall x :: 0 <= x < |b| && b[x] == ss ==> x in ptr[bbStart..bbStart + bbSize]
    modifies quadrant
    ensures QuadrantOk(quadrant[..], b) && quadrant.Length == |b| + OVERSHOOT
    ensures unit > 0 && Numbered(quadrant[..], ptr[bbStart..bbStart + bbSize], nblock, unit, 0)
    ensures unit == Unit(bbSize, 1) && (bbSize <= 65534 ==> unit == 1)
    ensures forall x :: 0 <= x < |b| && b[x] != ss ==> quadrant[x] == old(quadrant[x])
    ensures quadrant[..] == NumberedDown(old(quadrant[..]), ptr, nblock, bbStart, Unit(bbSize, 1), bbSize - 1)
  {
    hide Cmp, RotLe, QuadrantOk, NumberedDown, NumberPut, Unit;
    ghost var q0 := quadrant[..];
    ghost var row := ptr[bbStart..bbStart + bbSize];
    var shifted := FindShift(bbSize);
    unit := shifted;
    var j := bbSize - 1;
    QuadrantParts(q0, b);
    while j >= 0
      invariant -1 <= j < bbSize
      invariant Numbered(quadrant[..], row, nblock, unit, j + 1) && Mirrored(quadrant[..], nblock)
      invariant forall x :: 0 <= x < |b| && b[x] != ss ==> quadrant[x] == q0[x]
      invariant NumberedDown(quadrant[..], ptr, nblock, bbStart, unit, j) ==
        NumberedDown(q0, ptr, nblock, bbStart, unit, bbSize - 1)
    {
      ghost var q := quadrant[..];
      NumberedDownStep(q, ptr, nblock, bbStart, unit, j);
      var a2update := ptr[bbStart + j];
      assert row[j] == a2update;
      var qVal := Narrowed(j, bbSize, shifted);
      NumberOne(quadrant, a2update, qVal, nblock);
      NumberedMore(q, quadrant[..], row, nblock, unit, j);
      j := j - 1;
    }
    NumberedDownStep(quadrant[..], ptr, nblock, bbStart, unit, -1);
    QuadrantUpdated(q0, quadrant[..], b, ss, row, unit);
  }

  lemma NumberedDownStep(q: seq<int>, ptr: seq<int>, n: nat, start: int, unit: nat, j: int)
    requires unit > 0
    ensures NumberedDown(q, ptr, n, start, unit, j) ==
      if j < 0 then q else NumberedDown(NumberPut(q, n, Get(ptr, start + j), j / unit), ptr, n, start, unit, j - 1)
  {
    hide NumberPut;
  }

  lemma NumberedMore(q: seq<int>, q': seq<int>, row: seq<int>, n: nat, unit: nat, j: int)
    requires Numbered(q, row, n, unit, j + 1) && 0 <= j < |row| && 0 <= row[j] < n && |q'| == |q|
    requires q'[row[j]] == j / unit && forall x :: 0 <= x < n && x != row[j] ==> q'[x] == q[x]
    requires forall k, l :: 0 <= k < l < |row| ==> row[k] != row[l]
    ensures Numbered(q', row, n, unit, j)
  {
  }

  lemma QuadrantParts(q: seq<int>, b: seq<byte>)
    requires QuadrantOk(q, b)
    ensures |q| == |b| + OVERSHOOT && Mirrored(q, |b|)
  {
  }

  lemma QuotientLarge(x: nat, unit: nat)
    requires unit > 0 && x / unit > 1
    ensures unit < x
  {
    assert x == unit * (x / unit) + x % unit;
    Bits.MulMonotone(2, x / unit, unit);
  }

  lemma QuotientSmall(x: nat, unit: nat)
    requires unit >= x && unit > 0
    ensures x / unit <= 1
  {
    if x / unit > 1 { QuotientLarge(x, unit); }
  }

  lemma QuotientMono(x: nat, y: nat, unit: nat)
    requires unit > 0 && x <= y
    ensures x / unit <= y / unit
  {
    if y / unit < x / unit { QuotientOrder(y, x, unit); }
  }

  // ---------------------------------------------------------------- the whole sort

  /** A bucketed listing whose small buckets are all in order is sorted. */
  lemma AllSorted(ft: seq<int>, p: seq<int>, b: seq<byte>, done: seq<bool>)
    requires |b| >= 2 && Bucketed(p, Pairs(b)) && Marks(ft, p, b, done) && forall t: byte :: done[t]
    ensures SortedRotations(b, p)
  {
    hide S, Bucketed, SmallSorted, RotLe;
    BucketedPermutation(p, Pairs(b));
    forall q, r | 0 <= q < r < |b| ensures RotLe(b, p[q], p[r]) { InPlaces(ft, p, b, done, q, r); }
  }

  lemma InPlaces(ft: seq<int>, p: seq<int>, b: seq<byte>, done: seq<bool>, q: int, r: int)
    requires |b| >= 2 && Bucketed(p, Pairs(b)) && Marks(ft, p, b, done) && (forall t: byte :: done[t])
      && 0 <= q < r < |b|
    ensures |p| == |b| && 0 <= p[q] < |b| && 0 <= p[r] < |b| && RotLe(b, p[q], p[r])
  {
    hide S, Bucketed, RotLe;
    KeyOfPlace(p, b, q);
    KeyOfPlace(p, b, r);
    var c, d := Pairs(b)[p[q]], Pairs(b)[p[r]];
    PairsBelow(b, p[q]);
    if c < d {
      PairLess(b, p[q], p[r]);
    } else if d < c {
      SOrder(b, d, c);
    } else {
      assert done[b[p[q]]];
      assert Marked(ft[Pair(b[p[q]], b[Next(|b|, p[q])])]);
      assert SmallSorted(p, b, c);
      assert PairSorted(p, b, q, r);
    }
  }

  lemma FreshMarks(ft: seq<int>, p: seq<int>, b: seq<byte>)
    requires |b| <= 900000 && |ft| == 65537 && forall c :: 0 <= c <= 65536 ==> ft[c] == CountBelow(Pairs(b), c)
    ensures Starts(ft, b) && Marks(ft, p, b, seq(256, _ => false))
  {
    hide CountBelow, Pairs, SmallSorted, Marked, ClearMask;
    forall c | 0 <= c <= 65536 ensures 0 <= ft[c] < SETMASK && ClearMask(ft[c]) == S(b, c) && !Marked(ft[c]) {
      SmallStart(b, c);
      Unmarked(ft[c]);
    }
  }

  lemma Unmarked(x: int)
    requires 0 <= x < SETMASK
    ensures !Marked(x) && ClearMask(x) == x
  {
  }

  /** Radix sort on two symbols, with the mirrored copies behind the block. */
  method RadixSort(ptr: array<int>, block: array<byte>, quadrant: array<int>, ftab: array<int>, nblock: nat,
    ghost b: seq<byte>)
    requires OVERSHOOT < nblock <= 900000 && nblock == ptr.Length
      && block.Length == quadrant.Length == nblock + OVERSHOOT
    requires ftab.Length == 65537 && ptr != ftab && ptr != quadrant && quadrant != ftab && b == block[..nblock]
    modifies ptr, block, quadrant, ftab
    ensures Extended(block[..], b) && QuadrantOk(quadrant[..], b) && block[..nblock] == b
    ensures Bucketed(ptr[..], Pairs(b)) && Starts(ftab[..], b) && Marks(ftab[..], ptr[..], b, seq(256, _ => false))
    ensures ptr[..] == Listing(LFTable(Pairs(b))) && quadrant[..] == Cleared(nblock) && ftab[..] == StartTable(b)
  {
    hide Bucketed, Extended, QuadrantOk, Starts, Marks, Count, CountBelow, LFTable, Listing;
    CountPairs(block, quadrant, ftab, nblock, b);
    forall i | 0 <= i < |b| ensures Pairs(b)[i] < 65536 { PairsBelow(b, i); }
    Accumulate(Pairs(b), ftab, 65536);
    PlacePairs(ptr, block[..], ftab, nblock, b);
    FreshMarks(ftab[..], ptr[..], b);
    TableIs(ftab[..], b);
  }

  // ---------------------------------------------------------------- what the quadrants mean

  /** Whether the numbers of the rotations that start with `ss` change only between unequal
      rotations: their number of steps is a multiple of the number of equal ones. */
  ghost predicate CanMean(b: seq<byte>, ss: byte) {
    BigSize(b, ss) > 0 ==> Unit(BigSize(b, ss), 1) % Multiplicity(b) == 0
  }

  /** What step 3 establishes for a big bucket. */
  ghost predicate BucketMeans(q: seq<int>, b: seq<byte>, ss: byte) {
    StatedMeaning(q, b, ss) <==> CanMean(b, ss)
  }

  /** Numbered places, of a row that is complete, have the stated meaning if and only if places
      with different numbers hold different rotations. */
  lemma MeaningInRow(q: seq<int>, b: seq<byte>, ss: byte, row: seq<int>, unit: nat)
    requires WholeRow(b, row, ss) && Numbered(q, row, |b|, unit, 0)
    ensures StatedMeaning(q, b, ss) <==>
      forall k, l :: 0 <= k < l < |row| && k / unit < l / unit ==> Unequal(b, row[k], row[l])
  {
    hide Cmp;
    if StatedMeaning(q, b, ss) {
      forall k, l | 0 <= k < l < |row| && k / unit < l / unit ensures Unequal(b, row[k], row[l]) {
        RowPair(b, row, ss, k, l);
      }
    }
    if forall k, l :: 0 <= k < l < |row| && k / unit < l / unit ==> Unequal(b, row[k], row[l]) {
      forall i, j | 0 <= i < |b| && 0 <= j < |b| && b[i] == b[j] == ss && q[i] < q[j] ensures Cmp(b, i, j, |b|) < 0 {
        var k :| 0 <= k < |row| && row[k] == i;
        var l :| 0 <= l < |row| && row[l] == j;
        QuotientOrder(k, l, unit);
        RowPair(b, row, ss, k, l);
        assert Unequal(b, row[k], row[l]);
      }
    }
  }

  ghost predicate Unequal(b: seq<byte>, x: int, y: int) {
    0 <= x < |b| && 0 <= y < |b| && Cmp(b, x, y, |b|) != 0
  }

  /** The numbers that step 3 gives to a big bucket have their stated meaning if and only if the
      number of equal rotations divides the unit of the numbering. */
  lemma MeaningExact(q: seq<int>, b: seq<byte>, ss: byte, row: seq<int>)
    requires WholeRow(b, row, ss) && Numbered(q, row, |b|, Unit(|row|, 1), 0)
    ensures StatedMeaning(q, b, ss) <==> (|row| > 0 ==> Unit(|row|, 1) % Multiplicity(b) == 0)
  {
    hide Cmp, Unit, StatedMeaning, Numbered, WholeRow, Multiplicity, Unequal;
    var unit, m := Unit(|row|, 1), Multiplicity(b);
    MeaningInRow(q, b, ss, row, unit);
    if |row| > 0 {
      if unit % m == 0 {
        forall k, l | 0 <= k < l < |row| && k / unit < l / unit ensures Unequal(b, row[k], row[l]) {
          Coarser(k, l, unit, m);
          UnequalIff(b, row, ss, k, l);
        }
      } else {
        UnitInside(|row|, 1);
        WholeSize(b, row, ss);
        assert 1 <= unit < |row|;
        Crossing(unit, m);
        UnequalIff(b, row, ss, unit - 1, unit);
      }
    }
  }

  lemma UnequalIff(b: seq<byte>, row: seq<int>, ss: byte, k: int, l: int)
    requires WholeRow(b, row, ss) && 0 <= k <= l < |row|
    ensures Unequal(b, row[k], row[l]) <==> k / Multiplicity(b) != l / Multiplicity(b)
  {
    hide WholeRow, Multiplicity, Cmp;
    ClassOf(b, row, ss, k, l);
  }

  /** A row is no shorter than one class. */
  lemma WholeSize(b: seq<byte>, row: seq<int>, ss: byte)
    requires WholeRow(b, row, ss) && |row| > 0
    ensures Multiplicity(b) <= |row|
  {
    hide WholeRow, Multiplicity, Cmp;
    ClassRun(b, row, ss, 0);
  }

  /** A unit above 1 is smaller than the bucket. */
  lemma {:induction false} UnitInside(size: nat, unit: nat)
    requires unit > 0
    ensures Unit(size, unit) == unit || Unit(size, unit) < size
    decreases size - unit
  {
    if unit < size && size / unit > 65534 {
      UnitInside(size, 2 * unit);
      if Unit(size, 2 * unit) == 2 * unit { HalfInside(size, unit); }
    }
  }

  lemma HalfInside(size: nat, unit: nat)
    requires unit > 0 && size / unit > 65534
    ensures 2 * unit < size
  {
    assert size == unit * (size / unit) + size % unit;
    Bits.MulMonotone(3, size / unit, unit);
  }

  /** No rotation that starts with `ss` has been numbered yet. */
  ghost predicate Unnumbered(q: seq<int>, b: seq<byte>, ss: byte) {
    |q| >= |b| && forall x :: 0 <= x < |b| && b[x] == ss ==> q[x] == 0
  }

  ghost predicate MeansFor(q: seq<int>, b: seq<byte>, numbered: seq<int>, ss: byte) {
    if ss as int in numbered then BucketMeans(q, b, ss) else Unnumbered(q, b, ss)
  }

  /** What the quadrants mean when the big buckets in `numbered` have been through step 3. */
  ghost predicate Meaning(q: seq<int>, b: seq<byte>, numbered: seq<int>) {
    forall ss: byte :: MeansFor(q, b, numbered, ss)
  }

  lemma MeaningSame(q: seq<int>, q': seq<int>, b: seq<byte>, ss: byte)
    requires |q'| == |q| && forall x :: 0 <= x < |b| && x < |q| && b[x] == ss ==> q'[x] == q[x]
    ensures Unnumbered(q, b, ss) ==> Unnumbered(q', b, ss)
    ensures BucketMeans(q, b, ss) ==> BucketMeans(q', b, ss)
  {
    hide Cmp, CanMean;
    if |q| >= |b| {
      assert StatedMeaning(q, b, ss) ==> StatedMeaning(q', b, ss);
      assert StatedMeaning(q', b, ss) ==> StatedMeaning(q, b, ss);
    }
  }

  /** Numbering one more big bucket leaves the others as they were. */
  lemma MeaningGrows(q: seq<int>, q': seq<int>, b: seq<byte>, numbered: seq<int>, ss: byte)
    requires Meaning(q, b, numbered) && |q'| == |q| && BucketMeans(q', b, ss)
    requires forall x :: 0 <= x < |b| && x < |q| && b[x] != ss ==> q'[x] == q[x]
    ensures Meaning(q', b, numbered + [ss as int])
  {
    hide BucketMeans, Unnumbered;
    var more := numbered + [ss as int];
    forall t: byte ensures MeansFor(q', b, more, t) {
      if t != ss {
        assert MeansFor(q, b, numbered, t);
        MeaningSame(q, q', b, t);
      }
    }
  }

  lemma MeaningStart(b: seq<byte>)
    ensures Meaning(Cleared(|b|), b, [])
  {
    forall ss: byte ensures MeansFor(Cleared(|b|), b, [], ss) { }
  }

  lemma MeaningAll(q: seq<int>, b: seq<byte>, numbered: seq<int>)
    requires Meaning(q, b, numbered)
    ensures AllMeant(q, b) <==> forall ss: byte :: ss as int in numbered ==> CanMean(b, ss)
  {
    hide CanMean, Cmp;
    forall ss: byte ensures StatedMeaning(q, b, ss) <==> (ss as int in numbered ==> CanMean(b, ss)) {
      assert MeansFor(q, b, numbered, ss);
    }
  }

  // ---------------------------------------------------------------- one big bucket

  /** Step 3, from the table. */
  method RankRow(ptr: seq<int>, quadrant: array<int>, ftab: seq<int>, nblock: nat, ss: byte, ghost b: seq<byte>,
    ghost done: seq<bool>)
    requires nblock == |b| && OVERSHOOT < nblock <= 900000 && |done| == 256 && done[ss]
    requires QuadrantOk(quadrant[..], b) && Bucketed(ptr, Pairs(b)) && Starts(ftab, b) && Marks(ftab, ptr, b, done)
    modifies quadrant
    ensures QuadrantOk(quadrant[..], b) && quadrant.Length == |b| + OVERSHOOT
    ensures forall x :: 0 <= x < |b| && b[x] != ss ==> quadrant[x] == old(quadrant[x])
    ensures BucketMeans(quadrant[..], b, ss)
    ensures quadrant[..] == Renumbered(old(quadrant[..]), ptr, ftab, nblock, ss)
  {
    hide S, Bucketed, QuadrantOk, Starts, Marks, Row, RowStart, RowEnd, NumberedDown, Unit, Numbered, ClearMask,
      StatedMeaning;
    RowBounds(ftab, b, ss);
    var bbStart := ClearMask(ftab[Pair(ss, 0)]);
    var bbSize := ClearMask(ftab[Pair(ss, 256)]) - bbStart;
    BigSorted(ftab, ptr, b, ss, done);
    ghost var row := ptr[bbStart..bbStart + bbSize];
    forall x | 0 <= x < |b| && b[x] == ss ensures x in row {
      var k :| bbStart <= k < bbStart + bbSize && ptr[k] == x;
      assert row[k - bbStart] == x;
    }
    ghost var unit := StepThree(quadrant, ptr, nblock, bbStart, bbSize, b, ss);
    MeaningExact(quadrant[..], b, ss, row);
  }

  /** One big bucket: steps 1 to 3. */
  method BigBucket(ptr: array<int>, block: seq<byte>, quadrant: array<int>, ftab: array<int>, bigDone: seq<bool>,
    nblock: nat, ss: byte, last: bool, budget: int, ghost b: seq<byte>)
    returns (budget': int)
    requires |bigDone| == 256 && budget >= 0 && OVERSHOOT < nblock <= 900000 && nblock == |b| == ptr.Length
      && ftab.Length == 65537
    requires ptr != ftab && ptr != quadrant && quadrant != ftab
    requires Extended(block, b) && QuadrantOk(quadrant[..], b) && Bucketed(ptr[..], Pairs(b))
    requires Starts(ftab[..], b) && Marks(ftab[..], ptr[..], b, bigDone) && !bigDone[ss]
    modifies ptr, quadrant, ftab
    ensures budget' >= 0 ==>
      && QuadrantOk(quadrant[..], b) && Bucketed(ptr[..], Pairs(b))
      && Starts(ftab[..], b) && Marks(ftab[..], ptr[..], b, bigDone[ss := true])
    ensures budget' >= 0 && !last ==> BucketMeans(quadrant[..], b, ss)
    ensures forall x :: 0 <= x < |b| && x < quadrant.Length && (b[x] != ss || last) ==> quadrant[x] == old(quadrant[x])
    ensures State(ptr[..], quadrant[..], ftab[..], budget') ==
      BucketDone(State(old(ptr[..]), old(quadrant[..]), old(ftab[..]), budget), block, bigDone, nblock, ss, last)
  {
    hide S, Bucketed, Extended, QuadrantOk, Starts, Marks, Row, RowStart, RowEnd, BigSize, BucketMeans, RowDone,
      ScansDone, Renumbered;
    budget' := StepOne(ptr, block, quadrant[..], ftab, nblock, ss, budget, b, bigDone);
    if budget' < 0 { return; }
    assert !bigDone[ss]; // 1006
    StepTwo(ptr, block, ftab, bigDone, nblock, ss, b);
    if !last { RankRow(ptr[..], quadrant, ftab[..], nblock, ss, b, bigDone[ss := true]); }
  }

  // ---------------------------------------------------------------- the whole sort

  /** The running order lists all big buckets, by ascending size. */
  ghost predicate Ordered(b: seq<byte>, order: seq<int>) {
    && Permutation(order, 256)
    && forall p, q :: 0 <= p < q < 256 ==>
      0 <= order[p] < 256 && 0 <= order[q] < 256 && BigSize(b, order[p]) <= BigSize(b, order[q])
  }

  /** What holds after `k` big buckets, the last of which is not numbered. */
  ghost predicate Holds(b: seq<byte>, budget: int, k: nat)
    requires k <= 256
  {
    var m, first := After(b, budget, k), OrderOf(b)[..k];
    && (m.budget >= 0 ==> QuadrantOk(m.quadrant, b) && Meaning(m.quadrant, b, first[..if k < 256 then k else 255]))
  }

  /** Whether all big buckets numbered after `k` of the running order can have the meaning. */
  ghost predicate AllCanMean(b: seq<byte>, k: nat)
    requires k <= 256
  {
    forall ss: byte :: ss as int in OrderOf(b)[..if k < 256 then k else 255] ==> CanMean(b, ss)
  }

  /** What the sort says of its quadrants after each big bucket: they have their stated meaning
      if and only if each bucket numbered so far can have it. */
  lemma MeaningIff(b: seq<byte>, budget: int, k: nat)
    requires k <= 256 && Holds(b, budget, k) && After(b, budget, k).budget >= 0
    ensures AllMeant(After(b, budget, k).quadrant, b) <==> AllCanMean(b, k)
  {
    hide After, OrderOf, CanMean, AllMeant, Meaning;
    var first := OrderOf(b)[..k];
    var numbered := OrderOf(b)[..if k < 256 then k else 255];
    assert first[..if k < 256 then k else 255] == numbered;
    MeaningAll(After(b, budget, k).quadrant, b, numbered);
  }

  /** For a block without equal rotations that is always so. */
  lemma AlwaysCan(b: seq<byte>, ss: byte)
    requires |b| > 0 && !Repeats(b)
    ensures CanMean(b, ss)
  {
    hide Unit, BigSize, Multiplicity, Repeats;
    RepeatsIff(b);
  }

  /** For a bucket whose numbers are not shifted it is so only then. */
  lemma UnshiftedCan(b: seq<byte>, ss: byte)
    requires |b| > 0 && 0 < BigSize(b, ss) <= 65534
    ensures CanMean(b, ss) <==> !Repeats(b)
  {
    hide BigSize, Multiplicity, Repeats;
    RepeatsIff(b);
    assert BigSize(b, ss) / 1 == BigSize(b, ss);
  }

  /** The stated meaning over a whole sort: as in `MeaningIff`, after every big bucket. */
  ghost predicate Meant(b: seq<byte>, budget: int) {
    forall k :: 0 <= k <= 256 && After(b, budget, k).budget >= 0 ==>
      (AllMeant(After(b, budget, k).quadrant, b) <==> AllCanMean(b, k))
  }

  lemma MeantThroughout(b: seq<byte>, budget: int)
    requires forall k :: 0 <= k <= 256 ==> Holds(b, budget, k)
    ensures Meant(b, budget)
  {
    hide After, AllCanMean, AllMeant, Holds;
    forall k | 0 <= k <= 256 && After(b, budget, k).budget >= 0
      ensures AllMeant(After(b, budget, k).quadrant, b) <==> AllCanMean(b, k)
    {
      MeaningIff(b, budget, k);
    }
  }

  /** One more big bucket. */
  lemma HoldsNext(b: seq<byte>, budget: int, k: nat, ss: byte)
    requires k < 256 && Holds(b, budget, k) && OrderOf(b)[k] == ss
    requires var m, m' := After(b, budget, k), After(b, budget, k + 1);
      && m.budget >= 0 && |m'.quadrant| == |m.quadrant|
      && (m'.budget >= 0 ==> QuadrantOk(m'.quadrant, b))
      && (m'.budget >= 0 && k < 255 ==> BucketMeans(m'.quadrant, b, ss))
      && (forall x :: 0 <= x < |b| && x < |m.quadrant| && (b[x] != ss || k == 255) ==> m'.quadrant[x] == m.quadrant[x])
    ensures Holds(b, budget, k + 1)
  {
    hide After, OrderOf, BucketMeans, BigSize, QuadrantOk, MeansFor;
    var m, m', first := After(b, budget, k), After(b, budget, k + 1), OrderOf(b)[..k];
    assert OrderOf(b)[..k + 1] == first + [ss as int];
    if m'.budget >= 0 {
      if k < 255 {
        assert first[..k] == first;
        MeaningGrows(m.quadrant, m'.quadrant, b, first, ss);
        assert (first + [ss as int])[..k + 1] == first + [ss as int];
      } else {
        assert (first + [ss as int])[..255] == first[..255];
        forall t: byte ensures MeansFor(m'.quadrant, b, first[..255], t) {
          assert MeansFor(m.quadrant, b, first[..255], t);
          SameMeaning(m.quadrant, m'.quadrant, b, first[..255], t);
        }
      }
    }
  }

  lemma SameMeaning(q: seq<int>, q': seq<int>, b: seq<byte>, numbered: seq<int>, ss: byte)
    requires |q'| == |q| && forall x :: 0 <= x < |b| && x < |q| && b[x] == ss ==> q'[x] == q[x]
    requires MeansFor(q, b, numbered, ss)
    ensures MeansFor(q', b, numbered, ss)
  {
    hide BucketMeans, Unnumbered;
    MeaningSame(q, q', b, ss);
  }

  /** Nothing more happens once the sort has been abandoned. */
  lemma {:induction false} HoldsStuck(b: seq<byte>, budget: int, j: nat, k: nat)
    requires j <= k <= 256 && After(b, budget, j).budget < 0
    ensures Holds(b, budget, k) && After(b, budget, k) == After(b, budget, j)
  {
    hide After, OrderOf, Meaning, QuadrantOk;
    if j < k {
      HoldsStuck(b, budget, j, k - 1);
      AfterStep(b, budget, k - 1);
    }
  }

  lemma AfterStep(b: seq<byte>, budget: int, k: nat)
    requires k < 256
    ensures After(b, budget, k + 1) ==
      if After(b, budget, k).budget < 0 then After(b, budget, k)
      else BucketDone(After(b, budget, k), Overshot(b), DoneAfter(b, k), |b|, OrderOf(b)[k], k + 1 == 256)
  {
    hide BucketDone, Overshot, DoneAfter, OrderOf;
  }

  lemma HoldsFirst(b: seq<byte>, budget: int)
    requires QuadrantOk(Cleared(|b|), b)
    ensures Holds(b, budget, 0)
  {
    hide OrderOf, QuadrantOk;
    MeaningStart(b);
    var none := OrderOf(b)[..0];
    assert none == [] && none[..0] == [];
  }

  lemma SizesAre(b: seq<byte>, ft: seq<int>)
    requires ft == StartTable(b)
    ensures forall c: byte :: RunningOrder.BigFreq(ft, c) == BigSize(b, c)
  {
    hide CountBelow;
  }

  lemma OrderIs(b: seq<byte>)
    ensures Ordered(b, OrderOf(b))
  {
    hide RunningOrder.BigFreq, BigSize, RunningOrder.Order;
    RunningOrder.OrderAscends(StartTable(b));
    SizesAre(b, StartTable(b));
  }

  lemma OvershotIs(block: seq<byte>, b: seq<byte>)
    requires Extended(block, b)
    ensures block == Overshot(b)
  {
  }

  lemma TableIs(ft: seq<int>, b: seq<byte>)
    requires |ft| == 65537 && forall c :: 0 <= c <= 65536 ==> ft[c] == CountBelow(Pairs(b), c)
    ensures ft == StartTable(b)
  {
    hide CountBelow;
  }

  lemma DoneIs(b: seq<byte>, done: seq<bool>, k: nat)
    requires |done| == 256 && k <= 256 && forall t: byte :: done[t] <==> t as int in OrderOf(b)[..k]
    ensures done == DoneAfter(b, k)
  {
    hide OrderOf;
  }

  /** mainSort: unless the budget runs out, the listing is sorted, for every block.  Listing and
      budget are functions of the block and the budget given; and after each big bucket the
      quadrants mean what `Meaning` says, so that for a block without equal rotations they have
      their stated meaning all along (`Meant`, `AlwaysCan`). */
  method Sort(ptr: array<int>, block: array<byte>, quadrant: array<int>, ftab: array<int>, nblock: nat, budget: int)
    returns (budget': int)
    requires OVERSHOOT < nblock <= 900000 && nblock == ptr.Length
      && block.Length == quadrant.Length == nblock + OVERSHOOT
    requires ftab.Length == 65537 && ptr != ftab && ptr != quadrant && quadrant != ftab && budget >= 0
    modifies ptr, block, quadrant, ftab
    ensures block[..nblock] == old(block[..nblock])
    ensures budget' >= 0 ==> SortedRotations(block[..nblock], ptr[..])
    ensures ptr[..] == After(block[..nblock], budget, 256).ptr && budget' == After(block[..nblock], budget, 256).budget
    ensures Ordered(block[..nblock], OrderOf(block[..nblock]))
    ensures forall k :: 0 <= k <= 256 ==> Holds(block[..nblock], budget, k)
    ensures Meant(block[..nblock], budget)
  {
    hide Meant, Bucketed, Extended, QuadrantOk, Starts, Marks, SortedRotations, After, BucketDone, BigSize, Holds,
      OrderOf, Meaning;
    hide RunningOrder.BigFreq, DoneAfter, Overshot, StartTable, Cleared, BucketMeans, Ordered, Listing, LFTable;
    ghost var b := block[..nblock];
    RadixSort(ptr, block, quadrant, ftab, nblock, b);
    OvershotIs(block[..], b);
    var bigDone := seq(256, _ => false);
    var order := FindOrder(ftab[..], b);
    OrderedPermutation(b, order);
    budget' := budget;
    AfterStart(b, budget);
    HoldsFirst(b, budget);
    for i := 0 to 256
      invariant budget' >= 0 && block[..nblock] == b && block[..] == Overshot(b) && Extended(block[..], b)
      invariant QuadrantOk(quadrant[..], b) && Bucketed(ptr[..], Pairs(b))
      invariant Starts(ftab[..], b) && Marks(ftab[..], ptr[..], b, bigDone)
      invariant |bigDone| == 256 && forall t: byte :: bigDone[t] <==> t as int in order[..i]
      invariant State(ptr[..], quadrant[..], ftab[..], budget') == After(b, budget, i)
      invariant forall k :: 0 <= k <= i ==> Holds(b, budget, k)
      modifies ptr, quadrant, ftab
    {
      var ss: byte := order[i];
      assert ss as int !in order[..i];
      AfterStep(b, budget, i);
      DoneIs(b, bigDone, i);
      budget' := BigBucket(ptr, block[..], quadrant, ftab, bigDone, nblock, ss, i == 255, budget', b);
      HoldsNext(b, budget, i, ss);
      if budget' < 0 {
        forall k | i < k <= 256 ensures Holds(b, budget, k) && After(b, budget, k) == After(b, budget, i + 1) {
          HoldsStuck(b, budget, i + 1, k);
        }
        MeantThroughout(b, budget);
        return;
      }
      bigDone := bigDone[ss := true];
      assert order[..i + 1] == order[..i] + [ss as int];
    }
    MeantThroughout(b, budget);
    assert order[..256] == order;
    forall t: byte ensures bigDone[t] { PermutationOnto(order, 256, t); }
    AllSorted(ftab[..], ptr[..], b, bigDone);
  }

  lemma AfterStart(b: seq<byte>, budget: int)
    ensures After(b, budget, 0) == State(Listing(LFTable(Pairs(b))), Cleared(|b|), StartTable(b), budget)
  {
  }

  lemma OrderedPermutation(b: seq<byte>, order: seq<int>)
    requires Ordered(b, order)
    ensures Permutation(order, 256)
  {
  }

  method FindOrder(ftab: seq<int>, ghost b: seq<byte>) returns (order: seq<int>)
    requires ftab == StartTable(b)
    ensures order == OrderOf(b) && Ordered(b, order)
  {
    hide RunningOrder.BigFreq, BigSize, RunningOrder.Order, Ordered;
    var runningOrder := RunningOrder.Find(ftab);
    order := runningOrder[..];
    OrderIs(b);
  }
}

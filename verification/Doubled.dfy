/**
 A block that repeats itself, followed through both block sorters: 0 and five thousand
 251s, twice.  The two sorters list its two equal halves in different orders.
 */
module Doubled {
  import opened Rotations
  import opened Permutations
  import opened Counting
  import opened BwtSpec
  import opened Radix
  import opened RangeSort
  import opened Pending
  import opened MainOrder
  import opened MainSimpleSort
  import opened MainRadix
  import opened Synthesis
  import opened MainSort
  import MainQSort

  const N: nat := 10002

  /** The block. */
  function Twice(): (b: seq<byte>)
    ensures |b| == N && forall i :: 0 <= i < N ==> b[i] == if i == 0 || i == 5001 then 0 else 251
  {
    seq(N, i requires 0 <= i < N => if i == 0 || i == 5001 then 0 else 251)
  }

  lemma {:induction false} HalvesEqual(i: int, j: int, m: nat)
    requires 0 <= i < N && 0 <= j < N && (i == j || i == j + 5001 || j == i + 5001)
    ensures Cmp(Twice(), i, j, m) == 0
    decreases m
  {
    if m > 0 { HalvesEqual(Next(N, i), Next(N, j), m - 1); }
  }

  // ---------------------------------------------------------------- its buckets

  lemma KeyOf(i: int)
    requires 0 <= i < N
    ensures Pairs(Twice())[i] ==
      if i == 0 || i == 5001 then 251 else if i == 5000 || i == 10001 then 64256 else 64507
  {
  }

  /** Where the small buckets start. */
  lemma StartsAt(c: nat)
    requires c <= 65536
    ensures S(Twice(), c) == if c <= 251 then 0 else if c <= 64256 then 2 else if c <= 64507 then 4 else N
  {
    hide CountBelow;
    var s := Pairs(Twice());
    forall i | 0 <= i < N ensures s[i] == if i == 0 || i == 5001 then 251 else if i == 5000 || i == 10001 then 64256
      else 64507 {
      KeyOf(i);
    }
    CountBelowIsSize(s, c);
    if c <= 251 {
      assert PlacesBelow(s, c) == {};
    } else if c <= 64256 {
      assert PlacesBelow(s, c) == {0, 5001};
    } else if c <= 64507 {
      assert PlacesBelow(s, c) == {0, 5001, 5000, 10001};
    } else {
      CountBelowAll(s, c);
    }
  }

  lemma BigSizes(t: byte)
    ensures RowStart(Twice(), t) == (if t == 0 then 0 else if t <= 251 then 2 else N)
    ensures BigSize(Twice(), t) == if t == 0 then 2 else if t == 251 then 10000 else 0
  {
    hide S;
    StartsAt(Pair(t, 0));
    StartsAt(Pair(t, 256));
  }

  /** The running order ends with 0 and then 251. */
  lemma OrderEnds()
    ensures var o := OrderOf(Twice());
      o[254] == 0 && o[255] == 251 && forall k :: 0 <= k < 254 ==> 0 <= o[k] < 256 && o[k] != 0 && o[k] != 251
  {
    hide BigSize, OrderOf, Twice;
    var o := OrderOf(Twice());
    OrderIs(Twice());
    forall t: byte ensures BigSize(Twice(), t) == if t == 0 then 2 else if t == 251 then 10000 else 0 { BigSizes(t); }
    forall j | 0 <= j < 255 ensures o[j] != 251 && (j < 254 ==> o[j] != 0) {
      assert BigSize(Twice(), o[j]) <= BigSize(Twice(), o[255]) && o[j] != o[255];
      if j < 254 { assert BigSize(Twice(), o[j]) <= BigSize(Twice(), o[254]) && o[j] != o[254] && o[254] != o[255]; }
    }
    var p, q := IndexOf(o, 256, 0), IndexOf(o, 256, 251);
  }

  // ---------------------------------------------------------------- big buckets that change nothing

  /** Nothing but marks in the table differs. */
  ghost predicate Quiet(m: State, m': State, b: seq<byte>) {
    m'.ptr == m.ptr && m'.quadrant == m.quadrant && m'.budget == m.budget && MarksKept(m.ftab, m'.ftab, b)
  }

  ghost predicate MarksKept(ft: seq<int>, ft': seq<int>, b: seq<byte>) {
    Starts(ft, b) && Starts(ft', b) && forall c :: 0 <= c < 65536 && Marked(ft[c]) ==> Marked(ft'[c])
  }

  lemma KeptTrans(ft: seq<int>, ft': seq<int>, ft'': seq<int>, b: seq<byte>)
    requires MarksKept(ft, ft', b) && MarksKept(ft', ft'', b)
    ensures MarksKept(ft, ft'', b)
  {
    hide S, ClearMask, Marked;
  }

  lemma OneMark(ft: seq<int>, b: seq<byte>, c: nat)
    requires Starts(ft, b) && c < 65536
    ensures 0 <= c < |ft| == 65537 && MarksKept(ft, ft[c := SetMask(ft[c])], b) && Marked(SetMask(ft[c]))
  {
    hide S;
    MarkStarts(ft, b, c);
    EntryOf(ft, b, c);
    Masked(ft[c]);
  }

  /** A small bucket that step 1 has nothing to do for. */
  ghost predicate Idle(ft: seq<int>, b: seq<byte>, ss: byte, c: nat) {
    |ft| == 65537 && c < 256 && (c == ss || Marked(ft[Pair(ss, c)]) || S(b, Pair(ss, c) + 1) <= S(b, Pair(ss, c)) + 1)
  }

  lemma IdleStep(m: State, block: seq<int>, b: seq<byte>, ss: byte, c: nat)
    requires Starts(m.ftab, b) && m.budget >= 0 && c < 256 && c != ss && Idle(m.ftab, b, ss, c)
    ensures Quiet(m, SmallDone(m, block, |b|, Pair(ss, c)), b)
  {
    hide S, MainQSort.QSorted, ClearMask, Marked, SetMask;
    EntryOf(m.ftab, b, Pair(ss, c));
    OneMark(m.ftab, b, Pair(ss, c));
  }

  /** Step 1 over small buckets that it has nothing to do for. */
  lemma {:induction false} IdleRow(m: State, block: seq<int>, b: seq<byte>, ss: byte, j: nat, k: nat)
    returns (m': State)
    requires Starts(m.ftab, b) && m.budget >= 0 && j <= k <= 256
    requires forall c :: j <= c < k ==> Idle(m.ftab, b, ss, c)
    ensures Quiet(m, m', b) && RowDone(m, block, |b|, ss, j) == RowDone(m', block, |b|, ss, k)
    ensures ss > 0 || k <= 251 ==> Get(m'.ftab, 251) == Get(m.ftab, 251)
    decreases k - j
  {
    hide S, SmallDone, RowDone, Starts, Marked;
    KeptRefl(m.ftab, b);
    if j == k {
      m' := m;
    } else {
      RowDoneStep(m, block, |b|, ss, j);
      assert Idle(m.ftab, b, ss, j);
      var m1 := m;
      if j != ss {
        m1 := SmallDone(m, block, |b|, Pair(ss, j));
        IdleStep(m, block, b, ss, j);
        if Pair(ss, j) != 251 { OtherEntry(m, block, |b|, ss, j); }
        forall c | j + 1 <= c < k ensures Idle(m1.ftab, b, ss, c) {
          assert Idle(m.ftab, b, ss, c);
          IdleKept(m.ftab, m1.ftab, b, ss, c);
        }
      }
      m' := IdleRow(m1, block, b, ss, j + 1, k);
      KeptTrans(m.ftab, m1.ftab, m'.ftab, b);
    }
  }

  lemma OtherEntry(m: State, block: seq<int>, n: nat, ss: byte, c: byte)
    requires Pair(ss, c) != 251
    ensures Get(SmallDone(m, block, n, Pair(ss, c)).ftab, 251) == Get(m.ftab, 251)
  {
    hide MainQSort.QSorted;
  }

  lemma KeptRefl(ft: seq<int>, b: seq<byte>)
    requires Starts(ft, b)
    ensures MarksKept(ft, ft, b)
  {
  }

  lemma IdleKept(ft: seq<int>, ft': seq<int>, b: seq<byte>, ss: byte, c: nat)
    requires Idle(ft, b, ss, c) && MarksKept(ft, ft', b)
    ensures Idle(ft', b, ss, c)
  {
  }

  lemma RowEndIs(m: State, block: seq<int>, n: nat, ss: byte)
    ensures RowDone(m, block, n, ss, 256) == m
  {
  }

  /** Marking a column. */
  lemma {:induction false} ColumnIs(ft: seq<int>, b: seq<byte>, ss: byte, t: nat)
    requires Starts(ft, b) && t <= 256
    ensures MarksKept(ft, ColumnMarked(ft, ss, t), b)
    ensures forall u :: t <= u < 256 ==>
      |ColumnMarked(ft, ss, t)| == 65537 && Marked(ColumnMarked(ft, ss, t)[Pair(u, ss)])
    ensures ss != 251 ==> Get(ColumnMarked(ft, ss, t), 251) == Get(ft, 251)
    decreases 256 - t
  {
    hide S, Marked, SetMask, Starts, ClearMask;
    KeptRefl(ft, b);
    if t < 256 {
      OneMark(ft, b, Pair(t, ss));
      var ft' := ft[Pair(t, ss) := SetMask(ft[Pair(t, ss)])];
      KeptStarts(ft, ft', b);
      ColumnIs(ft', b, ss, t + 1);
      KeptTrans(ft, ft', ColumnMarked(ft', ss, t + 1), b);
      KeptStarts(ft', ColumnMarked(ft', ss, t + 1), b);
    }
  }

  lemma KeptStarts(ft: seq<int>, ft': seq<int>, b: seq<byte>)
    requires MarksKept(ft, ft', b)
    ensures |ft| == |ft'| == 65537 && Starts(ft', b)
  {
  }

  // ---------------------------------------------------------------- buckets of no rotations

  lemma ScansNone(p: seq<int>, ft: seq<int>, block: seq<int>, done: seq<bool>, b: seq<byte>, ss: byte)
    requires Starts(ft, b) && BigSize(b, ss) == 0
    ensures ScansDone(p, ft, block, done, |b|, ss).0 == p
  {
    hide S, ClearMask, Preceding, Open, Put;
    NoRotations(b, ss, ss);
    EntryOf(ft, b, Pair(ss, 0));
    EntryOf(ft, b, Pair(ss, ss));
    EntryOf(ft, b, Pair(ss, 255));
  }

  /** All small buckets of an empty row start at the same place. */
  lemma NoRotations(b: seq<byte>, ss: byte, c: byte)
    requires BigSize(b, ss) == 0
    ensures S(b, Pair(ss, c)) == S(b, Pair(ss, c) + 1) == RowStart(b, ss) == RowEnd(b, ss)
  {
    hide S;
    if c > 0 { SOrder(b, Pair(ss, 0), Pair(ss, c)); }
    if c < 255 { SOrder(b, Pair(ss, c) + 1, Pair(ss, 256)); }
    SOrder(b, Pair(ss, c), Pair(ss, c) + 1);
  }

  /** A big bucket of no rotations only marks the table. */
  lemma EmptyBucket(m: State, block: seq<int>, done: seq<bool>, b: seq<byte>, ss: byte)
    requires Starts(m.ftab, b) && m.budget >= 0 && BigSize(b, ss) == 0
    ensures var m' := BucketDone(m, block, done, |b|, ss, false);
      Quiet(m, m', b) && (0 < ss != 251 ==> Get(m'.ftab, 251) == Get(m.ftab, 251))
  {
    hide S, RowDone, ScansDone, Starts, ClearMask, Marked;
    StartsSize(m.ftab, b);
    forall c | 0 <= c < 256 ensures Idle(m.ftab, b, ss, c) { NoRotations(b, ss, c); }
    var m1 := IdleRow(m, block, b, ss, 0, 256);
    RowEndIs(m1, block, |b|, ss);
    KeptStarts(m.ftab, m1.ftab, b);
    ScansNone(m1.ptr, m1.ftab, block, done, b, ss);
    TableAfter(m1.ptr, m1.ftab, block, done, b, ss);
    var ft := ScansDone(m1.ptr, m1.ftab, block, done, |b|, ss).1;
    KeptTrans(m.ftab, m1.ftab, ft, b);
    KeptStarts(m1.ftab, ft, b);
    NoRanks(m1.quadrant, m1.ptr, ft, b, ss);
  }

  lemma StartsSize(ft: seq<int>, b: seq<byte>)
    requires Starts(ft, b)
    ensures |ft| == 65537
  {
  }

  lemma TableAfter(p: seq<int>, ft: seq<int>, block: seq<int>, done: seq<bool>, b: seq<byte>, ss: byte)
    requires Starts(ft, b)
    ensures var ft' := ScansDone(p, ft, block, done, |b|, ss).1;
      && MarksKept(ft, ft', b) && |ft'| == 65537 && (forall t: byte :: Marked(ft'[Pair(t, ss)]))
      && (ss != 251 ==> Get(ft', 251) == Get(ft, 251))
  {
    hide S, Starts, Marked, FilledUp, FilledDown, MarksKept;
    ColumnIs(ft, b, ss, 0);
  }

  lemma NoRanks(q: seq<int>, p: seq<int>, ft: seq<int>, b: seq<byte>, ss: byte)
    requires Starts(ft, b) && BigSize(b, ss) == 0
    ensures Renumbered(q, p, ft, |b|, ss) == q
  {
    hide S;
    EntryOf(ft, b, Pair(ss, 0));
    EntryOf(ft, b, Pair(ss, 255));
  }

  /** The radix pass lists 0 first and 5001 next. */
  lemma RadixFirst()
    ensures var p := Listing(LFTable(Pairs(Twice()))); |p| == N && p[0] == 0 && p[1] == 5001
  {
    hide CountBelow, Count, Twice;
    var s := Pairs(Twice());
    LFPermutation(s);
    KeyOf(0);
    KeyOf(5001);
    StartsAt(251);
    assert s[..0] == [];
    CountIsSize(s[..5001], 251);
    forall i | 0 < i < 5001 ensures s[..5001][i] != 251 { KeyOf(i); }
    assert s[..5001][0] == 251;
    assert Places(s[..5001], 251) == {0};
    assert LFTable(s)[0] == 0 && LFTable(s)[5001] == 1;
  }

  /** The two rotations of 0 are first in the listing. */
  ghost predicate ZeroFirst(m: State) {
    |m.ptr| == N && m.ptr[0] == 0 && m.ptr[1] == 5001
  }

  /** Up to the big bucket of 0 nothing has happened. */
  lemma {:induction false} Before(budget: int, k: nat)
    requires budget >= 0 && k <= 254
    ensures var m := After(Twice(), budget, k);
      && ZeroFirst(m) && m.quadrant == Cleared(N) && m.budget == budget
      && Starts(m.ftab, Twice()) && Get(m.ftab, 251) == 0
  {
    hide S, Listing, Cleared, Starts, After, BucketDone, BigSize, OrderOf, DoneAfter, Twice, Get, MarksKept, StartTable;
    hide Overshot, LFTable;
    var b := Twice();
    if k == 0 {
      AfterStart(b, budget);
      RadixFirst();
      FreshMarks(StartTable(b), [], b);
      FirstEntry();
    } else {
      Before(budget, k - 1);
      OrderEnds();
      var m, ss := After(b, budget, k - 1), OrderOf(b)[k - 1];
      BigSizes(ss);
      AfterStep(b, budget, k - 1);
      EmptyBucket(m, Overshot(b), DoneAfter(b, k - 1), b, ss);
      KeptStarts(m.ftab, After(b, budget, k).ftab, b);
    }
  }

  lemma FirstEntry()
    ensures Get(StartTable(Twice()), 251) == 0
  {
    hide CountBelow, Twice;
    StartsAt(251);
  }

  // ---------------------------------------------------------------- the bucket of 0

  /** What comparing its two rotations costs. */
  function Cost(): (c: nat)
    ensures 0 < c <= 1252
  {
    CompareTwo();
    Compared(Overshot(Twice()), Cleared(N), N, 2, 5003).cost
  }

  lemma CompareTwo()
    ensures var v := Compared(Overshot(Twice()), Cleared(N), N, 2, 5003); !v.gtu && 0 < v.cost <= 1252
  {
    HalvesEqual(2, 5003, N);
    EqualCompared(Overshot(Twice()), Cleared(N), Twice(), 2, 5003);
  }

  /** Step 1 on the row of 0 compares its two rotations and leaves them. */
  lemma ZeroRow(m: State)
    requires ZeroFirst(m) && m.quadrant == Cleared(N) && m.budget >= 0
    requires Starts(m.ftab, Twice()) && Get(m.ftab, 251) == 0
    ensures var m' := RowDone(m, Overshot(Twice()), N, 0, 0);
      m'.ptr == m.ptr && m'.quadrant == m.quadrant && m'.budget == m.budget - Cost() && Starts(m'.ftab, Twice())
  {
    hide S, Listing, Cleared, Starts, SmallDone, RowDone, Marked, ClearMask, Compared, Cost, Twice, Overshot;
    var b, block := Twice(), Overshot(Twice());
    forall c | 0 <= c < 256 && c != 251 ensures Idle(m.ftab, b, 0, c) { ZeroIdle(m.ftab, c); }
    var m1 := IdleRow(m, block, b, 0, 0, 251);
    KeptStarts(m.ftab, m1.ftab, b);
    RowDoneStep(m1, block, N, 0, 251);
    ZeroTwo(m1);
    var m2 := SmallDone(m1, block, N, 251);
    if m2.budget < 0 {
      RowStops(m2, block, N, 0, 252);
    } else {
      forall c | 252 <= c < 256 ensures Idle(m2.ftab, b, 0, c) { ZeroIdle(m2.ftab, c); }
      var m3 := IdleRow(m2, block, b, 0, 252, 256);
      KeptStarts(m2.ftab, m3.ftab, b);
      RowEndIs(m3, block, N, 0);
    }
  }

  /** An unmarked small bucket of two rotations of which the first is not greater. */
  lemma TwoDone(m: State, block: seq<int>, n: nat, sb: nat, lo: nat)
    requires !Marked(Get(m.ftab, sb)) && ClearMask(Get(m.ftab, sb)) == lo && ClearMask(Get(m.ftab, sb + 1)) == lo + 2
    requires lo + 1 < |m.ptr| && !Compared(block, m.quadrant, n, m.ptr[lo] + 2, m.ptr[lo + 1] + 2).gtu
    ensures var left := m.budget - Compared(block, m.quadrant, n, m.ptr[lo] + 2, m.ptr[lo + 1] + 2).cost;
      SmallDone(m, block, n, sb) ==
        State(m.ptr, m.quadrant, if left < 0 then m.ftab else Put(m.ftab, sb, SetMask(Get(m.ftab, sb))), left)
  {
    hide MainQSort.QSorted, Compared, Get, Put, ClearMask, Marked, SetMask;
    MainQSort.TwoSorted(m.ptr, m.budget, Text(block, m.quadrant, n), lo);
  }

  lemma ZeroTwo(m: State)
    requires ZeroFirst(m) && m.quadrant == Cleared(N) && m.budget >= 0
    requires Starts(m.ftab, Twice()) && Get(m.ftab, 251) == 0
    ensures var m' := SmallDone(m, Overshot(Twice()), N, 251);
      m'.ptr == m.ptr && m'.quadrant == m.quadrant && m'.budget == m.budget - Cost() && Starts(m'.ftab, Twice())
  {
    hide S, Listing, Cleared, SmallDone, Compared, Twice, Overshot, LFTable, Starts, ClearMask, Marked, SetMask,
      MarksKept;
    CompareTwo();
    EntryOf(m.ftab, Twice(), 251);
    StartsAt(251);
    StartsAt(252);
    Unmarked(0);
    TwoDone(m, Overshot(Twice()), N, 251, 0);
    OneMark(m.ftab, Twice(), 251);
    KeptStarts(m.ftab, m.ftab[251 := SetMask(m.ftab[251])], Twice());
  }

  lemma RowStops(m: State, block: seq<int>, n: nat, ss: byte, j: nat)
    requires m.budget < 0
    ensures RowDone(m, block, n, ss, j) == m
  {
  }

  lemma ZeroIdle(ft: seq<int>, c: nat)
    requires Starts(ft, Twice()) && c < 256 && c != 251
    ensures Idle(ft, Twice(), 0, c)
  {
    hide S;
    StartsAt(c);
    StartsAt(c + 1);
  }

  /** The downward scan of step 2 fills the bucket [251,0] and touches nothing else. */
  lemma ZeroScans(p: seq<int>, ft: seq<int>, done: seq<bool>)
    requires |p| == N && p[0] == 0 && p[1] == 5001 && Starts(ft, Twice()) && |done| == 256 && !done[251]
    ensures ScansDone(p, ft, Overshot(Twice()), done, N, 0).0 == p[3 := 5000][2 := 10001]
  {
    hide S, Twice, Overshot, ClearMask, Starts, ColumnMarked;
    EntryOf(ft, Twice(), 0);
    EntryOf(ft, Twice(), 255);
    EntryOf(ft, Twice(), 64256);
    StartsAt(0);
    StartsAt(1);
    StartsAt(256);
    StartsAt(64257);
    var block := Overshot(Twice());
    SymbolOf(5000);
    SymbolOf(10001);
    var cs, ce := CopyStarts(ft, 0), CopyEnds(ft, 0);
    FilledUpStep(p, cs, block, done, N, 0, 0);
    FilledDownStep(p, ce, block, done, N, 0, 1);
    var p1, ce1 := p[3 := 5000], ce[251 := 2];
    FilledDownStep(p1, ce1, block, done, N, 0, 0);
    FilledDownStep(p1[2 := 10001], ce1[251 := 1], block, done, N, 0, -1);
  }

  lemma SymbolOf(i: int)
    ensures Get(Overshot(Twice()), i) in {0, 251}
    ensures 0 <= i < N && i != 0 && i != 5001 ==> Get(Overshot(Twice()), i) == 251
  {
  }

  /** Step 3 numbers the two rotations of a bucket 0 and 1. */
  lemma TwoRanks(q: seq<int>, p: seq<int>, ft: seq<int>, n: nat, ss: int, x: int, y: int)
    requires |q| == n + OVERSHOOT && 0 <= x < OVERSHOOT <= y < n
    requires var start := ClearMask(Get(ft, Pair(ss, 0)));
      ClearMask(Get(ft, Pair(ss, 256))) == start + 2 && Get(p, start) == x && Get(p, start + 1) == y
    ensures var r := Renumbered(q, p, ft, n, ss); |r| == |q| && r[x] == 0 && r[y] == 1
  {
    hide ClearMask;
    var start := ClearMask(Get(ft, Pair(ss, 0)));
    assert Unit(2, 1) == 1;
    NumberedDownStep(q, p, n, start, 1, 1);
    var q1 := NumberPut(q, n, y, 1);
    NumberedDownStep(q1, p, n, start, 1, 0);
    NumberedDownStep(NumberPut(q1, n, x, 0), p, n, start, 1, -1);
  }

  ghost predicate ZeroNumbered(m: State) {
    |m.quadrant| == N + OVERSHOOT && m.quadrant[0] == 0 && m.quadrant[5001] == 1
  }

  ghost predicate ColumnDone(m: State) {
    Starts(m.ftab, Twice()) && Marked(m.ftab[64256])
  }

  lemma ZeroEntries(ft: seq<int>)
    requires Starts(ft, Twice())
    ensures ClearMask(Get(ft, 0)) == 0 && ClearMask(Get(ft, 256)) == 2
  {
    hide S, Twice, ClearMask, Starts;
    EntryOf(ft, Twice(), 0);
    EntryOf(ft, Twice(), 255);
    StartsAt(0);
    StartsAt(256);
  }

  lemma ClearedSize(n: nat)
    ensures |Cleared(n)| == n + OVERSHOOT
  {
  }

  lemma GetIs(p: seq<int>, i: int)
    requires 0 <= i < |p|
    ensures Get(p, i) == p[i]
  {
  }

  lemma ZeroBucket(m: State, done: seq<bool>)
    requires ZeroFirst(m) && m.quadrant == Cleared(N) && m.budget >= 0
    requires Starts(m.ftab, Twice()) && Get(m.ftab, 251) == 0 && |done| == 256 && !done[251]
    ensures var m' := BucketDone(m, Overshot(Twice()), done, N, 0, false);
      m'.budget == m.budget - Cost() && (m'.budget >= 0 ==> ZeroFirst(m') && ZeroNumbered(m') && ColumnDone(m'))
  {
    hide S, Listing, Cleared, Starts, RowDone, ScansDone, Renumbered, Marked, Cost, Twice, Overshot, LFTable, Get,
      MarksKept;
    var b, block := Twice(), Overshot(Twice());
    ZeroRow(m);
    var m1 := RowDone(m, block, N, 0, 0);
    if m1.budget >= 0 {
      ZeroScans(m1.ptr, m1.ftab, done);
      TableAfter(m1.ptr, m1.ftab, block, done, b, 0);
      var (p, ft) := ScansDone(m1.ptr, m1.ftab, block, done, N, 0);
      KeptStarts(m1.ftab, ft, b);
      assert Marked(ft[Pair(251, 0)]);
      ClearedSize(N);
      ZeroEntries(ft);
      GetIs(p, 0);
      GetIs(p, 1);
      TwoRanks(m1.quadrant, p, ft, N, 0, 0, 5001);
    }
  }

  lemma OpenLast()
    ensures !DoneAfter(Twice(), 254)[251]
  {
    hide OrderOf, Twice;
    OrderEnds();
  }

  /** After the bucket of 0, if the budget lasts that long. */
  lemma AfterZero(budget: int)
    requires budget >= 0
    ensures var m := After(Twice(), budget, 255);
      m.budget == budget - Cost() && (m.budget >= 0 ==> ZeroFirst(m) && ZeroNumbered(m) && ColumnDone(m))
  {
    hide Listing, Cleared, Starts, After, BucketDone, Cost, Twice, OrderOf, Overshot, LFTable, ZeroFirst,
      ZeroNumbered, ColumnDone, Get;
    Before(budget, 254);
    OrderEnds();
    OpenLast();
    hide DoneAfter;
    AfterStep(Twice(), budget, 254);
    ZeroBucket(After(Twice(), budget, 254), DoneAfter(Twice(), 254));
  }

  /** The two equal rotations have been numbered differently, against the stated meaning, as soon
      as the sort has got past the bucket of 0. */
  lemma MeaningFails(budget: int)
    requires budget >= 1252
    ensures After(Twice(), budget, 255).budget >= 0
    ensures !StatedMeaning(After(Twice(), budget, 255).quadrant, Twice(), 0)
  {
    hide After, Cmp, Marked;
    AfterZero(budget);
    HalvesEqual(0, 5001, N);
  }

  // ---------------------------------------------------------------- the bucket of 251

  /** The upward scan writes only behind what the bucket [251,251] is preceded by. */
  lemma {:induction false} UpBehind(p: seq<int>, cs: seq<int>, block: seq<int>, done: seq<bool>, j: int)
    requires |cs| == 256 && |p| == N && |done| == 256 && done[0] && cs[251] >= 4
    requires forall i :: Get(block, i) in {0, 251}
    ensures var r := FilledUp(p, cs, block, done, N, 251, j).0; |r| == N && r[0] == p[0] && r[1] == p[1]
    decreases N - j
  {
    hide FilledUp, Preceding;
    FilledUpStep(p, cs, block, done, N, 251, j);
    if j < Get(cs, 251) && j < |p| {
      var k := Preceding(Get(p, j), N);
      var c := Get(block, k);
      if Open(done, c) {
        assert c == 251;
        UpBehind(Put(p, cs[251], k), cs[251 := cs[251] + 1], block, done, j + 1);
      } else {
        UpBehind(p, cs, block, done, j + 1);
      }
    }
  }

  lemma LastScans(p: seq<int>, ft: seq<int>, done: seq<bool>)
    requires |p| == N && Starts(ft, Twice()) && |done| == 256 && done[0]
    ensures var r := ScansDone(p, ft, Overshot(Twice()), done, N, 251).0; |r| == N && r[0] == p[0] && r[1] == p[1]
  {
    hide S, Twice, Overshot, ClearMask, Starts, ColumnMarked, FilledUp, FilledDown;
    EntryOf(ft, Twice(), 64507);
    EntryOf(ft, Twice(), 64511);
    StartsAt(64507);
    StartsAt(64508);
    StartsAt(64512);
    var block := Overshot(Twice());
    forall i ensures Get(block, i) in {0, 251} { SymbolOf(i); }
    var cs, ce := CopyStarts(ft, 251), CopyEnds(ft, 251);
    var from := ClearMask(Get(ft, Pair(251, 0)));
    UpBehind(p, cs, block, done, from);
    FilledDownStep(FilledUp(p, cs, block, done, N, 251, from).0, ce, block, done, N, 251, N - 1);
  }

  lemma LastIdle(ft: seq<int>, c: nat)
    requires Starts(ft, Twice()) && Marked(ft[64256]) && c < 256
    ensures Idle(ft, Twice(), 251, c)
  {
    hide S;
    StartsAt(Pair(251, c));
    StartsAt(Pair(251, c) + 1);
  }

  /** Nothing is left to sort, and the first two places stay. */
  lemma LastBucket(m: State, done: seq<bool>)
    requires ZeroFirst(m) && ColumnDone(m) && m.budget >= 0 && |done| == 256 && done[0]
    ensures var m' := BucketDone(m, Overshot(Twice()), done, N, 251, true); m'.budget == m.budget && ZeroFirst(m')
  {
    hide S, Starts, RowDone, ScansDone, Marked, Twice, Overshot, MarksKept;
    var b, block := Twice(), Overshot(Twice());
    forall c | 0 <= c < 256 ensures Idle(m.ftab, b, 251, c) { LastIdle(m.ftab, c); }
    var m1 := IdleRow(m, block, b, 251, 0, 256);
    RowEndIs(m1, block, N, 251);
    KeptStarts(m.ftab, m1.ftab, b);
    LastScans(m1.ptr, m1.ftab, done);
  }

  /** The main sort finishes if it may do the one comparison, and lists 0 before 5001. */
  lemma MainLists(budget: int)
    requires budget >= 0
    ensures var m := After(Twice(), budget, 256); m.budget == budget - Cost() && (m.budget >= 0 ==> ZeroFirst(m))
  {
    hide Starts, After, BucketDone, Cost, Twice, OrderOf, Overshot, ZeroFirst, ZeroNumbered, ColumnDone;
    AfterZero(budget);
    AfterStep(Twice(), budget, 255);
    OrderEnds();
    assert OrderOf(Twice())[..255][254] == 0;
    var m := After(Twice(), budget, 255);
    if m.budget >= 0 { LastBucket(m, DoneAfter(Twice(), 255)); }
  }
}

/**
 The two sorters do not always make the same stream: an input that is sent in different
 bytes with work factors below and from 4 on.
 */
module SortersDiffer {
  import opened Rotations
  import opened Permutations
  import opened Counting
  import opened BwtSpec
  import opened Radix
  import opened RangeSort
  import opened RunLength
  import opened BitStream
  import opened BlockDecode
  import opened BlockCompress
  import opened BlockSort
  import opened FallbackSort
  import opened Cutting
  import opened Collect
  import opened Emission
  import opened SorterChoice
  import opened Doubled
  import MainSort
  import Crc

  // ---------------------------------------------------------------- the fallback sort

  /** The first pass of the fallback sort lists 5001 first and 0 next. */
  lemma FirstPassLists()
    ensures var f := Listing(DownSlots(Twice())); Permutation(f, N) && f[0] == 5001 && f[1] == 0
  {
    hide CountBelow, Count, Twice;
    var s := Twice();
    forall i | 0 <= i < N ensures 0 <= DownSlot(s, i) < N { DownSlotInBucket(s, i); }
    forall i, j | 0 <= i < j < N ensures DownSlot(s, i) != DownSlot(s, j) { DownSlotDistinct(s, i, j); }
    ZerosCounted();
    assert DownSlots(s)[0] == 1 && DownSlots(s)[5001] == 0;
    ListingPermutes(DownSlots(s));
  }

  lemma ListingPermutes(slot: seq<int>)
    requires Permutation(slot, |slot|)
    ensures Permutation(Listing(slot), |slot|)
  {
  }

  lemma ZerosCounted()
    ensures CountBelow(Twice(), 1) == 2 && Count(Twice()[..0], 0) == 0 && Count(Twice()[..5001], 0) == 1
  {
    var s := Twice();
    CountBelowIsSize(s, 1);
    assert PlacesBelow(s, 1) == {0, 5001};
    CountIsSize(s[..5001], 0);
    assert s[..5001][0] == 0;
    assert Places(s[..5001], 0) == {0};
    assert s[..0] == [];
  }

  /** They are a bucket of two equal rotations, and so stay. */
  lemma FallbackLists(g: seq<int>)
    requires FirstTwinsStay(Twice(), g)
    ensures |g| == N && g[0] == 5001 && g[1] == 0
  {
    hide Listing, DownSlots, Twice;
    var s, f := Twice(), Listing(DownSlots(Twice()));
    FirstPassLists();
    HalvesEqual(5001, 0, N);
    assert f[2] != f[0] && f[2] != f[1];
    assert FirstTwins(s, 1);
  }

  /** With a work factor of at most 3 the main sort has no budget and gives up; from 4 on it
      finishes. */
  lemma ListingsDiffer(w1: int, w2: int)
    requires w1 <= 3 && w2 >= 4 && FirstTwinsStay(Twice(), Fallen(Twice(), []))
    ensures var p, q := ListingOf(Twice(), w1), ListingOf(Twice(), w2); |p| == |q| == N && p[1] == 0 && q[0] == 0
  {
    hide MainSort.After, Fallen, Twice, Cost, FirstTwinsStay;
    Budgets(w1, w2);
    MainLists(BudgetFor(N, w1));
    MainLists(BudgetFor(N, w2));
    FallbackLists(Fallen(Twice(), []));
  }

  lemma Budgets(w1: int, w2: int)
    requires w1 <= 3 && w2 >= 4
    ensures BudgetFor(N, w1) == 0 && BudgetFor(N, w2) >= N
  {
  }

  // ---------------------------------------------------------------- the input

  /** The first bytes of a run, up to 255. */
  lemma {:induction false} RunGathered(blockSize100k: nat, y: seq<byte>, c: byte, j: nat)
    requires 1 <= j <= 255
    requires var g := CutAll(blockSize100k, y).run;
      (g.ch != c || g.len == 255) && |WithRun(g)| < BlockMax(blockSize100k)
    ensures var s := CutAll(blockSize100k, y);
      CutAll(blockSize100k, y + Rep(c, j)) == Cut(s.done, Gathering(WithRun(s.run), c, j))
  {
    hide RunCode, WithRun;
    var z := y + Rep(c, j);
    assert z[|z| - 1] == c;
    if j == 1 {
      assert z[..|z| - 1] == y;
    } else {
      assert z[..|z| - 1] == y + Rep(c, j - 1);
      RunGathered(blockSize100k, y, c, j - 1);
    }
  }

  /** A run of 251s, 255 at a time: each is coded as five 251s once the next begins. */
  lemma {:induction false} LongRunGathered(blockSize100k: nat, y: seq<byte>, m: nat)
    requires m >= 1
    requires var g := CutAll(blockSize100k, y).run; g.ch != 251 && |WithRun(g)| + 5 * m < BlockMax(blockSize100k)
    ensures var s := CutAll(blockSize100k, y);
      CutAll(blockSize100k, y + Rep(251, 255 * m)) ==
        Cut(s.done, Gathering(WithRun(s.run) + Rep(251, 5 * (m - 1)), 251, 255))
    decreases m
  {
    hide CutAll, WithRun;
    var s := CutAll(blockSize100k, y);
    if m == 1 {
      RunGathered(blockSize100k, y, 251, 255);
      assert WithRun(s.run) + Rep(251, 0) == WithRun(s.run);
    } else {
      LongRunGathered(blockSize100k, y, m - 1);
      FiveMore(WithRun(s.run) + Rep(251, 5 * (m - 2)));
      assert Rep(251, 5 * (m - 2)) + Rep(251, 5) == Rep(251, 5 * (m - 1));
      assert WithRun(s.run) + Rep(251, 5 * (m - 2)) + Rep(251, 5) ==
        WithRun(s.run) + (Rep(251, 5 * (m - 2)) + Rep(251, 5));
      RunGathered(blockSize100k, y + Rep(251, 255 * (m - 1)), 251, 255);
      assert y + Rep(251, 255 * (m - 1)) + Rep(251, 255) == y + Rep(251, 255 * m);
    }
  }

  lemma FiveMore(block: seq<byte>)
    ensures WithRun(Gathering(block, 251, 255)) == block + Rep(251, 5)
  {
    assert RunCode(251, 255) == Rep(251, 5);
  }

  lemma OneMore(block: seq<byte>)
    ensures WithRun(Gathering(block, 0, 1)) == block + [0]
  {
    assert RunCode(0, 1) == [0];
  }

  /** 0 and 255000 times 251, twice. */
  function Input(): seq<byte> {
    Rep(0, 1) + Rep(251, 255000) + Rep(0, 1) + Rep(251, 255000)
  }

  /** It makes one block. */
  lemma InputIsTwice(blockSize100k: nat)
    requires 1 <= blockSize100k <= 9
    ensures RunThenFinish(blockSize100k, Input()) == [Twice()]
  {
    hide CutAll, WithRun, Twice;
    StartGathering(blockSize100k);
    RunGathered(blockSize100k, [], 0, 1);
    var x1: seq<byte> := [] + Rep(0, 1);
    OneMore([]);
    assert CutAll(blockSize100k, x1) == Cut([], Gathering([], 0, 1)) && [] + [0] == [0 as byte];
    LongRunGathered(blockSize100k, x1, 1000);
    var x2, b1 := x1 + Rep(251, 255000), [0] + Rep(251, 4995);
    assert CutAll(blockSize100k, x2) == Cut([], Gathering(b1, 251, 255));
    FiveMore(b1);
    var b2 := b1 + Rep(251, 5);
    RunGathered(blockSize100k, x2, 0, 1);
    var x3 := x2 + Rep(0, 1);
    assert CutAll(blockSize100k, x3) == Cut([], Gathering(b2, 0, 1));
    OneMore(b2);
    LongRunGathered(blockSize100k, x3, 1000);
    var x4, b3 := x3 + Rep(251, 255000), b2 + [0] + Rep(251, 4995);
    assert CutAll(blockSize100k, x4) == Cut([], Gathering(b3, 251, 255));
    FiveMore(b3);
    assert x4 == Input();
    BlockIsTwice();
  }

  lemma BlockIsTwice()
    ensures [0] + Rep(251, 4995) + Rep(251, 5) + [0] + Rep(251, 4995) + Rep(251, 5) == Twice()
  {
  }

  lemma StartGathering(blockSize100k: nat)
    ensures CutAll(blockSize100k, []) == Cut([], START) && WithRun(START) == []
  {
  }

  // ---------------------------------------------------------------- the outcome

  /** The streams differ, since their only blocks have different places. */
  lemma StreamsDiffer(t: Crc.Table, blockSize100k: nat, w1: int, w2: int)
    requires 1 <= blockSize100k <= 9 && w1 <= 3 && w2 >= 4
    requires FirstTwinsStay(Twice(), Fallen(Twice(), [])) && BothSendable(Twice(), w1, w2)
    ensures Emitted(t, blockSize100k, w1, Input(), false) != Emitted(t, blockSize100k, w2, Input(), false)
  {
    hide Twice, BothSendable, SameRow, Input, RunThenFinish, Emitted;
    InputIsTwice(blockSize100k);
    var cuts := CutsOf(blockSize100k, Input(), false);
    assert cuts == [Twice()];
    WorkFactorIff(t, blockSize100k, w1, w2, Input(), false);
    RowsDiffer(w1, w2);
    assert !SameRow(cuts[0], w1, w2);
  }

  lemma RowsDiffer(w1: int, w2: int)
    requires w1 <= 3 && w2 >= 4
    requires FirstTwinsStay(Twice(), Fallen(Twice(), [])) && BothSendable(Twice(), w1, w2)
    ensures !SameRow(Twice(), w1, w2)
  {
    hide Twice, ListingOf, SortedRotations, Fallen;
    ListingsDiffer(w1, w2);
    SameCoding(Twice(), w1, w2);
    OnlyStart(BlockOf(Twice(), w1), 1);
    OnlyStart(BlockOf(Twice(), w2), 0);
  }

  /** The block as it is handed to the sorters, sorted by both: with any work factor up to 3 it
      stands at place 1 of the listing, with any from 4 on at place 0, and the streams for the
      input are different. */
  method WorkFactorMatters(t: Crc.Table, blockSize100k: nat, w1: nat, w2: nat) returns (origPtr1: int, origPtr2: int)
    requires 1 <= blockSize100k <= 9 && w1 <= 3 && w2 >= 4
    ensures origPtr1 == 1 && origPtr2 == 0
    ensures var b := Twice();
      SortedRotations(b, ListingOf(b, w1)) && SortedRotations(b, ListingOf(b, w2))
      && StartOf(b, ListingOf(b, w1)) == 1 && StartOf(b, ListingOf(b, w2)) == 0
    ensures Emitted(t, blockSize100k, w1, Input(), false) != Emitted(t, blockSize100k, w2, Input(), false)
  {
    hide Twice, ListingOf, SortedRotations, Fallen, FirstTwinsStay, Sendable, BlockOf, Input, Emitted;
    var block, inUse := TheBlock();
    var fmap := new int[N];
    Fallback(fmap, block, N);
    assert block[..N] == Twice();
    var ptr1, o1 := BlockSort.Sort(block, N, w1);
    var ptr2, o2 := BlockSort.Sort(block, N, w2);
    origPtr1, origPtr2 := o1, o2;
    ListingsDiffer(w1, w2);
    var w := new BitWriter();
    ghost var b1 := SendBlock(w, block, N, inUse, 0, w1);
    ghost var b2 := SendBlock(w, block, N, inUse, 0, w2);
    OnlyPlace(Twice(), ListingOf(Twice(), w1), o1, 1);
    OnlyPlace(Twice(), ListingOf(Twice(), w2), o2, 0);
    StreamsDiffer(t, blockSize100k, w1, w2);
  }

  lemma OnlyPlace(b: seq<byte>, s: seq<int>, o: int, p: int)
    requires |b| > 0 && SortedRotations(b, s) && 0 <= o < |b| && 0 <= p < |b| && s[o] == s[p] == 0
    ensures o == p == StartOf(b, s)
  {
  }

  method TheBlock() returns (block: array<byte>, inUse: array<bool>)
    ensures fresh(block) && fresh(inUse) && block.Length == N && block[..] == block[..N] == Twice()
    ensures inUse.Length == 256 && forall c :: 0 <= c < 256 ==> inUse[c] == (c in Twice())
  {
    block := new byte[N](i => if i == 0 || i == 5001 then 0 else 251);
    inUse := new bool[256](c => c == 0 || c == 251);
    assert Twice()[0] == 0 && Twice()[1] == 251;
  }
}

/**
 The fallback block sort: prefix doubling with a bitmap of bucket headers.
 */
module FallbackSort {
  import opened Rotations
  import opened Permutations
  import opened Counting
  import opened Radix
  import opened BwtSpec
  import opened RangeSort
  import opened Bitmap
  import opened FallbackQSort
  import opened Doubling
  import opened Pending
  import opened Twins

  lemma RearrangedTake(f: seq<int>, g: seq<int>, lo: int, hi: int, n: nat)
    requires Rearranged(f, g, lo, hi) && hi < n <= |f|
    ensures Rearranged(f[..n], g[..n], lo, hi)
  {
    assert f == f[..n] + f[n..];
    assert g == g[..n] + g[n..];
    assert f[n..] == g[n..];
    assert multiset(f) - multiset(f[n..]) == multiset(f[..n]);
    assert multiset(g) - multiset(g[n..]) == multiset(g[..n]);
  }

  /** Two arrays that do not share storage. */
  ghost predicate Apart(a: object, b: object) {
    a != b
  }

  // ---------------------------------------------------------------- what the sort computes

  /** The first header flags, up to the one past the block and the clear one behind it. */
  ghost function Flags(bh: seq<bv32>, n: nat): (fl: seq<bool>)
    ensures |fl| == n + 2 && forall z :: 0 <= z < n + 2 ==> fl[z] == IsSet(bh, z)
  {
    seq(n + 2, z => IsSet(bh, z))
  }

  /** The nearest header at or before place `p`. */
  function HeaderAt(fl: seq<bool>, p: nat): nat {
    if p == 0 || (p < |fl| && fl[p]) then p else HeaderAt(fl, p - 1)
  }

  /** The class number of the rotation `h` places on from each rotation. */
  ghost function Numbers(f: seq<int>, fl: seq<bool>, h: nat): seq<int> {
    if Permutation(f, |f|)
    then seq(|f|, x requires 0 <= x < |f| => HeaderAt(fl, IndexOf(f, |f|, Adv(|f|, x, h))))
    else []
  }

  /** The end of the run of flags `v` that starts at `k`. */
  function RunEnd(fl: seq<bool>, k: nat, v: bool): (e: nat)
    ensures k <= e
    decreases |fl| - k
  {
    if k < |fl| && fl[k] == v then RunEnd(fl, k + 1, v) else k
  }

  /** Headers where the class number changes inside `l..r`. */
  function Reflagged(fl: seq<bool>, g: seq<int>, e: seq<int>, l: int, r: int): (fl': seq<bool>)
    ensures |fl'| == |fl|
  {
    seq(|fl|, y requires 0 <= y < |fl| => if l < y <= r then Get(e, Get(g, y - 1)) != Get(e, Get(g, y)) else fl[y])
  }

  /** A moment of a round. */
  datatype Round = Round(f: seq<int>, flags: seq<bool>, notDone: int)

  /** The buckets behind place `r` are refined. */
  function Refined(s: Round, e: seq<int>, n: nat, r: int): (t: Round)
    requires -1 <= r
    ensures |t.f| == |s.f|
    decreases n - r
  {
    var l := RunEnd(s.flags, r + 1, true) - 1;
    var r' := RunEnd(s.flags, l + 1, false) - 1;
    if l >= n || r' >= n || r' <= r then s
    else if r' <= l then Refined(s, e, n, r')
    else
      var g := QSorted(Sorting(s.f, [Range(l, r', 0)], 0), e);
      Refined(Round(g, Reflagged(s.flags, g, e, l, r'), s.notDone + r' - l + 1), e, n, r')
  }

  /** The round with step `h`. */
  ghost function RoundDone(f: seq<int>, fl: seq<bool>, n: nat, h: nat): (t: Round)
    requires n <= |f|
    ensures |t.f| == |f|
  {
    Refined(Round(f, fl, 0), Numbers(f[..n], fl, h), n, -1)
  }

  /** The listing after the rounds with steps `h`, `2 * h`, ... */
  ghost function RoundsDone(f: seq<int>, fl: seq<bool>, n: nat, h: nat): (g: seq<int>)
    requires n <= |f|
    ensures |g| == |f|
    decreases n - h
  {
    var t := RoundDone(f, fl, n, h);
    if 2 * h > n || t.notDone == 0 || h == 0 then t.f else RoundsDone(t.f, t.flags, n, 2 * h)
  }

  /** The headers of the classes by first symbol. */
  function FirstFlags(s: seq<byte>, f: seq<int>): (fl: seq<bool>)
    ensures |fl| == |s| + 2
  {
    seq(|s| + 2, y => y == 0 || y == |s| || (0 < y < |s| && Get(s, Get(f, y - 1)) != Get(s, Get(f, y))))
  }

  /** The listing that the fallback sort makes of the block `s`; what lies behind it stays. */
  ghost function Fallen(s: seq<byte>, rest: seq<int>): (g: seq<int>)
    ensures |g| == |s| + |rest|
  {
    var f := Listing(DownSlots(s));
    RoundsDone(f + rest, FirstFlags(s, f), |s|, 1)
  }

  lemma {:induction false} HeaderIs(bh: seq<bv32>, n: nat, p: nat)
    requires p < n
    ensures HeaderAt(Flags(bh, n), p) == LastHeader(bh, p)
  {
    hide IsSet;
    if p > 0 { HeaderIs(bh, n, p - 1); }
  }

  /** Scanning whole words at a time ends where the run ends. */
  lemma {:induction false} RunIs(bh: seq<bv32>, n: nat, k: nat, e: nat, v: bool)
    requires RunEndsAt(bh, k, e, v) && e < n + 2
    ensures RunEnd(Flags(bh, n), k, v) == e
    decreases e - k
  {
    hide IsSet;
    if k < e {
      assert IsSet(bh, k) == v;
      RunIs(bh, n, k + 1, e, v);
    }
  }

  lemma NumbersIs(f: seq<int>, fl: seq<bool>, h: nat, e: seq<int>)
    requires Permutation(f, |f|) && h <= |f| == |e|
    requires forall p :: 0 <= p < |f| ==> 0 <= Back(|f|, f[p], h) < |f| && e[Back(|f|, f[p], h)] == HeaderAt(fl, p)
    ensures e == Numbers(f, fl, h)
  {
    forall x | 0 <= x < |f| ensures e[x] == Numbers(f, fl, h)[x] {
      BackAdv(|f|, x, h);
      var p := IndexOf(f, |f|, Adv(|f|, x, h));
      assert Back(|f|, f[p], h) == x;
    }
  }

  lemma ReflaggedIs(bh: seq<bv32>, bh': seq<bv32>, n: nat, g: seq<int>, e: seq<int>, l: int, r: int)
    requires 0 <= l && r < |g| && forall k :: l <= k <= r ==> 0 <= g[k] < |e|
    requires Reheaded(bh, bh', g, e, l, r)
    ensures Flags(bh', n) == Reflagged(Flags(bh, n), g, e, l, r)
  {
    hide IsSet;
  }

  lemma FirstFlagsIs(s: seq<byte>, f: seq<int>, bh: seq<bv32>)
    requires |s| > 0 && Classes(s, f, bh, 1) && Sentinels(bh, |s|)
    ensures Flags(bh, |s|) == FirstFlags(s, f)
  {
    hide IsSet;
    forall y | 0 <= y < |s| + 2 ensures IsSet(bh, y) == FirstFlags(s, f)[y] {
      if 0 < y < |s| { assert Cmp(s, Next(|s|, f[y - 1]), Next(|s|, f[y]), 0) == 0; }
    }
  }

  // ---------------------------------------------------------------- first pass

  /** Distributes all positions over the buckets of their first symbol. */
  method RadixPass(fmap: array<int>, s: seq<byte>, ftab: array<int>)
    requires fmap.Length >= |s| && ftab.Length == 257 && fmap != ftab
    requires forall c :: 0 <= c < 256 ==> ftab[c] == CountBelow(s, c + 1)
    modifies fmap, ftab
    ensures Bucketed(fmap[..|s|], s) && fmap[..|s|] == Listing(DownSlots(s)) && fmap[|s|..] == old(fmap[|s|..])
    ensures forall c :: 0 <= c < 256 ==> ftab[c] == CountBelow(s, c)
  {
    assert s[..0] == [];
    ghost var n := |s|;
    for i := 0 to |s|
      invariant forall c :: 0 <= c < 256 ==> ftab[c] == CountBelow(s, c + 1) - Count(s[..i], c)
      invariant forall k :: 0 <= k < i ==> 0 <= DownSlot(s, k) < n && fmap[DownSlot(s, k)] == k
      invariant fmap[n..] == old(fmap[n..])
    {
      var j := s[i];
      var k := ftab[j] - 1;
      DownSlotInBucket(s, i);
      assert k == DownSlot(s, i);
      forall k' | 0 <= k' < i ensures DownSlot(s, k') != DownSlot(s, i) { DownSlotDistinct(s, k', i); }
      ftab[j] := k;
      fmap[k] := i;
      forall c | 0 <= c < 256 ensures Count(s[..i + 1], c) == Count(s[..i], c) + if s[i] == c then 1 else 0 {
        CountPrefixStep(s, i, c);
      }
    }
    assert s[..|s|] == s;
    DownSlotsMakeBuckets(fmap[..|s|], s);
  }

  /** Headers at the bucket starts, and the marks past the end that stop the scans. */
  method InitHeaders(bhtab: array<bv32>, ftab: array<int>, nblock: int, ghost s: seq<byte>, ghost f: seq<int>)
    requires 0 < nblock == |s| <= 900000 && bhtab.Length == 65537 && ftab.Length == 257 && Apart(bhtab, ftab)
    requires Bucketed(f, s)
    requires forall c :: 0 <= c < 256 ==> ftab[c] == CountBelow(s, c)
    modifies bhtab
    ensures Classes(s, f, bhtab[..], 1) && Sentinels(bhtab[..], nblock)
  {
    hide IsSet, CountBelow;
    var nBhtab := 2 + nblock / 32;
    for i := 0 to nBhtab
      invariant forall y :: 0 <= y < i ==> bhtab[y] == 0
    {
      bhtab[i] := 0;
    }
    NoHeaders(bhtab[..], 32 * nBhtab);
    for i := 0 to 256
      invariant forall y :: 0 <= y < 32 * nBhtab ==> IsSet(bhtab[..], y) == (exists c :: 0 <= c < i && ftab[c] == y)
    {
      CountBelowAtMost(s, i);
      ghost var before := bhtab[..];
      SetBh(bhtab, ftab[i]);
    }
    ghost var marked := bhtab[..];
    for i := 0 to 32
      invariant forall y :: 0 <= y < nblock ==> IsSet(bhtab[..], y) == IsSet(marked, y)
      invariant i > 0 ==> IsSet(bhtab[..], nblock) && !IsSet(bhtab[..], nblock + 1)
    {
      SetBh(bhtab, nblock + 2 * i);
      ClearBh(bhtab, nblock + 2 * i + 1);
    }
    assert CountBelow(s, 0) == 0 by { CountBelowZero(s); }
    assert ftab[0] == 0;
    assert IsSet(marked, 0);
    forall p | 0 < p < nblock ensures IsSet(marked, p) == (s[f[p - 1]] != s[f[p]]) {
      BucketStarts(f, s, p, 256);
      StartsAreMarked(s, ftab[..], marked, p);
    }
    FirstClasses(s, f, bhtab[..]);
  }

  lemma StartsAreMarked(s: seq<nat>, ft: seq<int>, bh: seq<bv32>, p: int)
    requires |ft| == 257 && forall c :: 0 <= c < 256 ==> ft[c] == CountBelow(s, c)
    requires IsSet(bh, p) == (exists c :: 0 <= c < 256 && ft[c] == p)
    ensures IsSet(bh, p) == (exists c: nat :: c < 256 && CountBelow(s, c) == p)
  {
    hide IsSet, CountBelow;
    if IsSet(bh, p) {
      var c :| 0 <= c < 256 && ft[c] == p;
      assert CountBelow(s, c) == p;
    }
    if c: nat :| c < 256 && CountBelow(s, c) == p {
      assert ft[c] == p;
    }
  }

  lemma CountBelowZero(s: seq<nat>)
    ensures CountBelow(s, 0) == 0
  {
  }

  lemma NoHeaders(bh: seq<bv32>, z: int)
    requires 0 <= z <= 32 * |bh| && forall y :: 0 <= y < |bh| && 32 * y < z ==> bh[y] == 0
    ensures forall y :: 0 <= y < z ==> !IsSet(bh, y)
  {
    forall y | 0 <= y < z ensures !IsSet(bh, y) { EmptyWord(bh[y / 32], y % 32); }
  }

  /** Buckets by first symbol are the classes of the first round. */
  lemma {:induction false} FirstClasses(s: seq<byte>, f: seq<int>, bh: seq<bv32>)
    requires Bucketed(f, s) && IsSet(bh, 0)
    requires forall p :: 0 < p < |s| ==> IsSet(bh, p) == (s[f[p - 1]] != s[f[p]])
    ensures Classes(s, f, bh, 1)
  {
    forall p, q | 0 <= p < q < |s| ensures Cmp(s, f[p], f[q], 1) <= 0 {
      BucketedAscending(f, s, p, q);
      assert Cmp(s, Next(|s|, f[p]), Next(|s|, f[q]), 0) == 0;
    }
    forall p | 0 < p < |s| ensures IsSet(bh, p) == (Cmp(s, f[p - 1], f[p], 1) != 0) {
      assert Cmp(s, Next(|s|, f[p - 1]), Next(|s|, f[p]), 0) == 0;
    }
  }

  // ---------------------------------------------------------------- one round

  /** Numbers the class of the rotation `h` places on from each rotation. */
  method AssignClasses(fmap: array<int>, eclass: array<int>, bhtab: array<bv32>, nblock: int, h: int,
    ghost s: seq<byte>)
    requires 0 < nblock == |s| <= fmap.Length && nblock <= eclass.Length && fmap != eclass
    requires 1 <= h <= nblock && nblock <= 32 * bhtab.Length && Apart(bhtab, eclass)
    requires Classes(s, fmap[..nblock], bhtab[..], h)
    modifies eclass
    ensures ClassNumbers(s, eclass[..nblock], h)
    ensures eclass[..nblock] == Numbers(fmap[..nblock], Flags(bhtab[..], nblock), h)
  {
    hide IsSet, Classes, ClassNumbers, Numbers, Flags;
    ghost var f, bh := fmap[..nblock], bhtab[..];
    var j := 0;
    for i := 0 to nblock
      invariant forall y :: 0 <= y < bhtab.Length ==> bhtab[y] == bh[y]
      invariant forall y :: 0 <= y < nblock ==> fmap[y] == f[y]
      invariant 0 <= j && (i > 0 ==> j == LastHeader(bh, i - 1)) && (i == 0 ==> j == 0)
      invariant forall p :: 0 <= p < i ==>
        0 <= Back(nblock, f[p], h) < nblock && eclass[Back(nblock, f[p], h)] == LastHeader(bh, p)
    {
      assert bhtab[..] == bh;
      var header := TestBh(bhtab, i);
      if header { j := i; }
      var k := fmap[i] - h;
      if k < 0 { k := k + nblock; }
      assert k == Back(nblock, f[i], h) && j == LastHeader(bh, i);
      BackDistinct(s, f, bh, h, i);
      eclass[k] := j;
    }
    assert bhtab[..] == bh && fmap[..nblock] == f;
    ClassesNumbered(s, f, bh, eclass[..nblock], h);
  }

  /** Different places have different rotations `h` places back. */
  lemma BackDistinct(s: seq<byte>, f: seq<int>, bh: seq<bv32>, h: nat, i: int)
    requires Classes(s, f, bh, h) && h <= |s| && 0 <= i < |s|
    ensures |f| == |s| && 0 <= Back(|s|, f[i], h) < |s|
    ensures forall p :: 0 <= p < i ==> Back(|s|, f[p], h) != Back(|s|, f[i], h)
  {
    hide IsSet, Cmp;
    BackAdv(|s|, f[i], h);
    forall p | 0 <= p < i ensures Back(|s|, f[p], h) != Back(|s|, f[i], h) { BackAdv(|s|, f[p], h); }
  }

  lemma ClassesNumbered(s: seq<byte>, f: seq<int>, bh: seq<bv32>, e: seq<int>, h: nat)
    requires 1 <= h <= |s| == |e| && Classes(s, f, bh, h)
    requires forall p :: 0 <= p < |s| ==> 0 <= Back(|s|, f[p], h) < |s| && e[Back(|s|, f[p], h)] == LastHeader(bh, p)
    ensures ClassNumbers(s, e, h) && e == Numbers(f, Flags(bh, |s|), h)
  {
    hide IsSet, Cmp, LastHeader, ClassNumbers, Back, Numbers, Flags, HeaderAt;
    var n := |s|;
    assert |f| == n && Permutation(f, n);
    ClassNumbersFrom(s, f, bh, e, h);
    forall p | 0 <= p < n ensures HeaderAt(Flags(bh, n), p) == LastHeader(bh, p) { HeaderIs(bh, n, p); }
    NumbersIs(f, Flags(bh, n), h, e);
  }

  /** Headers wherever the class number changes inside a sorted bucket. */
  method MarkChanges(fmap: array<int>, eclass: seq<int>, bhtab: array<bv32>, l: int, r: int)
    requires 0 <= l < r < fmap.Length && r < 32 * bhtab.Length && Apart(bhtab, fmap)
    requires forall k :: l <= k <= r ==> 0 <= fmap[k] < |eclass|
    requires Bucket(bhtab[..], l, r)
    modifies bhtab
    ensures Reheaded(old(bhtab[..]), bhtab[..], fmap[..], eclass, l, r)
  {
    hide IsSet;
    ghost var bh := bhtab[..];
    var cc := -1;
    for i := l to r + 1
      invariant i > l ==> cc == eclass[fmap[i - 1]]
      invariant forall y :: !(l < y < i) ==> IsSet(bhtab[..], y) == IsSet(bh, y)
      invariant forall y :: l < y < i ==> IsSet(bhtab[..], y) == (eclass[fmap[y - 1]] != eclass[fmap[y]])
    {
      var cc1 := eclass[fmap[i]];
      if cc != cc1 {
        SetBh(bhtab, i);
        cc := cc1;
      }
    }
  }

  /** Sorts one bucket by class number and puts headers where the number changes. */
  method RefineBucket(fmap: array<int>, eclass: seq<int>, bhtab: array<bv32>, nblock: int, l: int, r: int,
    ghost h: nat, ghost s: seq<byte>)
    requires 0 < nblock == |s| <= fmap.Length && nblock <= 900000 && Apart(bhtab, fmap)
    requires Refining(s, fmap[..nblock], bhtab[..], h, l - 1) && Sentinels(bhtab[..], nblock)
    requires Bucket(bhtab[..], l, r) && l < r < nblock && ClassNumbers(s, eclass, h)
    modifies fmap, bhtab
    ensures Refining(s, fmap[..nblock], bhtab[..], h, r) && Sentinels(bhtab[..], nblock)
    ensures forall y :: y > r ==> IsSet(bhtab[..], y) == old(IsSet(bhtab[..], y))
    ensures fmap[..] == QSorted(Sorting(old(fmap[..]), [Range(l, r, 0)], 0), eclass)
    ensures Flags(bhtab[..], nblock) == Reflagged(old(Flags(bhtab[..], nblock)), fmap[..], eclass, l, r)
    ensures TwinsStay(s, old(fmap[..nblock]), old(bhtab[..]), fmap[..nblock], bhtab[..])
  {
    hide IsSet, QSorted, Refining, Sentinels, Bucket, ClassNumbers, Reheaded, SortedByKey, Rearranged, TwinsStay;
    ghost var f, bh, whole := fmap[..nblock], bhtab[..], fmap[..];
    BucketKeys(s, f, bh, eclass, h, l, r);
    FallbackQSort3(fmap, eclass, l, r);
    MarkChanges(fmap, eclass, bhtab, l, r);
    ReflaggedIs(bh, bhtab[..], nblock, fmap[..], eclass, l, r);
    ReheadedAbove(bh, bhtab[..], fmap[..], eclass, l, r);
    BucketStep(s, whole, fmap[..], bh, bhtab[..], eclass, h, l, r);
    TwinsStep(s, whole, fmap[..], bh, bhtab[..], eclass, h, l, r);
  }

  lemma TwinsStep(s: seq<byte>, f: seq<int>, g: seq<int>, bh: seq<bv32>, bh': seq<bv32>, e: seq<int>, h: nat, l: int,
    r: int)
    requires 0 < |s| <= |f| == |g| && 0 <= l < r < |s| && Bucket(bh, l, r) && ClassNumbers(s, e, h)
    requires Rearranged(f, g, l, r) && g == QSorted(Sorting(f, [Range(l, r, 0)], 0), e)
    requires forall k :: l <= k <= r ==> 0 <= g[k] < |e|
    requires Reheaded(bh, bh', g, e, l, r)
    ensures TwinsStay(s, f[..|s|], bh, g[..|s|], bh')
  {
    hide IsSet, Cmp, Rearranged, ClassNumbers, QSorted, Bucket, TwinsStay;
    var n := |s|;
    RearrangedTake(f, g, l, r, n);
    if r == l + 1 && TwinsAt(s, f[..n], bh, r) {
      EqualNumbers(s, e, h, f[l], f[r]);
      NumbersSize(s, e, h);
      TwoStay(f, e, l);
    }
    assert forall k :: l <= k <= r ==> g[..n][k] == g[k];
    BucketTwins(s, f[..n], g[..n], bh, bh', e, h, l, r);
  }

  lemma NumbersSize(s: seq<byte>, e: seq<int>, h: nat)
    requires ClassNumbers(s, e, h)
    ensures |e| == |s|
  {
  }

  lemma BucketKeys(s: seq<byte>, f: seq<int>, bh: seq<bv32>, e: seq<int>, h: nat, l: int, r: int)
    requires Refining(s, f, bh, h, l - 1) && Sentinels(bh, |s|) && Bucket(bh, l, r) && r < |s| && ClassNumbers(s, e, h)
    ensures 0 <= l && r < 32 * |bh| && |f| == |e| == |s| && forall k :: l <= k <= r ==> 0 <= f[k] < |e|
  {
  }

  lemma ReheadedAbove(bh: seq<bv32>, bh': seq<bv32>, g: seq<int>, e: seq<int>, l: int, r: int)
    requires 0 <= l && r < |g| && forall k :: l <= k <= r ==> 0 <= g[k] < |e|
    requires Reheaded(bh, bh', g, e, l, r)
    ensures forall y :: y > r ==> IsSet(bh', y) == IsSet(bh, y)
  {
    hide IsSet;
  }

  lemma BucketStep(s: seq<byte>, f: seq<int>, g: seq<int>, bh: seq<bv32>, bh': seq<bv32>, e: seq<int>, h: nat,
    l: int, r: int)
    requires 0 < |s| <= |f| == |g| && l < r < |s|
    requires Refining(s, f[..|s|], bh, h, l - 1) && Sentinels(bh, |s|) && Bucket(bh, l, r) && ClassNumbers(s, e, h)
    requires Rearranged(f, g, l, r) && SortedByKey(g, e, l, r)
    requires forall k :: l <= k <= r ==> 0 <= g[k] < |e|
    requires Reheaded(bh, bh', g, e, l, r) && |bh'| == |bh|
    ensures Refining(s, g[..|s|], bh', h, r) && Sentinels(bh', |s|)
  {
    hide IsSet, Cmp, Rearranged;
    var n := |s|;
    RearrangedTake(f, g, l, r, n);
    RearrangedPermutation(f[..n], g[..n], l, r, n);
    assert |g| >= n && forall k :: l <= k <= r ==> g[..n][k] == g[k];
    BucketRefined(s, f[..n], g[..n], bh, bh', e, h, l, r);
  }

  /** One round: every bucket of more than one rotation is refined; `notDone` is zero only if
      there was none. */
  method RefineRound(fmap: array<int>, eclass: seq<int>, bhtab: array<bv32>, nblock: int, ghost h: nat,
    ghost s: seq<byte>)
    returns (notDone: int)
    requires 0 < nblock == |s| <= fmap.Length && nblock <= 900000 && Apart(bhtab, fmap)
    requires Classes(s, fmap[..nblock], bhtab[..], h) && Sentinels(bhtab[..], nblock)
    requires ClassNumbers(s, eclass, h)
    modifies fmap, bhtab
    ensures Classes(s, fmap[..nblock], bhtab[..], 2 * h) && Sentinels(bhtab[..], nblock)
    ensures notDone >= 0
    ensures notDone == 0 ==> forall p :: 0 < p < nblock ==> IsSet(bhtab[..], p)
    ensures Round(fmap[..], Flags(bhtab[..], nblock), notDone) ==
            Refined(Round(old(fmap[..]), old(Flags(bhtab[..], nblock)), 0), eclass, nblock, -1)
    ensures TwinsStay(s, old(fmap[..nblock]), old(bhtab[..]), fmap[..nblock], bhtab[..])
  {
    hide IsSet, Refining, Classes, ClassNumbers, Refined, Flags, RunEnd, QSorted, Reflagged, TwinsStay;
    ghost var f0, bh0 := fmap[..nblock], bhtab[..];
    TwinsRefl(s, f0, bh0);
    ghost var t := Refined(Round(fmap[..], Flags(bhtab[..], nblock), 0), eclass, nblock, -1);
    RoundStarts(s, fmap[..nblock], bhtab[..], h);
    notDone := 0;
    var r := -1;
    while true
      invariant -1 <= r < nblock && notDone >= 0
      invariant Refining(s, fmap[..nblock], bhtab[..], h, r) && Sentinels(bhtab[..], nblock)
      invariant IsSet(bhtab[..], r + 1)
      invariant notDone == 0 ==> forall p :: 0 < p <= r ==> IsSet(bhtab[..], p)
      invariant Refined(Round(fmap[..], Flags(bhtab[..], nblock), notDone), eclass, nblock, r) == t
      invariant TwinsStay(s, f0, bh0, fmap[..nblock], bhtab[..])
      decreases nblock - r
    {
      ghost var bh, f := bhtab[..], fmap[..nblock];
      RefinedStep(Round(fmap[..], Flags(bh, nblock), notDone), eclass, nblock, r);
      // the next bucket of more than one rotation
      var k := ScanRun(bhtab, r + 1, true, nblock + 1);
      var l := k - 1;
      RunIs(bh, nblock, r + 1, k, true);
      if l >= nblock {
        SkipSingles(s, f, bh, h, r, nblock - 1);
        break;
      }
      k := ScanRun(bhtab, k, false, nblock);
      RunIs(bh, nblock, l + 1, k, false);
      SkipTo(s, f, bh, h, r, l);
      r := k - 1;
      if r >= nblock { break; }
      if r > l {
        notDone := notDone + (r - l + 1);
        RefineBucket(fmap, eclass, bhtab, nblock, l, r, h, s);
        TwinsTrans(s, f0, bh0, f, bh, fmap[..nblock], bhtab[..]);
      }
    }
    RoundEnds(s, fmap[..nblock], bhtab[..], h);
  }

  lemma RefinedStep(s: Round, e: seq<int>, n: nat, r: int)
    requires -1 <= r
    ensures var l := RunEnd(s.flags, r + 1, true) - 1;
      var r' := RunEnd(s.flags, l + 1, false) - 1;
      var t := Refined(s, e, n, r);
      if l >= n || r' >= n || r' <= r then t == s
      else if r' <= l then t == Refined(s, e, n, r')
      else
        var g := QSorted(Sorting(s.f, [Range(l, r', 0)], 0), e);
        t == Refined(Round(g, Reflagged(s.flags, g, e, l, r'), s.notDone + r' - l + 1), e, n, r')
  {
    hide RunEnd, QSorted, Reflagged;
  }

  lemma SkipTo(s: seq<byte>, f: seq<int>, bh: seq<bv32>, h: nat, r: int, l: int)
    requires Refining(s, f, bh, h, r) && -1 <= r < l < |s|
    requires forall y :: r < y <= l ==> IsSet(bh, y)
    ensures Refining(s, f, bh, h, l - 1)
  {
    SkipSingles(s, f, bh, h, r, l - 1);
  }

  // ---------------------------------------------------------------- the block again

  /** In a listing ordered by rotation, place `p` holds a rotation starting with `c` exactly
      when `p` lies between the counts for `c`. */
  lemma {:induction false} FirstColumnPlaces(s: seq<byte>, f: seq<int>, c: nat, p: int)
    requires SortedRotations(s, f) && 0 <= p < |s|
    ensures s[f[p]] == c <==> CountBelow(s, c) <= p < CountBelow(s, c + 1)
  {
    var heads := Reorder(s, f);
    forall i, j | 0 <= i < j < |heads| ensures heads[i] <= heads[j] {
      assert RotLe(s, f[i], f[j]);
      CmpEarly(s, f[i], f[j], 1, |s|);
    }
    AscendingPlaces(heads, c, p);
    CountBelowReorder(s, f, c);
    CountBelowReorder(s, f, c + 1);
  }

  /** The storage of the block was overwritten by class numbers; the sorted listing and the
      symbol counts suffice to restore it. */
  method ReconstructBlock(fmap: array<int>, block: array<byte>, ftabCopy: array<int>, nblock: int, ghost s: seq<byte>)
    requires 0 < nblock == |s| <= fmap.Length && nblock <= block.Length && ftabCopy.Length == 256 && ftabCopy != fmap
    requires Apart(block, fmap) && Apart(block, ftabCopy)
    requires SortedRotations(s, fmap[..nblock])
    requires forall c :: 0 <= c < 256 ==> ftabCopy[c] == Count(s, c)
    modifies block, ftabCopy
    ensures block[..nblock] == s
  {
    hide Cmp, Count;
    ghost var f := fmap[..nblock];
    var j := 0;
    CountBelowAll(s, 256);
    CountBelowZero(s);
    for i := 0 to nblock
      invariant 0 <= j < 256 && CountBelow(s, j) <= i <= CountBelow(s, j + 1)
      invariant ftabCopy[j] == CountBelow(s, j + 1) - i
      invariant forall c :: j < c < 256 ==> ftabCopy[c] == Count(s, c)
      invariant fmap[..nblock] == f
      invariant forall p :: 0 <= p < i ==> block[f[p]] == s[f[p]]
    {
      while ftabCopy[j] == 0
        invariant 0 <= j < 256 && CountBelow(s, j) <= i <= CountBelow(s, j + 1)
        invariant ftabCopy[j] == CountBelow(s, j + 1) - i
        invariant forall c :: j < c < 256 ==> ftabCopy[c] == Count(s, c)
        decreases 256 - j
      {
        assert j + 1 < 256;
        j := j + 1;
      }
      ftabCopy[j] := ftabCopy[j] - 1;
      FirstColumnPlaces(s, f, j, i);
      block[fmap[i]] := j;
    }
    assert j < 256; // 1005
    forall x | 0 <= x < nblock ensures block[x] == s[x] {
      var p := IndexOf(f, nblock, x);
    }
  }

  /** Counting, the one-symbol radix pass, and the first headers. */
  method FirstPass(fmap: array<int>, eclass8: seq<byte>, bhtab: array<bv32>, nblock: int, ftabCopy: array<int>)
    requires 0 < nblock == |eclass8| <= 900000 && nblock <= fmap.Length
    requires bhtab.Length == 65537 && Apart(bhtab, fmap) && ftabCopy.Length == 256 && ftabCopy != fmap
      && Apart(bhtab, ftabCopy)
    modifies fmap, bhtab, ftabCopy
    ensures Classes(eclass8, fmap[..nblock], bhtab[..], 1) && Sentinels(bhtab[..], nblock)
    ensures forall c :: 0 <= c < 256 ==> ftabCopy[c] == Count(eclass8, c)
    ensures fmap[..nblock] == Listing(DownSlots(eclass8)) && fmap[nblock..] == old(fmap[nblock..])
  {
    hide Classes, Sentinels, Bucketed, Count, CountBelow, Listing, DownSlots;
    var ftab := new int[257];
    CountKeys(eclass8, ftab, 256);
    for i := 0 to 256
      invariant forall c :: 0 <= c < i ==> ftabCopy[c] == Count(eclass8, c)
      modifies ftabCopy
    {
      ftabCopy[i] := ftab[i];
    }
    Accumulate(eclass8, ftab, 256);
    RadixPass(fmap, eclass8, ftab);
    InitHeaders(bhtab, ftab, nblock, eclass8, fmap[..nblock]);
  }

  /** One round: class numbers, stored over the block, and then all buckets. */
  method DoRound(fmap: array<int>, eclass: array<int>, block: array<byte>, bhtab: array<bv32>, nblock: int, H: nat,
    ghost s: seq<byte>)
    returns (nNotDone: int)
    requires 0 < nblock == |s| <= 900000 && nblock <= fmap.Length && nblock <= eclass.Length && nblock <= block.Length
    requires bhtab.Length == 65537 && fmap != eclass && Apart(block, fmap) && Apart(block, eclass)
    requires Apart(bhtab, fmap) && Apart(bhtab, eclass) && Apart(bhtab, block) && 1 <= H <= nblock
    requires Classes(s, fmap[..nblock], bhtab[..], H) && Sentinels(bhtab[..], nblock)
    modifies fmap, eclass, block, bhtab
    ensures Classes(s, fmap[..nblock], bhtab[..], 2 * H) && Sentinels(bhtab[..], nblock)
    ensures nNotDone >= 0 && (nNotDone == 0 ==> forall p :: 0 < p < nblock ==> IsSet(bhtab[..], p))
    ensures Round(fmap[..], Flags(bhtab[..], nblock), nNotDone) ==
      RoundDone(old(fmap[..]), old(Flags(bhtab[..], nblock)), nblock, H)
    ensures TwinsStay(s, old(fmap[..nblock]), old(bhtab[..]), fmap[..nblock], bhtab[..])
  {
    hide Classes, Sentinels, ClassNumbers, IsSet, Cmp, Numbers, Refined, Flags, TwinsStay;
    SentinelsRoom(bhtab[..], nblock);
    ghost var f, bh, whole := fmap[..nblock], bhtab[..], fmap[..];
    modify block;
    assert fmap[..] == whole && bhtab[..] == bh;
    AssignClasses(fmap, eclass, bhtab, nblock, H, s);
    assert fmap[..] == whole && bhtab[..] == bh && whole[..nblock] == f;
    nNotDone := RefineRound(fmap, eclass[..nblock], bhtab, nblock, H, s);
  }

  /** Rounds with steps 1, 2, 4, ... until the classes are single or the step exceeds the block. */
  method Double(fmap: array<int>, eclass: array<int>, block: array<byte>, bhtab: array<bv32>, nblock: int,
    ghost s: seq<byte>)
    requires 0 < nblock == |s| <= 900000 && nblock <= fmap.Length && nblock <= eclass.Length && nblock <= block.Length
    requires bhtab.Length == 65537 && fmap != eclass && Apart(block, fmap) && Apart(block, eclass)
    requires Apart(bhtab, fmap) && Apart(bhtab, eclass) && Apart(bhtab, block)
    requires Classes(s, fmap[..nblock], bhtab[..], 1) && Sentinels(bhtab[..], nblock)
    modifies fmap, eclass, block, bhtab
    ensures SortedRotations(s, fmap[..nblock])
    ensures fmap[..] == RoundsDone(old(fmap[..]), old(Flags(bhtab[..], nblock)), nblock, 1)
    ensures TwinsStay(s, old(fmap[..nblock]), old(bhtab[..]), fmap[..nblock], bhtab[..])
  {
    hide Classes, Sentinels, ClassNumbers, IsSet, Cmp, RoundDone, RoundsDone, Flags, TwinsStay;
    ghost var f0, bh0 := fmap[..nblock], bhtab[..];
    TwinsRefl(s, f0, bh0);
    ghost var g := RoundsDone(fmap[..], Flags(bhtab[..], nblock), nblock, 1);
    var H := 1;
    while true
      invariant 1 <= H <= nblock
      invariant Classes(s, fmap[..nblock], bhtab[..], H) && Sentinels(bhtab[..], nblock)
      invariant RoundsDone(fmap[..], Flags(bhtab[..], nblock), nblock, H) == g
      invariant TwinsStay(s, f0, bh0, fmap[..nblock], bhtab[..])
      decreases nblock - H
    {
      ghost var f, bh := fmap[..nblock], bhtab[..];
      RoundsStep(fmap[..], Flags(bhtab[..], nblock), nblock, H);
      var nNotDone := DoRound(fmap, eclass, block, bhtab, nblock, H, s);
      TwinsTrans(s, f0, bh0, f, bh, fmap[..nblock], bhtab[..]);
      H := H * 2;
      if H > nblock || nNotDone == 0 { break; }
    }
    ClassesSorted(s, fmap[..nblock], bhtab[..], H);
  }

  lemma RoundsStep(f: seq<int>, fl: seq<bool>, n: nat, h: nat)
    requires n <= |f| && h > 0
    ensures var t := RoundDone(f, fl, n, h);
      RoundsDone(f, fl, n, h) == if 2 * h > n || t.notDone == 0 then t.f else RoundsDone(t.f, t.flags, n, 2 * h)
  {
    hide RoundDone;
  }

  lemma SentinelsRoom(bh: seq<bv32>, n: nat)
    requires Sentinels(bh, n)
    ensures n < 32 * |bh|
  {
  }

  lemma ClassesSorted(s: seq<byte>, f: seq<int>, bh: seq<bv32>, h: nat)
    requires |s| > 0 && Classes(s, f, bh, h)
    requires h > |s| || forall p :: 0 < p < |s| ==> IsSet(bh, p)
    ensures SortedRotations(s, f)
  {
    OrderedEnough(s, f, bh, h);
  }

  /** Under the first headers, places `p - 1` and `p` are a bucket, and hold equal rotations. */
  ghost predicate FirstTwins(s: seq<byte>, p: int) {
    var f := Listing(DownSlots(s));
    && 0 < p < |s| == |f| && FirstFlags(s, f)[p - 1] && FirstFlags(s, f)[p + 1]
    && 0 <= f[p - 1] < |s| && 0 <= f[p] < |s| && Cmp(s, f[p - 1], f[p], |s|) == 0
  }

  /** Two equal rotations that are alone with their first symbol stay as the first pass lists
      them, the later one first. */
  ghost predicate FirstTwinsStay(s: seq<byte>, g: seq<int>) {
    && |g| == |s| == |Listing(DownSlots(s))|
    && forall p :: FirstTwins(s, p) ==> g[p - 1] == Listing(DownSlots(s))[p - 1] && g[p] == Listing(DownSlots(s))[p]
  }

  lemma TwinsFromFirst(s: seq<byte>, bh: seq<bv32>, g: seq<int>, bh': seq<bv32>)
    requires Flags(bh, |s|) == FirstFlags(s, Listing(DownSlots(s))) && TwinsStay(s, Listing(DownSlots(s)), bh, g, bh')
    requires |g| == |s| == |Listing(DownSlots(s))|
    ensures FirstTwinsStay(s, g)
  {
    hide IsSet, Cmp, Listing, DownSlots, FirstFlags;
    var f := Listing(DownSlots(s));
    forall p | FirstTwins(s, p) ensures g[p - 1] == f[p - 1] && g[p] == f[p] {
      assert Flags(bh, |s|)[p - 1] == IsSet(bh, p - 1) && Flags(bh, |s|)[p + 1] == IsSet(bh, p + 1);
      assert TwinsAt(s, f, bh, p);
    }
  }

  /** The fallback sort lists the rotations of any block in sorted order and leaves the block
      as it was, although its storage is shared with the class numbers.  The listing is a
      function of the block. */
  method Sort(fmap: array<int>, eclass: array<int>, block: array<byte>, bhtab: array<bv32>, nblock: int)
    requires 0 < nblock <= 900000 && nblock <= fmap.Length && nblock <= eclass.Length && nblock <= block.Length
    requires bhtab.Length == 65537 && fmap != eclass && Apart(block, fmap) && Apart(block, eclass)
    requires Apart(bhtab, fmap) && Apart(bhtab, eclass) && Apart(bhtab, block)
    modifies fmap, eclass, block, bhtab
    ensures block[..nblock] == old(block[..nblock])
    ensures SortedRotations(block[..nblock], fmap[..nblock])
    ensures fmap[..] == Fallen(block[..nblock], old(fmap[nblock..]))
    ensures FirstTwinsStay(block[..nblock], fmap[..nblock])
  {
    hide Classes, Sentinels, SortedRotations, RoundsDone, Listing, DownSlots, FirstFlags, Flags, TwinsStay,
      FirstTwinsStay;
    ghost var s := block[..nblock];
    var ftabCopy := new int[256];
    FirstPass(fmap, block[..nblock], bhtab, nblock, ftabCopy);
    FirstFlagsIs(s, fmap[..nblock], bhtab[..]);
    assert fmap[..] == fmap[..nblock] + fmap[nblock..];
    ghost var bh := bhtab[..];
    Double(fmap, eclass, block, bhtab, nblock, s);
    TwinsFromFirst(s, bh, fmap[..nblock], bhtab[..]);
    ReconstructBlock(fmap, block, ftabCopy, nblock, s);
  }
}

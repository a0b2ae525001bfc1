/**
 The first pass of the main block sort: rotations are distributed over small buckets
 by their first two symbols.
 */
module MainRadix {
  import opened Rotations
  import opened Permutations
  import opened Counting
  import opened BwtSpec
  import opened Radix
  import opened MainOrder

  /** `x` as the upper byte and `y` as the lower. */
  function Pair(x: int, y: int): int {
    x * 256 + y
  }

  /** The first two symbols of each rotation, as one number. */
  function Pairs(b: seq<byte>): (s: seq<nat>)
    ensures |s| == |b|
    ensures forall i :: 0 <= i < |b| ==> s[i] == Pair(b[i], b[Next(|b|, i)])
  {
    seq(|b|, i requires 0 <= i < |b| => Pair(b[i], b[Next(|b|, i)]))
  }

  lemma PairsBelow(b: seq<byte>, i: int)
    requires 0 <= i < |b|
    ensures Pairs(b)[i] < 65536 && Pairs(b)[i] / 256 == b[i] && Pairs(b)[i] % 256 == b[Next(|b|, i)]
  {
  }

  /** Moving one place to the front, the pair's first symbol becomes its second. */
  lemma Roll(b: seq<byte>, i: int, j: nat)
    requires 0 <= i < |b| && j / 256 == b[Next(|b|, i)]
    ensures Pair(b[i], j / 256) == Pairs(b)[i] < 65536 && Pairs(b)[i] / 256 == b[i]
  {
    PairsBelow(b, i);
  }

  /** Quadrants before anything is known. */
  function Cleared(n: nat): seq<int> {
    seq(n + OVERSHOOT, _ => 0)
  }

  /** Counting the pairs from the last position to the first, clearing the quadrants, and
      copying the first symbols behind the block. */
  method CountPairs(block: array<byte>, quadrant: array<int>, ftab: array<int>, nblock: nat, ghost b: seq<byte>)
    requires nblock > OVERSHOOT && block.Length == quadrant.Length == nblock + OVERSHOOT && ftab.Length == 65537
    requires quadrant != ftab && b == block[..nblock]
    modifies block, quadrant, ftab
    ensures forall c :: 0 <= c < 65536 ==> ftab[c] == Count(Pairs(b), c)
    ensures ftab[65536] == 0
    ensures Extended(block[..], b) && QuadrantOk(quadrant[..], b) && block[..nblock] == b
    ensures quadrant[..] == Cleared(nblock)
  {
    hide Count;
    ghost var s := Pairs(b);
    for c := 0 to 65537
      invariant forall k :: 0 <= k < c ==> ftab[k] == 0
      modifies ftab
    {
      ftab[c] := 0;
    }
    var j: nat := Pair(block[0], 0);
    assert s[..nblock] == s;
    var i := nblock - 1;
    while i >= 0
      invariant -1 <= i < nblock && block[..nblock] == b
      invariant j / 256 == b[if i == nblock - 1 then 0 else i + 1]
      invariant forall c :: 0 <= c < 65536 ==> ftab[c] == Count(s, c) - Count(s[..i + 1], c)
      invariant ftab[65536] == 0
      invariant forall k :: i < k < nblock ==> quadrant[k] == 0
      modifies quadrant, ftab
    {
      quadrant[i] := 0;
      assert block[i] == b[i];
      Roll(b, i, j);
      j := Pair(block[i], j / 256);
      forall c | 0 <= c < 65536
        ensures Count(s[..i + 1], c) == Count(s[..i], c) + if s[i] == c then 1 else 0 { CountPrefixStep(s, i, c); }
      ftab[j] := ftab[j] + 1;
      i := i - 1;
    }
    forall c | 0 <= c < 65536 ensures ftab[c] == Count(s, c) { CountNothing(s, c); }
    CopyOvershoot(block, quadrant, nblock, b);
  }

  lemma CountNothing(s: seq<nat>, c: nat)
    ensures Count(s[..0], c) == 0
  {
  }

  method CopyOvershoot(block: array<byte>, quadrant: array<int>, nblock: nat, ghost b: seq<byte>)
    requires nblock > OVERSHOOT && block.Length == quadrant.Length == nblock + OVERSHOOT && b == block[..nblock]
    requires forall k :: 0 <= k < nblock ==> quadrant[k] == 0
    modifies block, quadrant
    ensures Extended(block[..], b) && QuadrantOk(quadrant[..], b) && block[..nblock] == b
    ensures quadrant[..] == Cleared(nblock)
  {
    for i := 0 to OVERSHOOT
      invariant block[..nblock] == b
      invariant forall k :: nblock <= k < nblock + i ==> block[k] == b[k - nblock] && quadrant[k] == 0
      invariant forall k :: 0 <= k < nblock ==> quadrant[k] == 0
    {
      assert block[i] == b[i];
      block[nblock + i] := block[i];
      quadrant[nblock + i] := 0;
    }
    assert forall k :: 0 <= k < nblock ==> block[k] == block[..nblock][k];
  }

  /** Distributing the positions, from the last to the first, counts the table of bucket ends
      down to the bucket starts. */
  method PlacePairs(ptr: array<int>, block: seq<byte>, ftab: array<int>, nblock: nat, ghost b: seq<byte>)
    requires Extended(block, b) && nblock == |b| == ptr.Length && ftab.Length == 65537 && ptr != ftab
    requires forall c :: 0 <= c < 65536 ==> ftab[c] == CountBelow(Pairs(b), c + 1)
    requires ftab[65536] == CountBelow(Pairs(b), 65536)
    modifies ptr, ftab
    ensures Bucketed(ptr[..], Pairs(b)) && ptr[..] == Listing(LFTable(Pairs(b)))
    ensures forall c :: 0 <= c <= 65536 ==> ftab[c] == CountBelow(Pairs(b), c)
  {
    hide Count, CountBelow, LF, Bucketed;
    ghost var f := Pairs(b);
    var s: nat := Pair(block[0], 0);
    var i := nblock - 1;
    assert f[..nblock] == f;
    forall c: nat | c < 65536 ensures CountBelow(f, c + 1) == CountBelow(f, c) + Count(f, c) { NextStart(f, c); }
    while i >= 0
      invariant -1 <= i < nblock
      invariant s / 256 == b[if i == nblock - 1 then 0 else i + 1]
      invariant forall c :: 0 <= c < 65536 ==> ftab[c] == CountBelow(f, c) + Count(f[..i + 1], c)
      invariant ftab[65536] == CountBelow(f, 65536)
      invariant forall k :: i < k < nblock ==> 0 <= LF(f, k) < nblock && ptr[LF(f, k)] == k
    {
      assert block[i] == b[i];
      Roll(b, i, s);
      s := Pair(block[i], s / 256);
      PlaceOne(ptr, ftab, nblock, i, s, f);
      i := i - 1;
    }
    forall c | 0 <= c < 65536 ensures ftab[c] == CountBelow(f, c) { CountNothing(f, c); }
    SlotsAreBuckets(ptr[..], f);
  }

  method PlaceOne(ptr: array<int>, ftab: array<int>, nblock: nat, i: int, s: nat, ghost f: seq<nat>)
    requires 0 <= i < nblock == |f| == ptr.Length && ftab.Length == 65537 && ptr != ftab && s == f[i] < 65536
    requires forall c :: 0 <= c < 65536 ==> ftab[c] == CountBelow(f, c) + Count(f[..i + 1], c)
    requires forall k :: i < k < nblock ==> 0 <= LF(f, k) < nblock && ptr[LF(f, k)] == k
    modifies ptr, ftab
    ensures forall c :: 0 <= c < 65536 ==> ftab[c] == CountBelow(f, c) + Count(f[..i], c)
    ensures ftab[65536] == old(ftab[65536])
    ensures forall k :: i <= k < nblock ==> 0 <= LF(f, k) < nblock && ptr[LF(f, k)] == k
  {
    hide Count, CountBelow, LF;
    forall c | 0 <= c < 65536
      ensures Count(f[..i + 1], c) == Count(f[..i], c) + if f[i] == c then 1 else 0 { CountPrefixStep(f, i, c); }
    Slot(f, i);
    var j := ftab[s] - 1;
    ftab[s] := j;
    assert j == LF(f, i);
    forall k | i < k < nblock ensures LF(f, k) != j { LFMonotone(f, i, k); }
    ptr[j] := i;
  }

  lemma NextStart(f: seq<nat>, c: nat)
    ensures CountBelow(f, c + 1) == CountBelow(f, c) + Count(f, c)
  {
  }

  lemma Slot(f: seq<nat>, i: int)
    requires 0 <= i < |f|
    ensures LF(f, i) == CountBelow(f, f[i]) + Count(f[..i], f[i]) && 0 <= LF(f, i) < |f|
  {
    LFRange(f, i);
  }

  lemma SlotsAreBuckets(p: seq<int>, f: seq<nat>)
    requires |p| == |f| && forall k :: 0 <= k < |f| ==> 0 <= LF(f, k) < |f| && p[LF(f, k)] == k
    ensures Bucketed(p, f) && p == Listing(LFTable(f))
  {
    hide LF, CountBelow;
    LFPermutation(f);
    var slot := LFTable(f);
    forall i | 0 <= i < |f| ensures InBucket(f, i, slot[i]) { LFRange(f, i); }
    SlotsMakeBuckets(p, f, slot);
    ListingOnly(p, slot);
  }
}

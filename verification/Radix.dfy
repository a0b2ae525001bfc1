/**
 Distributing positions over buckets by a small key, with a table of bucket ends that
 are counted down: the first pass of both block sorters.
 */
module Radix {
  import opened Permutations
  import opened Counting

  /** `f` lists all positions of `s`, each in the bucket of its key. */
  ghost predicate Bucketed(f: seq<int>, s: seq<nat>) {
    && Permutation(f, |s|)
    && forall p :: 0 <= p < |s| ==> InBucket(s, f[p], p)
  }

  /** Place `p` belongs to the bucket of position `i`'s key. */
  ghost predicate InBucket(s: seq<nat>, i: int, p: int) {
    0 <= i < |s| && CountBelow(s, s[i]) <= p < CountBelow(s, s[i] + 1)
  }

  /** The listing that has position `i` at place `slot[i]`. */
  ghost function Listing(slot: seq<int>): (f: seq<int>)
    ensures |f| == |slot|
    ensures Permutation(slot, |slot|) ==> forall i :: 0 <= i < |slot| ==> 0 <= slot[i] < |f| && f[slot[i]] == i
  {
    if Permutation(slot, |slot|) then seq(|slot|, p requires 0 <= p < |slot| => IndexOf(slot, |slot|, p)) else slot
  }

  /** There is only one such listing. */
  lemma {:induction false} ListingOnly(f: seq<int>, slot: seq<int>)
    requires |f| == |slot| && Permutation(slot, |slot|)
    requires forall i :: 0 <= i < |slot| ==> f[slot[i]] == i
    ensures f == Listing(slot)
  {
    forall p | 0 <= p < |slot| ensures f[p] == Listing(slot)[p] {
      var i := IndexOf(slot, |slot|, p);
    }
  }

  /** Where position `i` goes when positions are taken from the first to the last. */
  function DownSlot(s: seq<nat>, i: int): int
    requires 0 <= i < |s|
  {
    CountBelow(s, s[i] + 1) - 1 - Count(s[..i], s[i])
  }

  lemma {:induction false} DownSlotInBucket(s: seq<nat>, i: int)
    requires 0 <= i < |s|
    ensures InBucket(s, i, DownSlot(s, i)) && 0 <= DownSlot(s, i) < |s|
  {
    CountPrefixStep(s, i, s[i]);
    CountMono(s, i + 1, |s|, s[i]);
    CountBelowAtMost(s, s[i] + 1);
  }

  lemma {:induction false} DownSlotDistinct(s: seq<nat>, i: int, j: int)
    requires 0 <= i < j < |s|
    ensures DownSlot(s, i) != DownSlot(s, j)
  {
    DownSlotInBucket(s, i);
    DownSlotInBucket(s, j);
    if s[i] == s[j] {
      CountPrefixStep(s, i, s[i]);
      CountMono(s, i + 1, j, s[i]);
    } else if s[i] < s[j] {
      CountBelowMono(s, s[i] + 1, s[j]);
    } else {
      CountBelowMono(s, s[j] + 1, s[i]);
    }
  }

  /** Putting every position into its own slot of its own bucket gives a bucketed listing. */
  lemma {:induction false} SlotsMakeBuckets(f: seq<int>, s: seq<nat>, slot: seq<int>)
    requires |f| == |s| && Permutation(slot, |s|)
    requires forall i :: 0 <= i < |s| ==> InBucket(s, i, slot[i]) && f[slot[i]] == i
    ensures Bucketed(f, s)
  {
    forall p | 0 <= p < |s| ensures 0 <= f[p] < |s| && slot[f[p]] == p && InBucket(s, f[p], p) {
      var i := IndexOf(slot, |s|, p);
    }
  }

  ghost function DownSlots(s: seq<nat>): (slot: seq<int>)
    ensures |slot| == |s|
    ensures forall i :: 0 <= i < |s| ==> slot[i] == DownSlot(s, i)
  {
    seq(|s|, i requires 0 <= i < |s| => DownSlot(s, i))
  }

  lemma {:induction false} DownSlotsMakeBuckets(f: seq<int>, s: seq<nat>)
    requires |f| == |s|
    requires forall i :: 0 <= i < |s| ==> 0 <= DownSlot(s, i) < |s| && f[DownSlot(s, i)] == i
    ensures Bucketed(f, s) && f == Listing(DownSlots(s))
  {
    var slot := DownSlots(s);
    forall i, j | 0 <= i < j < |s| ensures slot[i] != slot[j] { DownSlotDistinct(s, i, j); }
    forall i | 0 <= i < |s| ensures InBucket(s, i, slot[i]) { DownSlotInBucket(s, i); }
    SlotsMakeBuckets(f, s, slot);
    ListingOnly(f, slot);
  }

  /** A bucketed listing has its keys in ascending order. */
  lemma {:induction false} BucketedAscending(f: seq<int>, s: seq<nat>, p: int, q: int)
    requires Bucketed(f, s) && 0 <= p <= q < |s|
    ensures s[f[p]] <= s[f[q]]
  {
    assert InBucket(s, f[p], p) && InBucket(s, f[q], q);
    if s[f[q]] < s[f[p]] { CountBelowMono(s, s[f[q]] + 1, s[f[p]]); }
  }

  /** A place is the first of some bucket exactly where the key changes. */
  lemma {:induction false} BucketStarts(f: seq<int>, s: seq<nat>, p: int, limit: nat)
    requires Bucketed(f, s) && 0 < p < |s|
    requires forall i :: 0 <= i < |s| ==> s[i] < limit
    ensures (exists c: nat :: c < limit && CountBelow(s, c) == p) <==> s[f[p - 1]] != s[f[p]]
  {
    assert InBucket(s, f[p - 1], p - 1) && InBucket(s, f[p], p);
    BucketedAscending(f, s, p - 1, p);
    var c, c' := s[f[p - 1]], s[f[p]];
    if c != c' {
      CountBelowMono(s, c + 1, c');
      assert CountBelow(s, c') == p;
    }
    if k: nat :| k < limit && CountBelow(s, k) == p {
      if k <= c { CountBelowMono(s, k, c); }
      else { CountBelowMono(s, c + 1, k); }
    }
  }

  // ---------------------------------------------------------------- building the tables

  /** Occurrence counts of all keys below `limit`. */
  method CountKeys(s: seq<nat>, ftab: array<int>, limit: nat)
    requires limit < ftab.Length
    requires forall i :: 0 <= i < |s| ==> s[i] < limit
    modifies ftab
    ensures forall c :: 0 <= c < limit ==> ftab[c] == Count(s, c)
    ensures forall c :: limit <= c < ftab.Length ==> ftab[c] == 0
  {
    for i := 0 to ftab.Length
      invariant forall c :: 0 <= c < i ==> ftab[c] == 0
    {
      ftab[i] := 0;
    }
    assert s[..0] == [];
    for i := 0 to |s|
      invariant forall c :: 0 <= c < limit ==> ftab[c] == Count(s[..i], c)
      invariant forall c :: limit <= c < ftab.Length ==> ftab[c] == 0
    {
      ftab[s[i]] := ftab[s[i]] + 1;
      forall c | 0 <= c < limit ensures ftab[c] == Count(s[..i + 1], c) { CountPrefixStep(s, i, c); }
    }
    assert s[..|s|] == s;
  }

  /** Turning counts into bucket ends. */
  method Accumulate(ghost s: seq<nat>, ftab: array<int>, limit: nat)
    requires limit + 1 == ftab.Length
    requires forall c :: 0 <= c < limit ==> ftab[c] == Count(s, c)
    requires ftab[limit] == 0
    modifies ftab
    ensures forall c :: 0 <= c < limit ==> ftab[c] == CountBelow(s, c + 1)
    ensures ftab[limit] == CountBelow(s, limit)
  {
    hide Count;
    assert CountBelow(s, 1) == CountBelow(s, 0) + Count(s, 0);
    for i := 1 to ftab.Length
      invariant 1 <= i <= limit + 1
      invariant forall c :: 0 <= c < i && c < limit ==> ftab[c] == CountBelow(s, c + 1)
      invariant forall c :: i <= c < limit ==> ftab[c] == Count(s, c)
      invariant ftab[limit] == if i <= limit then 0 else CountBelow(s, limit)
    {
      ftab[i] := ftab[i] + ftab[i - 1];
    }
  }
}

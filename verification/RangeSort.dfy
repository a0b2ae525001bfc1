/**
 What the two quicksorts have in common: exchanging elements inside a range, the
 three-way partition around a pivot key, and what a stack of pending ranges means.
 */
module RangeSort {
  import opened Permutations

  /** `g` is `f` with the elements at `lo..hi` in some other order. */
  ghost predicate Rearranged(f: seq<int>, g: seq<int>, lo: int, hi: int) {
    && 0 <= lo && hi < |f| && |g| == |f|
    && multiset(f) == multiset(g)
    && forall k :: 0 <= k < |f| && !(lo <= k <= hi) ==> f[k] == g[k]
  }

  lemma RearrangedRefl(f: seq<int>, lo: int, hi: int)
    requires 0 <= lo && hi < |f|
    ensures Rearranged(f, f, lo, hi)
  {
  }

  lemma RearrangedTrans(f: seq<int>, g: seq<int>, h: seq<int>, lo: int, hi: int)
    requires Rearranged(f, g, lo, hi) && Rearranged(g, h, lo, hi)
    ensures Rearranged(f, h, lo, hi)
  {
  }

  lemma RearrangedSym(f: seq<int>, g: seq<int>, lo: int, hi: int)
    requires Rearranged(f, g, lo, hi)
    ensures Rearranged(g, f, lo, hi)
  {
  }

  lemma RearrangedWiden(f: seq<int>, g: seq<int>, lo: int, hi: int, lo': int, hi': int)
    requires Rearranged(f, g, lo, hi) && 0 <= lo' <= lo && hi <= hi' < |f|
    ensures Rearranged(f, g, lo', hi')
  {
  }

  lemma ThreeParts(f: seq<int>, lo: int, hi: int)
    requires 0 <= lo <= hi + 1 <= |f|
    ensures multiset(f) == multiset(f[..lo]) + multiset(f[lo..hi + 1]) + multiset(f[hi + 1..])
  {
    assert f == f[..lo] + f[lo..hi + 1] + f[hi + 1..];
  }

  lemma RearrangedSlice(f: seq<int>, g: seq<int>, lo: int, hi: int)
    requires Rearranged(f, g, lo, hi) && lo <= hi + 1
    ensures multiset(f[lo..hi + 1]) == multiset(g[lo..hi + 1])
  {
    ThreeParts(f, lo, hi);
    ThreeParts(g, lo, hi);
    assert f[..lo] == g[..lo] && f[hi + 1..] == g[hi + 1..];
    var rest := multiset(f[..lo]) + multiset(f[hi + 1..]);
    assert multiset(f) - rest == multiset(f[lo..hi + 1]);
    assert multiset(g) - rest == multiset(g[lo..hi + 1]);
  }

  /** Where an element of the rearranged range came from. */
  lemma {:induction false} RearrangedFrom(f: seq<int>, g: seq<int>, lo: int, hi: int, k: int) returns (j: int)
    requires Rearranged(f, g, lo, hi) && lo <= k <= hi
    ensures lo <= j <= hi && f[j] == g[k]
  {
    RearrangedSlice(f, g, lo, hi);
    var mf, mg := f[lo..hi + 1], g[lo..hi + 1];
    assert mg[k - lo] in multiset(mg);
    assert g[k] in multiset(mf);
    var i :| 0 <= i < |mf| && mf[i] == g[k];
    j := lo + i;
  }

  lemma {:induction false} RearrangedPermutation(f: seq<int>, g: seq<int>, lo: int, hi: int, n: nat)
    requires Rearranged(f, g, lo, hi) && Permutation(f, n)
    ensures Permutation(g, n)
  {
    forall i | 0 <= i < n ensures 0 <= g[i] < n {
      assert g[i] in multiset(g);
    }
    forall i, j | 0 <= i < j < n ensures g[i] != g[j] {
      if g[i] == g[j] {
        var v := g[i];
        assert g == g[..i] + [g[i]] + g[i + 1..j] + [g[j]] + g[j + 1..];
        assert multiset(g)[v] >= 2;
        DistinctOnce(f, v);
      }
    }
  }

  lemma {:induction false} DistinctOnce(f: seq<int>, v: int)
    requires forall i, j :: 0 <= i < j < |f| ==> f[i] != f[j]
    ensures multiset(f)[v] <= 1
  {
    if |f| > 0 {
      var t := f[..|f| - 1];
      DistinctOnce(t, v);
      assert f == t + [f[|f| - 1]];
      if f[|f| - 1] == v { assert v !in multiset(t); }
    }
  }

  // ---------------------------------------------------------------- what the exchanges compute

  /** Element `i`, or 0 outside the sequence. */
  function Get(f: seq<int>, i: int): int {
    if 0 <= i < |f| then f[i] else 0
  }

  function Put(f: seq<int>, i: int, x: int): (g: seq<int>)
    ensures |g| == |f|
  {
    if 0 <= i < |f| then f[i := x] else f
  }

  function Exchanged(f: seq<int>, i: int, j: int): (g: seq<int>)
    ensures |g| == |f|
  {
    Put(Put(f, i, Get(f, j)), j, Get(f, i))
  }

  /** Blocks of `n` elements at `p1` and `p2` have changed places. */
  function BlocksExchanged(f: seq<int>, p1: int, p2: int, n: int): (g: seq<int>)
    ensures |g| == |f|
    decreases n
  {
    if n <= 0 then f else BlocksExchanged(Exchanged(f, p1, p2), p1 + 1, p2 + 1, n - 1)
  }

  lemma ExchangeNext(f: seq<int>, p1: int, p2: int, n: int)
    requires n > 0
    ensures BlocksExchanged(f, p1, p2, n) == BlocksExchanged(Exchanged(f, p1, p2), p1 + 1, p2 + 1, n - 1)
  {
  }

  lemma ExchangeNone(f: seq<int>, p1: int, p2: int)
    ensures BlocksExchanged(f, p1, p2, 0) == f
  {
  }

  /** Where the element now at `k` was before blocks of `n` changed places. */
  function Before(p1: int, p2: int, n: int, k: int): int {
    if p1 <= k < p1 + n then k - p1 + p2 else if p2 <= k < p2 + n then k - p2 + p1 else k
  }

  lemma {:induction false} ExchangeMeans(f: seq<int>, p1: int, p2: int, n: int, k: int)
    requires 0 <= p1 && 0 <= n && p1 + n <= p2 && p2 + n <= |f| && 0 <= k < |f|
    ensures BlocksExchanged(f, p1, p2, n)[k] == f[Before(p1, p2, n, k)]
    decreases n
  {
    if n > 0 { ExchangeMeans(Exchanged(f, p1, p2), p1 + 1, p2 + 1, n - 1, k); }
  }

  /** A moment of the partition scans. */
  datatype Scan = Scan(f: seq<int>, ltLo: int, unLo: int, unHi: int, gtHi: int)

  /** Where the scans end, one element after the other. */
  function Scanned(s: Scan, key: seq<int>, med: int): (r: Scan)
    ensures |r.f| == |s.f|
    decreases s.unHi - s.unLo
  {
    if s.unLo > s.unHi then s
    else if Get(key, Get(s.f, s.unLo)) == med then
      Scanned(Scan(Exchanged(s.f, s.unLo, s.ltLo), s.ltLo + 1, s.unLo + 1, s.unHi, s.gtHi), key, med)
    else if Get(key, Get(s.f, s.unLo)) < med then
      Scanned(s.(unLo := s.unLo + 1), key, med)
    else if Get(key, Get(s.f, s.unHi)) == med then
      Scanned(Scan(Exchanged(s.f, s.unHi, s.gtHi), s.ltLo, s.unLo, s.unHi - 1, s.gtHi - 1), key, med)
    else if Get(key, Get(s.f, s.unHi)) > med then
      Scanned(s.(unHi := s.unHi - 1), key, med)
    else
      Scanned(Scan(Exchanged(s.f, s.unLo, s.unHi), s.ltLo, s.unLo + 1, s.unHi - 1, s.gtHi), key, med)
  }

  /** The pivot keys moved from both ends to the middle. */
  function Gathered(s: Scan, lo: int, hi: int): (g: seq<int>)
    ensures |g| == |s.f|
  {
    var n := if s.ltLo - lo < s.unLo - s.ltLo then s.ltLo - lo else s.unLo - s.ltLo;
    var m := if hi - s.gtHi < s.gtHi - s.unHi then hi - s.gtHi else s.gtHi - s.unHi;
    BlocksExchanged(BlocksExchanged(s.f, lo, s.unLo - n, n), s.unLo, hi + 1 - m, m)
  }

  method Swap(a: array<int>, i: int, j: int, ghost lo: int, ghost hi: int)
    requires 0 <= lo <= i <= hi && lo <= j <= hi < a.Length
    modifies a
    ensures a[i] == old(a[j]) && a[j] == old(a[i])
    ensures forall k :: 0 <= k < a.Length && k != i && k != j ==> a[k] == old(a[k])
    ensures Rearranged(old(a[..]), a[..], lo, hi) && a[..] == Exchanged(old(a[..]), i, j)
  {
    ghost var f := a[..];
    var t := a[i];
    a[i] := a[j];
    a[j] := t;
    assert a[..] == f[i := f[j]][j := f[i]];
  }

  /** Exchanges two blocks of `n` elements. */
  method VSwap(a: array<int>, p1: int, p2: int, n: int, ghost lo: int, ghost hi: int)
    requires 0 <= lo <= p1 && 0 <= n && p1 + n <= p2 && p2 + n <= hi + 1 && hi < a.Length
    modifies a
    ensures Rearranged(old(a[..]), a[..], lo, hi) && a[..] == BlocksExchanged(old(a[..]), p1, p2, n)
  {
    hide Rearranged, Exchanged, BlocksExchanged;
    ghost var f := a[..];
    var q1, q2, m := p1, p2, n;
    RearrangedRefl(f, lo, hi);
    while m > 0
      invariant 0 <= m && lo <= q1 && q1 + m <= q2 && q2 + m <= hi + 1
      invariant Rearranged(f, a[..], lo, hi)
      invariant BlocksExchanged(a[..], q1, q2, m) == BlocksExchanged(f, p1, p2, n)
    {
      ghost var g := a[..];
      ExchangeNext(g, q1, q2, m);
      Swap(a, q1, q2, lo, hi);
      RearrangedTrans(f, g, a[..], lo, hi);
      q1, q2, m := q1 + 1, q2 + 1, m - 1;
    }
    ExchangeNone(a[..], q1, q2);
  }

  ghost predicate Keyed(a: seq<int>, key: seq<int>, lo: int, hi: int) {
    0 <= lo && hi < |a| && forall k :: lo <= k <= hi ==> 0 <= a[k] < |key|
  }

  lemma RearrangedKeyed(f: seq<int>, g: seq<int>, key: seq<int>, lo: int, hi: int, lo': int, hi': int)
    requires Rearranged(f, g, lo', hi') && Keyed(f, key, lo, hi) && lo <= lo' && hi' <= hi
    ensures Keyed(g, key, lo, hi)
  {
    forall k | lo <= k <= hi ensures 0 <= g[k] < |key| {
      if lo' <= k <= hi' { var j := RearrangedFrom(f, g, lo', hi', k); }
    }
  }

  /** What holds between the scans: `lo..ltLo` and `gtHi..hi` hold the pivot key, `ltLo..unLo`
      smaller keys and `unHi..gtHi` larger ones. */
  ghost predicate Parted(s: Scan, key: seq<int>, lo: int, hi: int, med: int) {
    && lo <= s.ltLo <= s.unLo <= s.unHi + 1 <= s.gtHi + 1 <= hi + 1 && Keyed(s.f, key, lo, hi)
    && (forall k :: lo <= k < s.ltLo ==> key[s.f[k]] == med)
    && (forall k :: s.ltLo <= k < s.unLo ==> key[s.f[k]] < med)
    && (forall k :: s.unHi < k <= s.gtHi ==> key[s.f[k]] > med)
    && (forall k :: s.gtHi < k <= hi ==> key[s.f[k]] == med)
  }

  lemma PartedStart(f: seq<int>, key: seq<int>, lo: int, hi: int, med: int)
    requires lo <= hi && Keyed(f, key, lo, hi)
    ensures Parted(Scan(f, lo, lo, hi, hi), key, lo, hi, med)
  {
  }

  /** Each step of the scans keeps that. */
  lemma PartedLow(s: Scan, key: seq<int>, lo: int, hi: int, med: int)
    requires Parted(s, key, lo, hi, med) && s.unLo <= s.unHi
    ensures 0 <= lo && hi < |s.f| && 0 <= s.f[s.unLo] < |key|
    ensures key[s.f[s.unLo]] == med ==>
      Parted(Scan(Exchanged(s.f, s.unLo, s.ltLo), s.ltLo + 1, s.unLo + 1, s.unHi, s.gtHi), key, lo, hi, med)
    ensures key[s.f[s.unLo]] < med ==> Parted(s.(unLo := s.unLo + 1), key, lo, hi, med)
  {
  }

  lemma PartedHigh(s: Scan, key: seq<int>, lo: int, hi: int, med: int)
    requires Parted(s, key, lo, hi, med) && s.unLo <= s.unHi
    ensures 0 <= lo && hi < |s.f| && 0 <= s.f[s.unHi] < |key|
    ensures key[s.f[s.unHi]] == med ==>
      Parted(Scan(Exchanged(s.f, s.unHi, s.gtHi), s.ltLo, s.unLo, s.unHi - 1, s.gtHi - 1), key, lo, hi, med)
    ensures key[s.f[s.unHi]] > med ==> Parted(s.(unHi := s.unHi - 1), key, lo, hi, med)
  {
  }

  lemma PartedMeet(s: Scan, key: seq<int>, lo: int, hi: int, med: int)
    requires Parted(s, key, lo, hi, med) && s.unLo <= s.unHi
    requires Get(key, Get(s.f, s.unLo)) > med > Get(key, Get(s.f, s.unHi))
    ensures Parted(Scan(Exchanged(s.f, s.unLo, s.unHi), s.ltLo, s.unLo + 1, s.unHi - 1, s.gtHi), key, lo, hi, med)
  {
  }

  /** The scans of the three-way partition. */
  method PartitionScan(a: array<int>, key: seq<int>, lo: int, hi: int, med: int)
    returns (ltLo: int, unLo: int, unHi: int, gtHi: int)
    requires lo <= hi && Keyed(a[..], key, lo, hi)
    modifies a
    ensures Rearranged(old(a[..]), a[..], lo, hi)
    ensures Parted(Scan(a[..], ltLo, unLo, unHi, gtHi), key, lo, hi, med) && unLo == unHi + 1
    ensures Scan(a[..], ltLo, unLo, unHi, gtHi) == Scanned(Scan(old(a[..]), lo, lo, hi, hi), key, med)
  {
    hide Rearranged, Scanned, Exchanged, Parted;
    ghost var f := a[..];
    RearrangedRefl(f, lo, hi);
    unLo, ltLo, unHi, gtHi := lo, lo, hi, hi;
    PartedStart(f, key, lo, hi, med);
    while true
      invariant Parted(Scan(a[..], ltLo, unLo, unHi, gtHi), key, lo, hi, med)
      invariant Rearranged(f, a[..], lo, hi)
      invariant Scanned(Scan(a[..], ltLo, unLo, unHi, gtHi), key, med) == Scanned(Scan(f, lo, lo, hi, hi), key, med)
      decreases unHi - unLo
    {
      ghost var g := a[..];
      ltLo, unLo := ScanUp(a, key, lo, hi, med, ltLo, unLo, unHi, gtHi);
      RearrangedTrans(f, g, a[..], lo, hi);
      g := a[..];
      unHi, gtHi := ScanDown(a, key, lo, hi, med, ltLo, unLo, unHi, gtHi);
      RearrangedTrans(f, g, a[..], lo, hi);
      ghost var s := Scan(a[..], ltLo, unLo, unHi, gtHi);
      PartedBounds(s, key, lo, hi, med);
      ScannedStep(s, key, med);
      if unLo > unHi { break; }
      PartedMeet(s, key, lo, hi, med);
      Swap(a, unLo, unHi, lo, hi);
      RearrangedTrans(f, s.f, a[..], lo, hi);
      unLo := unLo + 1;
      unHi := unHi - 1;
    }
  }

  lemma PartedBounds(s: Scan, key: seq<int>, lo: int, hi: int, med: int)
    requires Parted(s, key, lo, hi, med)
    ensures 0 <= lo <= s.ltLo <= s.unLo <= s.unHi + 1 <= s.gtHi + 1 <= hi + 1 <= |s.f|
  {
  }

  lemma ScannedStep(s: Scan, key: seq<int>, med: int)
    ensures var r := Scanned(s, key, med);
      if s.unLo > s.unHi then r == s
      else if Get(key, Get(s.f, s.unLo)) == med then
        r == Scanned(Scan(Exchanged(s.f, s.unLo, s.ltLo), s.ltLo + 1, s.unLo + 1, s.unHi, s.gtHi), key, med)
      else if Get(key, Get(s.f, s.unLo)) < med then r == Scanned(s.(unLo := s.unLo + 1), key, med)
      else if Get(key, Get(s.f, s.unHi)) == med then
        r == Scanned(Scan(Exchanged(s.f, s.unHi, s.gtHi), s.ltLo, s.unLo, s.unHi - 1, s.gtHi - 1), key, med)
      else if Get(key, Get(s.f, s.unHi)) > med then r == Scanned(s.(unHi := s.unHi - 1), key, med)
      else r == Scanned(Scan(Exchanged(s.f, s.unLo, s.unHi), s.ltLo, s.unLo + 1, s.unHi - 1, s.gtHi), key, med)
  {
    hide Get, Exchanged;
  }

  method ScanUp(a: array<int>, key: seq<int>, lo: int, hi: int, med: int, ltLo0: int, unLo0: int, unHi: int, gtHi: int)
    returns (ltLo: int, unLo: int)
    requires Parted(Scan(a[..], ltLo0, unLo0, unHi, gtHi), key, lo, hi, med)
    modifies a
    ensures Parted(Scan(a[..], ltLo, unLo, unHi, gtHi), key, lo, hi, med) && unLo0 <= unLo
    ensures Rearranged(old(a[..]), a[..], lo, hi)
    ensures unLo <= unHi ==> Get(key, Get(a[..], unLo)) > med
    ensures Scanned(Scan(a[..], ltLo, unLo, unHi, gtHi), key, med) ==
      Scanned(Scan(old(a[..]), ltLo0, unLo0, unHi, gtHi), key, med)
  {
    hide Rearranged, Scanned, Exchanged, Parted;
    ghost var f := a[..];
    ltLo, unLo := ltLo0, unLo0;
    PartedBounds(Scan(f, ltLo, unLo, unHi, gtHi), key, lo, hi, med);
    RearrangedRefl(f, lo, hi);
    while true
      invariant Parted(Scan(a[..], ltLo, unLo, unHi, gtHi), key, lo, hi, med) && unLo0 <= unLo
      invariant Rearranged(f, a[..], lo, hi)
      invariant Scanned(Scan(a[..], ltLo, unLo, unHi, gtHi), key, med) ==
        Scanned(Scan(f, ltLo0, unLo0, unHi, gtHi), key, med)
      decreases unHi - unLo
    {
      ghost var s := Scan(a[..], ltLo, unLo, unHi, gtHi);
      PartedBounds(s, key, lo, hi, med);
      if unLo > unHi { break; }
      PartedLow(s, key, lo, hi, med);
      ScannedStep(s, key, med);
      var n := key[a[unLo]] - med;
      if n == 0 {
        Swap(a, unLo, ltLo, lo, hi);
        RearrangedTrans(f, s.f, a[..], lo, hi);
        ltLo := ltLo + 1;
        unLo := unLo + 1;
        continue;
      }
      if n > 0 { break; }
      unLo := unLo + 1;
    }
  }

  method ScanDown(a: array<int>, key: seq<int>, lo: int, hi: int, med: int, ltLo: int, unLo: int, unHi0: int,
    gtHi0: int)
    returns (unHi: int, gtHi: int)
    requires Parted(Scan(a[..], ltLo, unLo, unHi0, gtHi0), key, lo, hi, med)
    requires unLo <= unHi0 ==> Get(key, Get(a[..], unLo)) > med
    modifies a
    ensures Parted(Scan(a[..], ltLo, unLo, unHi, gtHi), key, lo, hi, med) && unHi <= unHi0
    ensures Rearranged(old(a[..]), a[..], lo, hi)
    ensures unLo <= unHi ==> Get(key, Get(a[..], unLo)) > med > Get(key, Get(a[..], unHi))
    ensures Scanned(Scan(a[..], ltLo, unLo, unHi, gtHi), key, med) ==
      Scanned(Scan(old(a[..]), ltLo, unLo, unHi0, gtHi0), key, med)
  {
    hide Rearranged, Scanned, Exchanged, Parted;
    ghost var f := a[..];
    unHi, gtHi := unHi0, gtHi0;
    PartedBounds(Scan(f, ltLo, unLo, unHi, gtHi), key, lo, hi, med);
    RearrangedRefl(f, lo, hi);
    while true
      invariant Parted(Scan(a[..], ltLo, unLo, unHi, gtHi), key, lo, hi, med) && unHi <= unHi0
      invariant Rearranged(f, a[..], lo, hi)
      invariant unLo <= unHi ==> Get(key, Get(a[..], unLo)) > med
      invariant Scanned(Scan(a[..], ltLo, unLo, unHi, gtHi), key, med) ==
        Scanned(Scan(f, ltLo, unLo, unHi0, gtHi0), key, med)
      decreases unHi - unLo
    {
      ghost var s := Scan(a[..], ltLo, unLo, unHi, gtHi);
      PartedBounds(s, key, lo, hi, med);
      if unLo > unHi { break; }
      PartedHigh(s, key, lo, hi, med);
      ScannedStep(s, key, med);
      var n := key[a[unHi]] - med;
      if n == 0 {
        Swap(a, unHi, gtHi, lo, hi);
        RearrangedTrans(f, s.f, a[..], lo, hi);
        gtHi := gtHi - 1;
        unHi := unHi - 1;
        continue;
      }
      if n < 0 { break; }
      unHi := unHi - 1;
    }
  }

  /** Smaller keys up to `n`, larger ones from `m` on, the pivot key between. */
  ghost predicate ThreeWay(g: seq<int>, key: seq<int>, lo: int, n: int, m: int, hi: int, med: int) {
    && lo - 1 <= n < m <= hi + 1 && Keyed(g, key, lo, hi)
    && (forall k :: lo <= k <= n ==> key[g[k]] < med)
    && (forall k :: n < k < m ==> key[g[k]] == med)
    && (forall k :: m <= k <= hi ==> key[g[k]] > med)
  }

  /** Moves the pivot keys from both ends to the middle. */
  method GatherPivots(a: array<int>, key: seq<int>, lo: int, hi: int, med: int, ltLo: int, unLo: int, unHi: int,
    gtHi: int)
    returns (n: int, m: int)
    requires Parted(Scan(a[..], ltLo, unLo, unHi, gtHi), key, lo, hi, med) && unLo == unHi + 1
    modifies a
    ensures Rearranged(old(a[..]), a[..], lo, hi)
    ensures n == lo + unLo - ltLo - 1 && m == hi - (gtHi - unHi) + 1
    ensures ThreeWay(a[..], key, lo, n, m, hi, med)
    ensures a[..] == Gathered(Scan(old(a[..]), ltLo, unLo, unHi, gtHi), lo, hi)
  {
    hide Rearranged, BlocksExchanged, Parted, ThreeWay, Keyed, Moved;
    ghost var f := a[..];
    PartedBounds(Scan(f, ltLo, unLo, unHi, gtHi), key, lo, hi, med);
    n := if ltLo - lo < unLo - ltLo then ltLo - lo else unLo - ltLo;
    ExchangeEnds(a, lo, ltLo, unLo, n, lo, hi);
    ghost var g := a[..];
    m := if hi - gtHi < gtHi - unHi then hi - gtHi else gtHi - unHi;
    ExchangeEnds(a, unLo, gtHi + 1, hi + 1, m, lo, hi);
    RearrangedTrans(f, g, a[..], lo, hi);
    GatherMeans(Scan(f, ltLo, unLo, unHi, gtHi), g, a[..], key, lo, hi, med);
    n := lo + unLo - ltLo - 1;
    m := hi - (gtHi - unHi) + 1;
  }

  lemma GatherMeans(s: Scan, g: seq<int>, h: seq<int>, key: seq<int>, lo: int, hi: int, med: int)
    requires Parted(s, key, lo, hi, med) && s.unLo == s.unHi + 1
    requires Moved(s.f, g, lo, s.ltLo, s.unLo) && Moved(g, h, s.unLo, s.gtHi + 1, hi + 1)
    ensures ThreeWay(h, key, lo, lo + s.unLo - s.ltLo - 1, hi - (s.gtHi - s.unHi) + 1, hi, med)
  {
    forall k | lo <= k < s.unLo
      ensures 0 <= h[k] < |key| && if k < lo + s.unLo - s.ltLo then key[h[k]] < med else key[h[k]] == med
    {
      assert h[k] == g[k];
    }
    var m := s.unLo + hi - s.gtHi;
    forall k | s.unLo <= k <= hi ensures 0 <= h[k] < |key| && if k < m then key[h[k]] == med else key[h[k]] > med {
    }
  }

  /** The pivot itself is in one of the ends, so the outer parts do not fill the range. */
  lemma PivotStays(f: seq<int>, s: Scan, key: seq<int>, lo: int, hi: int, med: int, at: int)
    requires Rearranged(f, s.f, lo, hi) && Parted(s, key, lo, hi, med) && s.unLo == s.unHi + 1
    requires lo <= at <= hi < |f| && 0 <= f[at] < |key| && key[f[at]] == med
    ensures s.unLo - s.ltLo + s.gtHi - s.unHi < hi - lo + 1
  {
    hide Rearranged;
    RearrangedSym(f, s.f, lo, hi);
    var at' := RearrangedFrom(s.f, f, lo, hi, at);
    assert key[s.f[at']] == med;
  }

  /** `x` is one of the elements at `i..j`. */
  ghost predicate Among(f: seq<int>, x: int, i: int, j: int) {
    0 <= i <= j <= |f| && exists k :: i <= k < j && f[k] == x
  }

  lemma IsAmong(f: seq<int>, x: int, i: int, j: int, k: int)
    requires 0 <= i <= k < j <= |f| && f[k] == x
    ensures Among(f, x, i, j)
  {
  }

  /** The adjacent stretches `from..mid` and `mid..to` have changed places, each in any order. */
  ghost predicate Moved(f: seq<int>, g: seq<int>, from: int, mid: int, to: int) {
    && 0 <= from <= mid <= to <= |f| == |g|
    && (forall k :: 0 <= k < |f| && !(from <= k < to) ==> g[k] == f[k])
    && (forall k :: from <= k < from + to - mid ==> Among(f, g[k], mid, to))
    && (forall k :: from + to - mid <= k < to ==> Among(f, g[k], from, mid))
  }

  /** Exchanging the first `n` elements with the last `n`, `n` being the smaller size, brings
      two adjacent stretches into the other order. */
  method ExchangeEnds(a: array<int>, from: int, ghost mid: int, to: int, n: int, ghost lo: int, ghost hi: int)
    requires 0 <= lo <= from <= mid <= to <= hi + 1 <= a.Length
    requires n == if mid - from < to - mid then mid - from else to - mid
    modifies a
    ensures Rearranged(old(a[..]), a[..], lo, hi)
    ensures Moved(old(a[..]), a[..], from, mid, to)
    ensures a[..] == BlocksExchanged(old(a[..]), from, to - n, n)
  {
    hide Rearranged, BlocksExchanged;
    ghost var f := a[..];
    VSwap(a, from, to - n, n, lo, hi);
    forall k | 0 <= k < a.Length ensures a[k] == f[Before(from, to - n, n, k)] { ExchangeMeans(f, from, to - n, n, k); }
    forall k | from <= k < from + to - mid ensures Among(f, a[k], mid, to) {
      IsAmong(f, a[k], mid, to, if k < from + n then k - from + to - n else k);
    }
    forall k | from + to - mid <= k < to ensures Among(f, a[k], from, mid) {
      IsAmong(f, a[k], from, mid, if k < to - n then k else k - (to - n) + from);
    }
  }
}

/**
 When both scans have met: every small bucket [t,ss] not yet done holds exactly its own
 rotations, in order.
 */
module SynthesisDone {
  import opened Rotations
  import opened Permutations
  import opened Counting
  import opened Radix
  import opened MainRadix
  import opened Predecessors
  import opened Synthesis

  /** What the pointer scans start from: the small buckets [ss,c], c != ss, are in order. */
  ghost predicate RowReady(p1: seq<int>, b: seq<byte>, ss: byte, done: seq<bool>) {
    && |p1| == |b| >= 2 && |done| == 256 && !done[ss]
    && Bucketed(p1, Pairs(b))
    && forall c: byte :: c != ss ==> SmallSorted(p1, b, Pair(ss, c))
  }

  /** The part of the row in front of [ss,ss], and the part behind it. */
  lemma RowEnds(p1: seq<int>, b: seq<byte>, ss: byte, done: seq<bool>)
    requires RowReady(p1, b, ss, done)
    ensures 0 <= RowStart(b, ss) <= BStart(b, ss, ss) <= BEnd(b, ss, ss) <= RowEnd(b, ss) <= |b|
    ensures LowRow(b, p1[RowStart(b, ss)..BStart(b, ss, ss)], ss)
      && SecondBelow(b, p1[RowStart(b, ss)..BStart(b, ss, ss)], ss)
    ensures HighRow(b, p1[BEnd(b, ss, ss)..RowEnd(b, ss)], ss) && SecondAbove(b, p1[BEnd(b, ss, ss)..RowEnd(b, ss)], ss)
  {
    hide S, RotLe, Bucketed, SmallSorted;
    Layout(b, ss, ss);
    var a, bs, be, e := RowStart(b, ss), BStart(b, ss, ss), BEnd(b, ss, ss), RowEnd(b, ss);
    forall k | a <= k < e && !(bs <= k < be)
      ensures 0 <= p1[k] < |b| && b[p1[k]] == ss && SmallSorted(p1, b, Pairs(b)[p1[k]])
      ensures k < bs ==> b[Next(|b|, p1[k])] < ss
      ensures k >= be ==> b[Next(|b|, p1[k])] > ss
    {
      RowPlace(p1, b, ss, k);
    }
    StretchSorted(p1, b, ss, a, bs);
    StretchSorted(p1, b, ss, be, e);
    var low, high := p1[a..bs], p1[be..e];
    forall i | 0 <= i < |low|
      ensures 0 <= low[i] < |b| && b[low[i]] == ss && b[Next(|b|, low[i])] < ss && Low(b, low[i], ss) {
      assert low[i] == p1[a + i];
      SecondDecides(b, low[i], ss);
    }
    forall i | 0 <= i < |high|
      ensures 0 <= high[i] < |b| && b[high[i]] == ss && b[Next(|b|, high[i])] > ss && High(b, high[i], ss) {
      assert high[i] == p1[be + i];
      SecondDecides(b, high[i], ss);
    }
  }

  /** Which pair a place of the row has. */
  lemma RowPlace(p1: seq<int>, b: seq<byte>, ss: byte, k: int)
    requires |p1| == |b| >= 2 && Bucketed(p1, Pairs(b)) && RowStart(b, ss) <= k < RowEnd(b, ss) <= |b|
    ensures 0 <= p1[k] < |b| && b[p1[k]] == ss && Pairs(b)[p1[k]] == Pair(ss, b[Next(|b|, p1[k])])
    ensures k < BStart(b, ss, ss) ==> b[Next(|b|, p1[k])] < ss
    ensures k >= BEnd(b, ss, ss) ==> b[Next(|b|, p1[k])] > ss
  {
    hide S, Bucketed;
    KeyOfPlace(p1, b, k);
    var x := p1[k];
    var c := Pairs(b)[x];
    PairsBelow(b, x);
    if c < Pair(ss, 0) { if c + 1 < Pair(ss, 0) { SOrder(b, c + 1, Pair(ss, 0)); } assert false; }
    if c >= Pair(ss, 256) { if c > Pair(ss, 256) { SOrder(b, Pair(ss, 256), c); } assert false; }
    assert b[x] == ss;
    if k < BStart(b, ss, ss) && c >= Pair(ss, ss) {
      if c > Pair(ss, ss) { SOrder(b, Pair(ss, ss), c); }
      assert false;
    }
    if k >= BEnd(b, ss, ss) && c <= Pair(ss, ss) {
      if c < Pair(ss, ss) { SOrder(b, c + 1, Pair(ss, ss) + 1); }
      assert false;
    }
  }

  /** The downward scan starts where it must, with the upper part of the row untouched. */
  lemma DownStart(b: seq<byte>, ss: byte, done: seq<bool>, p1: seq<int>, pm: seq<int>, cs: seq<int>, ce: seq<int>,
    j: int)
    requires RowReady(p1, b, ss, done) && Up(b, ss, done, p1, pm, cs, j) && j >= cs[ss] && |ce| == 256
    requires forall t: byte :: ce[t] == BEnd(b, t, ss) - 1
    ensures 0 <= BEnd(b, ss, ss) <= RowEnd(b, ss) <= |pm| && SecondAbove(b, pm[BEnd(b, ss, ss)..RowEnd(b, ss)], ss)
    ensures Down(b, ss, done, pm, pm, cs, ce, RowEnd(b, ss) - 1)
  {
    hide S, RotLe, Bucketed, SmallSorted, Row, Preds, Low, High;
    RowEnds(p1, b, ss, done);
    var be: int, e: int := BEnd(b, ss, ss), RowEnd(b, ss);
    forall k | be <= k < e ensures pm[k] == p1[k] { RowPlace(p1, b, ss, k); }
    assert pm[be..e] == p1[be..e];
    assert pm[e..e] == [];
    forall t: byte | !done[t] ensures DownBucket(b, ss, pm, cs, ce, e - 1, t) {
      assert UpBucket(b, ss, pm, cs, j, t);
      PredsNil(b, t);
      assert pm[ce[t] + 1..BEnd(b, t, ss)] == [];
    }
  }

  /** Both scans are finished. */
  ghost predicate Met(b: seq<byte>, ss: byte, done: seq<bool>, p1: seq<int>, pm: seq<int>, p: seq<int>, cs: seq<int>,
    ce: seq<int>) {
    && RowReady(p1, b, ss, done)
    && |cs| == |ce| == 256 && RowStart(b, ss) <= cs[ss] <= ce[ss] + 1
    && Up(b, ss, done, p1, pm, cs, cs[ss])
    && Down(b, ss, done, pm, p, cs, ce, ce[ss])
  }

  ghost function LowList(b: seq<byte>, ss: byte, p: seq<int>, cs: seq<int>): seq<int>
    requires |cs| == 256 && 0 <= RowStart(b, ss) <= cs[ss] <= |p|
  {
    p[RowStart(b, ss)..cs[ss]]
  }

  ghost function HighList(b: seq<byte>, ss: byte, p: seq<int>, ce: seq<int>): seq<int>
    requires |ce| == 256 && 0 <= ce[ss] + 1 <= RowEnd(b, ss) <= |p|
  {
    p[ce[ss] + 1..RowEnd(b, ss)]
  }

  /** The upward scan found every rotation below the run. */
  lemma AllLow(b: seq<byte>, ss: byte, done: seq<bool>, p1: seq<int>, pm: seq<int>, cs: seq<int>, x: int)
    requires RowReady(p1, b, ss, done) && |cs| == 256 && Up(b, ss, done, p1, pm, cs, cs[ss]) && Low(b, x, ss)
    ensures x in LowList(b, ss, pm, cs)
  {
    hide S, RotLe, Bucketed, SmallSorted, Preds, Against, UpWritten;
    var a, bs := RowStart(b, ss), BStart(b, ss, ss);
    var l := LowList(b, ss, pm, cs);
    RowIsPositions(b, l, ss);
    assert UpBucket(b, ss, pm, cs, cs[ss], ss);
    forall y | 0 <= y < |b| && b[y] == ss && b[Next(|b|, y)] < ss ensures y in l {
      var k := PlaceOf(p1, b, y);
      PairsBelow(b, y);
      var c := Pairs(b)[y];
      if Pair(ss, 0) < c { SOrder(b, Pair(ss, 0), c); }
      if c + 1 < Pair(ss, ss) { SOrder(b, c + 1, Pair(ss, ss)); }
      assert p1[a..bs][k - a] == y;
      assert pm[k] == pm[a..bs][k - a];
      assert l[k - a] == y;
    }
    forall i | 0 <= i < |l| && b[Prev(|b|, l[i])] == ss ensures Prev(|b|, l[i]) in l {
      PredsHas(b, l, ss, i);
      var q := Prev(|b|, l[i]);
      var m :| 0 <= m < |Preds(b, l, ss)| && Preds(b, l, ss)[m] == q;
      assert pm[bs..cs[ss]][m] == q;
      assert l[bs + m - a] == q;
    }
    LowComplete(b, l, ss, x, |b|);
  }

  lemma AllHigh(b: seq<byte>, ss: byte, done: seq<bool>, p1: seq<int>, pm: seq<int>, p: seq<int>, cs: seq<int>,
    ce: seq<int>, x: int)
    requires Met(b, ss, done, p1, pm, p, cs, ce) && High(b, x, ss)
    ensures x in HighList(b, ss, p, ce)
  {
    hide S, RotLe, Bucketed, SmallSorted, Preds, Against, DownWritten;
    var be, e := BEnd(b, ss, ss), RowEnd(b, ss);
    var h := HighList(b, ss, p, ce);
    RowIsPositions(b, h, ss);
    assert DownBucket(b, ss, p, cs, ce, ce[ss], ss);
    forall y | 0 <= y < |b| && b[y] == ss && b[Next(|b|, y)] > ss ensures y in h {
      var k := PlaceOf(p1, b, y);
      PairsBelow(b, y);
      var c := Pairs(b)[y];
      if Pair(ss, ss) + 1 < c { SOrder(b, Pair(ss, ss) + 1, c); }
      if c + 1 < Pair(ss, 256) { SOrder(b, c + 1, Pair(ss, 256)); }
      RowPlace(p1, b, ss, k);
      assert pm[k] == p1[k];
      assert pm[be..e][k - be] == y;
      assert p[k] == p[be..e][k - be];
      assert h[k - (ce[ss] + 1)] == y;
    }
    forall i | 0 <= i < |h| && b[Prev(|b|, h[i])] == ss ensures Prev(|b|, h[i]) in h {
      PredsHas(b, h, ss, i);
      var q := Prev(|b|, h[i]);
      var m :| 0 <= m < |Preds(b, h, ss)| && Preds(b, h, ss)[m] == q;
      assert p[ce[ss] + 1..be][m] == q;
      assert h[m] == q;
    }
    HighComplete(b, h, ss, x, |b|);
  }

  // ---------------------------------------------------------------- the buckets are full

  /** The downward scan leaves what the upward scan found. */
  lemma LowStays(b: seq<byte>, ss: byte, done: seq<bool>, p1: seq<int>, pm: seq<int>, p: seq<int>, cs: seq<int>,
    ce: seq<int>, t: byte)
    requires Met(b, ss, done, p1, pm, p, cs, ce) && !done[t]
    ensures 0 <= RowStart(b, ss) <= cs[ss] <= |b| && p[RowStart(b, ss)..cs[ss]] == pm[RowStart(b, ss)..cs[ss]]
    ensures 0 <= BStart(b, t, ss) <= cs[t] <= |b| && p[BStart(b, t, ss)..cs[t]] == pm[BStart(b, t, ss)..cs[t]]
  {
    hide S, RotLe, Bucketed, SmallSorted, Preds, Row, UpWritten, BStart, BEnd, RowStart, RowEnd;
    assert UpBucket(b, ss, pm, cs, cs[ss], t);
    forall k | 0 <= k < |b| && (RowStart(b, ss) <= k < cs[ss] || BStart(b, t, ss) <= k < cs[t]) ensures p[k] == pm[k] {
      if p[k] != pm[k] {
        var u: byte :| InBucketAbove(b, ss, done, ce, k, u);
        assert DownBucket(b, ss, p, cs, ce, ce[ss], u) && UpBucket(b, ss, pm, cs, cs[ss], u);
        Layout(b, u, ss);
        Layout(b, ss, ss);
        if u != t { Separate(b, t, u, ss); }
        if u != ss { Separate(b, ss, u, ss); }
      }
    }
    assert forall k :: RowStart(b, ss) <= k < cs[ss] ==> p[k] == pm[k];
  }

  /** A bucket that is not yet done holds the predecessors of the whole row, in order. */
  ghost predicate Filled(b: seq<byte>, ss: byte, p: seq<int>, t: byte) {
    && |p| == |b| && 0 <= BStart(b, t, ss) <= BEnd(b, t, ss) <= |b|
    && Row(b, p[BStart(b, t, ss)..BEnd(b, t, ss)], t)
    && forall k :: BStart(b, t, ss) <= k < BEnd(b, t, ss) ==>
      0 <= p[k] < |b| && b[p[k]] == t && b[Next(|b|, p[k])] == ss
  }

  /** Lists that together hold every rotation of a bucket are long enough to fill it. */
  lemma Enough(b: seq<byte>, p1: seq<int>, ss: byte, t: byte, r: seq<int>)
    requires |p1| == |b| && Bucketed(p1, Pairs(b)) && 0 <= BStart(b, t, ss) <= BEnd(b, t, ss) <= |b|
    requires forall x :: 0 <= x < |b| && b[x] == t && b[Next(|b|, x)] == ss ==> x in r
    ensures |r| >= BEnd(b, t, ss) - BStart(b, t, ss)
  {
    hide S, Bucketed;
    var s := p1[BStart(b, t, ss)..BEnd(b, t, ss)];
    forall i | 0 <= i < |s| ensures s[i] in r {
      var k := BStart(b, t, ss) + i;
      KeyIs(p1, b, k, Pair(t, ss));
      PairsBelow(b, p1[k]);
      assert s[i] == p1[k];
    }
    forall i, j | 0 <= i < j < |s| ensures s[i] != s[j] {
      ListedOnce(p1, b, BStart(b, t, ss) + i, BStart(b, t, ss) + j);
    }
    NoMoreThan(s, r);
  }

  lemma {:induction false} NoMoreThan(s: seq<int>, r: seq<int>)
    requires (forall i :: 0 <= i < |s| ==> s[i] in r) && forall i, j :: 0 <= i < j < |s| ==> s[i] != s[j]
    ensures |s| <= |r|
  {
    ElementsDistinct(s);
    assert Elements(s) <= Elements(r);
    SubsetSize(Elements(s), Elements(r));
    ElementsFew(r);
  }

  lemma {:induction false} ElementsFew(r: seq<int>)
    ensures |Elements(r)| <= |r|
  {
    if r != [] {
      var t := r[..|r| - 1];
      ElementsFew(t);
      assert Elements(r) == Elements(t) + {r[|r| - 1]};
    }
  }

  /** Unless the block is all `ss`, the two scans meet in every bucket and fill it. */
  lemma FillBucket(b: seq<byte>, ss: byte, done: seq<bool>, p1: seq<int>, pm: seq<int>, p: seq<int>, cs: seq<int>,
    ce: seq<int>, t: byte)
    requires Met(b, ss, done, p1, pm, p, cs, ce) && !done[t]
    requires forall x :: 0 <= x < |b| && b[x] == ss ==> Against(b, x, ss, |b|) != 0
    ensures cs[t] == ce[t] + 1 && Filled(b, ss, p, t)
  {
    hide S, RotLe, Bucketed, SmallSorted, Preds, Row, UpWritten, DownWritten, Against, BStart, BEnd, RowStart, RowEnd;
    LowStays(b, ss, done, p1, pm, p, cs, ce, t);
    assert DownBucket(b, ss, p, cs, ce, ce[ss], t) && UpBucket(b, ss, pm, cs, cs[ss], t);
    var l, h := LowList(b, ss, pm, cs), HighList(b, ss, p, ce);
    LowHighDistinct(b, l, h, ss);
    RowIsPositions(b, l + h, ss);
    RowIsPositions(b, l, ss);
    RowIsPositions(b, h, ss);
    PredsConcat(b, l, h, t);
    var r := Preds(b, l + h, t);
    forall x | 0 <= x < |b| && b[x] == t && b[Next(|b|, x)] == ss ensures x in r {
      var y := Next(|b|, x);
      if Low(b, y, ss) { AllLow(b, ss, done, p1, pm, cs, y); } else { AllHigh(b, ss, done, p1, pm, p, cs, ce, y); }
      assert y in l || y in h;
      assert y in l + h;
      var i :| 0 <= i < |l + h| && (l + h)[i] == y;
      assert Prev(|b|, y) == x;
      PredsHas(b, l + h, t, i);
    }
    Layout(b, t, ss);
    Enough(b, p1, ss, t, r);
    var bs, be := BStart(b, t, ss), BEnd(b, t, ss);
    assert |p[bs..cs[t]]| == cs[t] - bs && |p[ce[t] + 1..be]| == be - (ce[t] + 1);
    assert p[bs..be] == p[bs..cs[t]] + p[cs[t]..be];
    PredsRow(b, l + h, ss, t);
    FilledBy(b, ss, p, t, r);
  }

  lemma FilledBy(b: seq<byte>, ss: byte, p: seq<int>, t: byte, r: seq<int>)
    requires |p| == |b| && 0 <= BStart(b, t, ss) <= BEnd(b, t, ss) <= |b| && p[BStart(b, t, ss)..BEnd(b, t, ss)] == r
    requires Row(b, r, t) && forall k :: 0 <= k < |r| ==> 0 <= r[k] < |b| && b[Next(|b|, r[k])] == ss
    ensures Filled(b, ss, p, t)
  {
    hide S, RotLe, BStart, BEnd;
    forall k | BStart(b, t, ss) <= k < BEnd(b, t, ss)
      ensures 0 <= p[k] < |b| && b[p[k]] == t && b[Next(|b|, p[k])] == ss {
      assert p[k] == r[k - BStart(b, t, ss)];
    }
  }

  // ---------------------------------------------------------------- the outcome

  /** Which places the scans may have changed. */
  ghost predicate OnlyColumn(b: seq<byte>, ss: byte, done: seq<bool>, p1: seq<int>, p: seq<int>) {
    && |p| == |p1| == |b| && |done| == 256
    && forall k :: 0 <= k < |b| && p[k] != p1[k] ==> 0 <= p1[k] < |b| && b[Next(|b|, p1[k])] == ss && !done[b[p1[k]]]
  }

  /** Step 2 is complete: the listing is still bucketed, and the column of `ss` is in order. */
  ghost predicate Synthesised(b: seq<byte>, ss: byte, done: seq<bool>, p1: seq<int>, p: seq<int>) {
    && Bucketed(p, Pairs(b)) && OnlyColumn(b, ss, done, p1, p)
    && forall t: byte :: !done[t] ==> SmallSorted(p, b, Pair(t, ss))
  }

  /** Assertion 1007. */
  predicate ScansMeet(copyStart: int, copyEnd: int, n: nat) {
    copyStart - 1 == copyEnd || (copyStart == 0 && copyEnd == n - 1)
  }

  lemma ColumnOnly(b: seq<byte>, ss: byte, done: seq<bool>, p1: seq<int>, pm: seq<int>, p: seq<int>, cs: seq<int>,
    ce: seq<int>)
    requires Met(b, ss, done, p1, pm, p, cs, ce)
    ensures OnlyColumn(b, ss, done, p1, p)
  {
    hide S, RotLe, SmallSorted, Preds, Row, BStart, BEnd, RowStart, RowEnd, Bucketed;
    forall k | 0 <= k < |b| && p[k] != p1[k] ensures 0 <= p1[k] < |b| && b[Next(|b|, p1[k])] == ss && !done[b[p1[k]]] {
      if pm[k] == p1[k] {
        var u: byte :| InBucketAbove(b, ss, done, ce, k, u);
        assert DownBucket(b, ss, p, cs, ce, ce[ss], u) && UpBucket(b, ss, pm, cs, cs[ss], u);
        assert BStart(b, u, ss) <= k < BEnd(b, u, ss);
        InColumn(p1, b, k, u, ss);
      }
    }
  }

  lemma InColumn(p1: seq<int>, b: seq<byte>, k: int, u: byte, ss: byte)
    requires |p1| == |b| && Bucketed(p1, Pairs(b)) && 0 <= k < |b| && BStart(b, u, ss) <= k < BEnd(b, u, ss)
    ensures 0 <= p1[k] < |b| && b[p1[k]] == u && b[Next(|b|, p1[k])] == ss
  {
    hide S, Bucketed;
    KeyIs(p1, b, k, Pair(u, ss));
    PairsBelow(b, p1[k]);
  }

  /** Where an unchanged or refilled place belongs does not change. */
  lemma SamePair(b: seq<byte>, ss: byte, done: seq<bool>, p1: seq<int>, p: seq<int>, k: int)
    requires |p1| == |b| && Bucketed(p1, Pairs(b)) && OnlyColumn(b, ss, done, p1, p) && 0 <= k < |b|
    requires forall t: byte :: !done[t] ==> Filled(b, ss, p, t)
    ensures 0 <= p[k] < |b| && 0 <= p1[k] < |b| && Pairs(b)[p[k]] == Pairs(b)[p1[k]]
  {
    hide S, Row, Bucketed;
    KeyOfPlace(p1, b, k);
    if p[k] != p1[k] {
      var t := b[p1[k]];
      assert Pairs(b)[p1[k]] == Pair(t, ss);
      assert Filled(b, ss, p, t);
    }
  }

  lemma Rebucketed(b: seq<byte>, ss: byte, done: seq<bool>, p1: seq<int>, p: seq<int>)
    requires |p1| == |b| && Bucketed(p1, Pairs(b)) && OnlyColumn(b, ss, done, p1, p)
    requires forall t: byte :: !done[t] ==> Filled(b, ss, p, t)
    ensures Bucketed(p, Pairs(b))
  {
    hide S, Filled, Bucketed;
    forall k | 0 <= k < |b| ensures 0 <= p[k] < |b| && InBucket(Pairs(b), p[k], k) {
      SamePair(b, ss, done, p1, p, k);
      KeyOfPlace(p1, b, k);
      PlaceIn(b, p[k], k);
    }
    forall q, r | 0 <= q < r < |b| ensures p[q] != p[r] {
      SamePair(b, ss, done, p1, p, q);
      SamePair(b, ss, done, p1, p, r);
      if p[q] == p[r] { TwicePlaced(b, ss, done, p1, p, q, r); }
    }
    MakeBucketed(p, Pairs(b));
  }

  lemma PlaceIn(b: seq<byte>, x: int, k: int)
    requires 0 <= x < |b| && S(b, Pairs(b)[x]) <= k < S(b, Pairs(b)[x] + 1)
    ensures InBucket(Pairs(b), x, k)
  {
  }

  lemma MakeBucketed(p: seq<int>, s: seq<nat>)
    requires |p| == |s| && (forall k :: 0 <= k < |s| ==> InBucket(s, p[k], k)) && forall q, r :: 0 <= q < r < |s| ==>
      p[q] != p[r]
    ensures Bucketed(p, s)
  {
    forall k | 0 <= k < |s| ensures 0 <= p[k] < |s| { assert InBucket(s, p[k], k); }
  }

  lemma TwicePlaced(b: seq<byte>, ss: byte, done: seq<bool>, p1: seq<int>, p: seq<int>, q: int, r: int)
    requires |p1| == |b| && Bucketed(p1, Pairs(b)) && OnlyColumn(b, ss, done, p1, p) && 0 <= q < r < |b|
    requires forall t: byte :: !done[t] ==> Filled(b, ss, p, t)
    requires 0 <= p[q] < |b| && 0 <= p1[q] < |b| && Pairs(b)[p[q]] == Pairs(b)[p1[q]]
    requires 0 <= p[r] < |b| && 0 <= p1[r] < |b| && Pairs(b)[p[r]] == Pairs(b)[p1[r]]
    ensures p[q] != p[r]
  {
    hide S, Bucketed, RotLe, Filled;
    ListedOnce(p1, b, q, r);
    KeyOfPlace(p1, b, q);
    KeyOfPlace(p1, b, r);
    if Pairs(b)[p1[q]] == Pairs(b)[p1[r]] {
      var t := b[p1[q]];
      PairsBelow(b, p1[q]);
      PairsBelow(b, p1[r]);
      if !done[t] && b[Next(|b|, p1[q])] == ss {
        PairStart(b, p1[q], ss);
        FilledPair(b, ss, p, t, q, r);
      }
    }
  }

  lemma FilledPair(b: seq<byte>, ss: byte, p: seq<int>, t: byte, q: int, r: int)
    requires Filled(b, ss, p, t) && BStart(b, t, ss) <= q < r < BEnd(b, t, ss)
    ensures 0 <= q < r < |p| == |b| && 0 <= p[q] < |b| && 0 <= p[r] < |b|
    ensures p[q] != p[r] && RotLe(b, p[q], p[r])
  {
    hide RotLe, BStart, BEnd;
    var a := BStart(b, t, ss);
    var s := p[a..BEnd(b, t, ss)];
    assert s[q - a] == p[q] && s[r - a] == p[r];
  }

  lemma FilledSorted(b: seq<byte>, ss: byte, p: seq<int>, t: byte)
    requires Filled(b, ss, p, t)
    ensures SmallSorted(p, b, Pair(t, ss))
  {
    hide RotLe, Filled;
    assert |p| == |b| by { FilledSize(b, ss, p, t); }
    forall q, r | S(b, Pair(t, ss)) <= q < r < S(b, Pair(t, ss) + 1) && r < |b|
      ensures PairSorted(p, b, q, r)
    {
      FilledPair(b, ss, p, t, q, r);
    }
  }

  lemma FilledSize(b: seq<byte>, ss: byte, p: seq<int>, t: byte)
    requires Filled(b, ss, p, t)
    ensures |p| == |b|
  {
  }

  /** The scans have done their work, whatever the block. */
  lemma Finish(b: seq<byte>, ss: byte, done: seq<bool>, p1: seq<int>, pm: seq<int>, p: seq<int>, cs: seq<int>,
    ce: seq<int>)
    requires Met(b, ss, done, p1, pm, p, cs, ce)
    ensures Synthesised(b, ss, done, p1, p)
    ensures ScansMeet(cs[ss], ce[ss], |b|)
  {
    hide S, RotLe, SmallSorted, Preds, Row, BStart, BEnd, RowStart, RowEnd, Bucketed, Against, Up, Down;
    ColumnOnly(b, ss, done, p1, pm, p, cs, ce);
    if x :| 0 <= x < |b| && b[x] == ss && Against(b, x, ss, |b|) == 0 {
      OneSymbol(b, x, ss);
      AllOneSymbol(b, ss, done, p1, pm, p, cs, ce);
    } else {
      forall t: byte | !done[t]
        ensures cs[t] == ce[t] + 1 && Filled(b, ss, p, t) { FillBucket(b, ss, done, p1, pm, p, cs, ce, t); }
      Rebucketed(b, ss, done, p1, p);
      forall t: byte | !done[t] ensures SmallSorted(p, b, Pair(t, ss)) { FilledSorted(b, ss, p, t); }
    }
  }

  /** The block that is all `ss`: nothing is scanned, and nothing needs to be. */
  lemma AllOneSymbol(b: seq<byte>, ss: byte, done: seq<bool>, p1: seq<int>, pm: seq<int>, p: seq<int>, cs: seq<int>,
    ce: seq<int>)
    requires Met(b, ss, done, p1, pm, p, cs, ce) && forall i :: 0 <= i < |b| ==> b[i] == ss
    ensures Synthesised(b, ss, done, p1, p)
    ensures cs[ss] == 0 && ce[ss] == |b| - 1
  {
    hide S, SmallSorted, Preds, BStart, BEnd, RowStart, RowEnd, Bucketed, UpWritten, DownWritten;
    var n := |b|;
    forall i | 0 <= i < n ensures Against(b, i, ss, n) == 0 { NoneDiffers(b, i, ss, n); }
    NoneLow(b, LowList(b, ss, pm, cs), ss);
    NoneHigh(b, HighList(b, ss, p, ce), ss);
    WholeBlock(b, ss, p1);
    assert p == p1 by { NothingWritten(b, ss, done, p1, pm, p, cs, ce); }
    forall t: byte | !done[t] ensures SmallSorted(p, b, Pair(t, ss)) { EqualSorted(b, ss, p, Pair(t, ss)); }
  }

  lemma NoneLow(b: seq<byte>, l: seq<int>, ss: byte)
    requires LowRow(b, l, ss) && forall i :: 0 <= i < |b| ==> Against(b, i, ss, |b|) == 0
    ensures l == []
  {
    assert |l| > 0 ==> Low(b, l[0], ss);
  }

  lemma NoneHigh(b: seq<byte>, h: seq<int>, ss: byte)
    requires HighRow(b, h, ss) && forall i :: 0 <= i < |b| ==> Against(b, i, ss, |b|) == 0
    ensures h == []
  {
    assert |h| > 0 ==> High(b, h[0], ss);
  }

  lemma {:induction false} NoneDiffers(b: seq<byte>, i: int, ss: byte, m: nat)
    requires 0 <= i < |b| && forall k :: 0 <= k < |b| ==> b[k] == ss
    ensures Against(b, i, ss, m) == 0
    decreases m
  {
    if m > 0 { NoneDiffers(b, Next(|b|, i), ss, m - 1); }
  }

  /** The one small bucket is the whole listing. */
  lemma WholeBlock(b: seq<byte>, ss: byte, p1: seq<int>)
    requires |p1| == |b| >= 2 && Bucketed(p1, Pairs(b)) && forall i :: 0 <= i < |b| ==> b[i] == ss
    ensures RowStart(b, ss) == BStart(b, ss, ss) == 0 && RowEnd(b, ss) == BEnd(b, ss, ss) == |b|
  {
    hide S, Bucketed;
    KeyOfPlace(p1, b, 0);
    KeyOfPlace(p1, b, |b| - 1);
    Layout(b, ss, ss);
  }

  lemma NothingWritten(b: seq<byte>, ss: byte, done: seq<bool>, p1: seq<int>, pm: seq<int>, p: seq<int>,
    cs: seq<int>, ce: seq<int>)
    requires Met(b, ss, done, p1, pm, p, cs, ce)
    requires LowList(b, ss, pm, cs) == [] && HighList(b, ss, p, ce) == []
    ensures p == p1
  {
    hide S, RotLe, SmallSorted, Row, BStart, BEnd, RowStart, RowEnd, Bucketed;
    forall t: byte | !done[t] ensures cs[t] == BStart(b, t, ss) && ce[t] + 1 == BEnd(b, t, ss) {
      assert UpBucket(b, ss, pm, cs, cs[ss], t) && DownBucket(b, ss, p, cs, ce, ce[ss], t);
      PredsNil(b, t);
      assert |pm[BStart(b, t, ss)..cs[t]]| == cs[t] - BStart(b, t, ss);
      assert |p[ce[t] + 1..BEnd(b, t, ss)]| == BEnd(b, t, ss) - (ce[t] + 1);
    }
    forall k | 0 <= k < |b| ensures p[k] == pm[k] == p1[k] {
      KeyOfPlace(p1, b, k);
      PairStart(b, p1[k], ss);
    }
  }

  lemma PairStart(b: seq<byte>, x: int, ss: byte)
    requires 0 <= x < |b|
    ensures b[Next(|b|, x)] == ss ==>
      BStart(b, b[x], ss) == S(b, Pairs(b)[x]) && BEnd(b, b[x], ss) == S(b, Pairs(b)[x] + 1)
  {
  }

  lemma EqualSorted(b: seq<byte>, ss: byte, p: seq<int>, c: nat)
    requires |p| == |b| && Bucketed(p, Pairs(b)) && forall i :: 0 <= i < |b| ==> b[i] == ss
    ensures SmallSorted(p, b, c)
  {
    hide Bucketed;
    forall q, r | S(b, c) <= q < r < S(b, c + 1) && r < |b|
      ensures PairSorted(p, b, q, r)
    {
      KeyOfPlace(p, b, q);
      KeyOfPlace(p, b, r);
      SameEverywhere(b, ss, p[q], p[r], |b|);
    }
  }

  lemma {:induction false} SameEverywhere(b: seq<byte>, ss: byte, x: int, y: int, m: nat)
    requires 0 <= x < |b| && 0 <= y < |b| && forall i :: 0 <= i < |b| ==> b[i] == ss
    ensures Cmp(b, x, y, m) == 0
    decreases m
  {
    if m > 0 { SameEverywhere(b, ss, Next(|b|, x), Next(|b|, y), m - 1); }
  }
}

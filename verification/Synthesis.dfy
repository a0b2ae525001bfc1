/**
 Pointer-scan synthesis: from the sorted small buckets [ss,j], j != ss, the order of
 every small bucket [t,ss] not yet done, and of [ss,ss] itself, is read off.
 */
module Synthesis {
  import opened Rotations
  import opened Permutations
  import opened Counting
  import opened Radix
  import opened MainRadix
  import opened Predecessors

  /** The first place of small bucket `c`. */
  ghost function S(b: seq<byte>, c: nat): nat {
    CountBelow(Pairs(b), c)
  }

  lemma SOrder(b: seq<byte>, c: nat, d: nat)
    requires c < d
    ensures S(b, c) <= S(b, c + 1) <= S(b, d) <= |b| && S(b, c + 1) == S(b, c) + Count(Pairs(b), c)
  {
    CountBelowMono(Pairs(b), c, c + 1);
    CountBelowMono(Pairs(b), c + 1, d);
    CountBelowAtMost(Pairs(b), d);
  }

  ghost predicate PairSorted(p: seq<int>, b: seq<byte>, q: int, r: int) {
    0 <= q < |p| && 0 <= r < |p| && 0 <= p[q] < |b| && 0 <= p[r] < |b| && RotLe(b, p[q], p[r])
  }

  /** The rotations of small bucket `c` are in order. */
  ghost predicate SmallSorted(p: seq<int>, b: seq<byte>, c: nat) {
    && |p| == |b|
    && forall q, r :: S(b, c) <= q < r < S(b, c + 1) && r < |b| ==> PairSorted(p, b, q, r)
  }

  /** Places of bucket `c` hold rotations with the pair `c`. */
  lemma KeyOfPlace(p: seq<int>, b: seq<byte>, k: int)
    requires Bucketed(p, Pairs(b)) && 0 <= k < |b|
    ensures |p| == |b| && 0 <= p[k] < |b| && S(b, Pairs(b)[p[k]]) <= k < S(b, Pairs(b)[p[k]] + 1)
  {
    assert InBucket(Pairs(b), p[k], k);
  }

  lemma KeyIs(p: seq<int>, b: seq<byte>, k: int, c: nat)
    requires Bucketed(p, Pairs(b)) && 0 <= k < |b| && S(b, c) <= k < S(b, c + 1)
    ensures |p| == |b| && 0 <= p[k] < |b| && Pairs(b)[p[k]] == c
  {
    hide S, Bucketed;
    KeyOfPlace(p, b, k);
    var c' := Pairs(b)[p[k]];
    if c' < c { SOrder(b, c', c); }
    if c < c' { SOrder(b, c, c'); }
  }

  /** A rotation is listed in its own bucket. */
  lemma PlaceOf(p: seq<int>, b: seq<byte>, x: int) returns (k: int)
    requires Bucketed(p, Pairs(b)) && 0 <= x < |b|
    ensures |p| == |b| && 0 <= k < |b| && p[k] == x && S(b, Pairs(b)[x]) <= k < S(b, Pairs(b)[x] + 1)
  {
    k := IndexOf(p, |b|, x);
    KeyOfPlace(p, b, k);
  }

  lemma PairLess(b: seq<byte>, x: int, y: int)
    requires 0 <= x < |b| && 0 <= y < |b| && |b| >= 2 && Pairs(b)[x] < Pairs(b)[y]
    ensures RotLe(b, x, y)
  {
    PairsBelow(b, x);
    PairsBelow(b, y);
    CmpEarly(b, x, y, 2, |b|);
    var x', y' := Next(|b|, x), Next(|b|, y);
    assert b[x'] < b[y'] ==> Cmp(b, x', y', 1) < 0;
  }

  /** A stretch of the listing whose small buckets are all sorted. */
  lemma StretchSorted(p: seq<int>, b: seq<byte>, ss: byte, lo: int, hi: int)
    requires Bucketed(p, Pairs(b)) && |p| == |b| >= 2 && 0 <= lo <= hi <= |b|
    requires forall k :: lo <= k < hi ==> 0 <= p[k] < |b| && b[p[k]] == ss && SmallSorted(p, b, Pairs(b)[p[k]])
    ensures Row(b, p[lo..hi], ss)
  {
    hide Bucketed, S, RotLe;
    var s := p[lo..hi];
    forall i | 0 <= i < |s| ensures 0 <= s[i] < |b| && b[s[i]] == ss { assert s[i] == p[lo + i]; }
    forall i, l | 0 <= i < l < |s| ensures s[i] != s[l] && RotLe(b, s[i], s[l]) {
      var q, r := lo + i, lo + l;
      assert s[i] == p[q] && s[l] == p[r];
      ListedOnce(p, b, q, r);
      KeyOfPlace(p, b, q);
      KeyOfPlace(p, b, r);
      var c, d := Pairs(b)[p[q]], Pairs(b)[p[r]];
      if c == d { assert PairSorted(p, b, q, r); }
      if c < d { PairLess(b, p[q], p[r]); }
      if d < c { SOrder(b, d, c); }
    }
  }

  lemma ListedOnce(p: seq<int>, b: seq<byte>, q: int, r: int)
    requires Bucketed(p, Pairs(b)) && 0 <= q < r < |b|
    ensures |p| == |b| && p[q] != p[r]
  {
  }

  ghost predicate LowRow(b: seq<byte>, s: seq<int>, ss: byte) {
    Row(b, s, ss) && forall k :: 0 <= k < |s| ==> Low(b, s[k], ss)
  }

  ghost predicate HighRow(b: seq<byte>, s: seq<int>, ss: byte) {
    Row(b, s, ss) && forall k :: 0 <= k < |s| ==> High(b, s[k], ss)
  }

  /** The rotations `ss c` in the list have `c` before `ss`. */
  ghost predicate SecondBelow(b: seq<byte>, s: seq<int>, ss: byte) {
    Positions(b, s) && forall k :: 0 <= k < |s| ==> b[Next(|b|, s[k])] < ss
  }

  ghost predicate SecondAbove(b: seq<byte>, s: seq<int>, ss: byte) {
    Positions(b, s) && forall k :: 0 <= k < |s| ==> b[Next(|b|, s[k])] > ss
  }

  lemma SecondLess(b: seq<byte>, x: int, y: int)
    requires 0 <= x < |b| && 0 <= y < |b| && |b| >= 2 && b[x] == b[y] && b[Next(|b|, x)] < b[Next(|b|, y)]
    ensures RotLe(b, x, y) && x != y
  {
    PairLess(b, x, y);
  }

  /** Extending the row at its upper end by the predecessors found so far. */
  lemma GrowLow(b: seq<byte>, s0: seq<int>, src: seq<int>, ss: byte)
    requires |b| >= 2 && LowRow(b, s0, ss) && SecondBelow(b, s0, ss) && LowRow(b, src, ss)
    ensures LowRow(b, s0 + Preds(b, src, ss), ss)
  {
    hide Preds, RotLe, Low;
    var r := Preds(b, src, ss);
    var all := s0 + r;
    PredsRow(b, src, ss, ss);
    forall k, l | 0 <= k < l < |all| ensures all[k] != all[l] && RotLe(b, all[k], all[l]) {
      if l < |s0| {
      } else if k >= |s0| {
        assert all[k] == r[k - |s0|] && all[l] == r[l - |s0|];
      } else {
        assert all[l] == r[l - |s0|];
        SecondLess(b, all[k], all[l]);
      }
    }
    forall k | 0 <= k < |r| ensures Low(b, r[k], ss) {
      var i := PredsFrom(b, src, ss, k);
      SecondDecides(b, r[k], ss);
    }
    forall k | 0 <= k < |all| ensures Low(b, all[k], ss) && b[all[k]] == ss && 0 <= all[k] < |b| {
      if k >= |s0| { assert all[k] == r[k - |s0|]; }
    }
  }

  lemma GrowHigh(b: seq<byte>, s0: seq<int>, src: seq<int>, ss: byte)
    requires |b| >= 2 && HighRow(b, s0, ss) && SecondAbove(b, s0, ss) && HighRow(b, src, ss)
    ensures HighRow(b, Preds(b, src, ss) + s0, ss)
  {
    hide Preds, RotLe, High;
    var r := Preds(b, src, ss);
    var all := r + s0;
    PredsRow(b, src, ss, ss);
    forall k, l | 0 <= k < l < |all| ensures all[k] != all[l] && RotLe(b, all[k], all[l]) {
      if l < |r| {
        assert all[k] == r[k] && all[l] == r[l];
      } else if k >= |r| {
        assert all[k] == s0[k - |r|] && all[l] == s0[l - |r|];
      } else {
        assert all[l] == s0[l - |r|];
        SecondLess(b, all[k], all[l]);
      }
    }
    forall k | 0 <= k < |r| ensures High(b, r[k], ss) {
      var i := PredsFrom(b, src, ss, k);
      SecondDecides(b, r[k], ss);
    }
    forall k | 0 <= k < |all| ensures High(b, all[k], ss) && b[all[k]] == ss && 0 <= all[k] < |b| {
      if k >= |r| { assert all[k] == s0[k - |r|]; }
    }
  }

  // ---------------------------------------------------------------- the upward scan

  /** Where the small bucket [t,ss] lies. */
  ghost function BStart(b: seq<byte>, t: byte, ss: byte): nat {
    S(b, Pair(t, ss))
  }

  ghost function BEnd(b: seq<byte>, t: byte, ss: byte): nat {
    S(b, Pair(t, ss) + 1)
  }

  /** Where the big bucket [ss] lies. */
  ghost function RowStart(b: seq<byte>, ss: byte): nat {
    S(b, Pair(ss, 0))
  }

  ghost function RowEnd(b: seq<byte>, ss: byte): nat {
    S(b, Pair(ss, 256))
  }

  lemma Layout(b: seq<byte>, t: byte, ss: byte)
    ensures BStart(b, t, ss) <= BEnd(b, t, ss) <= |b|
      && BEnd(b, t, ss) - BStart(b, t, ss) == Count(Pairs(b), Pair(t, ss))
    ensures t == ss ==> RowStart(b, ss) <= BStart(b, t, ss) && BEnd(b, t, ss) <= RowEnd(b, ss) <= |b|
    ensures t < ss ==> BEnd(b, t, ss) <= RowStart(b, ss)
    ensures t > ss ==> RowEnd(b, ss) <= BStart(b, t, ss)
    ensures RowStart(b, ss) <= RowEnd(b, ss) <= |b|
  {
    hide S, Count, CountBelow;
    SOrder(b, Pair(t, ss), Pair(t, ss) + 1);
    SOrder(b, Pair(ss, 0), Pair(ss, 256));
    if t == ss {
      if ss > 0 { SOrder(b, Pair(ss, 0), Pair(ss, ss)); }
      if ss < 255 { SOrder(b, Pair(ss, ss) + 1, Pair(ss, 256)); }
    } else if t < ss {
      if Pair(t, ss) + 1 < Pair(ss, 0) { SOrder(b, Pair(t, ss) + 1, Pair(ss, 0)); }
    } else {
      if Pair(ss, 256) < Pair(t, ss) { SOrder(b, Pair(ss, 256), Pair(t, ss)); }
    }
  }

  lemma BucketsApart(b: seq<byte>, t: byte, u: byte, ss: byte)
    requires t < u
    ensures BEnd(b, t, ss) <= BStart(b, u, ss)
  {
    hide S;
    if Pair(t, ss) + 1 < Pair(u, ss) { SOrder(b, Pair(t, ss) + 1, Pair(u, ss)); }
  }

  /** What the upward scan has done when it stands at `j`: bucket [t,ss] is filled from its
      start with the predecessors of what has been passed. */
  ghost predicate Up(b: seq<byte>, ss: byte, done: seq<bool>, p1: seq<int>, p: seq<int>, cs: seq<int>, j: int) {
    && |p| == |p1| == |b| >= 2 && |cs| == |done| == 256 && !done[ss]
    && RowStart(b, ss) <= BStart(b, ss, ss) <= |b|
    && RowStart(b, ss) <= j <= cs[ss] <= BEnd(b, ss, ss) <= |b|
    && LowRow(b, p[RowStart(b, ss)..cs[ss]], ss)
    && p[RowStart(b, ss)..BStart(b, ss, ss)] == p1[RowStart(b, ss)..BStart(b, ss, ss)]
    && Positions(b, p[RowStart(b, ss)..j])
    && (forall t: byte :: !done[t] ==> UpBucket(b, ss, p, cs, j, t))
    && (forall k :: 0 <= k < |b| && p[k] != p1[k] ==> UpWritten(b, ss, done, p1, cs, k))
  }

  ghost predicate UpBucket(b: seq<byte>, ss: byte, p: seq<int>, cs: seq<int>, j: int, t: byte)
    requires |p| == |b| && |cs| == 256 && RowStart(b, ss) <= j <= |b| && Positions(b, p[RowStart(b, ss)..j])
  {
    && BStart(b, t, ss) <= cs[t] <= BEnd(b, t, ss) <= |b|
    && p[BStart(b, t, ss)..cs[t]] == Preds(b, p[RowStart(b, ss)..j], t)
  }

  ghost predicate UpWritten(b: seq<byte>, ss: byte, done: seq<bool>, p1: seq<int>, cs: seq<int>, k: int)
    requires |p1| == |b| && |cs| == |done| == 256 && 0 <= k < |b|
  {
    0 <= p1[k] < |b| && b[Next(|b|, p1[k])] == ss && !done[b[p1[k]]] && k < cs[b[p1[k]]]
  }

  lemma Longer(s: seq<int>, a: int, j: int)
    requires 0 <= a <= j < |s|
    ensures s[a..j + 1] == s[a..j] + [s[j]]
  {
  }

  /** What the scan has passed is part of the row. */
  lemma Passed(b: seq<byte>, s: seq<int>, ss: byte, m: nat)
    requires LowRow(b, s, ss) && m <= |s|
    ensures LowRow(b, s[..m], ss)
  {
  }

  lemma HighPassed(b: seq<byte>, s: seq<int>, ss: byte, m: nat)
    requires HighRow(b, s, ss) && m <= |s|
    ensures HighRow(b, s[m..], ss)
  {
  }

  lemma RowIsPositions(b: seq<byte>, s: seq<int>, ss: byte)
    requires Row(b, s, ss)
    ensures Positions(b, s) && forall k :: 0 <= k < |s| ==> b[s[k]] == ss
    ensures forall k, l :: 0 <= k < l < |s| ==> s[k] != s[l]
  {
  }

  /** There is room in the bucket for one more predecessor. */
  lemma UpRoom(b: seq<byte>, ss: byte, done: seq<bool>, p1: seq<int>, p: seq<int>, cs: seq<int>, j: int)
    returns (x: int, k: int, t: byte)
    requires Up(b, ss, done, p1, p, cs, j) && j < cs[ss]
    ensures j < |p| && 0 <= p[j] < |b| && x == p[j] && k == Prev(|b|, x) && t == b[k]
    ensures LowRow(b, p[RowStart(b, ss)..j + 1], ss) && RowStart(b, ss) <= j
    ensures !done[t] ==> 0 <= cs[t] < BEnd(b, t, ss) <= |p|
  {
    hide Preds, S, RotLe, Low, Count, Row, UpWritten;
    var a := RowStart(b, ss);
    x := p[j];
    var row := p[a..cs[ss]];
    Passed(b, row, ss, j + 1 - a);
    assert row[..j + 1 - a] == p[a..j + 1];
    var src := p[a..j + 1];
    RowIsPositions(b, src, ss);
    assert src[j - a] == x;
    k := Prev(|b|, x);
    t := b[k];
    if !done[t] {
      assert UpBucket(b, ss, p, cs, j, t);
      Longer(p, a, j);
      PredsAppend(b, p[a..j], x, t);
      PredsRoom(b, src, ss, t);
      Layout(b, t, ss);
      assert |p[BStart(b, t, ss)..cs[t]]| == cs[t] - BStart(b, t, ss);
    }
  }

  /** The scan passes a rotation whose predecessor is in a finished bucket. */
  lemma UpSkip(b: seq<byte>, ss: byte, done: seq<bool>, p1: seq<int>, p: seq<int>, cs: seq<int>, j: int)
    requires Up(b, ss, done, p1, p, cs, j) && j < cs[ss] && 0 <= p[j] < |b| && done[b[Prev(|b|, p[j])]]
    ensures Up(b, ss, done, p1, p, cs, j + 1)
  {
    hide Preds, S, RotLe, Low, Row, UpWritten, RowStart, BStart, BEnd;
    var x, k, t := UpRoom(b, ss, done, p1, p, cs, j);
    var a := RowStart(b, ss);
    RowIsPositions(b, p[a..j + 1], ss);
    Longer(p, a, j);
    forall u: byte | !done[u] ensures UpBucket(b, ss, p, cs, j + 1, u) {
      assert UpBucket(b, ss, p, cs, j, u);
      PredsAppend(b, p[a..j], x, u);
      assert Preds(b, p[a..j], u) + [] == Preds(b, p[a..j], u);
    }
  }

  /** The scan passes a rotation and files its predecessor. */
  lemma UpPut(b: seq<byte>, ss: byte, done: seq<bool>, p1: seq<int>, p: seq<int>, cs: seq<int>, j: int, x: int,
    k: int, t: byte)
    requires Up(b, ss, done, p1, p, cs, j) && j < cs[ss]
    requires 0 <= p[j] < |b| && x == p[j] && k == Prev(|b|, x) && t == b[k] && !done[t]
    requires LowRow(b, p[RowStart(b, ss)..j + 1], ss) && RowStart(b, ss) <= j
    requires 0 <= cs[t] < BEnd(b, t, ss) <= |p|
    requires Bucketed(p1, Pairs(b))
    requires RowStart(b, ss) <= BStart(b, ss, ss) && SecondBelow(b, p1[RowStart(b, ss)..BStart(b, ss, ss)], ss)
    ensures Up(b, ss, done, p1, p[cs[t] := k], cs[t := cs[t] + 1], j + 1)
  {
    hide Preds, S, RotLe, Low, Row, UpWritten, RowStart, BStart, BEnd, SecondBelow, Bucketed;
    var a, at := RowStart(b, ss), cs[t];
    var p', cs' := p[at := k], cs[t := at + 1];
    assert UpBucket(b, ss, p, cs, j, t);
    UpOutside(b, ss, cs, j, t);
    Longer(p, a, j);
    assert p'[a..j + 1] == p[a..j + 1];
    RowIsPositions(b, p[a..j + 1], ss);
    forall u: byte | !done[u] ensures UpBucket(b, ss, p', cs', j + 1, u) {
      assert UpBucket(b, ss, p, cs, j, u);
      UpPutBucket(b, ss, p, cs, j, x, k, t, u);
    }
    assert p'[a..BStart(b, ss, ss)] == p[a..BStart(b, ss, ss)];
    UpPutRow(b, ss, done, p1, p, cs, j, x, k, t);
    UpPutWritten(b, ss, done, p1, p, cs, k, t);
  }

  /** The place written does not lie in what the scan has passed, nor in front of [ss,ss]. */
  lemma UpOutside(b: seq<byte>, ss: byte, cs: seq<int>, j: int, t: byte)
    requires |cs| == 256 && RowStart(b, ss) <= j < cs[ss] <= BEnd(b, ss, ss)
      && BStart(b, t, ss) <= cs[t] < BEnd(b, t, ss) <= |b|
    requires BStart(b, ss, ss) <= cs[ss]
    ensures !(RowStart(b, ss) <= cs[t] < j + 1) && !(RowStart(b, ss) <= cs[t] < BStart(b, ss, ss))
    ensures t != ss ==> !(RowStart(b, ss) <= cs[t] < cs[ss])
  {
    hide S;
    Layout(b, t, ss);
    Layout(b, ss, ss);
  }

  lemma UpPutBucket(b: seq<byte>, ss: byte, p: seq<int>, cs: seq<int>, j: int, x: int, k: int, t: byte, u: byte)
    requires |p| == |b| && |cs| == 256 && RowStart(b, ss) <= j < |b| && Positions(b, p[RowStart(b, ss)..j])
    requires 0 <= x < |b| && x == p[j] && k == Prev(|b|, x) && t == b[k]
    requires UpBucket(b, ss, p, cs, j, t) && UpBucket(b, ss, p, cs, j, u) && cs[t] < BEnd(b, t, ss)
    requires var p' := p[cs[t] := k];
      p'[RowStart(b, ss)..j + 1] == p[RowStart(b, ss)..j] + [x] && Positions(b, p'[RowStart(b, ss)..j + 1])
    ensures UpBucket(b, ss, p[cs[t] := k], cs[t := cs[t] + 1], j + 1, u)
  {
    hide Preds, S, RowStart, BStart, BEnd;
    var a, at := RowStart(b, ss), cs[t];
    var p' := p[at := k];
    PredsAppend(b, p[a..j], x, u);
    if u == t {
      assert p'[BStart(b, t, ss)..at + 1] == p[BStart(b, t, ss)..at] + [k];
    } else {
      Separate(b, t, u, ss);
      assert p'[BStart(b, u, ss)..cs[u]] == p[BStart(b, u, ss)..cs[u]];
      assert Preds(b, p[a..j], u) + [] == Preds(b, p[a..j], u);
    }
  }

  lemma Separate(b: seq<byte>, t: byte, u: byte, ss: byte)
    requires t != u
    ensures BEnd(b, t, ss) <= BStart(b, u, ss) || BEnd(b, u, ss) <= BStart(b, t, ss)
  {
    if t < u { BucketsApart(b, t, u, ss); } else { BucketsApart(b, u, t, ss); }
  }

  lemma UpPutRow(b: seq<byte>, ss: byte, done: seq<bool>, p1: seq<int>, p: seq<int>, cs: seq<int>, j: int, x: int,
    k: int, t: byte)
    requires Up(b, ss, done, p1, p, cs, j) && j < cs[ss]
    requires 0 <= p[j] < |b| && x == p[j] && k == Prev(|b|, x) && t == b[k] && !done[t]
    requires RowStart(b, ss) <= j && LowRow(b, p[RowStart(b, ss)..j + 1], ss) && Positions(b, p[RowStart(b, ss)..j])
    requires 0 <= cs[t] < BEnd(b, t, ss) <= |p|
    requires RowStart(b, ss) <= BStart(b, ss, ss) && SecondBelow(b, p1[RowStart(b, ss)..BStart(b, ss, ss)], ss)
    ensures var p', cs' := p[cs[t] := k], cs[t := cs[t] + 1];
      j + 1 <= cs'[ss] <= BEnd(b, ss, ss) <= |b| && LowRow(b, p'[RowStart(b, ss)..cs'[ss]], ss)
  {
    hide Preds, S, RotLe, Low, Row, UpWritten, RowStart, BStart, BEnd, SecondBelow;
    var a, at, bs := RowStart(b, ss), cs[t], BStart(b, ss, ss);
    var p', cs' := p[at := k], cs[t := at + 1];
    assert UpBucket(b, ss, p, cs, j, t) && UpBucket(b, ss, p, cs, j, ss);
    UpOutside(b, ss, cs, j, t);
    if t != ss {
      assert p'[a..cs[ss]] == p[a..cs[ss]];
    } else {
      var row := p[a..cs[ss]];
      Passed(b, row, ss, bs - a);
      assert row[..bs - a] == p[a..bs];
      GrowLow(b, p[a..bs], p[a..j + 1], ss);
      Longer(p, a, j);
      PredsAppend(b, p[a..j], x, ss);
      assert p'[a..at + 1] == p[a..bs] + (p[bs..at] + [k]);
    }
  }

  lemma UpPutWritten(b: seq<byte>, ss: byte, done: seq<bool>, p1: seq<int>, p: seq<int>, cs: seq<int>, k: int, t: byte)
    requires |p| == |p1| == |b| >= 2 && |cs| == |done| == 256 && !done[t]
    requires BStart(b, t, ss) <= cs[t] < BEnd(b, t, ss) <= |b| && Bucketed(p1, Pairs(b))
    requires forall l :: 0 <= l < |b| && p[l] != p1[l] ==> UpWritten(b, ss, done, p1, cs, l)
    ensures forall l :: 0 <= l < |b| && p[cs[t] := k][l] != p1[l] ==> UpWritten(b, ss, done, p1, cs[t := cs[t] + 1], l)
  {
    hide S, Bucketed;
    var at := cs[t];
    KeyIs(p1, b, at, Pair(t, ss));
    PairsBelow(b, p1[at]);
    assert b[p1[at]] == t && b[Next(|b|, p1[at])] == ss;
  }

  lemma UpStart(b: seq<byte>, ss: byte, done: seq<bool>, p1: seq<int>, cs: seq<int>)
    requires |p1| == |b| >= 2 && |cs| == |done| == 256 && !done[ss] && Bucketed(p1, Pairs(b))
    requires forall t: byte :: cs[t] == BStart(b, t, ss)
    requires RowStart(b, ss) <= BStart(b, ss, ss) <= |b| && LowRow(b, p1[RowStart(b, ss)..BStart(b, ss, ss)], ss)
    ensures Up(b, ss, done, p1, p1, cs, RowStart(b, ss))
  {
    hide S, RotLe, Low, Row, RowStart, BStart, BEnd;
    var a := RowStart(b, ss);
    assert p1[a..a] == [];
    Layout(b, ss, ss);
    forall t: byte | !done[t] ensures UpBucket(b, ss, p1, cs, a, t) {
      Layout(b, t, ss);
      PredsNil(b, t);
      assert p1[BStart(b, t, ss)..cs[t]] == [];
    }
  }

  // ---------------------------------------------------------------- the downward scan

  /** The upward scan is finished: it found `L`, the rotations below the run of `ss`. */
  ghost predicate UpDone(b: seq<byte>, ss: byte, done: seq<bool>, pm: seq<int>, cs: seq<int>) {
    && |pm| == |b| >= 2 && |cs| == |done| == 256 && !done[ss]
    && RowStart(b, ss) <= cs[ss] <= |b|
    && LowRow(b, pm[RowStart(b, ss)..cs[ss]], ss)
    && Positions(b, pm[RowStart(b, ss)..cs[ss]])
    && forall t: byte :: !done[t] ==> UpBucket(b, ss, pm, cs, cs[ss], t)
  }

  lemma UpFinished(b: seq<byte>, ss: byte, done: seq<bool>, p1: seq<int>, p: seq<int>, cs: seq<int>, j: int)
    requires Up(b, ss, done, p1, p, cs, j) && j >= cs[ss]
    ensures UpDone(b, ss, done, p, cs)
  {
    hide Preds, S, RotLe, Low, Row, RowStart, BStart, BEnd, UpWritten;
  }

  ghost predicate Down(b: seq<byte>, ss: byte, done: seq<bool>, pm: seq<int>, p: seq<int>, cs: seq<int>,
    ce: seq<int>, j: int) {
    && |p| == |pm| == |b| >= 2 && |cs| == |ce| == |done| == 256 && !done[ss]
    && 0 <= BEnd(b, ss, ss) <= RowEnd(b, ss) <= |b|
    && RowStart(b, ss) <= cs[ss] <= ce[ss] + 1 <= j + 1 <= RowEnd(b, ss)
    && ce[ss] + 1 <= BEnd(b, ss, ss)
    && HighRow(b, p[ce[ss] + 1..RowEnd(b, ss)], ss)
    && p[BEnd(b, ss, ss)..RowEnd(b, ss)] == pm[BEnd(b, ss, ss)..RowEnd(b, ss)]
    && Positions(b, p[j + 1..RowEnd(b, ss)])
    && (forall t: byte :: !done[t] ==> DownBucket(b, ss, p, cs, ce, j, t))
    && (forall k :: 0 <= k < |b| && p[k] != pm[k] ==> DownWritten(b, ss, done, pm, ce, k))
  }

  ghost predicate DownBucket(b: seq<byte>, ss: byte, p: seq<int>, cs: seq<int>, ce: seq<int>, j: int, t: byte)
    requires |p| == |b| && |cs| == |ce| == 256 && 0 <= j + 1 <= RowEnd(b, ss) <= |b|
      && Positions(b, p[j + 1..RowEnd(b, ss)])
  {
    && 0 <= cs[t] <= ce[t] + 1 <= BEnd(b, t, ss) <= |b|
    && p[ce[t] + 1..BEnd(b, t, ss)] == Preds(b, p[j + 1..RowEnd(b, ss)], t)
  }

  ghost predicate DownWritten(b: seq<byte>, ss: byte, done: seq<bool>, pm: seq<int>, ce: seq<int>, k: int)
    requires |pm| == |b| && |ce| == |done| == 256 && 0 <= k < |b|
  {
    exists t: byte :: InBucketAbove(b, ss, done, ce, k, t)
  }

  ghost predicate InBucketAbove(b: seq<byte>, ss: byte, done: seq<bool>, ce: seq<int>, k: int, t: byte)
    requires |ce| == |done| == 256
  {
    !done[t] && ce[t] < k < BEnd(b, t, ss)
  }

  lemma LongerBelow(s: seq<int>, j: int, e: int)
    requires 0 <= j < e <= |s|
    ensures s[j..e] == [s[j]] + s[j + 1..e]
  {
  }

  /** Rotations below the run and above it are different ones. */
  lemma LowHighDistinct(b: seq<byte>, l: seq<int>, h: seq<int>, ss: byte)
    requires LowRow(b, l, ss) && HighRow(b, h, ss)
    ensures Row(b, l + h, ss)
  {
    hide RotLe, Against;
    var all := l + h;
    forall i, k | 0 <= i < k < |all| ensures all[i] != all[k] && RotLe(b, all[i], all[k]) {
      if k < |l| {
      } else if i >= |l| {
        assert all[i] == h[i - |l|] && all[k] == h[k - |l|];
      } else {
        assert all[k] == h[k - |l|];
        LowBeforeHigh(b, all[i], all[k], ss);
      }
    }
    forall i | 0 <= i < |all| ensures 0 <= all[i] < |b| && b[all[i]] == ss {
      if i >= |l| { assert all[i] == h[i - |l|]; }
    }
  }

  /** There is room in the bucket for one more predecessor. */
  lemma DownRoom(b: seq<byte>, ss: byte, done: seq<bool>, pm: seq<int>, p: seq<int>, cs: seq<int>, ce: seq<int>,
    j: int) returns (x: int, k: int, t: byte)
    requires UpDone(b, ss, done, pm, cs) && Down(b, ss, done, pm, p, cs, ce, j) && j > ce[ss]
    ensures 0 <= j < |p| && 0 <= p[j] < |b| && x == p[j] && k == Prev(|b|, x) && t == b[k]
    ensures j + 1 <= RowEnd(b, ss) <= |b| && HighRow(b, p[j..RowEnd(b, ss)], ss)
    ensures !done[t] ==> 0 <= cs[t] <= ce[t] < |p|
  {
    hide Preds, S, RotLe, High, Low, Count, Row, DownWritten, RowStart, BStart, BEnd, RowEnd;
    var e := RowEnd(b, ss);
    x := p[j];
    var row := p[ce[ss] + 1..e];
    HighPassed(b, row, ss, j - (ce[ss] + 1));
    assert row[j - (ce[ss] + 1)..] == p[j..e];
    var src := p[j..e];
    RowIsPositions(b, src, ss);
    assert src[0] == x;
    k := Prev(|b|, x);
    t := b[k];
    if !done[t] {
      assert DownBucket(b, ss, p, cs, ce, j, t);
      assert UpBucket(b, ss, pm, cs, cs[ss], t);
      var l := pm[RowStart(b, ss)..cs[ss]];
      LowHighDistinct(b, l, src, ss);
      RowIsPositions(b, l + src, ss);
      RowIsPositions(b, l, ss);
      LongerBelow(p, j, e);
      PredsCons(b, x, p[j + 1..e], t);
      PredsConcat(b, l, src, t);
      PredsRoom(b, l + src, ss, t);
      Layout(b, t, ss);
      assert |pm[BStart(b, t, ss)..cs[t]]| == cs[t] - BStart(b, t, ss);
      assert |p[ce[t] + 1..BEnd(b, t, ss)]| == BEnd(b, t, ss) - (ce[t] + 1);
    }
  }

  lemma DownSkip(b: seq<byte>, ss: byte, done: seq<bool>, pm: seq<int>, p: seq<int>, cs: seq<int>, ce: seq<int>, j: int)
    requires UpDone(b, ss, done, pm, cs) && Down(b, ss, done, pm, p, cs, ce, j) && j > ce[ss]
    requires 0 <= p[j] < |b| && done[b[Prev(|b|, p[j])]]
    ensures Down(b, ss, done, pm, p, cs, ce, j - 1)
  {
    hide Preds, S, RotLe, High, Low, Row, DownWritten, RowStart, BStart, BEnd, RowEnd;
    var x, k, t := DownRoom(b, ss, done, pm, p, cs, ce, j);
    var e := RowEnd(b, ss);
    RowIsPositions(b, p[j..e], ss);
    LongerBelow(p, j, e);
    forall u: byte | !done[u] ensures DownBucket(b, ss, p, cs, ce, j - 1, u) {
      assert DownBucket(b, ss, p, cs, ce, j, u);
      PredsCons(b, x, p[j + 1..e], u);
      assert [] + Preds(b, p[j + 1..e], u) == Preds(b, p[j + 1..e], u);
    }
  }

  lemma DownOutside(b: seq<byte>, ss: byte, cs: seq<int>, ce: seq<int>, j: int, t: byte)
    requires |cs| == |ce| == 256 && ce[ss] < j < RowEnd(b, ss) && BStart(b, t, ss) <= ce[t] < BEnd(b, t, ss) <= |b|
    requires ce[ss] < BEnd(b, ss, ss) && RowStart(b, ss) <= ce[ss] + 1
    ensures !(j <= ce[t] < RowEnd(b, ss)) && !(BEnd(b, ss, ss) <= ce[t] < RowEnd(b, ss))
    ensures t != ss ==> !(ce[ss] < ce[t] < RowEnd(b, ss))
  {
    hide S;
    Layout(b, t, ss);
    Layout(b, ss, ss);
  }

  lemma DownPut(b: seq<byte>, ss: byte, done: seq<bool>, pm: seq<int>, p: seq<int>, cs: seq<int>, ce: seq<int>,
    j: int, x: int, k: int, t: byte)
    requires UpDone(b, ss, done, pm, cs) && Down(b, ss, done, pm, p, cs, ce, j) && j > ce[ss]
    requires 0 <= p[j] < |b| && x == p[j] && k == Prev(|b|, x) && t == b[k] && !done[t]
    requires j + 1 <= RowEnd(b, ss) <= |b| && HighRow(b, p[j..RowEnd(b, ss)], ss)
    requires 0 <= cs[t] <= ce[t] < |p|
    requires 0 <= BEnd(b, ss, ss) <= RowEnd(b, ss) <= |pm| && SecondAbove(b, pm[BEnd(b, ss, ss)..RowEnd(b, ss)], ss)
    ensures Down(b, ss, done, pm, p[ce[t] := k], cs, ce[t := ce[t] - 1], j - 1)
  {
    hide Preds, S, RotLe, High, Low, Row, DownWritten, RowStart, BStart, BEnd, RowEnd, SecondAbove;
    var e, at := RowEnd(b, ss), ce[t];
    var p', ce' := p[at := k], ce[t := at - 1];
    assert DownBucket(b, ss, p, cs, ce, j, t) && UpBucket(b, ss, pm, cs, cs[ss], t);
    assert DownBucket(b, ss, p, cs, ce, j, ss);
    DownOutside(b, ss, cs, ce, j, t) by { DownAt(b, ss, pm, cs, ce, t); }
    LongerBelow(p, j, e);
    assert p'[j..e] == p[j..e];
    RowIsPositions(b, p[j..e], ss);
    forall u: byte | !done[u] ensures DownBucket(b, ss, p', cs, ce', j - 1, u) {
      assert DownBucket(b, ss, p, cs, ce, j, u) && UpBucket(b, ss, pm, cs, cs[ss], u);
      DownPutBucket(b, ss, p, cs, ce, j, x, k, t, u, BStart(b, u, ss));
    }
    assert p'[BEnd(b, ss, ss)..e] == p[BEnd(b, ss, ss)..e];
    DownPutRow(b, ss, done, pm, p, cs, ce, j, x, k, t);
    DownPutWritten(b, ss, done, pm, p, ce, k, t);
  }

  lemma DownAt(b: seq<byte>, ss: byte, pm: seq<int>, cs: seq<int>, ce: seq<int>, t: byte)
    requires |pm| == |b| && |cs| == |ce| == 256 && RowStart(b, ss) <= cs[ss] <= |b|
      && Positions(b, pm[RowStart(b, ss)..cs[ss]])
    requires UpBucket(b, ss, pm, cs, cs[ss], t) && cs[t] <= ce[t] && cs[ss] <= ce[ss] + 1
    ensures BStart(b, t, ss) <= ce[t] && RowStart(b, ss) <= ce[ss] + 1
  {
  }

  lemma DownPutBucket(b: seq<byte>, ss: byte, p: seq<int>, cs: seq<int>, ce: seq<int>, j: int, x: int, k: int,
    t: byte, u: byte, us: int)
    requires |p| == |b| && |cs| == |ce| == 256 && 0 <= j < RowEnd(b, ss) <= |b| && Positions(b, p[j + 1..RowEnd(b, ss)])
    requires 0 <= x < |b| && x == p[j] && k == Prev(|b|, x) && t == b[k]
    requires DownBucket(b, ss, p, cs, ce, j, t) && DownBucket(b, ss, p, cs, ce, j, u) && 0 <= cs[t] <= ce[t]
    requires BStart(b, t, ss) <= cs[t] && us == BStart(b, u, ss) <= cs[u]
    requires var p' := p[ce[t] := k];
      p'[j..RowEnd(b, ss)] == [x] + p[j + 1..RowEnd(b, ss)] && Positions(b, p'[j..RowEnd(b, ss)])
    ensures DownBucket(b, ss, p[ce[t] := k], cs, ce[t := ce[t] - 1], j - 1, u)
  {
    hide Preds, S, RowStart, BStart, BEnd, RowEnd;
    var e, at := RowEnd(b, ss), ce[t];
    var p' := p[at := k];
    PredsCons(b, x, p[j + 1..e], u);
    if u == t {
      assert p'[at..BEnd(b, t, ss)] == [k] + p[at + 1..BEnd(b, t, ss)];
    } else {
      Separate(b, t, u, ss);
      assert p'[ce[u] + 1..BEnd(b, u, ss)] == p[ce[u] + 1..BEnd(b, u, ss)];
      assert [] + Preds(b, p[j + 1..e], u) == Preds(b, p[j + 1..e], u);
    }
  }

  lemma DownPutRow(b: seq<byte>, ss: byte, done: seq<bool>, pm: seq<int>, p: seq<int>, cs: seq<int>, ce: seq<int>,
    j: int, x: int, k: int, t: byte)
    requires Down(b, ss, done, pm, p, cs, ce, j) && j > ce[ss] >= RowStart(b, ss) - 1
    requires 0 <= p[j] < |b| && x == p[j] && k == Prev(|b|, x) && t == b[k] && !done[t]
    requires j + 1 <= RowEnd(b, ss) <= |b| && HighRow(b, p[j..RowEnd(b, ss)], ss)
      && Positions(b, p[j + 1..RowEnd(b, ss)])
    requires 0 <= cs[t] <= ce[t] < |p| && (t == ss || !(ce[ss] < ce[t] < RowEnd(b, ss)))
    requires 0 <= BEnd(b, ss, ss) <= RowEnd(b, ss) <= |pm| && SecondAbove(b, pm[BEnd(b, ss, ss)..RowEnd(b, ss)], ss)
    ensures var p', ce' := p[ce[t] := k], ce[t := ce[t] - 1];
      cs[ss] <= ce'[ss] + 1 <= j && HighRow(b, p'[ce'[ss] + 1..RowEnd(b, ss)], ss)
  {
    hide Preds, S, RotLe, High, Row, DownWritten, RowStart, BStart, BEnd, RowEnd, SecondAbove;
    var e, at, be := RowEnd(b, ss), ce[t], BEnd(b, ss, ss);
    var p', ce' := p[at := k], ce[t := at - 1];
    assert DownBucket(b, ss, p, cs, ce, j, t) && DownBucket(b, ss, p, cs, ce, j, ss);
    if t != ss {
      assert p'[ce[ss] + 1..e] == p[ce[ss] + 1..e];
    } else {
      var row := p[ce[ss] + 1..e];
      HighPassed(b, row, ss, be - (ce[ss] + 1));
      assert row[be - (ce[ss] + 1)..] == p[be..e];
      GrowHigh(b, p[be..e], p[j..e], ss);
      LongerBelow(p, j, e);
      PredsCons(b, x, p[j + 1..e], ss);
      assert p'[at..e] == ([k] + p[at + 1..be]) + p[be..e];
    }
  }

  lemma DownPutWritten(b: seq<byte>, ss: byte, done: seq<bool>, pm: seq<int>, p: seq<int>, ce: seq<int>, k: int,
    t: byte)
    requires |p| == |pm| == |b| && |ce| == |done| == 256 && !done[t]
    requires 0 <= ce[t] < BEnd(b, t, ss) <= |b|
    requires forall l :: 0 <= l < |b| && p[l] != pm[l] ==> DownWritten(b, ss, done, pm, ce, l)
    ensures forall l :: 0 <= l < |b| && p[ce[t] := k][l] != pm[l] ==>
      DownWritten(b, ss, done, pm, ce[t := ce[t] - 1], l)
  {
    hide S, BEnd;
    var at, ce' := ce[t], ce[t := ce[t] - 1];
    forall l | 0 <= l < |b| && p[at := k][l] != pm[l] ensures DownWritten(b, ss, done, pm, ce', l) {
      if l == at {
        assert InBucketAbove(b, ss, done, ce', l, t);
      } else {
        assert DownWritten(b, ss, done, pm, ce, l);
        var u: byte :| InBucketAbove(b, ss, done, ce, l, u);
        assert InBucketAbove(b, ss, done, ce', l, u);
      }
    }
  }
}

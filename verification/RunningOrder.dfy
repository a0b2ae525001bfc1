/**
 The order in which big buckets are processed: a Shell sort by size.
 */
module RunningOrder {
  import opened Permutations
  import opened RangeSort

  /** The size of big bucket `c`. */
  function BigFreq(ftab: seq<int>, c: int): int {
    Get(ftab, (c + 1) * 256) - Get(ftab, c * 256)
  }

  // ---------------------------------------------------------------- what the sort computes

  /** Larger entries move up by `h` from the hole at `j`, and `vv` goes into the hole. */
  function SiftedIn(o: seq<int>, ftab: seq<int>, vv: int, j: int, h: nat): (r: seq<int>)
    ensures |r| == |o|
    decreases j
  {
    if BigFreq(ftab, Get(o, j - h)) <= BigFreq(ftab, vv) || h == 0 then Put(o, j, vv)
    else if j - h <= h - 1 then Put(Put(o, j, Get(o, j - h)), j - h, vv)
    else SiftedIn(Put(o, j, Get(o, j - h)), ftab, vv, j - h, h)
  }

  /** Entries from `i` on are sifted in at distance `h`. */
  function SiftedFrom(o: seq<int>, ftab: seq<int>, i: nat, h: nat): (r: seq<int>)
    ensures |r| == |o|
    decreases 256 - i
  {
    if i > 255 then o else SiftedFrom(SiftedIn(o, ftab, Get(o, i), i, h), ftab, i + 1, h)
  }

  /** Distances `h / 3`, `h / 9`, ... down to 1. */
  function Rounds(o: seq<int>, ftab: seq<int>, h: nat): (r: seq<int>)
    ensures |r| == |o|
    decreases h
  {
    if h <= 1 then o else Rounds(SiftedFrom(o, ftab, h / 3, h / 3), ftab, h / 3)
  }

  /** The running order as a function of the table of bucket starts. */
  function Order(ftab: seq<int>): (r: seq<int>)
    ensures |r| == 256
  {
    Rounds(seq(256, i => i), ftab, 364)
  }

  lemma SiftedInStep(o: seq<int>, ftab: seq<int>, vv: int, j: int, h: nat)
    requires h > 0
    ensures SiftedIn(o, ftab, vv, j, h) ==
      if BigFreq(ftab, Get(o, j - h)) <= BigFreq(ftab, vv) then Put(o, j, vv)
      else if j - h <= h - 1 then Put(Put(o, j, Get(o, j - h)), j - h, vv)
      else SiftedIn(Put(o, j, Get(o, j - h)), ftab, vv, j - h, h)
  {
    hide BigFreq;
  }

  lemma SiftedFromStep(o: seq<int>, ftab: seq<int>, i: nat, h: nat)
    ensures SiftedFrom(o, ftab, i, h) == if i > 255 then o
      else SiftedFrom(SiftedIn(o, ftab, Get(o, i), i, h), ftab, i + 1, h)
  {
    hide SiftedIn;
  }

  lemma RoundsStep(o: seq<int>, ftab: seq<int>, h: nat)
    ensures Rounds(o, ftab, h) == if h <= 1 then o else Rounds(SiftedFrom(o, ftab, h / 3, h / 3), ftab, h / 3)
  {
    hide SiftedFrom;
  }

  // ---------------------------------------------------------------- why it is in order

  /** Entries `0..i` are in ascending order of size. */
  ghost predicate Ascending(order: seq<int>, ftab: seq<int>, i: int) {
    && i < |order| && (forall k :: 0 <= k < |order| ==> 0 <= order[k] < 256)
    && forall p, q :: 0 <= p < q <= i ==> BigFreq(ftab, order[p]) <= BigFreq(ftab, order[q])
  }

  /** `vv` has been held aside, the hole is at `j`, larger entries have moved up. */
  ghost predicate Sifting(f: seq<int>, g: seq<int>, ftab: seq<int>, i: int, j: int, h: int) {
    && |f| == |g| == 256 && 0 <= j <= i < 256 && h > 0
    && (forall k :: 0 <= k < 256 ==> 0 <= f[k] < 256 && 0 <= g[k] < 256)
    && Rearranged(f, g[j := f[i]], 0, 255)
    && (h == 1 ==>
        && (forall k :: 0 <= k < j ==> g[k] == f[k])
        && (forall k :: j < k <= i ==> g[k] == f[k - 1])
        && (forall k :: j <= k < i ==> BigFreq(ftab, f[k]) > BigFreq(ftab, f[i])))
  }

  lemma SiftStep(f: seq<int>, g: seq<int>, ftab: seq<int>, i: int, j: int, h: int)
    requires Sifting(f, g, ftab, i, j, h) && h <= j
    requires BigFreq(ftab, g[j - h]) > BigFreq(ftab, f[i])
    ensures Sifting(f, g[j := g[j - h]], ftab, i, j - h, h)
  {
    hide Rearranged;
    MoveHole(f, g, f[i], j, j - h);
  }

  lemma MoveHole(f: seq<int>, g: seq<int>, vv: int, j: int, k: int)
    requires |g| == 256 && 0 <= k < j < 256 && Rearranged(f, g[j := vv], 0, 255)
    ensures Rearranged(f, g[j := g[k]][k := vv], 0, 255)
  {
    var before := g[j := vv];
    assert g[j := g[k]][k := vv] == before[j := before[k]][k := before[j]];
  }

  lemma SiftEnd(f: seq<int>, g: seq<int>, ftab: seq<int>, i: int, j: int, h: int)
    requires Sifting(f, g, ftab, i, j, h)
    requires j >= h ==> BigFreq(ftab, g[j - h]) <= BigFreq(ftab, f[i])
    ensures Rearranged(f, g[j := f[i]], 0, 255)
    ensures h == 1 && Ascending(f, ftab, i - 1) ==> Ascending(g[j := f[i]], ftab, i)
  {
    hide Rearranged;
    if h == 1 && Ascending(f, ftab, i - 1) {
      var r := g[j := f[i]];
      forall p, q | 0 <= p < q <= i ensures BigFreq(ftab, r[p]) <= BigFreq(ftab, r[q]) {
        SiftPair(f, g, ftab, i, j, p, q);
      }
    }
  }

  lemma SiftPair(f: seq<int>, g: seq<int>, ftab: seq<int>, i: int, j: int, p: int, q: int)
    requires Sifting(f, g, ftab, i, j, 1) && Ascending(f, ftab, i - 1) && 0 <= p < q <= i
    requires j >= 1 ==> BigFreq(ftab, g[j - 1]) <= BigFreq(ftab, f[i])
    ensures BigFreq(ftab, g[j := f[i]][p]) <= BigFreq(ftab, g[j := f[i]][q])
  {
    hide Rearranged, BigFreq;
    var r := g[j := f[i]];
    if q == j {
      assert r[p] == f[p] && g[j - 1] == f[j - 1];
    } else if p == j {
      assert r[q] == f[q - 1];
    } else {
      assert r[p] == f[if p < j then p else p - 1] && r[q] == f[if q < j then q else q - 1];
    }
  }

  /** Sifting one entry in rearranges the order, and at distance 1 puts one more in place. */
  lemma {:induction false} SiftedInIs(f: seq<int>, g: seq<int>, ftab: seq<int>, i: int, j: int, h: nat)
    requires Sifting(f, g, ftab, i, j, h) && h <= j
    ensures var r := SiftedIn(g, ftab, f[i], j, h);
      Rearranged(f, r, 0, 255) && (h == 1 && Ascending(f, ftab, i - 1) ==> Ascending(r, ftab, i))
    decreases j
  {
    hide Rearranged, BigFreq, Ascending;
    var vv := f[i];
    SiftedInStep(g, ftab, vv, j, h);
    if BigFreq(ftab, g[j - h]) <= BigFreq(ftab, vv) {
      SiftEnd(f, g, ftab, i, j, h);
    } else {
      var g' := g[j := g[j - h]];
      SiftStep(f, g, ftab, i, j, h);
      if j - h <= h - 1 { SiftEnd(f, g', ftab, i, j - h, h); } else { SiftedInIs(f, g', ftab, i, j - h, h); }
    }
  }

  ghost predicate Symbols(o: seq<int>) {
    |o| == 256 && forall k :: 0 <= k < 256 ==> 0 <= o[k] < 256
  }

  lemma {:induction false} SymbolsStay(f: seq<int>, g: seq<int>)
    requires Symbols(f) && Rearranged(f, g, 0, 255)
    ensures Symbols(g)
  {
    forall k | 0 <= k < 256 ensures 0 <= g[k] < 256 { var j := RearrangedFrom(f, g, 0, 255, k); }
  }

  lemma SiftStart(f: seq<int>, ftab: seq<int>, i: int, h: int)
    requires Symbols(f) && 0 < h <= i < 256
    ensures Sifting(f, f, ftab, i, i, h)
  {
    assert f[i := f[i]] == f;
  }

  /** One pass rearranges the order, and at distance 1 puts all entries in place. */
  lemma {:induction false} SiftedFromIs(o: seq<int>, ftab: seq<int>, i: nat, h: nat)
    requires Symbols(o) && 0 < h <= i <= 256 && (h == 1 ==> Ascending(o, ftab, i - 1))
    ensures var r := SiftedFrom(o, ftab, i, h);
      Symbols(r) && Rearranged(o, r, 0, 255) && (h == 1 ==> Ascending(r, ftab, 255))
    decreases 256 - i
  {
    hide Rearranged, Ascending, SiftedIn;
    SiftedFromStep(o, ftab, i, h);
    if i > 255 {
      RearrangedRefl(o, 0, 255);
    } else {
      SiftStart(o, ftab, i, h);
      SiftedInIs(o, o, ftab, i, i, h);
      var o' := SiftedIn(o, ftab, o[i], i, h);
      SymbolsStay(o, o');
      SiftedFromIs(o', ftab, i + 1, h);
      RearrangedTrans(o, o', SiftedFrom(o', ftab, i + 1, h), 0, 255);
    }
  }

  lemma {:induction false} RoundsAre(o: seq<int>, ftab: seq<int>, h: nat)
    requires Symbols(o) && h in {364, 121, 40, 13, 4, 1} && (h == 1 ==> Ascending(o, ftab, 255))
    ensures var r := Rounds(o, ftab, h); Rearranged(o, r, 0, 255) && Ascending(r, ftab, 255)
    decreases h
  {
    hide Rearranged, Ascending, SiftedFrom;
    RoundsStep(o, ftab, h);
    if h == 1 {
      RearrangedRefl(o, 0, 255);
    } else {
      if h / 3 == 1 { OneAscends(o, ftab); }
      SiftedFromIs(o, ftab, h / 3, h / 3);
      var o' := SiftedFrom(o, ftab, h / 3, h / 3);
      RoundsAre(o', ftab, h / 3);
      RearrangedTrans(o, o', Rounds(o', ftab, h / 3), 0, 255);
    }
  }

  lemma OneAscends(o: seq<int>, ftab: seq<int>)
    requires Symbols(o)
    ensures Ascending(o, ftab, 0)
  {
  }

  /** The running order lists the big buckets from the smallest to the largest. */
  lemma OrderAscends(ftab: seq<int>)
    ensures Permutation(Order(ftab), 256) && Ascending(Order(ftab), ftab, 255)
  {
    hide Rearranged, Ascending, Rounds;
    var o := seq(256, i => i);
    RoundsAre(o, ftab, 364);
    RearrangedPermutation(o, Order(ftab), 0, 255, 256);
  }

  // ---------------------------------------------------------------- the sort

  method SiftOne(order: array<int>, ftab: seq<int>, i: int, h: int)
    requires order.Length == 256 && 0 < h <= i < 256
    modifies order
    ensures order[..] == SiftedIn(old(order[..]), ftab, old(order[i]), i, h)
  {
    hide BigFreq, SiftedIn;
    ghost var f := order[..];
    var vv := order[i];
    var j := i;
    while BigFreq(ftab, order[j - h]) > BigFreq(ftab, vv)
      invariant h <= j <= i
      invariant SiftedIn(order[..], ftab, vv, j, h) == SiftedIn(f, ftab, vv, i, h)
      decreases j
    {
      ghost var g := order[..];
      SiftedInStep(g, ftab, vv, j, h);
      order[j] := order[j - h];
      assert order[..] == g[j := g[j - h]];
      j := j - h;
      if j <= h - 1 {
        assert Put(order[..], j, vv) == SiftedIn(f, ftab, vv, i, h);
        break;
      }
    }
    ghost var g := order[..];
    if j >= h { SiftedInStep(g, ftab, vv, j, h); }
    order[j] := vv;
    assert order[..] == g[j := vv];
  }

  /** The running order, from the smallest big bucket to the largest. */
  method Find(ftab: seq<int>) returns (order: array<int>)
    ensures fresh(order) && order.Length == 256 && Permutation(order[..], 256)
    ensures forall p, q :: 0 <= p < q < 256 ==>
      0 <= order[p] < 256 && 0 <= order[q] < 256 && BigFreq(ftab, order[p]) <= BigFreq(ftab, order[q])
    ensures order[..] == Order(ftab)
  {
    hide BigFreq, SiftedIn, SiftedFrom, Rounds;
    order := new int[256];
    for i := 0 to 256
      invariant forall k :: 0 <= k < i ==> order[k] == k
    {
      order[i] := i;
    }
    assert order[..] == seq(256, i => i);
    var h := 1;
    h := 3 * h + 1;
    while h <= 256
      invariant h in {4, 13, 40, 121, 364}
      decreases 1000 - h
    {
      h := 3 * h + 1;
    }
    assert h == 364;
    while h != 1
      invariant h in {364, 121, 40, 13, 4, 1}
      invariant Rounds(order[..], ftab, h) == Order(ftab)
    {
      RoundsStep(order[..], ftab, h);
      h := h / 3;
      var i := h;
      while i <= 255
        invariant h <= i <= 256
        invariant Rounds(SiftedFrom(order[..], ftab, i, h), ftab, h) == Order(ftab)
      {
        SiftedFromStep(order[..], ftab, i, h);
        SiftOne(order, ftab, i, h);
        i := i + 1;
      }
      SiftedFromStep(order[..], ftab, i, h);
    }
    RoundsStep(order[..], ftab, 1);
    OrderAscends(ftab);
  }
}

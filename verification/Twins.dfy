/**
 Two equal rotations that have a bucket to themselves: the fallback sort never exchanges
 them, so they stay in the order in which the first pass lists them.
 */
module Twins {
  import opened Rotations
  import opened RangeSort
  import opened Pending
  import opened Bitmap
  import opened FallbackQSort
  import opened Doubling

  /** Places `p - 1` and `p` are a bucket, and hold equal rotations. */
  ghost predicate TwinsAt(s: seq<byte>, f: seq<int>, bh: seq<bv32>, p: int) {
    && 0 < p < |s| == |f| && 0 <= f[p - 1] < |s| && 0 <= f[p] < |s|
    && IsSet(bh, p - 1) && IsSet(bh, p + 1) && Cmp(s, f[p - 1], f[p], |s|) == 0
  }

  /** All twins stay where they are. */
  ghost predicate TwinsStay(s: seq<byte>, f: seq<int>, bh: seq<bv32>, g: seq<int>, bh': seq<bv32>) {
    forall p :: TwinsAt(s, f, bh, p) ==> TwinsAt(s, g, bh', p) && g[p - 1] == f[p - 1] && g[p] == f[p]
  }

  lemma TwinsRefl(s: seq<byte>, f: seq<int>, bh: seq<bv32>)
    ensures TwinsStay(s, f, bh, f, bh)
  {
    hide TwinsAt;
    forall p | TwinsAt(s, f, bh, p) ensures 0 < p < |f| { TwinPlace(s, f, bh, p); }
  }

  lemma TwinPlace(s: seq<byte>, f: seq<int>, bh: seq<bv32>, p: int)
    requires TwinsAt(s, f, bh, p)
    ensures 0 < p < |s| == |f|
  {
  }

  lemma TwinsTrans(s: seq<byte>, f: seq<int>, bh: seq<bv32>, g: seq<int>, bh': seq<bv32>, h: seq<int>, bh'': seq<bv32>)
    requires TwinsStay(s, f, bh, g, bh') && TwinsStay(s, g, bh', h, bh'')
    ensures TwinsStay(s, f, bh, h, bh'')
  {
    hide TwinsAt;
    forall p | TwinsAt(s, f, bh, p) ensures 0 < p < |f| == |h| {
      TwinPlace(s, f, bh, p);
      TwinPlace(s, h, bh'', p);
    }
  }

  /** Equal rotations have equal class numbers. */
  lemma EqualNumbers(s: seq<byte>, e: seq<int>, h: nat, x: int, y: int)
    requires ClassNumbers(s, e, h) && 0 <= x < |s| && 0 <= y < |s| && Cmp(s, x, y, |s|) == 0
    ensures e[x] == e[y]
  {
    CmpZeroForever(s, x, y, h);
    CmpZeroForever(s, x, y, 2 * h);
    WithinClass(s, e, h, x, y);
  }

  /** A bucket of two with equal class numbers is left alone. */
  lemma TwoStay(f: seq<int>, key: seq<int>, l: int)
    requires 0 <= l && l + 1 < |f| && Get(key, f[l]) == Get(key, f[l + 1])
    ensures QSorted(Sorting(f, [Range(l, l + 1, 0)], 0), key) == f
  {
    var s := Sorting(f, [Range(l, l + 1, 0)], 0);
    WeightPush([], s.stack[0]);
    assert [] + [s.stack[0]] == s.stack && s.stack[..0] == [];
    assert SimplySorted(f, key, l, l + 1) == InsertedDown(f, key, l, 1, l, l + 1);
    assert InsertedDown(f, key, l, 1, l, l + 1) ==
      InsertedDown(MovedDown(f, key, f[l], l + 1, 1, l + 1), key, l - 1, 1, l, l + 1);
    assert MovedDown(f, key, f[l], l + 1, 1, l + 1) == Put(f, l, f[l]) == f;
    QSortedStep(s, key);
    QSortedStep(Turned(s, key), key);
  }

  /** Refining one bucket leaves all twins alone. */
  lemma BucketTwins(s: seq<byte>, f: seq<int>, g: seq<int>, bh: seq<bv32>, bh': seq<bv32>, e: seq<int>, h: nat,
    l: int, r: int)
    requires |s| == |f| && 0 <= l < r < |f| && Bucket(bh, l, r) && ClassNumbers(s, e, h) && Rearranged(f, g, l, r)
    requires forall k :: l <= k <= r ==> 0 <= g[k] < |e|
    requires Reheaded(bh, bh', g, e, l, r)
    requires r == l + 1 && TwinsAt(s, f, bh, r) ==> g == f
    ensures TwinsStay(s, f, bh, g, bh')
  {
    hide IsSet, ClassNumbers, Cmp;
    forall p | TwinsAt(s, f, bh, p) ensures TwinsAt(s, g, bh', p) && g[p - 1] == f[p - 1] && g[p] == f[p] {
      if l < p <= r {
        assert p - 1 == l && p == r;
      } else {
        assert p - 1 != r || IsSet(bh, r);
        assert p != l || IsSet(bh, l + 1);
      }
    }
  }
}

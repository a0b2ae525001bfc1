/**
 The forest built while code lengths are computed: who is whose parent, how far each
 leaf is from its root, and why no tree can be deep.
 */
module HuffmanForest {
  import opened Bits

  /** Parents come after their children; -1 marks a root.  Entry 0 is not a node. */
  ghost predicate Forest(p: seq<int>) {
    |p| > 0 && forall k :: 0 < k < |p| ==> p[k] == -1 || k < p[k] < |p|
  }

  ghost function RootOf(p: seq<int>, k: int): (r: int)
    requires Forest(p) && 0 < k < |p|
    ensures k <= r < |p| && p[r] == -1
    decreases |p| - k
  {
    if p[k] == -1 then k else RootOf(p, p[k])
  }

  ghost function StepsOf(p: seq<int>, k: int): (s: nat)
    requires Forest(p) && 0 < k < |p|
    decreases |p| - k
  {
    if p[k] == -1 then 0 else 1 + StepsOf(p, p[k])
  }

  /** The forest after two roots have been joined under a new node. */
  ghost function Join(p: seq<int>, x: int, y: int): seq<int>
    requires 0 < x < |p| && 0 < y < |p|
  {
    p[x := |p|][y := |p|] + [-1]
  }

  lemma {:induction false} JoinWalk(p: seq<int>, x: int, y: int, k: int)
    requires Forest(p) && 0 < x < |p| && 0 < y < |p| && x != y && p[x] == -1 && p[y] == -1
    requires 0 < k < |p|
    ensures Forest(Join(p, x, y))
    ensures var r := RootOf(p, k);
            RootOf(Join(p, x, y), k) == (if r == x || r == y then |p| else r)
            && StepsOf(Join(p, x, y), k) == StepsOf(p, k) + (if r == x || r == y then 1 else 0)
    decreases |p| - k
  {
    var q := Join(p, x, y);
    assert forall i :: 0 < i < |p| && i != x && i != y ==> q[i] == p[i];
    if p[k] != -1 {
      JoinWalk(p, x, y, p[k]);
    } else if k == x || k == y {
      assert q[k] == |p| && q[|p|] == -1;
    }
  }

  /** The total of the leaf weights under root `r`, over leaves 1..n. */
  ghost function LeafSum(p: seq<int>, w: seq<nat>, r: int, n: nat): nat
    requires Forest(p) && n < |p| && n <= |w|
  {
    if n == 0 then 0 else LeafSum(p, w, r, n - 1) + if RootOf(p, n) == r then w[n - 1] else 0
  }

  ghost function Total(w: seq<nat>, n: nat): nat
    requires n <= |w|
  {
    if n == 0 then 0 else Total(w, n - 1) + w[n - 1]
  }

  lemma {:induction false} LeafSumAtMost(p: seq<int>, w: seq<nat>, r: int, n: nat)
    requires Forest(p) && n < |p| && n <= |w|
    ensures LeafSum(p, w, r, n) <= Total(w, n)
  {
    if n > 0 { LeafSumAtMost(p, w, r, n - 1); }
  }

  lemma {:induction false} JoinSum(p: seq<int>, w: seq<nat>, x: int, y: int, r: int, n: nat)
    requires Forest(p) && 0 < x < |p| && 0 < y < |p| && x != y && p[x] == -1 && p[y] == -1
    requires n < |p| && n <= |w| && Forest(Join(p, x, y))
    ensures LeafSum(Join(p, x, y), w, |p|, n) == LeafSum(p, w, x, n) + LeafSum(p, w, y, n)
    ensures r < |p| && r != x && r != y ==> LeafSum(Join(p, x, y), w, r, n) == LeafSum(p, w, r, n)
  {
    if n > 0 {
      JoinWalk(p, x, y, n);
      JoinSum(p, w, x, y, r, n - 1);
    }
  }

  /** The total of 2^(m - steps) over the leaves under root `r`. */
  ghost function LeafKraft(p: seq<int>, r: int, n: nat, m: nat): nat
    requires Forest(p) && n < |p|
  {
    if n == 0 then 0
    else LeafKraft(p, r, n - 1, m) + if RootOf(p, n) == r && StepsOf(p, n) <= m then Pow2(m - StepsOf(p, n)) else 0
  }

  lemma {:induction false} JoinKraft(p: seq<int>, x: int, y: int, r: int, n: nat, m: nat)
    requires Forest(p) && 0 < x < |p| && 0 < y < |p| && x != y && p[x] == -1 && p[y] == -1
    requires n < |p| && Forest(Join(p, x, y))
    requires forall k :: 0 < k <= n ==> StepsOf(p, k) < m
    ensures 2 * LeafKraft(Join(p, x, y), |p|, n, m) == LeafKraft(p, x, n, m) + LeafKraft(p, y, n, m)
    ensures r < |p| && r != x && r != y ==> LeafKraft(Join(p, x, y), r, n, m) == LeafKraft(p, r, n, m)
  {
    if n > 0 {
      JoinWalk(p, x, y, n);
      JoinKraft(p, x, y, r, n - 1, m);
      var s := StepsOf(p, n);
      assert Pow2(m - s) == 2 * Pow2(m - s - 1);
    }
  }

  // ---------------------------------------------------------------- trees are shallow

  /** 0, 1, 1, 2, 3, 5, ... starting one before zero. */
  function Fib(h: int): nat
    requires h >= -1
    decreases h + 1
  {
    if h == -1 then 0 else if h == 0 then 1 else Fib(h - 1) + Fib(h - 2)
  }

  lemma FibMono(a: int, b: int)
    requires -1 <= a <= b
    ensures Fib(a) <= Fib(b)
    decreases b - a
  {
    if a < b { FibMono(a, b - 1); }
  }

  lemma FibValues()
    ensures Fib(18) == 4181 && Fib(34) == 9227465
  {
    assert Fib(2) == 2 && Fib(3) == 3;
    assert Fib(4) == 5 && Fib(5) == 8;
    assert Fib(6) == 13 && Fib(7) == 21;
    assert Fib(8) == 34 && Fib(9) == 55;
    assert Fib(10) == 89 && Fib(11) == 144;
    assert Fib(12) == 233 && Fib(13) == 377;
    assert Fib(14) == 610 && Fib(15) == 987;
    assert Fib(16) == 1597 && Fib(17) == 2584;
    FibLater(17, 2584, 1597);
  }

  lemma FibLater(k: nat, a: nat, b: nat)
    requires k == 17 && Fib(17) == a == 2584 && Fib(16) == b == 1597
    ensures Fib(18) == 4181 && Fib(34) == 9227465
  {
    assert Fib(18) == 4181;
    assert Fib(19) == 6765;
    assert Fib(20) == 10946;
    assert Fib(21) == 17711;
    assert Fib(22) == 28657;
    assert Fib(23) == 46368;
    assert Fib(24) == 75025;
    assert Fib(25) == 121393;
    assert Fib(26) == 196418;
    assert Fib(27) == 317811;
    assert Fib(28) == 514229;
    assert Fib(29) == 832040;
    assert Fib(30) == 1346269;
    assert Fib(31) == 2178309;
    assert Fib(32) == 3524578;
    assert Fib(33) == 5702887;
  }

  /** A weight below 2^23 allows no tree deeper than 33. */
  lemma DepthBound(h: nat, weight: nat)
    requires Fib(h) <= weight < 8388608
    ensures h <= 33
  {
    if h >= 34 { FibMono(34, h); FibValues(); }
  }

  /** Only a total above 4180 allows a tree deeper than 17. */
  lemma DeepIsHeavy(h: nat, weight: nat)
    requires Fib(h) <= weight && h > 17
    ensures weight >= 4181
  {
    FibMono(18, h);
    FibValues();
  }
}

/**
 Why joining the two lightest trees gives the cheapest code: whatever lengths a prefix
 code may have, some code for the roots costs no more than what remains of it.
 */
module HuffmanCost {
  import opened Bits
  import opened CanonicalCode
  import opened HuffmanForest

  function Sum(a: seq<int>): int {
    if a == [] then 0 else Sum(a[..|a| - 1]) + a[|a| - 1]
  }

  lemma {:induction false} SumUpdate(a: seq<int>, j: int, v: int)
    requires 0 <= j < |a|
    ensures Sum(a[j := v]) == Sum(a) - a[j] + v
  {
    var k := |a| - 1;
    if j == k {
      assert a[j := v][..k] == a[..k];
    } else {
      assert a[j := v][..k] == a[..k][j := v];
      SumUpdate(a[..k], j, v);
    }
  }

  lemma SumOneMore(a: seq<int>, v: int)
    ensures Sum(a + [v]) == Sum(a) + v
  {
    assert (a + [v])[..|a|] == a;
  }

  lemma {:induction false} SumNonNegative(a: seq<int>)
    requires forall j :: 0 <= j < |a| ==> a[j] >= 0
    ensures Sum(a) >= 0
  {
    if a != [] { SumNonNegative(a[..|a| - 1]); }
  }

  lemma {:induction false} SumMultiple(a: seq<int>, m: nat)
    requires m > 0 && forall j :: 0 <= j < |a| ==> a[j] % m == 0
    ensures Sum(a) % m == 0
  {
    if a != [] {
      SumMultiple(a[..|a| - 1], m);
      MultiplesAdd(Sum(a[..|a| - 1]), a[|a| - 1], m);
    }
  }

  lemma MultiplesAdd(u: int, v: int, m: nat)
    requires m > 0 && u % m == 0 && v % m == 0
    ensures (u + v) % m == 0
  {
    var p, q, r := u / m, v / m, (u + v) / m;
    assert u == m * p && v == m * q && u + v == m * r + (u + v) % m;
    assert m * (p + q) == m * p + m * q;
    assert m * (p + q - r) == (u + v) % m by { assert m * (p + q - r) == m * (p + q) - m * r; }
    if p + q - r >= 1 { MulMonotone(1, p + q - r, m); }
    if p + q - r <= -1 { MulMonotone(p + q - r, -1, m); }
  }

  /** Below a multiple there is room for one more unit. */
  lemma RoomForOne(s: int, m: nat, k: nat)
    requires m > 0 && s % m == 0 && s < m * k
    ensures s + m <= m * k
  {
    var q := s / m;
    assert s == m * q;
    assert m * (q + 1) == m * q + m;
    if q >= k { MulMonotone(k, q, m); } else { MulMonotone(q + 1, k, m); }
  }

  // ---------------------------------------------------------------- weights and lengths

  function Costs(w: seq<nat>, l: seq<nat>): (s: seq<int>)
    requires |l| == |w|
    ensures |s| == |w| && forall j :: 0 <= j < |w| ==> s[j] == w[j] * l[j]
  {
    seq(|w|, j requires 0 <= j < |w| => w[j] * l[j])
  }

  function Share(w: nat, l: nat): nat {
    if w > 0 && l <= 17 then Pow2(17 - l) else 0
  }

  function Shares(w: seq<nat>, l: seq<nat>): (s: seq<int>)
    requires |l| == |w|
    ensures |s| == |w| && forall j :: 0 <= j < |w| ==> s[j] == Share(w[j], l[j])
  {
    seq(|w|, j requires 0 <= j < |w| => Share(w[j], l[j]))
  }

  /** The entries with a weight can have code words of these lengths. */
  ghost predicate Fits(w: seq<nat>, l: seq<nat>) {
    |l| == |w| && (forall j :: 0 <= j < |w| && w[j] > 0 ==> l[j] <= 17) && Sum(Shares(w, l)) <= Pow2(17)
  }

  function Cost(w: seq<nat>, l: seq<nat>): int
    requires |l| == |w|
  {
    Sum(Costs(w, l))
  }

  lemma Change(w: seq<nat>, l: seq<nat>, j: int, v: nat)
    requires |l| == |w| && 0 <= j < |w|
    ensures Cost(w, l[j := v]) == Cost(w, l) + w[j] * v - w[j] * l[j]
    ensures Sum(Shares(w, l[j := v])) == Sum(Shares(w, l)) + Share(w[j], v) - Share(w[j], l[j])
  {
    hide Share, Sum;
    assert Costs(w, l[j := v]) == Costs(w, l)[j := w[j] * v];
    assert Shares(w, l[j := v]) == Shares(w, l)[j := Share(w[j], v)];
    SumUpdate(Costs(w, l), j, w[j] * v);
    SumUpdate(Shares(w, l), j, Share(w[j], v));
  }

  /** Giving the lighter of two entries the longer code word costs nothing. */
  lemma Exchange(w: seq<nat>, l: seq<nat>, i: int, j: int)
    requires Fits(w, l) && 0 <= i < |w| && 0 <= j < |w| && i != j && 0 < w[i] <= w[j] && l[i] <= l[j]
    ensures Fits(w, l[i := l[j]][j := l[i]]) && Cost(w, l[i := l[j]][j := l[i]]) <= Cost(w, l)
  {
    hide Sum, Pow2;
    Change(w, l, i, l[j]);
    Change(w, l[i := l[j]], j, l[i]);
    Products(w[j] - w[i], l[j] - l[i], w[i], w[j], l[i], l[j]);
  }

  lemma Products(d: int, e: int, a: int, b: int, c: int, f: int)
    requires d >= 0 && e >= 0 && d == b - a && e == f - c
    ensures a * f + b * c <= a * c + b * f
  {
    assert d * e >= 0;
    assert d * e == b * f - b * c - a * f + a * c;
  }

  /** The longest code word of an entry other than `x`. */
  lemma {:induction false} Longest(w: seq<nat>, l: seq<nat>, x: int, y: int, n: nat) returns (i: int)
    requires |l| == |w| && n <= |w| && 0 <= y < |w| && w[y] > 0 && y != x
    ensures 0 <= i < |w| && w[i] > 0 && i != x && l[y] <= l[i]
    ensures forall j :: 0 <= j < n && w[j] > 0 && j != x ==> l[j] <= l[i]
  {
    if n == 0 {
      i := y;
    } else {
      i := Longest(w, l, x, y, n - 1);
      if w[n - 1] > 0 && n - 1 != x && l[n - 1] > l[i] { i := n - 1; }
    }
  }

  /** The lightest entry can have the longest code word, and the next one the next longest. */
  lemma Arranged(w: seq<nat>, l: seq<nat>, x: int, y: int) returns (m: seq<nat>)
    requires Fits(w, l) && 0 <= x < |w| && 0 <= y < |w| && x != y && w[x] > 0 && w[y] > 0
    requires forall j :: 0 <= j < |w| && w[j] > 0 ==> w[x] <= w[j] && (j != x ==> w[y] <= w[j])
    ensures Fits(w, m) && Cost(w, m) <= Cost(w, l)
    ensures m[y] <= m[x] && forall j :: 0 <= j < |w| && w[j] > 0 && j != x ==> m[j] <= m[y]
  {
    hide Fits, Cost;
    FitsSize(w, l);
    var i := Longest(w, l, -1, x, |w|);
    m := l;
    if i != x {
      Exchange(w, l, x, i);
      m := l[x := l[i]][i := l[x]];
    }
    var k := Longest(w, m, x, y, |w|);
    if k != y {
      Exchange(w, m, y, k);
      m := m[y := m[k]][k := m[y]];
      FitsSize(w, m);
    }
  }

  lemma FitsSize(w: seq<nat>, l: seq<nat>)
    requires Fits(w, l)
    ensures |l| == |w|
  {
  }

  /** The longest code word need not be longer than the next. */
  lemma Shortened(w: seq<nat>, l: seq<nat>, x: int, y: int)
    requires Fits(w, l) && 0 <= x < |w| && 0 <= y < |w| && x != y && w[x] > 0 && w[y] > 0
    requires l[y] <= l[x] && forall j :: 0 <= j < |w| && w[j] > 0 && j != x ==> l[j] <= l[y]
    ensures Fits(w, l[x := l[y]]) && Cost(w, l[x := l[y]]) <= Cost(w, l)
  {
    hide Sum, Pow2;
    var m := Pow2(17 - l[y]);
    var others := Shares(w, l)[x := 0];
    forall j | 0 <= j < |others| ensures others[j] % m == 0 {
      if j != x && w[j] > 0 { PowersDivide(17 - l[y], l[y] - l[j]); }
    }
    SumMultiple(others, m);
    SumUpdate(Shares(w, l), x, 0);
    Pow2Add(17 - l[y], l[y]);
    RoomForOne(Sum(others), m, Pow2(l[y]));
    Change(w, l, x, l[y]);
    Products(w[x], l[x] - l[y], 0, w[x], l[y], l[x]);
  }

  lemma PowersDivide(a: nat, b: nat)
    ensures Pow2(a + b) % Pow2(a) == 0
  {
    hide Pow2;
    Pow2Add(a, b);
    MultipleOf(Pow2(b), Pow2(a));
  }

  lemma MultipleOf(q: nat, m: nat)
    requires m > 0
    ensures (m * q) % m == 0 && (q * m) % m == 0
  {
    var p, r := m * q / m, m * q % m;
    assert m * q == m * p + r;
    assert m * (q - p) == r;
    if q - p >= 1 { MulMonotone(1, q - p, m); }
    if q - p <= -1 { MulMonotone(q - p, -1, m); }
  }

  /** Two entries joined under a new one. */
  function Merged(w: seq<nat>, x: int, y: int): seq<nat>
    requires 0 <= x < |w| && 0 <= y < |w|
  {
    w[x := 0][y := 0] + [w[x] + w[y]]
  }

  /** Two entries with code words of one length can share all but their last bit. */
  lemma Shared(w: seq<nat>, l: seq<nat>, x: int, y: int)
    requires Fits(w, l) && 0 <= x < |w| && 0 <= y < |w| && x != y && w[x] > 0 && w[y] > 0 && l[x] == l[y]
    ensures l[x] > 0 && Fits(Merged(w, x, y), l + [l[x] - 1])
    ensures Cost(Merged(w, x, y), l + [l[x] - 1]) + w[x] + w[y] == Cost(w, l)
  {
    hide Sum, Pow2;
    SharesJoin(w, l, x, y);
    CostsJoin(w, l, x, y);
  }

  lemma SharesJoin(w: seq<nat>, l: seq<nat>, x: int, y: int)
    requires Fits(w, l) && 0 <= x < |w| && 0 <= y < |w| && x != y && w[x] > 0 && w[y] > 0 && l[x] == l[y]
    ensures l[x] > 0 && Sum(Shares(Merged(w, x, y), l + [l[x] - 1])) == Sum(Shares(w, l))
  {
    hide Sum, Pow2;
    var s := Shares(w, l);
    var rest := s[x := 0][y := 0];
    SumUpdate(s, x, 0);
    SumUpdate(s[x := 0], y, 0);
    SumNonNegative(rest);
    Twice(l[x]);
    assert Shares(Merged(w, x, y), l + [l[x] - 1]) == rest + [Share(w[x] + w[y], l[x] - 1)];
    SumOneMore(rest, Share(w[x] + w[y], l[x] - 1));
  }

  lemma CostsJoin(w: seq<nat>, l: seq<nat>, x: int, y: int)
    requires |l| == |w| && 0 <= x < |w| && 0 <= y < |w| && x != y && l[x] == l[y] > 0
    ensures Cost(Merged(w, x, y), l + [l[x] - 1]) + w[x] + w[y] == Cost(w, l)
  {
    hide Sum;
    var c := Costs(w, l);
    var rest := c[x := 0][y := 0];
    SumUpdate(c, x, 0);
    SumUpdate(c[x := 0], y, 0);
    assert Costs(Merged(w, x, y), l + [l[x] - 1]) == rest + [(w[x] + w[y]) * (l[x] - 1)];
    SumOneMore(rest, (w[x] + w[y]) * (l[x] - 1));
    assert (w[x] + w[y]) * (l[x] - 1) == w[x] * l[x] + w[y] * l[y] - w[x] - w[y];
  }

  lemma Twice(l: nat)
    requires l <= 17 && 2 * Pow2(17 - l) <= Pow2(17)
    ensures l > 0 && Pow2(17 - (l - 1)) == 2 * Pow2(17 - l)
  {
  }

  /** The step of the argument: a code for the entries gives one for the entries with the two
      lightest merged, which costs less by their weights. */
  lemma MergeStep(w: seq<nat>, l: seq<nat>, x: int, y: int) returns (m: seq<nat>)
    requires Fits(w, l) && 0 <= x < |w| && 0 <= y < |w| && x != y && w[x] > 0 && w[y] > 0
    requires forall j :: 0 <= j < |w| && w[j] > 0 ==> w[x] <= w[j] && (j != x ==> w[y] <= w[j])
    ensures Fits(Merged(w, x, y), m) && Cost(Merged(w, x, y), m) + w[x] + w[y] <= Cost(w, l)
  {
    hide Fits, Cost;
    var a := Arranged(w, l, x, y);
    FitsSize(w, a);
    Shortened(w, a, x, y);
    var b := a[x := a[y]];
    Shared(w, b, x, y);
    m := b + [b[x] - 1];
  }

  // ---------------------------------------------------------------- forests

  /** The total of weight times distance from the root, over leaves 1..n. */
  ghost function LeafCost(p: seq<int>, lw: seq<nat>, n: nat): nat
    requires Forest(p) && n < |p| && n <= |lw|
  {
    if n == 0 then 0 else LeafCost(p, lw, n - 1) + lw[n - 1] * StepsOf(p, n)
  }

  lemma {:induction false} JoinCost(p: seq<int>, lw: seq<nat>, x: int, y: int, n: nat)
    requires Forest(p) && 0 < x < |p| && 0 < y < |p| && x != y && p[x] == -1 && p[y] == -1
    requires n < |p| && n <= |lw| && Forest(Join(p, x, y))
    ensures LeafCost(Join(p, x, y), lw, n) == LeafCost(p, lw, n) + LeafSum(p, lw, x, n) + LeafSum(p, lw, y, n)
  {
    hide RootOf, StepsOf;
    if n > 0 {
      JoinWalk(p, x, y, n);
      JoinCost(p, lw, x, y, n - 1);
      var s := StepsOf(p, n);
      assert lw[n - 1] * (s + 1) == lw[n - 1] * s + lw[n - 1];
    }
  }

  /** The weights of the roots; all other entries have none. */
  ghost function Loads(p: seq<int>, lw: seq<nat>, n: nat): (w: seq<nat>)
    requires Forest(p) && n < |p| && n <= |lw|
    ensures |w| == |p|
    ensures forall j :: 0 <= j < |p| ==> w[j] == if j > 0 && p[j] == -1 then LeafSum(p, lw, j, n) else 0
  {
    seq(|p|, j requires 0 <= j < |p| => if j > 0 && p[j] == -1 then LeafSum(p, lw, j, n) else 0)
  }

  lemma JoinWeights(p: seq<int>, lw: seq<nat>, x: int, y: int, n: nat)
    requires Forest(p) && 0 < x < |p| && 0 < y < |p| && x != y && p[x] == -1 && p[y] == -1
    requires n < |p| && n <= |lw| && Forest(Join(p, x, y))
    ensures Loads(Join(p, x, y), lw, n) == Merged(Loads(p, lw, n), x, y)
  {
    hide LeafSum;
    var q := Join(p, x, y);
    forall j | 0 <= j < |q| ensures Loads(q, lw, n)[j] == Merged(Loads(p, lw, n), x, y)[j] {
      JoinSum(p, lw, x, y, j, n);
    }
  }

  /** How many bits a text takes in which symbol `i` occurs `lw[i]` times. */
  function TextBits(lw: seq<nat>, len: seq<nat>, n: nat): nat
    requires n <= |lw| && n <= |len|
  {
    if n == 0 then 0 else TextBits(lw, len, n - 1) + lw[n - 1] * len[n - 1]
  }

  /** No prefix code of at most 17 bits a word makes the text shorter. */
  ghost predicate Cheapest(lw: seq<nat>, len: seq<nat>) {
    |len| == |lw| &&
    forall other: seq<nat> :: |other| == |lw| && Prefixable(other, 17) ==>
      TextBits(lw, len, |lw|) <= TextBits(lw, other, |lw|)
  }

  /** Some code for the roots, after what has been joined, costs no more than this one. */
  ghost predicate Below(p: seq<int>, lw: seq<nat>, other: seq<nat>)
    requires Forest(p) && |other| == |lw| < |p|
  {
    exists l: seq<nat> :: |l| == |p| && Fits(Loads(p, lw, |lw|), l)
      && Cost(Loads(p, lw, |lw|), l) + LeafCost(p, lw, |lw|) <= TextBits(lw, other, |lw|)
  }

  /** What is known of the cost at every moment of the construction. */
  ghost predicate Thrifty(p: seq<int>, lw: seq<nat>) {
    Forest(p) && |lw| < |p| && forall other: seq<nat> :: |other| == |lw| && Prefixable(other, 17) ==>
      Below(p, lw, other)
  }

  /** Joining the two lightest roots keeps it. */
  lemma ThriftyStep(p: seq<int>, lw: seq<nat>, x: int, y: int)
    requires Thrifty(p, lw) && 0 < x < |p| && 0 < y < |p| && x != y && p[x] == -1 && p[y] == -1
    requires var w := Loads(p, lw, |lw|);
      w[x] > 0 && w[y] > 0 && forall j :: 0 <= j < |w| && w[j] > 0 ==> w[x] <= w[j] && (j != x ==> w[y] <= w[j])
    ensures Thrifty(Join(p, x, y), lw)
  {
    hide Fits, Cost, LeafCost, LeafSum, Prefixable, TextBits, Merged;
    var n, q := |lw|, Join(p, x, y);
    JoinWalk(p, x, y, x);
    JoinWeights(p, lw, x, y, n);
    JoinCost(p, lw, x, y, n);
    var w := Loads(p, lw, n);
    forall other: seq<nat> | |other| == n && Prefixable(other, 17) ensures Below(q, lw, other) {
      assert Below(p, lw, other);
      var l: seq<nat> :| |l| == |w| && Fits(w, l) && Cost(w, l) + LeafCost(p, lw, n) <= TextBits(lw, other, n);
      var m := MergeStep(w, l, x, y);
      FitsSize(Loads(q, lw, n), m);
    }
  }

  /** At the end the code that was built is the cheapest. */
  lemma ThriftyEnd(p: seq<int>, lw: seq<nat>, len: seq<nat>)
    requires Thrifty(p, lw) && |len| == |lw| && forall i :: 1 <= i <= |lw| ==> len[i - 1] == StepsOf(p, i)
    ensures Cheapest(lw, len)
  {
    hide Fits, LeafCost, Prefixable, TextBits;
    var w := Loads(p, lw, |lw|);
    LeafCostIs(p, lw, len, |lw|);
    forall other: seq<nat> | |other| == |lw| && Prefixable(other, 17)
      ensures TextBits(lw, len, |lw|) <= TextBits(lw, other, |lw|)
    {
      assert Below(p, lw, other);
      var l: seq<nat> :| |l| == |w| && Fits(w, l) && Cost(w, l) + LeafCost(p, lw, |lw|) <= TextBits(lw, other, |lw|);
      FitsSize(w, l);
      CostNonNegative(w, l);
    }
  }

  lemma CostNonNegative(w: seq<nat>, l: seq<nat>)
    requires |l| == |w|
    ensures Cost(w, l) >= 0
  {
    SumNonNegative(Costs(w, l));
  }

  lemma {:induction false} LeafCostIs(p: seq<int>, lw: seq<nat>, len: seq<nat>, n: nat)
    requires Forest(p) && n < |p| && n <= |lw| == |len|
    requires forall i :: 1 <= i <= n ==> len[i - 1] == StepsOf(p, i)
    ensures LeafCost(p, lw, n) == TextBits(lw, len, n)
  {
    if n > 0 { LeafCostIs(p, lw, len, n - 1); }
  }

  /** Before any joining. */
  lemma ThriftyStart(p: seq<int>, lw: seq<nat>)
    requires |p| == |lw| + 1 && Forest(p) && forall k :: 0 < k < |p| ==> p[k] == -1
    requires forall i :: 0 <= i < |lw| ==> lw[i] > 0 && LeafSum(p, lw, i + 1, |lw|) == lw[i]
    ensures Thrifty(p, lw)
  {
    hide LeafSum, Prefixable, Below, LeafCost, Loads;
    StartWeights(p, lw);
    NoSteps(p, lw, |lw|);
    forall other: seq<nat> | |other| == |lw| && Prefixable(other, 17) ensures Below(p, lw, other) {
      BelowStart(p, lw, other);
    }
  }

  lemma BelowStart(p: seq<int>, lw: seq<nat>, other: seq<nat>)
    requires |p| == |lw| + 1 && Forest(p) && |other| == |lw| && Prefixable(other, 17)
    requires (forall i :: 0 <= i < |lw| ==> lw[i] > 0) && Loads(p, lw, |lw|) == [0] + lw && LeafCost(p, lw, |lw|) == 0
    ensures Below(p, lw, other)
  {
    hide LeafSum, Fits, Cost, Prefixable, TextBits, LeafCost, Loads;
    StartFits(lw, other);
    var l := [0 as nat] + other;
    assert |l| == |p|;
  }

  lemma StartWeights(p: seq<int>, lw: seq<nat>)
    requires |p| == |lw| + 1 && Forest(p) && forall k :: 0 < k < |p| ==> p[k] == -1
    requires forall i :: 0 <= i < |lw| ==> LeafSum(p, lw, i + 1, |lw|) == lw[i]
    ensures Loads(p, lw, |lw|) == [0] + lw
  {
    hide LeafSum;
    var w := Loads(p, lw, |lw|);
    forall j | 0 <= j < |p| ensures w[j] == ([0] + lw)[j] {
      if j > 0 { assert LeafSum(p, lw, j - 1 + 1, |lw|) == lw[j - 1]; }
    }
  }

  lemma {:induction false} NoSteps(p: seq<int>, lw: seq<nat>, n: nat)
    requires n < |p| && n <= |lw| && Forest(p) && forall k :: 0 < k < |p| ==> p[k] == -1
    ensures LeafCost(p, lw, n) == 0
  {
    if n > 0 { NoSteps(p, lw, n - 1); }
  }

  lemma {:induction false} StartSums(lw: seq<nat>, other: seq<nat>, n: nat)
    requires n <= |lw| == |other| && (forall i :: 0 <= i < n ==> lw[i] > 0 && other[i] <= 17)
    ensures Cost([0] + lw[..n], [0] + other[..n]) == TextBits(lw, other, n)
    ensures Sum(Shares([0] + lw[..n], [0] + other[..n])) == Kraft(other[..n], 17, 17)
  {
    hide Pow2;
    var w, l := [0] + lw[..n], [0] + other[..n];
    if n == 0 {
      assert Costs(w, l) == [] + [0] && Shares(w, l) == [] + [0];
      SumOneMore([], 0);
    } else {
      StartSums(lw, other, n - 1);
      var w0, l0 := [0] + lw[..n - 1], [0] + other[..n - 1];
      assert Costs(w, l) == Costs(w0, l0) + [lw[n - 1] * other[n - 1]];
      assert Shares(w, l) == Shares(w0, l0) + [Share(lw[n - 1], other[n - 1])];
      SumOneMore(Costs(w0, l0), lw[n - 1] * other[n - 1]);
      SumOneMore(Shares(w0, l0), Share(lw[n - 1], other[n - 1]));
      assert other[..n][..n - 1] == other[..n - 1];
    }
  }

  lemma StartFits(lw: seq<nat>, other: seq<nat>)
    requires |other| == |lw| && Prefixable(other, 17) && forall i :: 0 <= i < |lw| ==> lw[i] > 0
    ensures Fits([0] + lw, [0] + other) && Cost([0] + lw, [0] + other) == TextBits(lw, other, |lw|)
  {
    hide Sum, Cost, Kraft, Pow2, TextBits;
    StartSums(lw, other, |lw|);
    assert lw[..|lw|] == lw && other[..|lw|] == other;
  }

  // ---------------------------------------------------------------- what that means

  /** In a cheapest code of at most 17 bits a heavier symbol never has the longer code word. */
  lemma HeavierIsShorter(lw: seq<nat>, len: seq<nat>, i: int, j: int)
    requires Cheapest(lw, len) && Prefixable(len, 17) && 0 <= i < |lw| && 0 <= j < |lw| && lw[i] < lw[j]
    ensures len[j] <= len[i]
  {
    hide TextBits, Prefixable, Kraft;
    if len[i] < len[j] {
      var other := len[i := len[j]][j := len[i]];
      SwapKeepsPrefixable(len, i, j);
      TextUpdate(lw, len, i, len[j], |lw|);
      TextUpdate(lw, len[i := len[j]], j, len[i], |lw|);
      StrictProducts(lw[i], lw[j], len[i], len[j]);
    }
  }

  lemma StrictProducts(a: int, b: int, c: int, f: int)
    requires a < b && c < f
    ensures a * f + b * c < a * c + b * f
  {
    var d, e := b - a, f - c;
    assert d * e > 0;
    assert d * e == b * f - b * c - a * f + a * c;
  }

  lemma {:induction false} TextUpdate(lw: seq<nat>, len: seq<nat>, i: int, v: nat, n: nat)
    requires n <= |lw| == |len| && 0 <= i < |lw|
    ensures TextBits(lw, len[i := v], n) == TextBits(lw, len, n) + if i < n then lw[i] * v - lw[i] * len[i] else 0
  {
    if n > 0 { TextUpdate(lw, len, i, v, n - 1); }
  }

  lemma SwapKeepsPrefixable(len: seq<nat>, i: int, j: int)
    requires Prefixable(len, 17) && 0 <= i < |len| && 0 <= j < |len| && i != j
    ensures Prefixable(len[i := len[j]][j := len[i]], 17)
  {
    hide Kraft, Pow2;
    KraftUpdate(len, i, len[j]);
    KraftUpdate(len[i := len[j]], j, len[i]);
  }

  lemma {:induction false} KraftUpdate(len: seq<nat>, i: int, v: nat)
    requires 0 <= i < |len| && len[i] <= 17 && v <= 17
    ensures Kraft(len[i := v], 17, 17) == Kraft(len, 17, 17) + Pow2(17 - v) - Pow2(17 - len[i])
  {
    hide Pow2;
    var k := |len| - 1;
    if i == k {
      assert len[i := v][..k] == len[..k];
    } else {
      assert len[i := v][..k] == len[..k][i := v];
      KraftUpdate(len[..k], i, v);
    }
  }
}

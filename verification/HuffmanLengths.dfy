/**
 Code lengths from frequencies: Huffman's construction, repeated with flattened weights
 until no code is longer than the limit.
 */
module HuffmanLengths {
  import opened Bits
  import opened Counting
  import opened CanonicalCode
  import opened HuffmanForest
  import opened HuffmanHeap
  import opened RangeSort
  import HuffmanCost

  const MAX_ALPHA_SIZE := 258
  const MAX_TOTAL := 8388608 // 2^23: a packed weight then fits in 31 bits
  const SCALE: nat := 64

  /** A node's weight and the depth of its tree share a word. */
  function WeightOf(z: int): int {
    z / 256
  }

  function DepthOf(z: int): int {
    z % 256
  }

  function Max(a: int, b: int): int {
    if a > b then a else b
  }

  function AddWeights(zw1: int, zw2: int): int
    requires zw1 >= 0 && zw2 >= 0
  {
    BitOr(WeightOf(zw1) * 256 + WeightOf(zw2) * 256, 1 + Max(DepthOf(zw1), DepthOf(zw2)))
  }

  /** As long as the depth byte does not overflow, the sum has the sum of the weights and a
      depth of one more than the deeper part. */
  lemma AddWeightsParts(a: int, b: int)
    requires a >= 0 && b >= 0 && DepthOf(a) <= 254 && DepthOf(b) <= 254
    ensures WeightOf(AddWeights(a, b)) == WeightOf(a) + WeightOf(b)
    ensures DepthOf(AddWeights(a, b)) == 1 + Max(DepthOf(a), DepthOf(b))
    ensures AddWeights(a, b) >= 0
  {
    var w, d := WeightOf(a) + WeightOf(b), 1 + Max(DepthOf(a), DepthOf(b));
    Pow2Values();
    BitOrDisjoint(w, d, 8);
    assert w * 256 == WeightOf(a) * 256 + WeightOf(b) * 256;
    PackedParts(w, d);
  }

  lemma PackedParts(w: nat, d: nat)
    requires d < 256
    ensures WeightOf(w * 256 + d) == w && DepthOf(w * 256 + d) == d
  {
  }

  ghost predicate IsRoot(p: seq<int>, x: int) {
    0 < x < |p| && p[x] == -1
  }

  /** What is known of the tree under a root: its weight is that of its leaves, its depth is
      bounded by its weight, and its leaves fill up the code space. */
  ghost predicate RootOk(p: seq<int>, w: seq<int>, child: seq<nat>, lw: seq<nat>, n: nat, x: int)
    requires Forest(p) && IsRoot(p, x) && n == |lw| < |p| <= |w| && |child| == |p|
  {
    && w[x] >= 0
    && WeightOf(w[x]) == LeafSum(p, lw, x, n)
    && Fib(DepthOf(w[x])) <= WeightOf(w[x])
    && Fib(DepthOf(w[x]) - 1) <= child[x]
    && LeafKraft(p, x, n, SCALE) == Pow2(SCALE)
  }

  /** The state of the construction.  `child[x]` is the weight of the heavier child of `x`; no
      root is lighter than a child of another, since children are taken lightest first. */
  ghost predicate Trees(p: seq<int>, w: seq<int>, child: seq<nat>, lw: seq<nat>, n: nat) {
    && Forest(p) && 0 < n == |lw| < |p| <= |w| && |child| == |p|
    && Total(lw, n) < MAX_TOTAL
    && (forall x :: IsRoot(p, x) ==> RootOk(p, w, child, lw, n, x))
    && (forall x, y :: IsRoot(p, x) && IsRoot(p, y) && x != y ==> child[x] <= WeightOf(w[y]))
    && forall i :: 1 <= i <= n ==> StepsOf(p, i) <= DepthOf(w[RootOf(p, i)])
  }

  lemma {:induction false} RootShallow(p: seq<int>, w: seq<int>, child: seq<nat>, lw: seq<nat>, n: nat, x: int)
    requires Trees(p, w, child, lw, n) && IsRoot(p, x)
    ensures w[x] >= 0 && DepthOf(w[x]) <= 33 && WeightOf(w[x]) <= Total(lw, n)
  {
    assert RootOk(p, w, child, lw, n, x);
    LeafSumAtMost(p, lw, x, n);
    DepthBound(DepthOf(w[x]), WeightOf(w[x]));
  }

  lemma {:induction false} LeavesShallow(p: seq<int>, w: seq<int>, child: seq<nat>, lw: seq<nat>, n: nat)
    requires Trees(p, w, child, lw, n)
    ensures forall k :: 0 < k <= n ==> StepsOf(p, k) <= 33
  {
    forall k | 0 < k <= n ensures StepsOf(p, k) <= 33 {
      RootShallow(p, w, child, lw, n, RootOf(p, k));
    }
  }

  /** Joining the two lightest roots keeps everything that is known of the trees. */
  lemma {:induction false} JoinTrees(p: seq<int>, w: seq<int>, w': seq<int>, child: seq<nat>, lw: seq<nat>, n: nat,
    x: int, y: int)
    requires Trees(p, w, child, lw, n) && IsRoot(p, x) && IsRoot(p, y) && x != y && |p| < |w'| && |p| <= |w|
    requires forall u :: IsRoot(p, u) ==> w[x] <= w[u]
    requires forall u :: IsRoot(p, u) && u != x ==> w[y] <= w[u]
    requires w[x] >= 0 && w[y] >= 0
    requires forall k :: 0 <= k < |p| ==> w'[k] == w[k]
    requires w'[|p|] == AddWeights(w[x], w[y])
    ensures Trees(Join(p, x, y), w', child + [WeightOf(w[y])], lw, n)
  {
    hide LeafSum, LeafKraft, RootOf, StepsOf, AddWeights, Pow2, Fib;
    var z, q := |p|, Join(p, x, y);
    var child' := child + [WeightOf(w[y])];
    RootShallow(p, w, child, lw, n, x);
    RootShallow(p, w, child, lw, n, y);
    AddWeightsParts(w[x], w[y]);
    JoinWalk(p, x, y, x);
    LeavesShallow(p, w, child, lw, n);
    JoinedRoot(p, w, w', child, lw, n, x, y);
    forall u | IsRoot(q, u) ensures RootOk(q, w', child', lw, n, u) {
      if u != z {
        assert IsRoot(p, u) && RootOk(p, w, child, lw, n, u);
        JoinSum(p, lw, x, y, u, n);
        JoinKraft(p, x, y, u, n, SCALE);
      }
    }
    forall u, v | IsRoot(q, u) && IsRoot(q, v) && u != v ensures child'[u] <= WeightOf(w'[v]) {
      if u == z {
        assert IsRoot(p, v) && w[y] <= w[v];
      } else {
        assert IsRoot(p, u);
        if v != z { assert IsRoot(p, v); }
      }
    }
    forall i | 1 <= i <= n ensures StepsOf(q, i) <= DepthOf(w'[RootOf(q, i)]) {
      JoinWalk(p, x, y, i);
    }
  }

  lemma {:induction false} JoinedRoot(p: seq<int>, w: seq<int>, w': seq<int>, child: seq<nat>, lw: seq<nat>, n: nat,
    x: int, y: int)
    requires Trees(p, w, child, lw, n) && IsRoot(p, x) && IsRoot(p, y) && x != y && |p| < |w'| && |p| <= |w|
    requires w[x] <= w[y] && w[x] >= 0 && Forest(Join(p, x, y))
    requires forall k :: 0 <= k < |p| ==> w'[k] == w[k]
    requires w'[|p|] == AddWeights(w[x], w[y])
    ensures RootOk(Join(p, x, y), w', child + [WeightOf(w[y])], lw, n, |p|)
  {
    hide LeafSum, LeafKraft, RootOf, StepsOf, AddWeights, Pow2, Fib;
    RootShallow(p, w, child, lw, n, x);
    RootShallow(p, w, child, lw, n, y);
    AddWeightsParts(w[x], w[y]);
    assert RootOk(p, w, child, lw, n, x) && RootOk(p, w, child, lw, n, y);
    JoinSum(p, lw, x, y, x, n);
    JoinedKraft(p, w, child, lw, n, x, y);
    WeightsInOrder(w[x], w[y]);
    DeeperChild(DepthOf(w[x]), DepthOf(w[y]), WeightOf(w[x]), WeightOf(w[y]), child[x], child[y]);
  }

  lemma WeightsInOrder(a: int, b: int)
    requires 0 <= a <= b
    ensures WeightOf(a) <= WeightOf(b)
  {
  }

  lemma JoinedKraft(p: seq<int>, w: seq<int>, child: seq<nat>, lw: seq<nat>, n: nat, x: int, y: int)
    requires Trees(p, w, child, lw, n) && IsRoot(p, x) && IsRoot(p, y) && x != y && Forest(Join(p, x, y))
    ensures LeafKraft(Join(p, x, y), |p|, n, SCALE) == Pow2(SCALE)
  {
    hide LeafSum, LeafKraft, RootOf, StepsOf, Pow2, Fib;
    LeavesShallow(p, w, child, lw, n);
    assert RootOk(p, w, child, lw, n, x) && RootOk(p, w, child, lw, n, y);
    JoinKraft(p, x, y, x, n, SCALE);
  }

  /** Both trees are no heavier than the other's heavier child allows, so the joined tree's weight
      bounds its depth as well. */
  lemma DeeperChild(dx: int, dy: int, wx: nat, wy: nat, cx: nat, cy: nat)
    requires dx >= 0 && dy >= 0 && Fib(dx) <= wx <= wy && Fib(dy) <= wy
    requires Fib(dx - 1) <= cx <= wy && Fib(dy - 1) <= cy <= wx
    ensures Fib(1 + Max(dx, dy)) <= wx + wy && Fib(Max(dx, dy)) <= wy
  {
    var h := Max(dx, dy);
    assert Fib(h + 1) == Fib(h) + Fib(h - 1);
  }

  // ---------------------------------------------------------------- what is computed

  /** A moment of the construction: the heap, the weights and the parents of the nodes so far. */
  datatype Joining = Joining(heap: seq<int>, weight: seq<int>, parent: seq<int>)

  /** The weights of the leaves, behind the sentinel. */
  function Leaves(lw: seq<nat>): (w: seq<int>)
    ensures |w| == |lw| + 1 && w[0] == 0 && forall i :: 1 <= i <= |lw| ==> w[i] == lw[i - 1] * 256
  {
    seq(|lw| + 1, i requires 0 <= i < |lw| + 1 => if i == 0 then 0 else lw[i - 1] * 256)
  }

  /** The heap after the first `k` leaves. */
  function Heaped(w: seq<int>, k: nat): (h: seq<int>)
    ensures |h| == k + 1
  {
    if k == 0 then [0] else Inserted(Heaped(w, k - 1), w, k)
  }

  function Orphans(n: nat): (p: seq<int>)
    ensures |p| == n + 1
  {
    seq(n + 1, i => if i == 0 then -2 else -1)
  }

  function SumOf(a: int, b: int): int {
    if a >= 0 && b >= 0 then AddWeights(a, b) else 0
  }

  /** The two lightest roots are joined. */
  function JoinedOnce(s: Joining): (t: Joining)
    requires |s.heap| > 2
    ensures |t.heap| == |s.heap| - 1
  {
    var n1 := Get(s.heap, 1);
    var h1 := Extracted(s.heap, s.weight);
    var n2 := Get(h1, 1);
    var h2 := Extracted(h1, s.weight);
    var z := |s.parent|;
    var w := s.weight + [SumOf(Get(s.weight, n1), Get(s.weight, n2))];
    Joining(Inserted(h2, w, z), w, Put(Put(s.parent, n1, z), n2, z) + [-1])
  }

  /** Joining until one root is left. */
  function Joined(s: Joining): Joining
    decreases |s.heap|
  {
    if |s.heap| <= 2 then s else Joined(JoinedOnce(s))
  }

  /** How far the first `n` leaves are from their root. */
  ghost function Distances(p: seq<int>, n: nat): (len: seq<nat>)
    ensures |len| == n
  {
    if Forest(p) && n < |p| then seq(n, i requires 0 <= i < n => StepsOf(p, i + 1)) else seq(n, _ => 0)
  }

  ghost function TreeLengths(lw: seq<nat>): (len: seq<nat>)
    ensures |len| == |lw|
  {
    Distances(Joined(Joining(Heaped(Leaves(lw), |lw|), Leaves(lw), Orphans(|lw|))).parent, |lw|)
  }

  ghost predicate TooLong(len: seq<nat>) {
    exists i :: 0 <= i < |len| && len[i] > 17
  }

  /** The code lengths as a function of the weights; flattening makes the total smaller. */
  ghost function CodeLengths(lw: seq<nat>): (len: seq<nat>)
    ensures |len| == |lw|
    decreases Total(lw, |lw|)
  {
    if TooLong(TreeLengths(lw)) && Total(Flattened(lw), |lw|) < Total(lw, |lw|) then CodeLengths(Flattened(lw))
    else TreeLengths(lw)
  }

  lemma JoinedStep(s: Joining)
    ensures Joined(s) == if |s.heap| <= 2 then s else Joined(JoinedOnce(s))
  {
    hide JoinedOnce;
  }

  /** The weights for which the tree is built in the end. */
  ghost function Rescaled(lw: seq<nat>): (r: seq<nat>)
    ensures |r| == |lw|
    ensures !TooLong(TreeLengths(lw)) ==> r == lw
    decreases Total(lw, |lw|)
  {
    if TooLong(TreeLengths(lw)) && Total(Flattened(lw), |lw|) < Total(lw, |lw|) then Rescaled(Flattened(lw)) else lw
  }

  lemma RescaledStep(lw: seq<nat>)
    ensures Rescaled(lw) ==
      if TooLong(TreeLengths(lw)) && Total(Flattened(lw), |lw|) < Total(lw, |lw|) then Rescaled(Flattened(lw)) else lw
  {
    hide TreeLengths, TooLong;
  }

  lemma CodeLengthsStep(lw: seq<nat>)
    ensures CodeLengths(lw) ==
      if TooLong(TreeLengths(lw)) && Total(Flattened(lw), |lw|) < Total(lw, |lw|) then CodeLengths(Flattened(lw))
      else TreeLengths(lw)
  {
    hide TreeLengths, TooLong;
  }

  lemma HeapedStep(w: seq<int>, k: nat)
    ensures Heaped(w, k) == if k == 0 then [0] else Inserted(Heaped(w, k - 1), w, k)
  {
    hide Inserted;
  }

  // ---------------------------------------------------------------- one construction

  ghost function Roots(p: seq<int>): (s: set<int>)
    ensures forall x :: x in s <==> IsRoot(p, x)
  {
    set x | 0 < x < |p| && p[x] == -1
  }

  /** Leaf weights as packed words. */
  ghost predicate Packed(w: seq<int>, lw: seq<nat>) {
    |lw| < |w| && forall i :: 1 <= i <= |lw| ==> w[i] == lw[i - 1] * 256
  }

  ghost predicate Positive(lw: seq<nat>) {
    forall i :: 0 <= i < |lw| ==> lw[i] >= 1
  }

  lemma {:induction false} LeafAlone(p: seq<int>, lw: seq<nat>, x: int, m: nat)
    requires Forest(p) && m < |p| && m <= |lw| && 0 < x < |p|
    requires forall k :: 0 < k < |p| ==> p[k] == -1
    ensures LeafSum(p, lw, x, m) == if x <= m then lw[x - 1] else 0
    ensures LeafKraft(p, x, m, SCALE) == if x <= m then Pow2(SCALE) else 0
  {
    hide Pow2;
    if m > 0 { LeafAlone(p, lw, x, m - 1); }
  }

  /** Before any joining every symbol is a tree of its own. */
  lemma {:induction false} SingleTrees(p: seq<int>, w: seq<int>, lw: seq<nat>, n: nat)
    requires 0 < n == |lw| && |p| == n + 1 && Packed(w, lw) && Positive(lw) && Total(lw, n) < MAX_TOTAL
    requires forall k :: 0 < k < |p| ==> p[k] == -1
    ensures Forest(p) && Trees(p, w, seq(n + 1, _ => 0), lw, n)
  {
    hide Pow2, LeafSum, LeafKraft, Total;
    var child := seq(n + 1, _ => 0);
    forall x | IsRoot(p, x) ensures RootOk(p, w, child, lw, n, x) {
      LeafAlone(p, lw, x, n);
      PackedParts(lw[x - 1], 0);
    }
    forall x, y | IsRoot(p, x) && IsRoot(p, y) && x != y ensures child[x] <= WeightOf(w[y]) {
      assert RootOk(p, w, child, lw, n, y);
    }
  }

  lemma SinglesThrifty(p: seq<int>, lw: seq<nat>)
    requires 0 < |lw| && |p| == |lw| + 1 && Positive(lw) && forall k :: 0 < k < |p| ==> p[k] == -1
    ensures HuffmanCost.Thrifty(p, lw)
  {
    hide LeafSum, HuffmanCost.Thrifty;
    forall i | 0 <= i < |lw|
      ensures Forest(p) && LeafSum(p, lw, i + 1, |lw|) == lw[i] { LeafAlone(p, lw, i + 1, |lw|); }
    HuffmanCost.ThriftyStart(p, lw);
  }

  /** The heap does not look at weights of later nodes. */
  lemma {:induction false} HeapIgnores(h: seq<int>, w: seq<int>, w': seq<int>, n: nat, s: set<int>)
    requires HeapOf(h, w, n, s) && |w| <= |w'|
    requires forall k :: 0 <= k < |w| ==> w'[k] == w[k]
    ensures HeapOf(h, w', n, s)
  {
  }

  /** All leaves on the heap, lightest on top. */
  method FillHeap(heap: array<int>, weight: seq<int>, parent: array<int>, alphaSize: nat)
    requires 0 < alphaSize <= MAX_ALPHA_SIZE && heap.Length == MAX_ALPHA_SIZE + 2 && parent.Length == MAX_ALPHA_SIZE * 2
    requires heap != parent && |weight| == alphaSize + 1 && weight[0] == 0
    requires forall i :: 1 <= i <= alphaSize ==> weight[i] >= 0
    modifies heap, parent
    ensures parent[0] == -2 && forall k :: 1 <= k <= alphaSize ==> parent[k] == -1
    ensures HeapOf(heap[..], weight, alphaSize, Roots(parent[..alphaSize + 1]))
    ensures heap[..alphaSize + 1] == Heaped(weight, alphaSize) && parent[..alphaSize + 1] == Orphans(alphaSize)
  {
    hide HeapOf, Heaped, Inserted;
    heap[0] := 0;
    parent[0] := -2;
    ghost var s: set<int> := {};
    EmptyHeap(heap[..], weight);
    var nHeap := 0;
    HeapedStep(weight, 0);
    for i := 1 to alphaSize + 1
      invariant nHeap == i - 1 && parent[0] == -2 && heap[..i] == Heaped(weight, i - 1)
      invariant forall k :: 1 <= k < i ==> parent[k] == -1
      invariant forall x :: x in s <==> 1 <= x < i
      invariant HeapOf(heap[..], weight, nHeap, s)
    {
      parent[i] := -1;
      assert i !in s;
      HeapedStep(weight, i);
      Insert(heap, weight, nHeap, i, s);
      nHeap := nHeap + 1;
      s := s + {i};
    }
    assert s == Roots(parent[..alphaSize + 1]);
  }

  lemma EmptyHeap(h: seq<int>, w: seq<int>)
    requires |h| > 0 && |w| > 0 && h[0] == 0 && w[0] == 0
    ensures HeapOf(h, w, 0, {})
  {
  }

  /** The state of the construction as a value. */
  ghost function At(heap: array<int>, weight: array<int>, parent: array<int>, nHeap: nat, nNodes: nat): Joining
    requires nHeap < heap.Length && nNodes < weight.Length && nNodes < parent.Length
    reads heap, weight, parent
  {
    Joining(heap[..nHeap + 1], weight[..nNodes + 1], parent[..nNodes + 1])
  }

  /** The body of the joining loop. */
  method JoinTwo(heap: array<int>, weight: array<int>, parent: array<int>, alphaSize: nat, nHeap: nat, nNodes: nat,
                 ghost lw: seq<nat>, ghost child: seq<nat>)
    returns (ghost child': seq<nat>)
    requires 2 <= nHeap && 0 < alphaSize <= nNodes && nHeap + nNodes == 2 * alphaSize && alphaSize <= MAX_ALPHA_SIZE
    requires heap.Length == MAX_ALPHA_SIZE + 2 && parent.Length == weight.Length == MAX_ALPHA_SIZE * 2
    requires heap != parent && heap != weight && parent != weight && parent[0] == -2 && alphaSize == |lw|
    requires HeapOf(heap[..], weight[..nNodes + 1], nHeap, Roots(parent[..nNodes + 1]))
    requires Trees(parent[..nNodes + 1], weight[..nNodes + 1], child, lw, alphaSize)
    requires Packed(weight[..], lw) && HuffmanCost.Thrifty(parent[..nNodes + 1], lw)
    modifies heap, weight, parent
    ensures parent[0] == -2 && parent[nNodes + 1] == -1
    ensures HuffmanCost.Thrifty(parent[..nNodes + 2], lw)
    ensures HeapOf(heap[..], weight[..nNodes + 2], nHeap - 1, Roots(parent[..nNodes + 2]))
    ensures Trees(parent[..nNodes + 2], weight[..nNodes + 2], child', lw, alphaSize)
    ensures Packed(weight[..], lw)
    ensures At(heap, weight, parent, nHeap - 1, nNodes + 1) == JoinedOnce(old(At(heap, weight, parent, nHeap, nNodes)))
  {
    hide HeapOf, Trees, AddWeights, Inserted, Extracted, Packed, HuffmanCost.Thrifty;
    ghost var p, w, r := parent[..nNodes + 1], weight[..nNodes + 1], Roots(parent[..nNodes + 1]);
    var n1 := ExtractTop(heap, weight[..nNodes + 1], nHeap, r);
    var n2 := ExtractTop(heap, weight[..nNodes + 1], nHeap - 1, r - {n1});
    var z := nNodes + 1;
    RootWeights(p, w, child, lw, alphaSize, n1, n2);
    parent[n1] := z;
    parent[n2] := z;
    weight[z] := AddWeights(weight[n1], weight[n2]);
    parent[z] := -1;
    assert parent[..z + 1] == Join(p, n1, n2);
    ghost var w' := w + [AddWeights(w[n1], w[n2])];
    assert weight[..z + 1] == w';
    PackedKept(old(weight[..]), weight[..], lw, z);
    child' := child + [WeightOf(w[n2])];
    JoinTrees(p, w, w', child, lw, alphaSize, n1, n2);
    LightestJoined(p, w, child, lw, n1, n2);
    HeapIgnores(heap[..], w, w', nHeap - 2, r - {n1} - {n2});
    Insert(heap, weight[..z + 1], nHeap - 2, z, r - {n1} - {n2});
    JoinRoots(p, n1, n2);
  }

  /** The two roots with the least packed weights are the lightest. */
  lemma LightestJoined(p: seq<int>, w: seq<int>, child: seq<nat>, lw: seq<nat>, x: int, y: int)
    requires Trees(p, w, child, lw, |lw|) && HuffmanCost.Thrifty(p, lw) && IsRoot(p, x) && IsRoot(p, y) && x != y
    requires forall u :: IsRoot(p, u) ==> w[x] <= w[u]
    requires forall u :: IsRoot(p, u) && u != x ==> w[y] <= w[u]
    ensures HuffmanCost.Thrifty(Join(p, x, y), lw)
  {
    hide LeafSum, LeafKraft, RootOf, StepsOf, Pow2, Fib, HuffmanCost.Thrifty;
    var loads := HuffmanCost.Loads(p, lw, |lw|);
    forall j | IsRoot(p, j) ensures loads[j] == WeightOf(w[j]) > 0 {
      assert RootOk(p, w, child, lw, |lw|, j);
      FibMono(0, DepthOf(w[j]));
      assert Fib(0) == 1 by { FibZero(); }
    }
    forall j | 0 <= j < |loads| && loads[j] > 0 ensures loads[x] <= loads[j] && (j != x ==> loads[y] <= loads[j]) {
      assert IsRoot(p, j);
      RootShallow(p, w, child, lw, |lw|, x);
      RootShallow(p, w, child, lw, |lw|, y);
      WeightsInOrder(w[x], w[j]);
      if j != x { WeightsInOrder(w[y], w[j]); }
    }
    HuffmanCost.ThriftyStep(p, lw, x, y);
  }

  lemma FibZero()
    ensures Fib(0) == 1
  {
  }

  lemma PackedKept(w: seq<int>, w': seq<int>, lw: seq<nat>, z: int)
    requires Packed(w, lw) && |w'| == |w| && |lw| < z && forall k :: 0 <= k < |w| && k != z ==> w'[k] == w[k]
    ensures Packed(w', lw)
  {
  }

  lemma RootWeights(p: seq<int>, w: seq<int>, child: seq<nat>, lw: seq<nat>, n: nat, x: int, y: int)
    requires Trees(p, w, child, lw, n) && IsRoot(p, x) && IsRoot(p, y)
    ensures |p| <= |w| && w[x] >= 0 && w[y] >= 0 && AddWeights(w[x], w[y]) >= 0
  {
    RootShallow(p, w, child, lw, n, x);
    RootShallow(p, w, child, lw, n, y);
    AddWeightsParts(w[x], w[y]);
  }

  lemma JoinRoots(p: seq<int>, x: int, y: int)
    requires IsRoot(p, x) && IsRoot(p, y) && x != y
    ensures Roots(Join(p, x, y)) == Roots(p) - {x} - {y} + {|p|}
  {
    forall u ensures u in Roots(Join(p, x, y)) <==> u in Roots(p) - {x} - {y} + {|p|} { }
  }

  lemma OnlyRoot(h: seq<int>, w: seq<int>, p: seq<int>)
    requires HeapOf(h, w, 1, Roots(p)) && |p| >= 2 && p[|p| - 1] == -1
    ensures Roots(p) == {|p| - 1}
  {
    assert |p| - 1 in Entries(h, 1);
    forall x | IsRoot(p, x) ensures x == |p| - 1 { assert x in Entries(h, 1); }
  }

  /** Joins the two lightest roots until one tree is left. */
  method JoinAll(heap: array<int>, weight: array<int>, parent: array<int>, alphaSize: nat, ghost lw: seq<nat>)
    returns (nNodes: nat, ghost child: seq<nat>)
    requires 2 <= alphaSize <= MAX_ALPHA_SIZE && alphaSize == |lw| && Positive(lw) && Total(lw, alphaSize) < MAX_TOTAL
    requires heap.Length == MAX_ALPHA_SIZE + 2 && parent.Length == weight.Length == MAX_ALPHA_SIZE * 2
    requires heap != parent && heap != weight && parent != weight
    requires Packed(weight[..], lw) && parent[0] == -2
    requires forall k :: 1 <= k <= alphaSize ==> parent[k] == -1
    requires HeapOf(heap[..], weight[..alphaSize + 1], alphaSize, Roots(parent[..alphaSize + 1]))
    modifies heap, weight, parent
    ensures nNodes == 2 * alphaSize - 1 && parent[0] == -2
    ensures Trees(parent[..nNodes + 1], weight[..nNodes + 1], child, lw, alphaSize)
    ensures Roots(parent[..nNodes + 1]) == {nNodes}
    ensures Packed(weight[..], lw) && HuffmanCost.Thrifty(parent[..nNodes + 1], lw)
    ensures At(heap, weight, parent, 1, nNodes) == Joined(old(At(heap, weight, parent, alphaSize, alphaSize)))
  {
    hide HeapOf, Trees, Total, Joined, JoinedOnce, HuffmanCost.Thrifty;
    nNodes := alphaSize;
    var nHeap := alphaSize;
    child := seq(alphaSize + 1, _ => 0);
    SingleTrees(parent[..alphaSize + 1], weight[..alphaSize + 1], lw, alphaSize);
    SinglesThrifty(parent[..alphaSize + 1], lw);
    while nHeap > 1
      invariant 1 <= nHeap && alphaSize <= nNodes && nHeap + nNodes == 2 * alphaSize && parent[0] == -2
      invariant HeapOf(heap[..], weight[..nNodes + 1], nHeap, Roots(parent[..nNodes + 1]))
      invariant Trees(parent[..nNodes + 1], weight[..nNodes + 1], child, lw, alphaSize)
      invariant Packed(weight[..], lw) && HuffmanCost.Thrifty(parent[..nNodes + 1], lw)
      invariant nNodes > alphaSize ==> parent[nNodes] == -1
      invariant Joined(At(heap, weight, parent, nHeap, nNodes)) ==
        Joined(old(At(heap, weight, parent, alphaSize, alphaSize)))
      decreases nHeap
    {
      JoinedStep(At(heap, weight, parent, nHeap, nNodes));
      child := JoinTwo(heap, weight, parent, alphaSize, nHeap, nNodes, lw, child);
      nHeap := nHeap - 1;
      nNodes := nNodes + 1;
    }
    assert nNodes < MAX_ALPHA_SIZE * 2; // 2002
    JoinedStep(At(heap, weight, parent, nHeap, nNodes));
    OnlyRoot(heap[..], weight[..nNodes + 1], parent[..nNodes + 1]);
  }

  // ---------------------------------------------------------------- lengths

  /** Climbs from every leaf to the root. */
  method MeasureLengths(len: array<nat>, parent: array<int>, alphaSize: nat, maxLen: nat, ghost p: seq<int>)
    returns (tooLong: bool)
    requires Forest(p) && alphaSize < |p| <= parent.Length && p == parent[..|p|] && p[0] == -2
      && alphaSize <= len.Length
    requires (len as object) != (parent as object)
    modifies len
    ensures forall i :: 1 <= i <= alphaSize ==> len[i - 1] == StepsOf(p, i)
    ensures tooLong <==> exists i :: 1 <= i <= alphaSize && StepsOf(p, i) > maxLen
    ensures len[..alphaSize] == Distances(p, alphaSize)
  {
    tooLong := false;
    for i := 1 to alphaSize + 1
      invariant p == parent[..|p|]
      invariant forall k :: 1 <= k < i ==> len[k - 1] == StepsOf(p, k)
      invariant tooLong <==> exists k :: 1 <= k < i && StepsOf(p, k) > maxLen
    {
      var j := 0;
      var k := i;
      while parent[k] >= 0
        invariant 0 < k < |p| && j + StepsOf(p, k) == StepsOf(p, i)
        decreases |p| - k
      {
        assert parent[k] == p[k];
        k := parent[k];
        j := j + 1;
      }
      assert parent[k] == p[k];
      len[i - 1] := j;
      if j > maxLen { tooLong := true; }
    }
  }

  function Flattened(lw: seq<nat>): (r: seq<nat>)
    ensures |r| == |lw| && forall i :: 0 <= i < |lw| ==> r[i] == 1 + lw[i] / 2
  {
    seq(|lw|, i requires 0 <= i < |lw| => 1 + lw[i] / 2)
  }

  /** Flattening lowers the total, unless all weights are at most 2. */
  lemma {:induction false} FlattenedTotal(lw: seq<nat>, n: nat)
    requires n <= |lw| && Positive(lw)
    ensures Total(Flattened(lw), n) <= Total(lw, n)
    ensures (exists i :: 0 <= i < n && lw[i] > 2) ==> Total(Flattened(lw), n) < Total(lw, n)
    ensures (forall i :: 0 <= i < n ==> lw[i] <= 2) ==> Total(lw, n) <= 2 * n
  {
    if n > 0 { FlattenedTotal(lw, n - 1); }
  }

  /** Weights of at most 2 cannot make a code that is too long. */
  lemma {:induction false} TooLongIsHeavy(p: seq<int>, w: seq<int>, child: seq<nat>, lw: seq<nat>, n: nat)
    requires Trees(p, w, child, lw, n) && n <= MAX_ALPHA_SIZE && Positive(lw)
    requires exists i :: 1 <= i <= n && StepsOf(p, i) > 17
    ensures Total(Flattened(lw), n) < Total(lw, n)
  {
    var i :| 1 <= i <= n && StepsOf(p, i) > 17;
    var r := RootOf(p, i);
    RootShallow(p, w, child, lw, n, r);
    assert RootOk(p, w, child, lw, n, r);
    DeepIsHeavy(DepthOf(w[r]), WeightOf(w[r]));
    FlattenedTotal(lw, n);
  }

  method Flatten(weight: array<int>, alphaSize: nat, ghost lw: seq<nat>)
    requires alphaSize == |lw| < weight.Length && Packed(weight[..], lw)
    modifies weight
    ensures Packed(weight[..], Flattened(lw))
    ensures forall k :: 0 <= k < weight.Length && !(1 <= k <= alphaSize) ==> weight[k] == old(weight[k])
  {
    for i := 1 to alphaSize + 1
      invariant forall k :: 1 <= k < i ==> weight[k] == Flattened(lw)[k - 1] * 256
      invariant forall k :: i <= k <= alphaSize ==> weight[k] == lw[k - 1] * 256
      invariant forall k :: 0 <= k < weight.Length && !(1 <= k < i) ==> weight[k] == old(weight[k])
    {
      var j := WeightOf(weight[i]);
      j := 1 + j / 2;
      weight[i] := j * 256;
    }
  }

  /** One tree over all symbols fills the code space exactly. */
  lemma {:induction false} KraftOfTree(p: seq<int>, len: seq<nat>, r: int, n: nat)
    requires Forest(p) && n < |p| && n <= |len|
    requires forall i :: 1 <= i <= n ==> RootOf(p, i) == r
    requires forall i :: 1 <= i <= n ==> StepsOf(p, i) == len[i - 1]
    requires forall i :: 0 <= i < n ==> len[i] <= 17
    ensures LeafKraft(p, r, n, SCALE) == Kraft(len[..n], 17, 17) * Pow2(47)
  {
    hide Pow2;
    if n > 0 {
      assert RootOf(p, n) == r && StepsOf(p, n) == len[n - 1];
      KraftOfTree(p, len, r, n - 1);
      assert len[..n][..n - 1] == len[..n - 1];
      Pow2Add(17 - len[n - 1], 47);
      Distribute(Kraft(len[..n - 1], 17, 17), Pow2(17 - len[n - 1]), Pow2(47));
    }
  }

  lemma Distribute(a: nat, b: nat, c: nat)
    ensures (a + b) * c == a * c + b * c
  {
  }

  /** A complete code: lengths of 1 to 17 with Kraft sum exactly one. */
  ghost predicate CompleteCode(len: seq<nat>) {
    && (forall i :: 0 <= i < |len| ==> 1 <= len[i] <= 17)
    && Kraft(len, 17, 17) == Pow2(17)
  }

  lemma {:induction false} TreeGivesCode(p: seq<int>, w: seq<int>, child: seq<nat>, lw: seq<nat>, n: nat, len: seq<nat>)
    requires Trees(p, w, child, lw, n) && n >= 2 && |p| == 2 * n && Roots(p) == {2 * n - 1} && |len| == n
    requires forall i :: 1 <= i <= n ==> len[i - 1] == StepsOf(p, i)
    requires forall i :: 1 <= i <= n ==> StepsOf(p, i) <= 17
    ensures CompleteCode(len)
  {
    hide Pow2, LeafKraft, Kraft;
    forall i | 0 <= i < n ensures len[i] <= 17 { assert StepsOf(p, i + 1) == len[i]; }
    var r := 2 * n - 1;
    forall i | 1 <= i <= n ensures RootOf(p, i) == r && StepsOf(p, i) >= 1 {
      assert RootOf(p, i) in Roots(p);
      assert i !in Roots(p);
    }
    assert IsRoot(p, r) by { assert r in Roots(p); }
    assert RootOk(p, w, child, lw, n, r);
    KraftOfTree(p, len, r, n);
    assert len[..n] == len;
    Pow2Add(17, 47);
    FactorOrder(Kraft(len, 17, 17), Pow2(17), Pow2(47));
    FactorOrder(Pow2(17), Kraft(len, 17, 17), Pow2(47));
    forall i | 0 <= i < n ensures 1 <= len[i] { assert StepsOf(p, i + 1) == len[i]; }
  }

  /** Leaf weights: the frequencies, none of them zero. */
  function LeafWeights(freq: seq<nat>): (r: seq<nat>)
    ensures |r| == |freq| && forall i :: 0 <= i < |freq| ==> r[i] == if freq[i] == 0 then 1 else freq[i]
  {
    seq(|freq|, i requires 0 <= i < |freq| => if freq[i] == 0 then 1 else freq[i])
  }

  /** One tree over the given weights, and the lengths that it gives. */
  method BuildTree(len: array<nat>, heap: array<int>, weight: array<int>, parent: array<int>, alphaSize: nat,
    maxLen: nat, ghost lw: seq<nat>)
    returns (tooLong: bool)
    requires 2 <= alphaSize <= MAX_ALPHA_SIZE && alphaSize <= len.Length && maxLen == 17
    requires heap.Length == MAX_ALPHA_SIZE + 2 && parent.Length == weight.Length == MAX_ALPHA_SIZE * 2
    requires heap != parent && heap != weight && parent != weight
    requires (len as object) != (parent as object) && (len as object) != (weight as object)
    requires |lw| == alphaSize && Positive(lw) && Packed(weight[..], lw) && Total(lw, alphaSize) < MAX_TOTAL
    modifies heap, weight, parent, len
    ensures Packed(weight[..], lw) && len[..alphaSize] == TreeLengths(lw)
    ensures HuffmanCost.Cheapest(lw, len[..alphaSize])
    ensures tooLong <==> TooLong(TreeLengths(lw))
    ensures !tooLong ==> CompleteCode(len[..alphaSize])
    ensures tooLong ==> Total(Flattened(lw), alphaSize) < Total(lw, alphaSize)
  {
    hide Trees, HeapOf, Total, CompleteCode, Joined, Heaped, Orphans, TooLong, HuffmanCost.Thrifty,
      HuffmanCost.Cheapest;
    weight[0] := 0;
    assert weight[..alphaSize + 1] == Leaves(lw);
    FillHeap(heap, weight[..alphaSize + 1], parent, alphaSize);
    assert alphaSize < MAX_ALPHA_SIZE + 2; // 2001
    ghost var child: seq<nat>;
    var nNodes;
    nNodes, child := JoinAll(heap, weight, parent, alphaSize, lw);
    ghost var p, w := parent[..nNodes + 1], weight[..nNodes + 1];
    TreesForest(p, w, child, lw, alphaSize);
    tooLong := MeasureLengths(len, parent, alphaSize, maxLen, p);
    LongIs(p, len[..alphaSize]);
    HuffmanCost.ThriftyEnd(p, lw, len[..alphaSize]);
    if tooLong {
      TooLongIsHeavy(p, w, child, lw, alphaSize);
    } else {
      TreeGivesCode(p, w, child, lw, alphaSize, len[..alphaSize]);
    }
  }

  /** BZ2_hbMakeCodeLengths: always terminates, with a complete code of at most 17 bits; which
      code is a function of the frequencies.  No prefix code of at most 17 bits makes a text with
      the final weights shorter, and these are the frequencies unless they had to be rescaled. */
  method MakeCodeLengths(len: array<nat>, freq: seq<nat>, alphaSize: nat, maxLen: nat)
    requires 2 <= alphaSize == |freq| <= MAX_ALPHA_SIZE && alphaSize <= len.Length && maxLen == 17
    requires Total(LeafWeights(freq), alphaSize) < MAX_TOTAL
    modifies len
    ensures CompleteCode(len[..alphaSize]) && len[..alphaSize] == CodeLengths(LeafWeights(freq))
    ensures HuffmanCost.Cheapest(Rescaled(LeafWeights(freq)), len[..alphaSize])
    ensures !TooLong(TreeLengths(LeafWeights(freq))) ==> HuffmanCost.Cheapest(LeafWeights(freq), len[..alphaSize])
  {
    hide Total, CompleteCode, CodeLengths, TreeLengths, TooLong, Rescaled, HuffmanCost.Cheapest;
    var heap := new int[MAX_ALPHA_SIZE + 2];
    var weight := new int[MAX_ALPHA_SIZE * 2];
    var parent := new int[MAX_ALPHA_SIZE * 2];
    ghost var lw := LeafWeights(freq);
    for i := 0 to alphaSize
      invariant forall k :: 1 <= k <= i ==> weight[k] == lw[k - 1] * 256
      modifies weight
    {
      weight[i + 1] := (if freq[i] == 0 then 1 else freq[i]) * 256;
    }
    while true
      invariant |lw| == alphaSize && Positive(lw) && Packed(weight[..], lw) && Total(lw, alphaSize) < MAX_TOTAL
      invariant CodeLengths(lw) == CodeLengths(LeafWeights(freq)) && Rescaled(lw) == Rescaled(LeafWeights(freq))
      decreases Total(lw, alphaSize)
      modifies heap, weight, parent, len
    {
      CodeLengthsStep(lw);
      RescaledStep(lw);
      var tooLong := BuildTree(len, heap, weight, parent, alphaSize, maxLen, lw);
      if !tooLong { break; }
      Flatten(weight, alphaSize, lw);
      lw := Flattened(lw);
    }
  }

  lemma LongIs(p: seq<int>, len: seq<nat>)
    requires Forest(p) && |len| < |p| && forall i :: 1 <= i <= |len| ==> len[i - 1] == StepsOf(p, i)
    ensures TooLong(len) <==> exists i :: 1 <= i <= |len| && StepsOf(p, i) > 17
  {
    if TooLong(len) {
      var i :| 0 <= i < |len| && len[i] > 17;
      assert StepsOf(p, i + 1) > 17;
    }
    if i :| 1 <= i <= |len| && StepsOf(p, i) > 17 { assert len[i - 1] > 17; }
  }

  lemma TreesForest(p: seq<int>, w: seq<int>, child: seq<nat>, lw: seq<nat>, n: nat)
    requires Trees(p, w, child, lw, n)
    ensures Forest(p)
  {
  }
}

/**
 The heap of tree nodes, ordered by weight, with entry 0 as a sentinel.
 */
module HuffmanHeap {
  import opened RangeSort

  // ---------------------------------------------------------------- what the operations compute

  /** Heavier entries move down from the hole at `zz` towards the top, and `tmp` goes into the
      hole. */
  function Rise(h: seq<int>, w: seq<int>, tmp: int, zz: nat): (r: seq<int>)
    ensures |r| == |h|
    decreases zz
  {
    if zz > 0 && Get(w, tmp) < Get(w, Get(h, zz / 2)) then Rise(Put(h, zz, Get(h, zz / 2)), w, tmp, zz / 2)
    else Put(h, zz, tmp)
  }

  /** The lighter child of entry `zz`. */
  function Child(h: seq<int>, w: seq<int>, zz: nat, n: nat): nat {
    if 2 * zz < n && Get(w, Get(h, 2 * zz + 1)) < Get(w, Get(h, 2 * zz)) then 2 * zz + 1 else 2 * zz
  }

  /** Lighter entries move up from below the hole at `zz`, and `tmp` goes into the hole. */
  function Sink(h: seq<int>, w: seq<int>, tmp: int, zz: nat, n: nat): (r: seq<int>)
    ensures |r| == |h|
    decreases n - zz
  {
    var yy := Child(h, w, zz, n);
    if zz == 0 || 2 * zz > n || Get(w, tmp) < Get(w, Get(h, yy)) then Put(h, zz, tmp)
    else Sink(Put(h, zz, Get(h, yy)), w, tmp, yy, n)
  }

  /** A heap, entry 0 included, with one more node. */
  function Inserted(h: seq<int>, w: seq<int>, node: int): (r: seq<int>)
    ensures |r| == |h| + 1
  {
    Rise(h + [node], w, node, |h|)
  }

  /** A heap without its top. */
  function Extracted(h: seq<int>, w: seq<int>): (r: seq<int>)
    requires |h| > 1
    ensures |r| == |h| - 1
  {
    var last := h[|h| - 1];
    var g := Put(h, 1, last)[..|h| - 1];
    if |h| > 2 then Sink(g, w, last, 1, |h| - 2) else g
  }

  lemma RiseNext(h: seq<int>, w: seq<int>, tmp: int, zz: nat)
    ensures Rise(h, w, tmp, zz) ==
      if zz > 0 && Get(w, tmp) < Get(w, Get(h, zz / 2)) then Rise(Put(h, zz, Get(h, zz / 2)), w, tmp, zz / 2)
      else Put(h, zz, tmp)
  {
  }

  lemma SinkNext(h: seq<int>, w: seq<int>, tmp: int, zz: nat, n: nat)
    ensures var yy := Child(h, w, zz, n);
      Sink(h, w, tmp, zz, n) ==
      if zz == 0 || 2 * zz > n || Get(w, tmp) < Get(w, Get(h, yy)) then Put(h, zz, tmp)
      else Sink(Put(h, zz, Get(h, yy)), w, tmp, yy, n)
  {
  }

  /** Entries behind the heap play no part. */
  lemma {:induction false} RisePrefix(h: seq<int>, w: seq<int>, tmp: int, zz: nat, n: nat)
    requires zz <= n < |h|
    ensures Rise(h, w, tmp, zz)[..n + 1] == Rise(h[..n + 1], w, tmp, zz)
    decreases zz
  {
    RiseNext(h, w, tmp, zz);
    RiseNext(h[..n + 1], w, tmp, zz);
    if zz > 0 && Get(w, tmp) < Get(w, Get(h, zz / 2)) {
      var g := Put(h, zz, Get(h, zz / 2));
      assert g[..n + 1] == Put(h[..n + 1], zz, Get(h, zz / 2));
      RisePrefix(g, w, tmp, zz / 2, n);
    }
  }

  lemma {:induction false} SinkPrefix(h: seq<int>, w: seq<int>, tmp: int, zz: nat, n: nat)
    requires zz <= n < |h|
    ensures Sink(h, w, tmp, zz, n)[..n + 1] == Sink(h[..n + 1], w, tmp, zz, n)
    decreases n - zz
  {
    hide Sink;
    SinkNext(h, w, tmp, zz, n);
    SinkNext(h[..n + 1], w, tmp, zz, n);
    if 0 < zz && 2 * zz <= n {
      var yy := Child(h, w, zz, n);
      assert Child(h[..n + 1], w, zz, n) == yy;
      if Get(w, tmp) >= Get(w, Get(h, yy)) {
        var g := Put(h, zz, Get(h, yy));
        assert g[..n + 1] == Put(h[..n + 1], zz, Get(h, yy));
        SinkPrefix(g, w, tmp, yy, n);
      }
    }
  }

  // ---------------------------------------------------------------- heap order

  /** No entry of 2..n is lighter than its parent, except possibly entry `hole`. */
  ghost predicate UpOrdered(h: seq<int>, w: seq<int>, n: nat, hole: int)
    requires n < |h| && forall k :: 0 <= k <= n ==> 0 <= h[k] < |w|
  {
    && (forall k :: 2 <= k <= n && k != hole ==> w[h[k / 2]] <= w[h[k]])
    && (hole >= 2 ==> forall k :: 2 <= k <= n && k / 2 == hole ==> w[h[hole / 2]] <= w[h[k]])
  }

  /** No entry of 2..n is lighter than its parent, except possibly the children of `hole`. */
  ghost predicate DownOrdered(h: seq<int>, w: seq<int>, n: nat, hole: int)
    requires n < |h| && forall k :: 0 <= k <= n ==> 0 <= h[k] < |w|
  {
    && (forall k :: 2 <= k <= n && k / 2 != hole ==> w[h[k / 2]] <= w[h[k]])
    && (hole >= 2 ==> forall k :: 2 <= k <= n && k / 2 == hole ==> w[h[hole / 2]] <= w[h[k]])
  }

  ghost predicate Ordered(h: seq<int>, w: seq<int>, n: nat)
    requires n < |h| && forall k :: 0 <= k <= n ==> 0 <= h[k] < |w|
  {
    forall k :: 2 <= k <= n ==> w[h[k / 2]] <= w[h[k]]
  }

  /** The same, also for entries not known to be nodes. */
  ghost predicate UpFault(h: seq<int>, w: seq<int>, n: nat, hole: int) {
    n < |h| && (forall k :: 0 <= k <= n ==> 0 <= h[k] < |w|) && UpOrdered(h, w, n, hole)
  }

  ghost predicate DownFault(h: seq<int>, w: seq<int>, n: nat, hole: int) {
    n < |h| && (forall k :: 0 <= k <= n ==> 0 <= h[k] < |w|) && DownOrdered(h, w, n, hole)
  }

  ghost predicate Nodes(h: seq<int>, w: seq<int>, n: nat) {
    && n < |h| && |w| > 0 && h[0] == 0 && w[0] == 0
    && forall k :: 0 <= k <= n ==> 0 <= h[k] < |w| && w[h[k]] >= 0
  }

  lemma {:induction false} NodesRearranged(h: seq<int>, g: seq<int>, w: seq<int>, n: nat)
    requires Nodes(h, w, n) && Rearranged(h, g, 1, n)
    ensures Nodes(g, w, n)
  {
    forall k | 0 <= k <= n ensures 0 <= g[k] < |w| && w[g[k]] >= 0 {
      if k >= 1 { var j := RearrangedFrom(h, g, 1, n, k); }
    }
  }

  /** The lightest node is on top. */
  lemma {:induction false} TopIsLightest(h: seq<int>, w: seq<int>, n: nat, k: int)
    requires Nodes(h, w, n) && Ordered(h, w, n) && 1 <= k <= n
    ensures w[h[1]] <= w[h[k]]
  {
    if k > 1 { TopIsLightest(h, w, n, k / 2); }
  }

  ghost function Exchange(v: seq<int>, i: int, j: int): (r: seq<int>)
    requires 0 <= i < |v| && 0 <= j < |v|
    ensures |r| == |v|
  {
    v[i := v[j]][j := v[i]]
  }

  lemma ExchangeRearranges(v: seq<int>, i: int, j: int, n: int)
    requires 1 <= i <= n && 1 <= j <= n < |v|
    ensures Rearranged(v, Exchange(v, i, j), 1, n)
  {
  }

  /** The entry at `zz` is lighter than its parent: exchanging them moves the fault up. */
  lemma {:induction false} RiseStep(v: seq<int>, w: seq<int>, n: nat, zz: nat)
    requires 1 <= zz <= n && Nodes(v, w, n) && UpFault(v, w, n, zz)
    requires w[v[zz]] < w[v[zz / 2]]
    ensures zz >= 2
    ensures var r := Exchange(v, zz, zz / 2);
            Rearranged(v, r, 1, n) && Nodes(r, w, n) && UpFault(r, w, n, zz / 2)
  {
    assert zz >= 2;
    var r := Exchange(v, zz, zz / 2);
    ExchangeRearranges(v, zz, zz / 2, n);
    NodesRearranged(v, r, w, n);
  }

  lemma NodeBounds(h: seq<int>, w: seq<int>, n: nat)
    requires Nodes(h, w, n)
    ensures n < |h| && forall k :: 0 <= k <= n ==> 0 <= h[k] < |w|
  {
  }

  /** The hole moves from `i` to `j`; the entry that is held aside may be thought of as sitting
      in it. */
  lemma HoleMoves(h: seq<int>, i: int, j: int, tmp: int)
    requires 0 <= i < |h| && 0 <= j < |h| && i != j
    ensures h[i := h[j]][j := tmp] == Exchange(h[i := tmp], i, j)
  {
  }

  /** UPHEAP: the entry at `z` rises to where it belongs. */
  method UpHeap(heap: array<int>, weight: seq<int>, z: nat)
    requires 1 <= z < heap.Length && Nodes(heap[..], weight, z)
    requires UpOrdered(heap[..], weight, z, z)
    modifies heap
    ensures Rearranged(old(heap[..]), heap[..], 1, z)
    ensures Nodes(heap[..], weight, z) && Ordered(heap[..], weight, z)
    ensures heap[..z + 1] == Rise(old(heap[..z + 1]), weight, old(heap[z]), z)
  {
    hide Rearranged, UpOrdered, Nodes, Ordered, Exchange, Rise;
    ghost var h0 := heap[..];
    ghost var r := Rise(h0, weight, heap[z], z);
    NodeBounds(h0, weight, z);
    RearrangedRefl(h0, 1, z);
    var zz: nat := z;
    var tmp := heap[zz];
    assert h0[zz := tmp] == h0;
    while weight[tmp] < weight[heap[zz / 2]]
      invariant 1 <= zz <= z && 0 <= tmp < |weight| && (forall k :: 0 <= k <= z ==> 0 <= heap[k] < |weight|)
      invariant Nodes(heap[..][zz := tmp], weight, z) && Rearranged(h0, heap[..][zz := tmp], 1, z)
      invariant UpFault(heap[..][zz := tmp], weight, z, zz)
      invariant Rise(heap[..], weight, tmp, zz) == r
      decreases zz
    {
      ghost var h := heap[..];
      ghost var v := h[zz := tmp];
      RiseNext(h, weight, tmp, zz);
      RiseStep(v, weight, z, zz);
      RearrangedTrans(h0, v, Exchange(v, zz, zz / 2), 1, z);
      HoleMoves(h, zz, zz / 2, tmp);
      heap[zz] := heap[zz / 2];
      assert heap[..] == h[zz := h[zz / 2]];
      zz := zz / 2;
    }
    RiseNext(heap[..], weight, tmp, zz);
    ghost var h := heap[..];
    heap[zz] := tmp;
    assert heap[..] == h[zz := tmp];
    Risen(heap[..], weight, z, zz);
    RisePrefix(h0, weight, h0[z], z, z);
  }

  lemma Risen(v: seq<int>, w: seq<int>, n: nat, zz: nat)
    requires 1 <= zz <= n && Nodes(v, w, n) && UpFault(v, w, n, zz)
    requires w[v[zz]] >= w[v[zz / 2]]
    ensures Ordered(v, w, n)
  {
  }

  /** The entry at `zz` is not lighter than its lightest child `yy`: exchanging them moves the
      fault down. */
  lemma {:induction false} SinkStep(v: seq<int>, w: seq<int>, n: nat, zz: nat, yy: nat)
    requires 1 <= zz && yy <= n && (yy == 2 * zz || yy == 2 * zz + 1) && Nodes(v, w, n) && DownFault(v, w, n, zz)
    requires 2 * zz <= n ==> w[v[yy]] <= w[v[2 * zz]]
    requires 2 * zz + 1 <= n ==> w[v[yy]] <= w[v[2 * zz + 1]]
    requires w[v[zz]] >= w[v[yy]]
    ensures var r := Exchange(v, zz, yy);
            Rearranged(v, r, 1, n) && Nodes(r, w, n) && DownFault(r, w, n, yy)
  {
    var r := Exchange(v, zz, yy);
    ExchangeRearranges(v, zz, yy, n);
    NodesRearranged(v, r, w, n);
    forall k | 2 <= k <= n && k / 2 != yy ensures w[r[k / 2]] <= w[r[k]] {
      if k / 2 == zz { assert k == 2 * zz || k == 2 * zz + 1; }
    }
  }

  lemma Sunk(v: seq<int>, w: seq<int>, n: nat, zz: nat)
    requires 1 <= zz <= n && Nodes(v, w, n) && DownFault(v, w, n, zz)
    requires 2 * zz <= n ==> w[v[zz]] <= w[v[2 * zz]]
    requires 2 * zz + 1 <= n ==> w[v[zz]] <= w[v[2 * zz + 1]]
    ensures Ordered(v, w, n)
  {
    forall k | 2 <= k <= n ensures w[v[k / 2]] <= w[v[k]] {
      if k / 2 == zz { assert k == 2 * zz || k == 2 * zz + 1; }
    }
  }

  lemma FaultAtTop(h: seq<int>, w: seq<int>, n: nat)
    requires Nodes(h, w, n) && DownOrdered(h, w, n, 1)
    ensures DownFault(h, w, n, 1)
  {
  }

  /** The lighter of the children of `zz`. */
  method LighterChild(heap: array<int>, weight: seq<int>, zz: nat, nHeap: nat) returns (yy: nat)
    requires 1 <= zz && 2 * zz <= nHeap < heap.Length && forall k :: 0 <= k <= nHeap ==> 0 <= heap[k] < |weight|
    ensures yy == Child(heap[..], weight, zz, nHeap) && yy <= nHeap && (yy == 2 * zz || yy == 2 * zz + 1)
    ensures weight[heap[yy]] <= weight[heap[2 * zz]]
    ensures 2 * zz + 1 <= nHeap ==> weight[heap[yy]] <= weight[heap[2 * zz + 1]]
  {
    yy := 2 * zz;
    if yy < nHeap && weight[heap[yy + 1]] < weight[heap[yy]] { yy := yy + 1; }
  }

  lemma AtHole(h: seq<int>, zz: nat, yy: nat, tmp: int, n: nat)
    requires 1 <= zz && 2 * zz <= n < |h| && yy <= n && (yy == 2 * zz || yy == 2 * zz + 1)
    ensures var v := h[zz := tmp];
      v[yy] == h[yy] && v[zz] == tmp && v[2 * zz] == h[2 * zz] && (2 * zz + 1 <= n ==> v[2 * zz + 1] == h[2 * zz + 1])
  {
  }

  /** DOWNHEAP(1): the entry on top sinks to where it belongs. */
  method DownHeap(heap: array<int>, weight: seq<int>, nHeap: nat)
    requires 1 <= nHeap < heap.Length && Nodes(heap[..], weight, nHeap)
    requires DownOrdered(heap[..], weight, nHeap, 1)
    modifies heap
    ensures Rearranged(old(heap[..]), heap[..], 1, nHeap)
    ensures Nodes(heap[..], weight, nHeap) && Ordered(heap[..], weight, nHeap)
    ensures heap[..nHeap + 1] == Sink(old(heap[..nHeap + 1]), weight, old(heap[1]), 1, nHeap)
  {
    hide Rearranged, DownOrdered, DownFault, Nodes, Ordered, Exchange, Sink, Child;
    ghost var h0 := heap[..];
    FaultAtTop(h0, weight, nHeap);
    ghost var r := Sink(h0, weight, heap[1], 1, nHeap);
    NodeBounds(h0, weight, nHeap);
    RearrangedRefl(h0, 1, nHeap);
    var zz: nat := 1;
    var tmp := heap[zz];
    assert h0[zz := tmp] == h0;
    while true
      invariant 1 <= zz <= nHeap && 0 <= tmp < |weight| && (forall k :: 0 <= k <= nHeap ==> 0 <= heap[k] < |weight|)
      invariant Nodes(heap[..][zz := tmp], weight, nHeap) && Rearranged(h0, heap[..][zz := tmp], 1, nHeap)
      invariant DownFault(heap[..][zz := tmp], weight, nHeap, zz)
      invariant Sink(heap[..], weight, tmp, zz, nHeap) == r
      decreases nHeap - zz
    {
      ghost var h := heap[..];
      ghost var v := h[zz := tmp];
      SinkNext(h, weight, tmp, zz, nHeap);
      if 2 * zz > nHeap { break; }
      var yy := LighterChild(heap, weight, zz, nHeap);
      AtHole(h, zz, yy, tmp, nHeap);
      if weight[tmp] < weight[heap[yy]] { break; }
      SinkStep(v, weight, nHeap, zz, yy);
      RearrangedTrans(h0, v, Exchange(v, zz, yy), 1, nHeap);
      HoleMoves(h, zz, yy, tmp);
      heap[zz] := heap[yy];
      assert heap[..] == h[zz := h[yy]];
      zz := yy;
    }
    ghost var h := heap[..];
    heap[zz] := tmp;
    assert heap[..] == h[zz := tmp];
    Sunk(heap[..], weight, nHeap, zz);
    SinkPrefix(h0, weight, h0[1], 1, nHeap);
  }

  // ---------------------------------------------------------------- the heap as a set of nodes

  ghost function Entries(h: seq<int>, n: nat): set<int>
    requires n < |h|
  {
    set k | 1 <= k <= n :: h[k]
  }

  ghost predicate NoTwice(h: seq<int>, n: nat)
    requires n < |h|
  {
    forall i, j :: 1 <= i < j <= n ==> h[i] != h[j]
  }

  /** The heap holds exactly the nodes of `s`, each once, in heap order. */
  ghost predicate HeapOf(h: seq<int>, w: seq<int>, n: nat, s: set<int>) {
    Nodes(h, w, n) && Ordered(h, w, n) && NoTwice(h, n) && Entries(h, n) == s
  }

  lemma {:induction false} RearrangedEntries(f: seq<int>, g: seq<int>, n: nat)
    requires Rearranged(f, g, 1, n) && NoTwice(f, n)
    ensures Entries(f, n) == Entries(g, n) && NoTwice(g, n)
  {
    RearrangedSym(f, g, 1, n);
    forall x | x in Entries(f, n) ensures x in Entries(g, n) {
      var k :| 1 <= k <= n && f[k] == x;
      var j := RearrangedFrom(g, f, 1, n, k);
    }
    forall x | x in Entries(g, n) ensures x in Entries(f, n) {
      var k :| 1 <= k <= n && g[k] == x;
      var j := RearrangedFrom(f, g, 1, n, k);
    }
    RearrangedSlice(f, g, 1, n);
    var mf, mg := f[1..n + 1], g[1..n + 1];
    forall i, j | 1 <= i < j <= n ensures g[i] != g[j] {
      DistinctOnce(mf, g[i]);
      EqualCountsTwice(mg, i - 1, j - 1);
    }
  }

  lemma EqualCountsTwice(s: seq<int>, i: int, j: int)
    requires 0 <= i < j < |s|
    ensures s[i] == s[j] ==> multiset(s)[s[i]] >= 2
  {
    assert s == s[..i] + [s[i]] + s[i + 1..j] + [s[j]] + s[j + 1..];
  }

  /** Takes the lightest node off the heap. */
  method ExtractTop(heap: array<int>, weight: seq<int>, nHeap: nat, ghost s: set<int>) returns (top: int)
    requires 1 <= nHeap < heap.Length && HeapOf(heap[..], weight, nHeap, s)
    modifies heap
    ensures HeapOf(heap[..], weight, nHeap - 1, s - {top})
    ensures top in s && 0 <= top < |weight| && forall u :: u in s ==> 0 <= u < |weight| && weight[top] <= weight[u]
    ensures top == old(heap[1]) && heap[..nHeap] == Extracted(old(heap[..nHeap + 1]), weight)
  {
    hide HeapOf, Sink, Rearranged, Ordered, Nodes, Entries, NoTwice, DownOrdered;
    ghost var h0 := heap[..];
    TopOfHeap(h0, weight, nHeap, s);
    top := heap[1];
    heap[1] := heap[nHeap];
    ghost var h1 := heap[..];
    LastToTop(h0, h1, weight, nHeap, s);
    assert heap[..nHeap] == Put(h0[..nHeap + 1], 1, h0[nHeap])[..nHeap];
    if nHeap > 1 {
      DownHeap(heap, weight, nHeap - 1);
      RearrangedEntries(h1, heap[..], nHeap - 1);
    }
    MakeHeap(heap[..], weight, nHeap - 1, s - {top});
  }

  lemma {:induction false} TopOfHeap(h: seq<int>, w: seq<int>, n: nat, s: set<int>)
    requires 1 <= n && HeapOf(h, w, n, s)
    ensures n < |h| && h[1] in s && 0 <= h[1] < |w|
    ensures forall u :: u in s ==> 0 <= u < |w| && w[h[1]] <= w[u]
  {
    forall u | u in s ensures 0 <= u < |w| && w[h[1]] <= w[u] {
      var k :| 1 <= k <= n && h[k] == u;
      TopIsLightest(h, w, n, k);
    }
  }

  lemma {:induction false} LastToTop(h0: seq<int>, h1: seq<int>, w: seq<int>, n: nat, s: set<int>)
    requires 1 <= n < |h0| && HeapOf(h0, w, n, s) && h1 == h0[1 := h0[n]]
    ensures Nodes(h1, w, n - 1) && DownOrdered(h1, w, n - 1, 1) && NoTwice(h1, n - 1)
    ensures Entries(h1, n - 1) == s - {h0[1]}
    ensures n == 1 ==> Ordered(h1, w, 0)
  {
    forall x | x in s - {h0[1]} ensures x in Entries(h1, n - 1) {
      var k :| 1 <= k <= n && h0[k] == x;
      var j := if k == n then 1 else k;
      assert h1[j] == x;
    }
    forall x | x in Entries(h1, n - 1) ensures x in s - {h0[1]} {
      var k :| 1 <= k <= n - 1 && h1[k] == x;
      assert x == h0[if k == 1 then n else k];
    }
  }

  /** Puts a new node on the heap. */
  method Insert(heap: array<int>, weight: seq<int>, nHeap: nat, node: int, ghost s: set<int>)
    requires nHeap + 1 < heap.Length && HeapOf(heap[..], weight, nHeap, s)
    requires node !in s && 0 <= node < |weight| && weight[node] >= 0
    modifies heap
    ensures HeapOf(heap[..], weight, nHeap + 1, s + {node})
    ensures heap[..nHeap + 2] == Inserted(old(heap[..nHeap + 1]), weight, node)
  {
    hide Rise, HeapOf, Rearranged, UpOrdered, Ordered, Nodes, Entries, NoTwice;
    ghost var h0 := heap[..];
    heap[nHeap + 1] := node;
    ghost var h1 := heap[..];
    NewAtEnd(h0, h1, weight, nHeap, node, s);
    assert heap[..nHeap + 2] == h0[..nHeap + 1] + [node];
    UpHeap(heap, weight, nHeap + 1);
    RearrangedEntries(h1, heap[..], nHeap + 1);
    MakeHeap(heap[..], weight, nHeap + 1, s + {node});
  }

  lemma MakeHeap(h: seq<int>, w: seq<int>, n: nat, s: set<int>)
    requires Nodes(h, w, n) && Ordered(h, w, n) && NoTwice(h, n) && Entries(h, n) == s
    ensures HeapOf(h, w, n, s)
  {
  }

  lemma {:induction false} NewAtEnd(h0: seq<int>, h1: seq<int>, w: seq<int>, n: nat, node: int, s: set<int>)
    requires n + 1 < |h0| && HeapOf(h0, w, n, s) && h1 == h0[n + 1 := node]
    requires node !in s && 0 <= node < |w| && w[node] >= 0
    ensures Nodes(h1, w, n + 1) && UpOrdered(h1, w, n + 1, n + 1) && NoTwice(h1, n + 1)
    ensures Entries(h1, n + 1) == s + {node}
  {
    forall i | 1 <= i <= n ensures h0[i] != node { assert h0[i] in Entries(h0, n); }
    forall x | x in s + {node} ensures x in Entries(h1, n + 1) {
      if x == node { assert h1[n + 1] == x; }
      else {
        var k :| 1 <= k <= n && h0[k] == x;
        assert h1[k] == x;
      }
    }
    forall x | x in Entries(h1, n + 1) ensures x in s + {node} {
      var k :| 1 <= k <= n + 1 && h1[k] == x;
      if k <= n { assert h0[k] in Entries(h0, n); }
    }
  }
}

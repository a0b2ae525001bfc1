/**
 Choosing the code tables of a block.  The choice is a heuristic; whatever it does, the
 result is a set of tables and selectors with which the block can be sent.  It is also a
 function of the values of the block.
 */
module CodeTables {
  import opened Bits
  import opened Counting
  import opened CanonicalCode
  import opened HuffmanForest
  import opened HuffmanLengths
  import HuffmanCost
  import opened BlockFormat

  const N_GROUPS := 6
  const N_ITERS := 4
  const LESSER_ICOST: nat := 0
  const GREATER_ICOST: nat := 15
  const MAX_VALUES := 900001

  /** A table of lengths to judge costs by. */
  predicate Rows(len: seq<seq<nat>>, nGroups: nat, alphaSize: nat) {
    && |len| == nGroups
    && forall t :: 0 <= t < nGroups ==> Row(len[t], alphaSize)
  }

  predicate Row(len: seq<nat>, alphaSize: nat) {
    |len| == alphaSize && forall v :: 0 <= v < alphaSize ==> len[v] <= MAX_LEN
  }

  predicate Below(s: seq<nat>, limit: nat) {
    forall k :: 0 <= k < |s| ==> s[k] < limit
  }

  /** How many tables are used for `nMTF` values. */
  function GroupsFor(nMTF: nat): (nGroups: nat)
    ensures 2 <= nGroups <= N_GROUPS
  {
    if nMTF < 200 then 2 else if nMTF < 600 then 3 else if nMTF < 1200 then 4 else if nMTF < 2400 then 5 else 6
  }

  method NumberOfGroups(nMTF: nat) returns (nGroups: nat)
    ensures nGroups == GroupsFor(nMTF)
  {
    if nMTF < 200 { nGroups := 2; }
    else if nMTF < 600 { nGroups := 3; }
    else if nMTF < 1200 { nGroups := 4; }
    else if nMTF < 2400 { nGroups := 5; }
    else { nGroups := 6; }
  }

  /** Division that truncates towards zero. */
  function Quotient(a: int, b: nat): int
    requires b > 0
  {
    if a >= 0 then a / b else -(-a / b)
  }

  /** A table that prefers the symbols `gs..ge`. */
  function Preferring(gs: int, ge: int, alphaSize: nat): (row: seq<nat>)
    ensures |row| == alphaSize && Row(row, alphaSize)
  {
    seq(alphaSize, v => if gs <= v <= ge then LESSER_ICOST else GREATER_ICOST)
  }

  /** The end of the stretch behind `ge` that brings the frequency up to `tFreq`, and the
      frequency reached. */
  function Reach(mtfFreq: seq<nat>, ge: int, aFreq: int, tFreq: int): (r: (int, int))
    requires -1 <= ge
    ensures r.0 >= ge && (ge < |mtfFreq| ==> r.0 < |mtfFreq|)
    decreases |mtfFreq| - ge
  {
    if aFreq < tFreq && ge < |mtfFreq| - 1 then Reach(mtfFreq, ge + 1, aFreq + mtfFreq[ge + 1], tFreq) else (ge, aFreq)
  }

  /** The stretch from `gs` on for part `nPart`: every second part gives its last symbol back. */
  function Stretch(mtfFreq: seq<nat>, nGroups: nat, nPart: nat, gs: nat, remF: int): (r: (int, int))
    requires nPart > 0
    ensures r.0 >= gs - 1 && (gs <= |mtfFreq| ==> r.0 < |mtfFreq|)
  {
    var (ge, aFreq) := Reach(mtfFreq, gs - 1, 0, Quotient(remF, nPart));
    if ge > gs && nPart != nGroups && nPart != 1 && (nGroups - nPart) % 2 == 1 && ge < |mtfFreq|
    then (ge - 1, aFreq - mtfFreq[ge]) else (ge, aFreq)
  }

  /** The tables of the parts `nPart`, `nPart - 1`, ..., the first of which starts at `gs`. */
  function Stretches(mtfFreq: seq<nat>, nGroups: nat, nPart: nat, gs: nat, remF: int): (len: seq<seq<nat>>)
    ensures |len| == nPart && Rows(len, nPart, |mtfFreq|)
    decreases nPart
  {
    if nPart == 0 then []
    else
      var (ge, aFreq) := Stretch(mtfFreq, nGroups, nPart, gs, remF);
      Stretches(mtfFreq, nGroups, nPart - 1, ge + 1, remF - aFreq) + [Preferring(gs, ge, |mtfFreq|)]
  }

  lemma ReachStep(mtfFreq: seq<nat>, ge: int, aFreq: int, tFreq: int)
    requires -1 <= ge
    ensures Reach(mtfFreq, ge, aFreq, tFreq) ==
      if aFreq < tFreq && ge < |mtfFreq| - 1 then Reach(mtfFreq, ge + 1, aFreq + mtfFreq[ge + 1], tFreq)
        else (ge, aFreq)
  {
  }

  method FindStretch(mtfFreq: seq<nat>, nGroups: nat, nPart: nat, gs: nat, remF: int) returns (ge: int, aFreq: int)
    requires 0 < nPart && gs <= |mtfFreq|
    ensures (ge, aFreq) == Stretch(mtfFreq, nGroups, nPart, gs, remF)
  {
    hide Reach, Quotient;
    var tFreq := Quotient(remF, nPart);
    ge, aFreq := gs - 1, 0;
    while aFreq < tFreq && ge < |mtfFreq| - 1
      invariant gs - 1 <= ge <= |mtfFreq| - 1
      invariant Reach(mtfFreq, ge, aFreq, tFreq) == Reach(mtfFreq, gs - 1, 0, tFreq)
      decreases |mtfFreq| - ge
    {
      ReachStep(mtfFreq, ge, aFreq, tFreq);
      ge := ge + 1;
      aFreq := aFreq + mtfFreq[ge];
    }
    ReachStep(mtfFreq, ge, aFreq, tFreq);
    if ge > gs && nPart != nGroups && nPart != 1 && (nGroups - nPart) % 2 == 1 {
      aFreq := aFreq - mtfFreq[ge];
      ge := ge - 1;
    }
  }

  /** The initial tables: each prefers a stretch of the alphabet. */
  method InitialTables(mtfFreq: seq<nat>, nMTF: nat, nGroups: nat, alphaSize: nat) returns (len: seq<seq<nat>>)
    requires 2 <= nGroups <= N_GROUPS && alphaSize == |mtfFreq|
    ensures Rows(len, nGroups, alphaSize) && len == Stretches(mtfFreq, nGroups, nGroups, 0, nMTF)
  {
    hide Stretch, Row, Preferring;
    len := seq(nGroups, _ => Preferring(0, -1, alphaSize));
    var nPart, remF: int := nGroups, nMTF;
    var gs: nat := 0;
    while nPart > 0
      invariant 0 <= nPart <= nGroups && gs <= alphaSize && |len| == nGroups
      invariant Stretches(mtfFreq, nGroups, nPart, gs, remF) + len[nPart..] ==
        Stretches(mtfFreq, nGroups, nGroups, 0, nMTF)
    {
      var ge, aFreq := FindStretch(mtfFreq, nGroups, nPart, gs, remF);
      ghost var rest := len[nPart..];
      len := len[nPart - 1 := Preferring(gs, ge, alphaSize)];
      assert len[nPart - 1..] == [Preferring(gs, ge, alphaSize)] + rest;
      StretchesStep(mtfFreq, nGroups, nPart, gs, remF, rest);
      nPart := nPart - 1;
      gs := ge + 1;
      remF := remF - aFreq;
    }
    assert Stretches(mtfFreq, nGroups, 0, gs, remF) + len[0..] == len;
  }

  lemma StretchesStep(mtfFreq: seq<nat>, nGroups: nat, nPart: nat, gs: nat, remF: int, rest: seq<seq<nat>>)
    requires nPart > 0
    ensures var (ge, aFreq) := Stretch(mtfFreq, nGroups, nPart, gs, remF);
      Stretches(mtfFreq, nGroups, nPart, gs, remF) + rest ==
      Stretches(mtfFreq, nGroups, nPart - 1, ge + 1, remF - aFreq) + ([Preferring(gs, ge, |mtfFreq|)] + rest)
  {
    hide Stretch, Preferring;
  }

  // ---------------------------------------------------------------- costs

  /** The bits that table `len` needs for the values `s`. */
  function CostOf(len: seq<nat>, s: seq<nat>): nat {
    if s == [] then 0 else CostOf(len, s[..|s| - 1]) + if s[|s| - 1] < |len| then len[s[|s| - 1]] else 0
  }

  function CostsOf(len: seq<seq<nat>>, s: seq<nat>): (cost: seq<nat>)
    ensures |cost| == |len| && forall t :: 0 <= t < |len| ==> cost[t] == CostOf(len[t], s)
  {
    seq(|len|, t requires 0 <= t < |len| => CostOf(len[t], s))
  }

  lemma {:induction false} CostBound(len: seq<nat>, s: seq<nat>)
    requires Row(len, |len|) && Below(s, |len|)
    ensures CostOf(len, s) <= MAX_LEN * |s|
  {
    if s != [] { CostBound(len, s[..|s| - 1]); }
  }

  lemma CostStep(len: seq<nat>, s: seq<nat>, i: nat)
    requires Below(s, |len|) && i < |s|
    ensures CostOf(len, s[..i + 1]) == CostOf(len, s[..i]) + len[s[i]]
  {
    assert s[..i + 1][..i] == s[..i];
  }

  /** Two costs are added up in the halves of one word; the lower never carries into the upper. */
  method PackedCosts(a: seq<nat>, b: seq<nat>, s: seq<nat>) returns (ca: nat, cb: nat)
    requires Row(a, |a|) && Row(b, |a|) && Below(s, |a|) && |s| == GROUP_SIZE
    ensures ca == CostOf(a, s) && cb == CostOf(b, s)
  {
    var pack := seq(|a|, v requires 0 <= v < |a| => b[v] * 0x1_0000 + a[v]);
    var both: nat := 0;
    for i := 0 to |s|
      invariant both == CostOf(b, s[..i]) * 0x1_0000 + CostOf(a, s[..i])
    {
      CostStep(a, s, i);
      CostStep(b, s, i);
      both := both + pack[s[i]];
    }
    assert s[..|s|] == s;
    CostBound(a, s);
    ca, cb := both % 0x1_0000, both / 0x1_0000;
  }

  method PlainCost(len: seq<nat>, s: seq<nat>) returns (cost: nat)
    requires Row(len, |len|) && Below(s, |len|)
    ensures cost == CostOf(len, s)
  {
    cost := 0;
    for i := 0 to |s|
      invariant cost == CostOf(len, s[..i])
    {
      CostStep(len, s, i);
      cost := cost + len[s[i]];
    }
    assert s[..|s|] == s;
  }

  /** What each table needs for one group of values; full groups with six tables go the fast way. */
  method GroupCosts(len: seq<seq<nat>>, s: seq<nat>, alphaSize: nat) returns (cost: seq<nat>)
    requires 2 <= |len| <= N_GROUPS && Rows(len, |len|, alphaSize) && Below(s, alphaSize)
    ensures cost == CostsOf(len, s)
  {
    if |len| == N_GROUPS && |s| == GROUP_SIZE {
      var c0, c1 := PackedCosts(len[0], len[1], s);
      var c2, c3 := PackedCosts(len[2], len[3], s);
      var c4, c5 := PackedCosts(len[4], len[5], s);
      cost := [c0, c1, c2, c3, c4, c5];
    } else {
      cost := [];
      for t := 0 to |len|
        invariant |cost| == t && forall u :: 0 <= u < t ==> cost[u] == CostOf(len[u], s)
      {
        var c := PlainCost(len[t], s);
        cost := cost + [c];
      }
    }
  }

  /** The first of the least. */
  function FirstLeast(cost: seq<nat>): (b: nat)
    requires |cost| > 0
    ensures b < |cost| && forall t :: 0 <= t < |cost| ==> cost[b] <= cost[t]
    ensures forall t :: 0 <= t < b ==> cost[b] < cost[t]
  {
    if |cost| == 1 then 0
    else
      var last := |cost| - 1;
      var b := FirstLeast(cost[..last]);
      if cost[last] < cost[b] then last else b
  }

  /** The first of the cheapest tables. */
  method BestTable(cost: seq<nat>) returns (bt: int)
    requires |cost| > 0 && Below(cost, 999999999)
    ensures bt == FirstLeast(cost)
  {
    var bc := 999999999;
    bt := -1;
    for t := 0 to |cost|
      invariant t == 0 ==> bt == -1 && bc == 999999999
      invariant t > 0 ==> bt == FirstLeast(cost[..t]) && bc == cost[bt]
    {
      assert t > 0 ==> cost[..t + 1][..t] == cost[..t];
      if cost[t] < bc { bc := cost[t]; bt := t; }
    }
    assert cost[..|cost|] == cost;
  }

  // ---------------------------------------------------------------- frequencies

  /** The weights that a row of frequencies gives to the leaves of a code tree. */
  ghost function TreeWeight(freq: seq<nat>): nat {
    Total(LeafWeights(freq), |freq|)
  }

  lemma {:induction false} TotalOneMore(w: seq<nat>, w': seq<nat>, v: nat, n: nat)
    requires n <= |w| == |w'| && v < |w| && w[v] <= w'[v] <= w[v] + 1
    requires forall i :: 0 <= i < |w| && i != v ==> w'[i] == w[i]
    ensures Total(w', n) <= Total(w, n) + 1
    ensures n <= v ==> Total(w', n) == Total(w, n)
  {
    if n > 0 { TotalOneMore(w, w', v, n - 1); }
  }

  lemma {:induction false} TotalOnes(w: seq<nat>, n: nat)
    requires n <= |w| && forall i :: 0 <= i < |w| ==> w[i] == 1
    ensures Total(w, n) == n
  {
    if n > 0 { TotalOnes(w, n - 1); }
  }

  /** Counting the values of a group adds at most their number to the weights. */
  method CountGroup(freq: seq<nat>, s: seq<nat>) returns (freq': seq<nat>)
    requires Below(s, |freq|)
    ensures |freq'| == |freq| && TreeWeight(freq') <= TreeWeight(freq) + |s|
    ensures forall c :: 0 <= c < |freq| ==> freq'[c] == freq[c] + Count(s, c)
  {
    hide Count, TreeWeight;
    freq' := freq;
    CountNone(s);
    for i := 0 to |s|
      invariant |freq'| == |freq| && TreeWeight(freq') <= TreeWeight(freq) + i
      invariant forall c :: 0 <= c < |freq| ==> freq'[c] == freq[c] + Count(s[..i], c)
    {
      var more := freq'[s[i] := freq'[s[i]] + 1];
      OneMoreWeight(freq', more, s[i]);
      forall c | 0 <= c < |freq| ensures more[c] == freq[c] + Count(s[..i + 1], c) { CountPrefixStep(s, i, c); }
      freq' := more;
    }
    assert s[..|s|] == s;
  }

  lemma CountNone(s: seq<nat>)
    ensures forall c :: Count(s[..0], c) == 0
  {
  }

  lemma OneMoreWeight(freq: seq<nat>, more: seq<nat>, v: nat)
    requires v < |freq| && more == freq[v := freq[v] + 1]
    ensures TreeWeight(more) <= TreeWeight(freq) + 1
  {
    TotalOneMore(LeafWeights(freq), LeafWeights(more), v, |freq|);
  }

  // ---------------------------------------------------------------- passes

  /** The values of group `g`. */
  function Group(v: seq<nat>, g: nat): seq<nat> {
    var from, to := g * GROUP_SIZE, (g + 1) * GROUP_SIZE;
    if from >= |v| then [] else v[from..if to < |v| then to else |v|]
  }

  /** The selectors of a pass: for each group the first of the cheapest tables. */
  function Selected(len: seq<seq<nat>>, v: seq<nat>, n: nat): (selector: seq<nat>)
    requires |len| > 0
    ensures |selector| == n && Below(selector, |len|)
  {
    seq(n, g requires 0 <= g => FirstLeast(CostsOf(len, Group(v, g))))
  }

  /** How often value `c` occurs in the groups that use table `t`. */
  function Tally(selector: seq<nat>, v: seq<nat>, t: nat, c: nat): nat {
    if selector == [] then 0
    else
      var g := |selector| - 1;
      Tally(selector[..g], v, t, c) + if selector[g] == t then Count(Group(v, g), c) else 0
  }

  /** The frequencies of a pass. */
  function Tallies(selector: seq<nat>, v: seq<nat>, nGroups: nat, alphaSize: nat): (rfreq: seq<seq<nat>>)
    ensures |rfreq| == nGroups && forall t :: 0 <= t < nGroups ==> |rfreq[t]| == alphaSize
    ensures forall t, c :: 0 <= t < nGroups && 0 <= c < alphaSize ==> rfreq[t][c] == Tally(selector, v, t, c)
  {
    seq(nGroups, t requires 0 <= t => seq(alphaSize, c requires 0 <= c => Tally(selector, v, t, c)))
  }

  ghost predicate Light(rfreq: seq<seq<nat>>, nGroups: nat, alphaSize: nat, limit: nat) {
    |rfreq| == nGroups
    && forall t :: 0 <= t < nGroups ==> |rfreq[t]| == alphaSize && TreeWeight(rfreq[t]) <= alphaSize + limit
  }

  method SelectTable(len: seq<seq<nat>>, s: seq<nat>, alphaSize: nat) returns (bt: nat)
    requires 2 <= |len| <= N_GROUPS && Rows(len, |len|, alphaSize) && Below(s, alphaSize) && |s| <= GROUP_SIZE
    ensures bt == FirstLeast(CostsOf(len, s))
  {
    hide CostOf, FirstLeast;
    var cost := GroupCosts(len, s, alphaSize);
    forall t | 0 <= t < |cost| ensures cost[t] < 999999999 { CostBound(len[t], s); }
    bt := BestTable(cost);
  }

  /** One more group has been counted into the frequencies of table `bt`. */
  lemma TallyMore(selector: seq<nat>, v: seq<nat>, bt: nat, f: seq<nat>, nGroups: nat, alphaSize: nat)
    requires bt < nGroups && |f| == alphaSize
    requires forall c :: 0 <= c < alphaSize ==> f[c] == Tally(selector, v, bt, c) + Count(Group(v, |selector|), c)
    ensures Tallies(selector, v, nGroups, alphaSize)[bt := f] == Tallies(selector + [bt], v, nGroups, alphaSize)
  {
    hide Count, Group;
    var more := selector + [bt];
    assert more[..|selector|] == selector && more[|selector|] == bt;
    var a, b := Tallies(selector, v, nGroups, alphaSize)[bt := f], Tallies(more, v, nGroups, alphaSize);
    forall t | 0 <= t < nGroups ensures a[t] == b[t] {
      forall c | 0 <= c < alphaSize ensures a[t][c] == b[t][c] { assert b[t][c] == Tally(more, v, t, c); }
    }
  }

  lemma SelectedMore(len: seq<seq<nat>>, v: seq<nat>, n: nat)
    requires |len| > 0
    ensures Selected(len, v, n + 1) == Selected(len, v, n) + [FirstLeast(CostsOf(len, Group(v, n)))]
  {
    hide FirstLeast, CostsOf, Group;
  }

  lemma NoTallies(v: seq<nat>, nGroups: nat, alphaSize: nat)
    ensures seq(nGroups, _ => seq(alphaSize, _ => 0)) == Tallies([], v, nGroups, alphaSize)
  {
    var a, b := seq(nGroups, _ => seq(alphaSize, _ => 0)), Tallies([], v, nGroups, alphaSize);
    forall t | 0 <= t < nGroups ensures a[t] == b[t] { }
  }

  /** The selectors of a pass, each the first of the cheapest tables for its group, and how often
      each value occurs in the groups of each table. */
  method SelectTables(len: seq<seq<nat>>, v: seq<nat>, alphaSize: nat)
    returns (selector: seq<nat>, rfreq: seq<seq<nat>>)
    requires 2 <= |len| <= N_GROUPS && Rows(len, |len|, alphaSize) && Below(v, alphaSize)
    ensures selector == Selected(len, v, (|v| + GROUP_SIZE - 1) / GROUP_SIZE)
    ensures rfreq == Tallies(selector, v, |len|, alphaSize)
    ensures Light(rfreq, |len|, alphaSize, |v|)
  {
    hide CostsOf, TreeWeight, FirstLeast, Row, Tallies, Selected, Count;
    selector := [];
    ZeroWeight(alphaSize);
    NoTallies(v, |len|, alphaSize);
    rfreq := seq(|len|, _ => seq(alphaSize, _ => 0));
    var gs := 0;
    while gs < |v|
      invariant 0 <= gs <= |v| && (gs < |v| ==> gs == |selector| * GROUP_SIZE)
      invariant |selector| == (gs + GROUP_SIZE - 1) / GROUP_SIZE
      invariant selector == Selected(len, v, |selector|)
      invariant rfreq == Tallies(selector, v, |len|, alphaSize)
      invariant Light(rfreq, |len|, alphaSize, gs)
      decreases |v| - gs
    {
      var ge := gs + GROUP_SIZE - 1;
      if ge >= |v| { ge := |v| - 1; }
      ghost var g := |selector|;
      var s := v[gs..ge + 1];
      assert s == Group(v, g);
      var bt := SelectTable(len, s, alphaSize);
      SelectedMore(len, v, g);
      var f := CountGroup(rfreq[bt], s);
      TallyMore(selector, v, bt, f, |len|, alphaSize);
      selector := selector + [bt];
      rfreq := rfreq[bt := f];
      gs := ge + 1;
    }
  }

  lemma ZeroWeight(alphaSize: nat)
    ensures TreeWeight(seq(alphaSize, _ => 0)) == alphaSize
  {
    TotalOnes(LeafWeights(seq(alphaSize, _ => 0)), alphaSize);
  }

  /** The code lengths for each row of frequencies. */
  ghost function Recoded(rfreq: seq<seq<nat>>): (len: seq<seq<nat>>)
    ensures |len| == |rfreq|
  {
    seq(|rfreq|, t requires 0 <= t < |rfreq| => CodeLengths(LeafWeights(rfreq[t])))
  }

  /** New lengths from the frequencies. */
  method NewLengths(rfreq: seq<seq<nat>>, nGroups: nat, alphaSize: nat) returns (len: seq<seq<nat>>)
    requires 2 <= alphaSize <= MAX_ALPHA_SIZE && Light(rfreq, nGroups, alphaSize, MAX_VALUES)
    ensures |len| == nGroups && forall t :: 0 <= t < nGroups ==> |len[t]| == alphaSize && CompleteCode(len[t])
    ensures len == Recoded(rfreq)
  {
    hide CompleteCode, CodeLengths, Rescaled, TreeLengths, TooLong, HuffmanCost.Cheapest;
    var row := new nat[alphaSize];
    len := [];
    for t := 0 to nGroups
      invariant |len| == t && forall u :: 0 <= u < t ==> |len[u]| == alphaSize && CompleteCode(len[u])
      invariant forall u :: 0 <= u < t ==> len[u] == CodeLengths(LeafWeights(rfreq[u]))
    {
      MakeCodeLengths(row, rfreq[t], alphaSize, MAX_LEN);
      len := len + [row[..alphaSize]];
    }
  }

  lemma CompleteIsPrefixable(len: seq<nat>, alphaSize: nat)
    requires CompleteCode(len) && |len| == alphaSize
    ensures Row(len, alphaSize) && Prefixable(len, MAX_LEN)
  {
  }

  /** One pass over the groups: selectors by the old tables, and new tables by the frequencies. */
  ghost function PassOver(len: seq<seq<nat>>, v: seq<nat>, alphaSize: nat): (c: Coding)
    requires |len| > 0
    ensures |c.len| == |len|
  {
    var selector := Selected(len, v, (|v| + GROUP_SIZE - 1) / GROUP_SIZE);
    Coding(Recoded(Tallies(selector, v, |len|, alphaSize)), selector)
  }

  /** Tables and selectors after `iter` passes. */
  ghost function Passes(v: seq<nat>, mtfFreq: seq<nat>, iter: nat): (c: Coding)
    ensures |c.len| == GroupsFor(|v|)
  {
    if iter == 0 then Coding(Stretches(mtfFreq, GroupsFor(|v|), GroupsFor(|v|), 0, |v|), [])
    else PassOver(Passes(v, mtfFreq, iter - 1).len, v, |mtfFreq|)
  }

  lemma PassesStep(v: seq<nat>, mtfFreq: seq<nat>, iter: nat)
    ensures Passes(v, mtfFreq, iter + 1) == PassOver(Passes(v, mtfFreq, iter).len, v, |mtfFreq|)
  {
    hide PassOver, GroupsFor;
  }

  /** The tables after the last pass, and the selectors found in it: both are functions of the
      values and their frequencies. */
  method ChooseTables(v: seq<nat>, mtfFreq: seq<nat>, alphaSize: nat) returns (len: seq<seq<nat>>, selector: seq<nat>)
    requires 0 < |v| <= MAX_VALUES && Below(v, alphaSize) && 3 <= alphaSize == |mtfFreq| <= MAX_ALPHA_SIZE
    ensures Coding(len, selector) == Passes(v, mtfFreq, N_ITERS)
    ensures Codable(Coding(len, selector), alphaSize, v)
    ensures forall t :: 0 <= t < |len| ==> CompleteCode(len[t])
    ensures |len| < 8 && |selector| < 32768 && |selector| <= 2 + 900000 / GROUP_SIZE
    ensures |selector| == (|v| + 49) / 50 && |len| == GroupsFor(|v|)
  {
    hide CompleteCode, Prefixable, TreeWeight, Selected, Tallies, Recoded, GroupsFor, Stretches, Passes;
    var nGroups := NumberOfGroups(|v|);
    len := InitialTables(mtfFreq, |v|, nGroups, alphaSize);
    selector := [];
    NoPasses(v, mtfFreq);
    for iter := 0 to N_ITERS
      invariant Rows(len, nGroups, alphaSize)
      invariant iter > 0 ==> |selector| == (|v| + GROUP_SIZE - 1) / GROUP_SIZE && Below(selector, nGroups)
      invariant iter > 0 ==> forall t :: 0 <= t < nGroups ==> CompleteCode(len[t])
      invariant Coding(len, selector) == Passes(v, mtfFreq, iter)
    {
      var rfreq;
      PassesStep(v, mtfFreq, iter);
      selector, rfreq := SelectTables(len, v, alphaSize);
      len := NewLengths(rfreq, nGroups, alphaSize);
      forall t | 0 <= t < nGroups ensures Row(len[t], alphaSize) { CompleteIsPrefixable(len[t], alphaSize); }
    }
    forall t | 0 <= t < nGroups ensures Prefixable(len[t], MAX_LEN) { CompleteIsPrefixable(len[t], alphaSize); }
  }

  lemma NoPasses(v: seq<nat>, mtfFreq: seq<nat>)
    ensures Passes(v, mtfFreq, 0) == Coding(Stretches(mtfFreq, GroupsFor(|v|), GroupsFor(|v|), 0, |v|), [])
  {
    hide GroupsFor;
  }
}

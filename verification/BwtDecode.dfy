/**
 The decoder's two ways of undoing the block sort: the 32-bit vector `tt`, and the
 20-bit vector split over `ll16` and `ll4` whose links are reversed in place.
 */
module BwtDecode {
  import opened Rotations
  import opened Counting
  import opened BwtSpec
  import opened Bits

  /** Counts are turned into running totals. */
  method Accumulate(cftab: array<int>, ghost l: seq<byte>)
    requires cftab.Length == 257 && cftab[0] == 0 && forall c :: 1 <= c <= 256 ==> cftab[c] == Count(l, c - 1)
    modifies cftab
    ensures forall c :: 0 <= c <= 256 ==> cftab[c] == CountBelow(l, c)
  {
    hide Count, CountBelow;
    BelowNext(l, 0);
    for i := 1 to 257
      invariant forall c :: 0 <= c < i ==> cftab[c] == CountBelow(l, c)
      invariant forall c :: i <= c <= 256 ==> cftab[c] == Count(l, c - 1)
    {
      BelowNext(l, i - 1);
      cftab[i] := cftab[i] + cftab[i - 1];
    }
  }

  lemma BelowNext(l: seq<byte>, c: nat)
    ensures CountBelow(l, 0) == 0 && CountBelow(l, c + 1) == CountBelow(l, c) + Count(l, c)
  {
  }

  /** Cumulative counts from symbol counts. */
  method MakeCftab(unzftab: array<int>, cftab: array<int>, ghost l: seq<byte>)
    requires unzftab.Length == 256 && cftab.Length == 257 && unzftab != cftab
    requires forall c :: 0 <= c < 256 ==> unzftab[c] == Count(l, c)
    modifies cftab
    ensures forall c :: 0 <= c <= 256 ==> cftab[c] == CountBelow(l, c)
    ensures forall c :: 0 <= c <= 256 ==> 0 <= cftab[c] <= |l|
    ensures forall c :: 1 <= c <= 256 ==> cftab[c - 1] <= cftab[c]
    ensures Counted(cftab[..], l, 0)
  {
    hide Count, Counted, CountBelow;
    cftab[0] := 0;
    for i := 1 to 257
      invariant cftab[0] == 0
      invariant forall c :: 1 <= c < i ==> cftab[c] == Count(l, c - 1)
    {
      cftab[i] := unzftab[i - 1];
    }
    Accumulate(cftab, l);
    forall c: nat | c <= 256 ensures CountBelow(l, c) <= |l| {
      CountBelowMono(l, c, 256);
      CountBelowAll(l, 256);
    }
    forall c | 1 <= c <= 256 ensures cftab[c - 1] <= cftab[c] { CountBelowMono(l, c - 1, c); }
    CountedInit(cftab[..], l);
  }

  /** `cf` once the first `i` rows have been counted into it. */
  ghost predicate Counted(cf: seq<int>, l: seq<byte>, i: int)
    requires 0 <= i <= |l|
  {
    && |cf| >= 256
    && forall c :: 0 <= c < 256 ==> cf[c] == CountBelow(l, c) + Count(l[..i], c)
  }

  lemma CountedInit(cf: seq<int>, l: seq<byte>)
    requires |cf| >= 256 && forall c :: 0 <= c < 256 ==> cf[c] == CountBelow(l, c)
    ensures Counted(cf, l, 0)
  {
  }

  /** Row `i` is due at `LF(l, i)`, and counting it keeps the table up to date. */
  lemma CountedStep(cf: seq<int>, l: seq<byte>, i: int)
    requires 0 <= i < |l| && Counted(cf, l, i)
    ensures |cf| >= 256 && cf[l[i]] == LF(l, i)
    ensures Counted(cf[l[i] := cf[l[i]] + 1], l, i + 1)
  {
    forall c | 0 <= c < 256 ensures Count(l[..i + 1], c) == Count(l[..i], c) + if l[i] == c then 1 else 0 {
      CountPrefixStep(l, i, c);
    }
  }

  /** The next free row for symbol `uc`, which is then used up. */
  method TakeRow(cftab: array<int>, uc: byte, ghost l: seq<byte>, ghost i: int) returns (row: int)
    requires 0 <= i < |l| && Counted(cftab[..], l, i) && uc == l[i]
    modifies cftab
    ensures row == LF(l, i) && 0 <= row < |l|
    ensures Counted(cftab[..], l, i + 1)
  {
    ghost var cf := cftab[..];
    CountedStep(cf, l, i);
    FLUnique(l, i);
    row := cftab[uc];
    cftab[uc] := row + 1;
    assert cftab[..] == cf[uc := row + 1];
  }

  /** A `tt` entry: a symbol in the low byte, a row number above it. */
  function Entry(c: byte, row: nat): nat {
    c + 256 * row
  }

  function EntrySymbol(w: nat): byte {
    w % 256
  }

  function EntryRow(w: nat): nat {
    w / 256
  }

  lemma EntryParts(c: byte, row: nat)
    ensures EntrySymbol(Entry(c, row)) == c && EntryRow(Entry(c, row)) == row
  {
  }

  /** Or-ing a shifted row number into an entry that has none. */
  lemma OrRow(c: byte, row: nat)
    ensures BitOr(Entry(c, 0), row * 256) == Entry(c, row)
  {
    assert Pow2(8) == 256;
    BitOrComm(row * 256, c);
    BitOrDisjoint(row, c, 8);
  }

  /** The T^(-1) vector: each entry keeps its symbol in the low byte and gains, in the high
      bits, the row that leads to it. */
  method BuildFast(tt: array<nat>, cftab: array<int>, nblock: int, ghost l: seq<byte>)
    requires nblock == |l| <= tt.Length && cftab.Length == 257
    requires forall k :: 0 <= k < nblock ==> tt[k] == Entry(l[k],0)
    requires Counted(cftab[..], l, 0)
    modifies tt, cftab
    ensures forall k :: 0 <= k < nblock ==> tt[k] == Entry(l[k], FL(l, k))
  {
    hide Counted, LF, BitOr, Entry, EntrySymbol;
    for i := 0 to nblock
      invariant Counted(cftab[..], l, i)
      invariant forall k :: 0 <= k < nblock ==> tt[k] == Entry(l[k], if FL(l, k) < i then FL(l, k) else 0)
    {
      var uc := EntrySymbol(tt[i]);
      EntryParts(l[i], if FL(l, i) < i then FL(l, i) else 0);
      var row := TakeRow(cftab, uc, l, i);
      FLUnique(l, i);
      OrRow(l[row], i);
      tt[row] := BitOr(tt[row], i * 256);
    }
  }

  // ---------------------------------------------------------------- 20-bit entries

  /** Entry `i` of the vector held in `ll16` (low 16 bits) and `ll4` (two high nibbles a byte). */
  function GetLL(ll16: array<int>, ll4: array<int>, i: int): int
    reads ll16, ll4
    requires 0 <= i < ll16.Length && ll16.Length <= 2 * ll4.Length
  {
    ll16[i] + 65536 * (if i % 2 == 0 then ll4[i / 2] % 16 else ll4[i / 2] / 16)
  }

  ghost predicate Stores(ll16: array<int>, ll4: array<int>)
    reads ll16, ll4
  {
    && ll16 != ll4 && ll16.Length <= 2 * ll4.Length
    && (forall k :: 0 <= k < ll16.Length ==> 0 <= ll16[k] < 65536)
    && (forall k :: 0 <= k < ll4.Length ==> 0 <= ll4[k] < 256)
  }

  /** Replacing one half of a byte leaves the other. */
  lemma Nibbles(v: int, hi: int)
    requires 0 <= v < 256 && 0 <= hi < 16
    ensures 0 <= v / 16 * 16 + hi < 256 && (v / 16 * 16 + hi) % 16 == hi && (v / 16 * 16 + hi) / 16 == v / 16
    ensures 0 <= v % 16 + hi * 16 < 256 && (v % 16 + hi * 16) / 16 == hi && (v % 16 + hi * 16) % 16 == v % 16
  {
  }

  /** Storing a 20-bit value changes that entry and no other. */
  method SetLL(ll16: array<int>, ll4: array<int>, i: int, n: int)
    requires Stores(ll16, ll4) && 0 <= i < ll16.Length && 0 <= n < 1048576
    modifies ll16, ll4
    ensures Stores(ll16, ll4) && GetLL(ll16, ll4, i) == n
    ensures forall k :: 0 <= k < ll16.Length && k != i ==> GetLL(ll16, ll4, k) == old(GetLL(ll16, ll4, k))
    ensures forall k :: 0 <= k < ll16.Length && k != i ==> ll16[k] == old(ll16[k])
  {
    ll16[i] := n % 65536;
    var hi := n / 65536;
    Nibbles(ll4[i / 2], hi);
    if i % 2 == 0 {
      ll4[i / 2] := ll4[i / 2] / 16 * 16 + hi;
    } else {
      ll4[i / 2] := ll4[i / 2] % 16 + hi * 16;
    }
    forall k | 0 <= k < ll16.Length && k != i
      ensures GetLL(ll16, ll4, k) == old(GetLL(ll16, ll4, k))
    {
      if k / 2 == i / 2 { assert k % 2 != i % 2; }
    }
  }

  /** `cycle` lists the rows met from its first one by following `LF`, back to the start. */
  ghost predicate LFCycle(l: seq<byte>, cycle: seq<int>) {
    && 0 < |cycle|
    && (forall k :: 0 <= k < |cycle| ==> 0 <= cycle[k] < |l|)
    && (forall k :: 0 < k < |cycle| ==> cycle[k] == LF(l, cycle[k - 1]))
    && LF(l, cycle[|cycle| - 1]) == cycle[0]
  }

  ghost predicate Distinct(s: seq<int>) {
    forall i, j :: 0 <= i < j < |s| ==> s[i] != s[j]
  }

  /** The T vector, then reversal of the links on the cycle through `origPtr`.  On that cycle
      the entries become the inverse of `LF`; rows on other cycles keep their forward links. */
  method BuildSmall(ll16: array<int>, ll4: array<int>, cftabCopy: array<int>, nblock: int, origPtr: int,
    ghost l: seq<byte>)
    returns (ghost cycle: seq<int>)
    requires Stores(ll16, ll4) && cftabCopy.Length == 257 && cftabCopy != ll16 && cftabCopy != ll4
    requires nblock == |l| <= ll16.Length && nblock <= 900000
    requires forall k :: 0 <= k < nblock ==> ll16[k] == l[k]
    requires Counted(cftabCopy[..], l, 0)
    requires 0 <= origPtr < nblock
    modifies ll16, ll4, cftabCopy
    ensures Stores(ll16, ll4) && LFCycle(l, cycle) && Distinct(cycle) && cycle[0] == origPtr
    ensures forall k :: 0 <= k < nblock ==> GetLL(ll16, ll4, k) == if k in cycle then FL(l, k) else LF(l, k)
  {
    hide Counted, LF;
    for i := 0 to nblock
      invariant Stores(ll16, ll4)
      invariant Counted(cftabCopy[..], l, i)
      invariant forall k :: 0 <= k < i ==> GetLL(ll16, ll4, k) == LF(l, k)
      invariant forall k :: i <= k < nblock ==> ll16[k] == l[k]
    {
      var uc := ll16[i] % 256;
      var row := TakeRow(cftabCopy, uc, l, i);
      SetLL(ll16, ll4, i, row);
    }
    cycle := ReverseCycle(ll16, ll4, nblock, origPtr, l);
  }

  /** Pointer reversal in place.  The walk is on row `i`, about to visit `j`; rows already
      passed point backwards. */
  method ReverseCycle(ll16: array<int>, ll4: array<int>, nblock: int, origPtr: int, ghost l: seq<byte>)
    returns (ghost cycle: seq<int>)
    requires Stores(ll16, ll4) && nblock == |l| <= ll16.Length && nblock <= 900000
    requires forall k :: 0 <= k < nblock ==> GetLL(ll16, ll4, k) == LF(l, k)
    requires 0 <= origPtr < nblock
    modifies ll16, ll4
    ensures Stores(ll16, ll4) && LFCycle(l, cycle) && Distinct(cycle) && cycle[0] == origPtr
    ensures forall k :: 0 <= k < nblock ==> GetLL(ll16, ll4, k) == if k in cycle then FL(l, k) else LF(l, k)
  {
    hide LF, Distinct;
    var i := origPtr;
    var j := GetLL(ll16, ll4, i);
    ghost var path := [origPtr];
    PathStart(l, origPtr);
    while true
      invariant Stores(ll16, ll4)
      invariant 0 <= i < nblock && 0 <= j < nblock && j == LF(l, i)
      invariant Path(l, path) && Distinct(path) && path[0] == origPtr
      invariant i == path[|path| - 1]
      invariant forall k :: 0 <= k < nblock ==>
        GetLL(ll16, ll4, k) == if k in path && k != origPtr then FL(l, k) else LF(l, k)
      decreases nblock - |path|
    {
      var tmp := GetLL(ll16, ll4, j);
      SetLL(ll16, ll4, j, i);
      PathGrow(l, path);
      i := j;
      j := tmp;
      if i == origPtr { break; }
      path := path + [i];
    }
    cycle := path;
  }

  ghost predicate Path(l: seq<byte>, path: seq<int>) {
    && 0 < |path|
    && (forall k :: 0 <= k < |path| ==> 0 <= path[k] < |l|)
    && (forall k :: 0 < k < |path| ==> path[k] == LF(l, path[k - 1]))
  }

  lemma PathStart(l: seq<byte>, k: int)
    requires 0 <= k < |l|
    ensures Path(l, [k]) && Distinct([k]) && 0 <= LF(l, k) < |l|
  {
    FLUnique(l, k);
  }

  /** A path of distinct rows either runs back into its own start, or can be extended. */
  lemma {:induction false} PathGrow(l: seq<byte>, path: seq<int>)
    requires Path(l, path) && Distinct(path)
    ensures var next := LF(l, path[|path| - 1]);
            && 0 <= next < |l| && FL(l, next) == path[|path| - 1]
            && (forall k :: 0 < k < |path| ==> next != path[k])
            && |path| <= |l|
            && (next != path[0] ==>
              Path(l, path + [next]) && Distinct(path + [next]) && |path| < |l| && 0 <= LF(l, next) < |l|)
  {
    var last := path[|path| - 1];
    var next := LF(l, last);
    FLUnique(l, last);
    FLUnique(l, next);
    forall k | 0 < k < |path| ensures next != path[k] {
      FLUnique(l, path[k - 1]);
    }
    Permutations.Pigeonhole(path, |l|);
    if next != path[0] { Permutations.Pigeonhole(path + [next], |l|); }
  }
}

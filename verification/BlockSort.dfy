/**
 Choosing between the two block sorters, and what their outcomes have in common.
 */
module BlockSort {
  import opened Rotations
  import opened Permutations
  import opened BwtSpec
  import opened FallbackSort
  import opened MainOrder
  import opened Repetition

  import MainSort

  const MAIN_THRESH := 10000

  /** The work the main sort may do. */
  function BudgetFor(n: nat, workFactor: int): (budget: nat) {
    n * (((if workFactor < 1 then 1 else if workFactor > 100 then 100 else workFactor) - 1) / 3)
  }

  /** The listing as a function of the block and the work factor. */
  ghost function ListingOf(b: seq<byte>, workFactor: int): seq<int> {
    var m := MainSort.After(b, BudgetFor(|b|, workFactor), 256);
    if |b| < MAIN_THRESH || m.budget < 0 then Fallen(b, []) else m.ptr
  }

  /** The main sort on a copy of the block with room behind it. */
  method TryMain(ptr: array<int>, block: array<byte>, nblock: int, budgetInit: int) returns (budget: int)
    requires MAIN_THRESH <= nblock <= 900000 && nblock <= block.Length && ptr.Length == nblock && budgetInit >= 0
    modifies ptr
    ensures budget >= 0 ==> SortedRotations(block[..nblock], ptr[..])
    ensures budget == MainSort.After(block[..nblock], budgetInit, 256).budget
      && ptr[..] == MainSort.After(block[..nblock], budgetInit, 256).ptr
  {
    hide SortedRotations, MainSort.After, MainSort.Holds, MainSort.Meant, MainSort.Ordered;
    var work := new byte[nblock + OVERSHOOT](i requires 0 <= i reads block => if i < block.Length then block[i] else 0);
    var quadrant := new int[nblock + OVERSHOOT];
    var ftab := new int[65537];
    assert work[..nblock] == block[..nblock];
    budget := MainSort.Sort(ptr, work, quadrant, ftab, nblock, budgetInit);
  }

  method Fallback(ptr: array<int>, block: array<byte>, nblock: int)
    requires 0 < nblock <= 900000 && nblock <= block.Length && ptr.Length == nblock && Apart(block, ptr)
    modifies ptr, block
    ensures block[..nblock] == old(block[..nblock]) && SortedRotations(block[..nblock], ptr[..])
    ensures ptr[..] == Fallen(block[..nblock], []) && FirstTwinsStay(block[..nblock], ptr[..])
  {
    hide SortedRotations, Fallen, FirstTwinsStay;
    var eclass := new int[nblock];
    var bhtab := new bv32[65537];
    assert ptr[nblock..] == [];
    FallbackSort.Sort(ptr, eclass, block, bhtab, nblock);
    assert ptr[..nblock] == ptr[..];
  }

  /** BZ2_blockSort: short blocks go to the fallback sort, and so do long ones on which the main
      sort has used up its budget.  The listing, and with it `origPtr`, is a function of the block
      and the work factor. */
  method Sort(block: array<byte>, nblock: int, workFactor: int) returns (ptr: array<int>, origPtr: int)
    requires 0 < nblock <= 900000 && nblock <= block.Length
    modifies block
    ensures fresh(ptr) && ptr.Length == nblock && block[..nblock] == old(block[..nblock])
    ensures SortedRotations(block[..nblock], ptr[..])
    ensures 0 <= origPtr < nblock && ptr[origPtr] == 0
    ensures ptr[..] == ListingOf(block[..nblock], workFactor)
  {
    hide SortedRotations, MainSort.After, Fallen, FirstTwinsStay;
    ptr := new int[nblock];
    if nblock < MAIN_THRESH {
      Fallback(ptr, block, nblock);
    } else {
      var wfact := if workFactor < 1 then 1 else if workFactor > 100 then 100 else workFactor;
      var budget := TryMain(ptr, block, nblock, nblock * ((wfact - 1) / 3));
      if budget < 0 { Fallback(ptr, block, nblock); }
    }
    origPtr := FindStart(ptr, nblock, block[..nblock]);
  }

  method FindStart(ptr: array<int>, nblock: int, ghost b: seq<byte>) returns (origPtr: int)
    requires 0 < nblock == |b| && ptr.Length == nblock && SortedRotations(b, ptr[..])
    ensures 0 <= origPtr < nblock && ptr[origPtr] == 0
  {
    origPtr := -1;
    ghost var z := IndexOf(ptr[..], nblock, 0);
    for i := 0 to nblock
      invariant origPtr == -1 && i <= z
    {
      if ptr[i] == 0 { origPtr := i; break; }
    }
    assert origPtr != -1; // 1003
  }

  // ---------------------------------------------------------------- the outcome

  /** All sorted listings have the same last column. */
  lemma SameLastColumn(b: seq<byte>, s: seq<int>, t: seq<int>)
    requires SortedRotations(b, s) && SortedRotations(b, t)
    ensures LastColumn(b, s) == LastColumn(b, t)
  {
    forall k | 0 <= k < |b| ensures LastColumn(b, s)[k] == LastColumn(b, t)[k] {
      SortedListingsAgree(b, s, t, k);
      EqualBefore(b, s[k], t[k]);
    }
  }

  ghost function StartOf(b: seq<byte>, s: seq<int>): (o: int)
    requires |b| > 0 && SortedRotations(b, s)
    ensures 0 <= o < |b| && s[o] == 0
  {
    IndexOf(s, |b|, 0)
  }

  lemma {:induction false} ExchangeEqual(b: seq<byte>, s: seq<int>, p: int, q: int)
    requires SortedRotations(b, s) && 0 <= p < |b| && 0 <= q < |b| && Cmp(b, s[p], s[q], |b|) == 0
    ensures SortedRotations(b, s[p := s[q]][q := s[p]])
  {
    var n := |b|;
    var t := s[p := s[q]][q := s[p]];
    hide Cmp;
    CmpAnti(b, s[p], s[q], n);
    forall k | 0 <= k < n ensures 0 <= t[k] < n && Cmp(b, t[k], s[k], n) == 0 && Cmp(b, s[k], t[k], n) == 0 {
      CmpRefl(b, s[k], n);
    }
    forall i, j | 0 <= i < j < n ensures t[i] != t[j] && RotLe(b, t[i], t[j]) {
      assert RotLe(b, s[i], s[j]);
      CmpTrans(b, t[i], s[i], s[j], n);
      CmpTrans(b, t[i], s[j], t[j], n);
    }
  }

  /** The place of the block itself is the same in every sorted listing if and only if no other
      rotation equals it. */
  lemma SameStart(b: seq<byte>, s: seq<int>)
    requires |b| > 0 && SortedRotations(b, s)
    ensures (forall t :: SortedRotations(b, t) ==> StartOf(b, t) == StartOf(b, s)) <==> !Repeats(b)
  {
    var o := StartOf(b, s);
    if !Repeats(b) {
      forall t | SortedRotations(b, t) ensures StartOf(b, t) == o {
        SortedListingsAgree(b, s, t, o);
        assert t[o] == 0;
      }
    } else {
      var i :| 0 < i < |b| && Cmp(b, 0, i, |b|) == 0;
      var p := IndexOf(s, |b|, i);
      var t := s[o := s[p]][p := s[o]];
      ExchangeEqual(b, s, o, p);
      assert t[p] == 0 && t[o] == i;
      assert StartOf(b, t) != o;
    }
  }
}

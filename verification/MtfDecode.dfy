/**
 The decoder's move-to-front list: sixteen sublists of sixteen that slide down a
 4096-byte array, and are packed up again when the first of them reaches the bottom.
 */
module MtfDecode {
  import opened Rotations
  import opened Mtf
  import opened MtfEncode

  const MTFA_SIZE := 4096
  const MTFL_SIZE := 16

  /** Sublists are in order and do not overlap. */
  ghost predicate Spaced(base: seq<int>) {
    && |base| == 16 && 0 <= base[0] && base[15] + 16 <= MTFA_SIZE
    && forall i :: 0 <= i < 15 ==> base[i] + 16 <= base[i + 1]
  }

  lemma {:induction false} SpacedApart(base: seq<int>, i: nat, j: nat)
    requires Spaced(base) && i <= j < 16
    ensures base[i] + 16 * (j - i) <= base[j]
    decreases j - i
  {
    if i < j { SpacedApart(base, i, j - 1); }
  }

  lemma SpacedRange(base: seq<int>)
    requires Spaced(base)
    ensures forall i :: 0 <= i < 16 ==> 16 * i <= base[i] <= MTFA_SIZE - 16 * (16 - i)
  {
    forall i | 0 <= i < 16 ensures 16 * i <= base[i] <= MTFA_SIZE - 16 * (16 - i) {
      SpacedApart(base, 0, i);
      SpacedApart(base, i, 15);
    }
  }

  /** Element `t` of sublist `i`. */
  ghost function Cell(a: seq<byte>, base: seq<int>, i: int, t: int): nat
    requires |a| == MTFA_SIZE && Spaced(base) && 0 <= i < 16 && 0 <= t < 16
  {
    SpacedRange(base);
    a[base[i] + t]
  }

  /** The sublists make up the list `l`. */
  ghost predicate Holds(a: seq<byte>, base: seq<int>, l: seq<nat>) {
    && |a| == MTFA_SIZE && Spaced(base) && |l| == 256
    && forall i, t :: 0 <= i < 16 && 0 <= t < 16 ==> Cell(a, base, i, t) == l[16 * i + t]
  }

  class BlockedList {
    const mtfa: array<byte>
    const mtfbase: array<int>
    ghost var list: seq<nat>

    ghost predicate Valid()
      reads this, mtfa, mtfbase
    {
      Apart() && Holds(mtfa[..], mtfbase[..], list) && mtfbase[0] >= 1
    }

    ghost predicate Apart()
      reads this
    {
      && mtfa.Length == MTFA_SIZE && mtfbase.Length == 16
      && (mtfa as object) != (mtfbase as object)
    }

    /** The list 0..255, packed against the top of the array. */
    constructor ()
      ensures Valid() && fresh(mtfa) && fresh(mtfbase) && list == Iota(256)
    {
      mtfa := new byte[MTFA_SIZE];
      mtfbase := new int[16];
      list := Iota(256);
      new;
      var kk := MTFA_SIZE - 1;
      for ii := 16 downto 0
        invariant kk == MTFA_SIZE - 1 - 16 * (16 - ii)
        invariant forall i :: ii <= i < 16 ==> mtfbase[i] == MTFA_SIZE - 16 * (16 - i)
        invariant forall p :: kk < p < MTFA_SIZE ==> mtfa[p] == p - (MTFA_SIZE - 256)
        modifies mtfa, mtfbase
      {
        for jj := 16 downto 0
          invariant kk == MTFA_SIZE - 1 - 16 * (15 - ii) - (16 - jj)
          invariant forall p :: kk < p < MTFA_SIZE ==> mtfa[p] == p - (MTFA_SIZE - 256)
          invariant forall i :: ii < i < 16 ==> mtfbase[i] == MTFA_SIZE - 16 * (16 - i)
          modifies mtfa
        {
          mtfa[kk] := ii * MTFL_SIZE + jj;
          kk := kk - 1;
        }
        mtfbase[ii] := kk + 1;
      }
      assert Spaced(mtfbase[..]);
      forall i, t | 0 <= i < 16 && 0 <= t < 16 ensures Cell(mtfa[..], mtfbase[..], i, t) == list[16 * i + t] { }
    }

    /** The front of the list. */
    method Front() returns (c: byte)
      requires Valid()
      ensures c == list[0]
    {
      SpacedRange(mtfbase[..]);
      c := mtfa[mtfbase[0]];
      assert Cell(mtfa[..], mtfbase[..], 0, 0) == list[0];
    }

    /** Whatever the array looks like inside, the list changes exactly as the plain
        move-to-front list does. */
    method Move(nn: nat) returns (uc: byte)
      requires Valid() && nn < 256
      modifies this, mtfa, mtfbase
      ensures Valid() && uc == old(list)[nn] && list == MoveToFront(old(list), nn)
    {
      if nn < MTFL_SIZE { uc := MoveNear(nn); } else { uc := MoveFar(nn); }
    }

    /** Packs the sublists against the top of the array; nothing still to be read is
        overwritten. */
    method Repack()
      requires Apart() && Holds(mtfa[..], mtfbase[..], list)
      modifies mtfa, mtfbase
      ensures Valid()
    {
      ghost var a, base := mtfa[..], mtfbase[..];
      SpacedRange(base);
      var kk := MTFA_SIZE - 1;
      for ii := 16 downto 0
        invariant kk == MTFA_SIZE - 1 - 16 * (16 - ii)
        invariant forall i :: 0 <= i < ii ==> mtfbase[i] == base[i]
        invariant forall i :: ii <= i < 16 ==> mtfbase[i] == MTFA_SIZE - 16 * (16 - i)
        invariant forall p :: 0 <= p <= kk ==> mtfa[p] == a[p]
        invariant forall p :: kk < p < MTFA_SIZE ==> mtfa[p] == list[p - (MTFA_SIZE - 256)]
      {
        for jj := 16 downto 0
          invariant kk == MTFA_SIZE - 1 - 16 * (15 - ii) - (16 - jj)
          invariant forall p :: 0 <= p <= kk ==> mtfa[p] == a[p]
          invariant forall p :: kk < p < MTFA_SIZE ==> mtfa[p] == list[p - (MTFA_SIZE - 256)]
          invariant forall i :: 0 <= i <= ii ==> mtfbase[i] == base[i]
          invariant forall i :: ii < i < 16 ==> mtfbase[i] == MTFA_SIZE - 16 * (16 - i)
        {
          assert Cell(a, base, ii, jj) == list[16 * ii + jj];
          mtfa[kk] := mtfa[mtfbase[ii] + jj];
          kk := kk - 1;
        }
        mtfbase[ii] := kk + 1;
      }
      assert Spaced(mtfbase[..]);
      forall i, t | 0 <= i < 16 && 0 <= t < 16 ensures Cell(mtfa[..], mtfbase[..], i, t) == list[16 * i + t] { }
    }

    /** A number below 16 is moved to the front within the first sublist. */
    method MoveNear(nn: nat) returns (uc: byte)
      requires Valid() && nn < 16
      modifies this, mtfa
      ensures Valid() && uc == old(list)[nn] && list == MoveToFront(old(list), nn)
    {
      ghost var a, base := mtfa[..], mtfbase[..];
      SpacedRange(base);
      var pp := mtfbase[0];
      uc := mtfa[pp + nn];
      assert Cell(a, base, 0, nn) == list[nn];
      var k := nn;
      while k > 0
        invariant 0 <= k <= nn
        invariant forall p :: 0 <= p < MTFA_SIZE && !(pp + k < p <= pp + nn) ==> mtfa[p] == a[p]
        invariant forall p :: pp + k < p <= pp + nn ==> mtfa[p] == a[p - 1]
        modifies mtfa
      {
        mtfa[pp + k] := mtfa[pp + k - 1];
        k := k - 1;
      }
      mtfa[pp] := uc;
      list := MoveToFront(list, nn);
      MovedNear(a, mtfa[..], base, old(list), nn);
      assert mtfbase[..] == base;
    }

    /** The elements before place `off` of sublist `lno` move up by one. */
    method CloseUp(lno: nat, off: nat) returns (uc: byte)
      requires Apart() && Holds(mtfa[..], mtfbase[..], list) && lno < 16 && off < 16
      modifies mtfa
      ensures uc == list[16 * lno + off]
      ensures forall i, t :: 0 <= i < 16 && 0 <= t < 16 && i != lno ==>
        Cell(mtfa[..], mtfbase[..], i, t) == list[16 * i + t]
      ensures forall t :: 1 <= t < 16 ==>
        Cell(mtfa[..], mtfbase[..], lno, t) == list[if t <= off then 16 * lno + t - 1 else 16 * lno + t]
    {
      ghost var a, base := mtfa[..], mtfbase[..];
      SpacedRange(base);
      var pp := mtfbase[lno] + off;
      uc := mtfa[pp];
      assert Cell(a, base, lno, off) == list[16 * lno + off];
      while pp > mtfbase[lno]
        invariant base[lno] <= pp <= base[lno] + off
        invariant forall p :: 0 <= p < MTFA_SIZE && !(pp < p <= base[lno] + off) ==> mtfa[p] == a[p]
        invariant forall p :: pp < p <= base[lno] + off ==> mtfa[p] == a[p - 1]
      {
        mtfa[pp] := mtfa[pp - 1];
        pp := pp - 1;
      }
      assert mtfbase[..] == base;
      ClosedUp(a, mtfa[..], base, list, lno, off);
    }

    /** A number of 16 or more: the symbol's sublist is closed up, the last element of each
        earlier sublist becomes the first of the next, and the symbol goes below the first. */
    method MoveFar(nn: nat) returns (uc: byte)
      requires Valid() && 16 <= nn < 256
      modifies this, mtfa, mtfbase
      ensures Valid() && uc == old(list)[nn] && list == MoveToFront(old(list), nn)
    {
      hide Sliding, Holds, MoveToFront;
      var lno := nn / 16;
      var off := nn % 16;
      ghost var a, base, lno0 := mtfa[..], mtfbase[..], lno;
      uc := CloseUp(lno, off);
      assert mtfbase[..] == base;
      SlideStart(a, mtfa[..], base, list, lno, off);
      mtfbase[lno] := mtfbase[lno] + 1;
      assert mtfbase[..] == base[lno := base[lno] + 1];
      while lno > 0
        invariant 0 <= lno <= lno0
        invariant Sliding(mtfa[..], mtfbase[..], base, list, lno, lno0, off)
        modifies mtfa, mtfbase
      {
        ghost var a1, cur := mtfa[..], mtfbase[..];
        SlideStep(a1, cur, base, list, lno, lno0, off);
        mtfbase[lno] := mtfbase[lno] - 1;
        mtfa[mtfbase[lno]] := mtfa[mtfbase[lno - 1] + MTFL_SIZE - 1];
        assert mtfbase[..] == cur[lno := cur[lno] - 1];
        assert mtfa[..] == a1[cur[lno] - 1 := a1[cur[lno - 1] + 15]];
        lno := lno - 1;
      }
      ghost var a1, cur := mtfa[..], mtfbase[..];
      SlideEnd(a1, cur, base, list, lno0, off, uc);
      mtfbase[0] := mtfbase[0] - 1;
      mtfa[mtfbase[0]] := uc;
      assert mtfbase[..] == cur[0 := cur[0] - 1];
      assert mtfa[..] == a1[cur[0] - 1 := uc];
      list := MoveToFront(list, nn);
      if mtfbase[0] == 0 { Repack(); }
    }
  }

  ghost function SlidingBase(base: seq<int>, i: nat, lno: nat, lno0: nat): int
    requires i < |base|
  {
    if i == lno0 then (if lno == lno0 then base[i] + 1 else base[i])
    else if lno < i < lno0 then base[i] - 1
    else base[i]
  }

  /** The state of the slide when sublist `lno` is the next to receive the last element of the
      one before it. */
  ghost predicate Sliding(a: seq<byte>, cur: seq<int>, base: seq<int>, l: seq<nat>, lno: nat, lno0: nat, off: nat) {
    && |a| == MTFA_SIZE && |l| == 256 && Spaced(base) && base[0] >= 1 && |cur| == 16
    && lno <= lno0 < 16 && 0 < lno0 && off < 16
    && (forall i :: 0 <= i < 16 ==> cur[i] == SlidingBase(base, i, lno, lno0))
    && (forall i, t :: 0 <= i < 16 && i != lno0 && 0 <= t < 16 ==> Cell(a, base, i, t) == l[16 * i + t])
    && (forall t :: 1 <= t < 16 ==> Cell(a, base, lno0, t) == l[if t <= off then 16 * lno0 + t - 1 else 16 * lno0 + t])
    && forall i :: lno < i <= lno0 ==>
      0 < base[i] < MTFA_SIZE && a[if i < lno0 then base[i] - 1 else base[i]] == l[16 * i - 1]
  }

  lemma SlideStart(a: seq<byte>, a': seq<byte>, base: seq<int>, l: seq<nat>, lno: nat, off: nat)
    requires Holds(a, base, l) && 0 < lno < 16 && off < 16 && |a'| == |a| && base[0] >= 1
    requires forall i, t :: 0 <= i < 16 && 0 <= t < 16 && i != lno ==> Cell(a', base, i, t) == l[16 * i + t]
    requires forall t :: 1 <= t < 16 ==>
      Cell(a', base, lno, t) == l[if t <= off then 16 * lno + t - 1 else 16 * lno + t]
    ensures Sliding(a', base[lno := base[lno] + 1], base, l, lno, lno, off)
  {
  }

  lemma {:induction false} SlideStep(a: seq<byte>, cur: seq<int>, base: seq<int>, l: seq<nat>, lno: nat, lno0: nat,
    off: nat)
    requires Sliding(a, cur, base, l, lno, lno0, off) && lno > 0
    ensures |cur| == 16 && lno < 16 && 0 <= cur[lno] - 1 < |a| && 0 <= cur[lno - 1] + 15 < |a|
    ensures Sliding(a[cur[lno] - 1 := a[cur[lno - 1] + 15]], cur[lno := cur[lno] - 1], base, l, lno - 1, lno0, off)
  {
    SpacedRange(base);
    SpacedApart(base, 0, lno);
    var p := cur[lno] - 1;
    var v := a[cur[lno - 1] + 15];
    var a' := a[p := v];
    assert Cell(a, base, lno - 1, 15) == l[16 * (lno - 1) + 15] == v;
    forall i, t | 0 <= i < 16 && 0 <= t < 16
      ensures i != lno0 || t > 0 ==> Cell(a', base, i, t) == Cell(a, base, i, t) {
      if i < lno {
        StoreBelow(a, base, lno, p, v, i, t);
      } else {
        SpacedApart(base, lno, i);
      }
    }
    forall i | lno - 1 < i <= lno0
      ensures 0 < base[i] < MTFA_SIZE && a'[if i < lno0 then base[i] - 1 else base[i]] == l[16 * i - 1]
    {
      SpacedApart(base, 0, i);
      if i > lno { SpacedApart(base, lno, i); }
    }
  }

  lemma {:induction false} SlideEnd(a: seq<byte>, cur: seq<int>, base: seq<int>, l: seq<nat>, lno0: nat, off: nat,
    uc: byte)
    requires Sliding(a, cur, base, l, 0, lno0, off) && uc == l[16 * lno0 + off]
    ensures |cur| == 16 && 0 <= cur[0] - 1 < |a| == MTFA_SIZE && 16 * lno0 + off < |l|
    ensures Holds(a[cur[0] - 1 := uc], cur[0 := cur[0] - 1], MoveToFront(l, 16 * lno0 + off))
  {
    SpacedRange(base);
    var p := cur[0] - 1;
    var a' := a[p := uc];
    forall i, t | 0 <= i < 16 && 0 <= t < 16 ensures Cell(a', base, i, t) == Cell(a, base, i, t) {
      SpacedApart(base, 0, i);
    }
    forall i | 0 < i <= lno0 ensures base[i] - 1 > p { SpacedApart(base, 0, i); }
    SlidDown(a', base, cur[0 := p], l, lno0, off);
  }

  /** Storing into the gap below a sublist disturbs no sublist before it, unless the value
      stored is the one already there. */
  lemma {:induction false} StoreBelow(a: seq<byte>, base: seq<int>, lno: nat, p: int, v: byte, i: nat, t: nat)
    requires |a| == MTFA_SIZE && Spaced(base) && i < lno < 16 && t < 16
    requires 0 <= p < MTFA_SIZE && (p == base[lno] || p == base[lno] - 1)
    requires p == base[lno] - 1 ==> v == Cell(a, base, lno - 1, 15)
    ensures Cell(a[p := v], base, i, t) == Cell(a, base, i, t)
  {
    SpacedRange(base);
    SpacedApart(base, i, lno);
    if i < lno - 1 { SpacedApart(base, i, lno - 1); }
  }

  lemma MovedNear(a: seq<byte>, a': seq<byte>, base: seq<int>, l: seq<nat>, nn: nat)
    requires Holds(a, base, l) && nn < 16 && |a'| == |a|
    requires forall p :: 0 <= p < MTFA_SIZE && !(base[0] <= p <= base[0] + nn) ==> a'[p] == a[p]
    requires forall p :: base[0] < p <= base[0] + nn && p < MTFA_SIZE ==> a'[p] == a[p - 1]
    requires base[0] + nn < MTFA_SIZE && a'[base[0]] == a[base[0] + nn]
    ensures Holds(a', base, MoveToFront(l, nn))
  {
    SpacedRange(base);
    assert Cell(a, base, 0, nn) == l[nn];
    forall i, t | 0 <= i < 16 && 0 <= t < 16 ensures Cell(a', base, i, t) == MoveToFront(l, nn)[16 * i + t] {
      assert Cell(a, base, i, t) == l[16 * i + t];
      if i > 0 {
        SpacedApart(base, 0, i);
      } else if 0 < t <= nn {
        assert Cell(a, base, 0, t - 1) == l[t - 1];
      }
    }
  }

  /** The list once sublist `lno` has been closed up over its element `off` and every earlier
      sublist has moved down by one, with `uc` in front. */
  lemma {:induction false} SlidDown(a': seq<byte>, base: seq<int>, base': seq<int>, l: seq<nat>, lno: nat, off: nat)
    requires Spaced(base) && |l| == 256 && 0 < lno < 16 && off < 16 && base[0] >= 1 && |a'| == MTFA_SIZE
      && |base'| == 16
    requires forall i :: 0 <= i < 16 ==> base'[i] == if i < lno then base[i] - 1 else base[i]
    requires forall i :: 0 < i <= lno ==> 0 <= base'[i] < MTFA_SIZE && a'[base'[i]] == l[16 * i - 1]
    requires base[0] <= MTFA_SIZE && a'[base[0] - 1] == l[16 * lno + off]
    requires forall i, t :: 0 <= i < lno && 0 <= t < 15 ==> Cell(a', base, i, t) == l[16 * i + t]
    requires forall t :: 1 <= t < 16 ==>
      Cell(a', base, lno, t) == l[if t <= off then 16 * lno + t - 1 else 16 * lno + t]
    requires forall i, t :: lno < i < 16 && 0 <= t < 16 ==> Cell(a', base, i, t) == l[16 * i + t]
    ensures Holds(a', base', MoveToFront(l, 16 * lno + off))
  {
    assert Spaced(base');
    SpacedRange(base);
    SpacedRange(base');
    var r := MoveToFront(l, 16 * lno + off);
    forall i, t | 0 <= i < 16 && 0 <= t < 16 ensures Cell(a', base', i, t) == r[16 * i + t] {
      if i < lno {
        if t > 0 {
          assert Cell(a', base, i, t - 1) == l[16 * i + t - 1];
        }
      } else if i == lno {
        if t > 0 { assert Cell(a', base', i, t) == Cell(a', base, i, t); }
      } else {
        assert Cell(a', base', i, t) == Cell(a', base, i, t);
      }
    }
  }

  lemma ClosedUp(a: seq<byte>, a': seq<byte>, base: seq<int>, l: seq<nat>, lno: nat, off: nat)
    requires Holds(a, base, l) && lno < 16 && off < 16 && |a'| == |a|
    requires forall p :: 0 <= p < MTFA_SIZE && !(base[lno] < p <= base[lno] + off) ==> a'[p] == a[p]
    requires forall p :: base[lno] < p <= base[lno] + off && 0 < p < MTFA_SIZE ==> a'[p] == a[p - 1]
    ensures forall i, t :: 0 <= i < 16 && 0 <= t < 16 && i != lno ==> Cell(a', base, i, t) == l[16 * i + t]
    ensures forall t :: 1 <= t < 16 ==> Cell(a', base, lno, t) == l[if t <= off then 16 * lno + t - 1 else 16 * lno + t]
  {
    SpacedRange(base);
    forall i, t | 0 <= i < 16 && 0 <= t < 16 && i != lno ensures Cell(a', base, i, t) == l[16 * i + t] {
      assert Cell(a, base, i, t) == l[16 * i + t];
      if i < lno { SpacedApart(base, i, lno); } else { SpacedApart(base, lno, i); }
    }
    forall t | 1 <= t < 16 ensures Cell(a', base, lno, t) == l[if t <= off then 16 * lno + t - 1 else 16 * lno + t] {
      assert Cell(a, base, lno, t) == l[16 * lno + t] && Cell(a, base, lno, t - 1) == l[16 * lno + t - 1];
    }
  }
}

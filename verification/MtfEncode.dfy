/**
 The encoder's side: block symbols in sorted order become move-to-front values, which
 are stored over the very array of pointers that is still being read.
 */
module MtfEncode {
  import opened Rotations
  import opened Counting
  import opened BwtSpec
  import opened Mtf
  import opened RunLength

  /** The symbols below `i` that are in use, in ascending order. */
  function Used(inUse: seq<bool>, i: nat): (u: seq<byte>)
    requires i <= |inUse| == 256
    ensures |u| <= i
    ensures forall k :: 0 <= k < |u| ==> u[k] < i && inUse[u[k]]
  {
    if i == 0 then []
    else if inUse[i - 1] then Used(inUse, i - 1) + [i - 1] else Used(inUse, i - 1)
  }

  lemma {:induction false} UsedPrefix(inUse: seq<bool>, i: nat, j: nat)
    requires i <= j <= |inUse| == 256
    ensures Used(inUse, i) <= Used(inUse, j)
    decreases j
  {
    if i < j { UsedPrefix(inUse, i, j - 1); }
  }

  /** The number given to a symbol in use leads back to it. */
  lemma {:induction false} UsedNumber(inUse: seq<bool>, c: byte)
    requires |inUse| == 256 && inUse[c]
    ensures |Used(inUse, c)| < |Used(inUse, 256)| && Used(inUse, 256)[|Used(inUse, c)|] == c
  {
    UsedPrefix(inUse, c + 1, 256);
  }

  method MakeMapsE(inUse: array<bool>, unseqToSeq: array<byte>) returns (nInUse: nat)
    requires inUse.Length == 256 && unseqToSeq.Length == 256
    modifies unseqToSeq
    ensures nInUse == |Used(inUse[..], 256)| <= 256
    ensures forall c :: 0 <= c < 256 && inUse[c] ==> unseqToSeq[c] == |Used(inUse[..], c)| < nInUse
  {
    ghost var u := inUse[..];
    nInUse := 0;
    for i := 0 to 256
      invariant nInUse == |Used(u, i)| <= i
      invariant inUse[..] == u
      invariant forall c :: 0 <= c < i && u[c] ==> unseqToSeq[c] == |Used(u, c)|
    {
      if inUse[i] {
        unseqToSeq[i] := nInUse;
        nInUse := nInUse + 1;
      }
    }
    forall c | 0 <= c < 256 && u[c] ensures |Used(u, c)| < nInUse { UsedNumber(u, c); }
  }

  /** The symbols of the last column by number. */
  function Numbered(l: seq<byte>, inUse: seq<bool>): (r: seq<nat>)
    requires |inUse| == 256
    ensures |r| == |l|
    ensures forall i :: 0 <= i < |l| ==> r[i] == |Used(inUse, l[i])|
  {
    seq(|l|, i requires 0 <= i < |l| => |Used(inUse, l[i])|)
  }

  /** The list 0, 1, ..., n-1. */
  function Iota(n: nat): (s: seq<nat>)
    ensures |s| == n && forall i :: 0 <= i < n ==> s[i] == i
  {
    seq(n, i => i)
  }

  lemma {:induction false} FlushShort(z: nat)
    ensures |Flush(z)| <= z
  {
    if z > 0 { RunDigitsShort(z - 1); }
  }

  lemma {:induction false} RunDigitsShort(m: nat)
    ensures |RunDigits(m)| <= m + 1
  {
    if m >= 2 { RunDigitsShort((m - 2) / 2); }
  }

  class MtfWriter {
    const ptr: array<int>
    const mtfv: array<int>
    const mtfFreq: array<int>
    const limit: nat
    var wr: nat

    constructor (ptr: array<int>, mtfv: array<int>, mtfFreq: array<int>, limit: nat)
      requires ptr != mtfv && ptr != mtfFreq && mtfv != mtfFreq
      requires limit < mtfFreq.Length && ptr.Length > 0 && mtfv.Length == 2 * ptr.Length
      requires forall c :: 0 <= c <= limit ==> mtfFreq[c] == 0
      ensures Valid() && Values() == []
      ensures this.ptr == ptr && this.mtfv == mtfv && this.mtfFreq == mtfFreq && this.limit == limit
    {
      this.ptr, this.mtfv, this.mtfFreq, this.limit := ptr, mtfv, mtfFreq, limit;
      wr := 0;
    }

    ghost predicate Shape()
      reads this, ptr, mtfv, mtfFreq
    {
      && ptr != mtfv && ptr != mtfFreq && mtfv != mtfFreq
      && limit < mtfFreq.Length && mtfv.Length == 2 * ptr.Length && wr <= mtfv.Length
      && forall i :: 0 <= i < wr ==> 0 <= mtfv[i] <= limit
    }

    ghost function Values(): (v: seq<nat>)
      requires Shape()
      reads this, ptr, mtfv, mtfFreq
    {
      mtfv[..wr]
    }

    /** The frequencies are those of the values written. */
    ghost predicate Valid()
      reads this, ptr, mtfv, mtfFreq
    {
      Shape() && forall c :: 0 <= c <= limit ==> mtfFreq[c] == Count(Values(), c)
    }

    /** Storing a value destroys the pointer whose storage it shares. */
    method Put(v: nat)
      requires Valid() && v <= limit && wr < mtfv.Length
      modifies this, ptr, mtfv, mtfFreq
      ensures Valid() && wr == old(wr) + 1 && Values() == old(Values()) + [v]
      ensures forall k :: 0 <= k < ptr.Length && k != old(wr) / 2 ==> ptr[k] == old(ptr[k])
    {
      ghost var before := Values();
      mtfv[wr] := v;
      ptr[wr / 2] := *;
      mtfFreq[v] := mtfFreq[v] + 1;
      wr := wr + 1;
      assert mtfv[..wr] == before + [v];
      assert Values()[..|before|] == before;
    }

    /** Sends the digits of a pending run. */
    method PutRun(z: nat)
      requires Valid() && 1 <= limit && z > 0 && wr + z <= mtfv.Length
      modifies this, ptr, mtfv, mtfFreq
      ensures Valid() && Values() == old(Values()) + Flush(z) && wr <= old(wr) + z
      ensures forall k :: 0 <= k < ptr.Length && (old(wr) + z - 1) / 2 < k ==> ptr[k] == old(ptr[k])
    {
      hide Count, RunDigits;
      var zPend: nat := z - 1;
      ghost var v0 := Values();
      while true
        invariant Valid() && old(wr) <= wr
        invariant Values() + RunDigits(zPend) == v0 + RunDigits(z - 1)
        invariant wr + zPend + 1 <= old(wr) + z
        invariant forall k :: 0 <= k < ptr.Length && (old(wr) + z - 1) / 2 < k ==> ptr[k] == old(ptr[k])
        decreases zPend
      {
        ghost var before := Values();
        RunDigitsStep(zPend, before);
        if zPend % 2 == 1 { Put(RUNB); } else { Put(RUNA); }
        if zPend < 2 { break; }
        zPend := (zPend - 2) / 2;
      }
    }
  }

  lemma RunDigitsStep(m: nat, before: seq<nat>)
    ensures m < 2 ==> before + RunDigits(m) == before + [m % 2]
    ensures m >= 2 ==> before + RunDigits(m) == (before + [m % 2]) + RunDigits((m - 2) / 2)
  {
  }

  /** Finds a symbol that is not at the front of the list, and moves it there. */
  method FindAndMove(yy: array<byte>, ll: byte, ghost n: nat) returns (j: int)
    requires 1 <= n <= yy.Length && ll in yy[..n] && yy[0] != ll
    modifies yy
    ensures 0 < j < n && j == IndexIn(old(yy[..n]), ll)
    ensures yy[..n] == MoveToFront(old(yy[..n]), j)
  {
    ghost var y0: seq<nat> := yy[..n];
    ghost var k := IndexIn(y0, ll);
    assert forall i :: 0 <= i < k ==> y0[i] == y0[..k][i];
    var rtmp := yy[1];
    yy[1] := yy[0];
    j := 1;
    while ll != rtmp
      invariant 1 <= j <= k && rtmp == y0[j]
      invariant forall i :: 1 <= i <= j ==> yy[i] == y0[i - 1]
      invariant forall i :: j < i < n ==> yy[i] == y0[i]
      decreases k - j
    {
      j := j + 1;
      var rtmp2 := rtmp;
      rtmp := yy[j];
      yy[j] := rtmp2;
    }
    yy[0] := rtmp;
    forall i | 0 <= i < n ensures yy[i] == MoveToFront(y0, k)[i] { }
    assert yy[..n] == MoveToFront(y0, k);
  }

  lemma {:induction false} EncodeFront(l: seq<nat>, yy: seq<nat>, z: nat, eob: nat)
    requires |yy| > 0 && |l| > 0 && (forall i :: 0 <= i < |l| ==> l[i] in yy) && yy[0] == l[0]
    ensures Encode(l, yy, z, eob) == Encode(l[1..], yy, z + 1, eob)
  {
  }

  lemma {:induction false} EncodeMove(l: seq<nat>, yy: seq<nat>, z: nat, eob: nat)
    requires |yy| > 0 && |l| > 0 && (forall i :: 0 <= i < |l| ==> l[i] in yy) && yy[0] != l[0]
    ensures forall i :: 0 <= i < |l| ==> l[i] in MoveToFront(yy, IndexIn(yy, l[0]))
    ensures var k := IndexIn(yy, l[0]);
            Encode(l, yy, z, eob) == Flush(z) + [k + 1] + Encode(l[1..], MoveToFront(yy, k), 0, eob)
  {
    MoveToFrontSame(yy, IndexIn(yy, l[0]));
  }

  lemma Regroup(a: seq<nat>, b: seq<nat>, c: seq<nat>, d: seq<nat>)
    ensures a + b + c + d == a + (b + c + d)
  {
  }

  /** One symbol: either one more copy of the front is pending, or the pending run is sent
      and then the symbol's place in the list. */
  method PutSymbol(out: MtfWriter, yy: array<byte>, n: nat, ll: byte, z: nat, i: nat, ghost rest: seq<nat>)
    returns (zPend: nat)
    requires out.Valid() && 1 <= n <= yy.Length && n + 1 == out.limit
    requires (yy as object) !in {out.ptr, out.mtfv, out.mtfFreq}
    requires |rest| > 0 && rest[0] == ll && forall k :: 0 <= k < |rest| ==> rest[k] in yy[..n]
    requires out.wr + z <= i < out.ptr.Length
    modifies out, out.ptr, out.mtfv, out.mtfFreq, yy
    ensures out.Valid() && out.wr + zPend <= i + 1
    ensures forall k :: i < k < out.ptr.Length ==> out.ptr[k] == old(out.ptr[k])
    ensures forall k :: 0 <= k < |rest| ==> rest[k] in yy[..n]
    ensures out.Values() + Encode(rest[1..], yy[..n], zPend, n + 1) ==
      old(out.Values()) + old(Encode(rest, yy[..n], z, n + 1))
  {
    hide Encode, Count, RunDigits, MoveToFront;
    ghost var y0: seq<nat> := yy[..n];
    ghost var v0 := out.Values();
    if yy[0] == ll {
      EncodeFront(rest, y0, z, n + 1);
      zPend := z + 1;
    } else {
      EncodeMove(rest, y0, z, n + 1);
      if z > 0 { out.PutRun(z); } else { assert Flush(z) == [] && v0 + Flush(z) == v0; }
      assert out.Values() == v0 + Flush(z);
      assert yy[..n] == y0;
      var j := FindAndMove(yy, ll, n);
      out.Put(j + 1);
      zPend := 0;
      Regroup(v0, Flush(z), [j + 1], Encode(rest[1..], MoveToFront(y0, j), 0, n + 1));
    }
  }

  /** generateMTFValues: the values are those of the plain transformation of the last column.
      A value never lands on a pointer that is still to be read. */
  method GenerateMtfValues(ptr: array<int>, mtfv: array<int>, mtfFreq: array<int>, block: seq<byte>,
                           inUse: array<bool>, unseqToSeq: array<byte>, nblock: int)
    returns (nMTF: nat, nInUse: nat)
    requires 0 < nblock == |block| <= ptr.Length && mtfv.Length == 2 * ptr.Length && mtfFreq.Length == 258
    requires ptr != mtfv && ptr != mtfFreq && mtfv != mtfFreq
    requires inUse.Length == 256 && unseqToSeq.Length == 256
    requires forall i :: 0 <= i < nblock ==> 0 <= ptr[i] < nblock
    requires forall c :: 0 <= c < 256 ==> inUse[c] == (c in block)
    modifies ptr, mtfv, mtfFreq, unseqToSeq
    ensures nInUse == |Used(inUse[..], 256)| && 1 <= nInUse <= 256
    ensures nMTF <= nblock + 1 && (forall i :: 0 <= i < nMTF ==> 0 <= mtfv[i] <= nInUse + 1)
    ensures var l := Numbered(LastColumn(block, old(ptr[..nblock])), inUse[..]);
            && (forall i :: 0 <= i < |l| ==> l[i] in Iota(nInUse))
            && mtfv[..nMTF] == Encode(l, Iota(nInUse), 0, nInUse + 1)
    ensures forall c :: 0 <= c <= nInUse + 1 ==> mtfFreq[c] == Count(mtfv[..nMTF], c)
  {
    hide Encode, Count, Used, LastColumn;
    ghost var p0, used := ptr[..nblock], inUse[..];
    nInUse := MakeMapsE(inUse, unseqToSeq);
    var eob := nInUse + 1;
    ghost var l := Numbered(LastColumn(block, p0), used);
    SymbolsListed(block, p0, used);
    for i := 0 to eob + 1
      invariant forall c :: 0 <= c < i ==> mtfFreq[c] == 0
      modifies mtfFreq
    {
      mtfFreq[i] := 0;
    }
    var out := new MtfWriter(ptr, mtfv, mtfFreq, eob);
    var yy := FrontList(nInUse);
    ghost var whole := Encode(l, Iota(nInUse), 0, eob);
    assert l[0..] == l && [] + whole == whole;
    var zPend: nat := 0;
    for i := 0 to nblock
      invariant out.Valid() && out.wr + zPend <= i
      invariant forall k :: i <= k < nblock ==> ptr[k] == p0[k]
      invariant forall k :: 0 <= k < |l| - i ==> l[i..][k] in yy[..nInUse]
      invariant out.Values() + Encode(l[i..], yy[..nInUse], zPend, eob) == whole
      modifies out, ptr, mtfv, mtfFreq, yy
    {
      var j := ptr[i] - 1;
      if j < 0 { j := j + nblock; }
      var ll_i := unseqToSeq[block[j]];
      NumberedAt(block, p0, used, i, j);
      assert l[i..][0] == l[i] && l[i..][1..] == l[i + 1..];
      zPend := PutSymbol(out, yy, nInUse, ll_i, zPend, i, l[i..]);
    }
    assert l[nblock..] == [];
    nMTF := PutEnd(out, zPend, eob, yy[..nInUse]);
    assert mtfv[..nMTF] == out.Values() == whole;
  }

  method FrontList(n: nat) returns (yy: array<byte>)
    requires n <= 256
    ensures fresh(yy) && yy.Length == 256 && yy[..n] == Iota(n)
  {
    yy := new byte[256];
    for i := 0 to n
      invariant forall k :: 0 <= k < i ==> yy[k] == k
    {
      yy[i] := i;
    }
  }

  method PutEnd(out: MtfWriter, z: nat, eob: nat, ghost yy: seq<nat>) returns (nMTF: nat)
    requires out.Valid() && out.limit == eob >= 1 && out.wr + z < out.mtfv.Length && |yy| > 0
    modifies out, out.ptr, out.mtfv, out.mtfFreq
    ensures out.Valid() && nMTF == out.wr <= old(out.wr) + z + 1
    ensures out.Values() == old(out.Values()) + Encode([], yy, z, eob)
  {
    hide Count;
    ghost var v0 := out.Values();
    if z > 0 { out.PutRun(z); } else { assert Flush(z) == [] && v0 + Flush(z) == v0; }
    out.Put(eob);
    nMTF := out.wr;
    assert v0 + Flush(z) + [eob] == v0 + (Flush(z) + [eob]);
  }

  lemma NumberedAt(block: seq<byte>, p: seq<int>, used: seq<bool>, i: int, j: int)
    requires |used| == 256 && (forall i :: 0 <= i < |p| ==> 0 <= p[i] < |block|) && 0 <= i < |p|
    requires j == if p[i] == 0 then |block| - 1 else p[i] - 1
    ensures Numbered(LastColumn(block, p), used)[i] == |Used(used, block[j])|
  {
  }

  lemma SymbolsListed(block: seq<byte>, p: seq<int>, used: seq<bool>)
    requires |used| == 256 && |block| > 0 && |p| > 0 && forall i :: 0 <= i < |p| ==> 0 <= p[i] < |block|
    requires forall c :: 0 <= c < 256 ==> used[c] == (c in block)
    ensures var n := |Used(used, 256)|;
            n >= 1 && forall i :: 0 <= i < |p| ==> Numbered(LastColumn(block, p), used)[i] in Iota(n)
  {
    var n := |Used(used, 256)|;
    var l := LastColumn(block, p);
    forall i | 0 <= i < |p| ensures Numbered(l, used)[i] in Iota(n) {
      UsedNumber(used, l[i]);
      assert Iota(n)[|Used(used, l[i])|] == |Used(used, l[i])|;
    }
    UsedNumber(used, l[0]);
  }
}

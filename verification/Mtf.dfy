/**
 Move-to-front with run digits: the plain specification, and its inverse.
 */
module Mtf {
  import opened Bits
  import opened RunLength

  const RUNA: nat := 0
  const RUNB: nat := 1

  function IndexIn(yy: seq<nat>, x: nat): (k: nat)
    requires x in yy
    ensures k < |yy| && yy[k] == x && forall i :: 0 <= i < k ==> yy[i] != x
  {
    if yy[0] == x then 0 else 1 + IndexIn(yy[1..], x)
  }

  function MoveToFront(yy: seq<nat>, k: nat): (r: seq<nat>)
    requires k < |yy|
    ensures |r| == |yy|
  {
    [yy[k]] + yy[..k] + yy[k + 1..]
  }

  lemma MoveToFrontSame(yy: seq<nat>, k: nat)
    requires k < |yy|
    ensures multiset(MoveToFront(yy, k)) == multiset(yy)
    ensures forall x :: x in MoveToFront(yy, k) <==> x in yy
  {
    assert yy == yy[..k] + [yy[k]] + yy[k + 1..];
    forall x ensures x in MoveToFront(yy, k) <==> x in yy {
      assert x in yy <==> x in multiset(yy);
      assert x in MoveToFront(yy, k) <==> x in multiset(MoveToFront(yy, k));
    }
  }

  lemma MoveToFrontPrefix(yy: seq<nat>, t: seq<nat>, k: nat)
    requires k < |yy|
    ensures MoveToFront(yy + t, k) == MoveToFront(yy, k) + t
  {
  }

  function Copies(x: nat, z: nat): (r: seq<nat>)
    ensures |r| == z && forall i :: 0 <= i < z ==> r[i] == x
  {
    seq(z, _ => x)
  }

  // ---------------------------------------------------------------- runs of the front symbol

  /** The digits of a run of `m + 1`, in bijective base 2, least significant first. */
  function RunDigits(m: nat): (d: seq<nat>)
    ensures |d| > 0 && forall i :: 0 <= i < |d| ==> d[i] <= RUNB
  {
    [m % 2] + if m < 2 then [] else RunDigits((m - 2) / 2)
  }

  /** The digits sent for `z` pending copies. */
  function Flush(z: nat): (d: seq<nat>)
    ensures forall i :: 0 <= i < |d| ==> d[i] <= RUNB
  {
    if z == 0 then [] else RunDigits(z - 1)
  }

  /** What the decoder adds up: digit `d` of weight `n` counts `(d + 1) * n`. */
  function DigitSum(d: seq<nat>, n: nat): nat {
    if d == [] then 0 else (d[0] + 1) * n + DigitSum(d[1..], 2 * n)
  }

  lemma {:induction false} DigitSumScale(d: seq<nat>, n: nat)
    ensures DigitSum(d, 2 * n) == 2 * DigitSum(d, n)
    decreases |d|
  {
    if d != [] {
      DigitSumScale(d[1..], 2 * n);
      assert (d[0] + 1) * (2 * n) == 2 * ((d[0] + 1) * n);
    }
  }

  /** The digits of a run add up to its length. */
  lemma {:induction false} RunDigitsSum(m: nat)
    ensures DigitSum(RunDigits(m), 1) == m + 1
  {
    var d := RunDigits(m);
    if m < 2 {
      assert d[1..] == [];
      assert DigitSum([], 2) == 0;
    } else {
      RunDigitsSum((m - 2) / 2);
      assert d[1..] == RunDigits((m - 2) / 2);
      DigitSumScale(d[1..], 1);
    }
  }

  /** A run needs few digits, which is why the decoder's bound on the weight is never met. */
  lemma {:induction false} DigitSumLarge(d: seq<nat>, n: nat)
    ensures DigitSum(d, n) >= (Pow2(|d|) - 1) * n
    decreases |d|
  {
    if d != [] {
      DigitSumLarge(d[1..], 2 * n);
      var p := Pow2(|d| - 1);
      assert (p - 1) * (2 * n) == (2 * p - 2) * n == (Pow2(|d|) - 2) * n;
      assert (Pow2(|d|) - 2) * n + n == (Pow2(|d|) - 1) * n;
      assert (d[0] + 1) * n >= n;
    }
  }

  // ---------------------------------------------------------------- the two transformations

  /** The values sent for symbols `l` with list `yy` and `z` copies of its front pending. */
  function Encode(l: seq<nat>, yy: seq<nat>, z: nat, eob: nat): (v: seq<nat>)
    requires |yy| > 0 && forall i :: 0 <= i < |l| ==> l[i] in yy
    decreases |l|
  {
    if l == [] then Flush(z) + [eob]
    else if yy[0] == l[0] then Encode(l[1..], yy, z + 1, eob)
    else
      var k := IndexIn(yy, l[0]);
      MoveToFrontSame(yy, k);
      Flush(z) + [k + 1] + Encode(l[1..], MoveToFront(yy, k), 0, eob)
  }

  /** How many run digits `v` starts with. */
  function DigitsAhead(v: seq<nat>): (k: nat)
    ensures k <= |v| && (forall i :: 0 <= i < k ==> v[i] <= RUNB) && (k < |v| ==> v[k] > RUNB)
  {
    if v == [] || v[0] > RUNB then 0 else 1 + DigitsAhead(v[1..])
  }

  /** The symbols that a list of values stands for, up to the end marker; nothing if it has
      none or a value is out of range. */
  function Decode(v: seq<nat>, yy: seq<nat>, eob: nat): (r: Option<seq<nat>>)
    requires |yy| > 0 && eob > RUNB
    decreases |v|
  {
    if v == [] then None
    else if v[0] == eob then Some([])
    else if v[0] <= RUNB then
      var k := DigitsAhead(v);
      assert k > 0;
      match Decode(v[k..], yy, eob)
      case None => None
      case Some(rest) => Some(Copies(yy[0], DigitSum(v[..k], 1)) + rest)
    else if v[0] - 1 >= |yy| then None
    else
      match Decode(v[1..], MoveToFront(yy, v[0] - 1), eob)
      case None => None
      case Some(rest) => Some([yy[v[0] - 1]] + rest)
  }

  lemma {:induction false} DigitsAheadOf(d: seq<nat>, v: seq<nat>)
    requires forall i :: 0 <= i < |d| ==> d[i] <= RUNB
    requires |v| > 0 && v[0] > RUNB
    ensures DigitsAhead(d + v) == |d|
  {
    if d == [] {
      assert d + v == v;
    } else {
      assert (d + v)[1..] == d[1..] + v;
      DigitsAheadOf(d[1..], v);
    }
  }

  /** Decoding what was flushed for `z` copies, followed by a value that is not a digit. */
  lemma {:induction false} DecodeFlush(z: nat, v: seq<nat>, yy: seq<nat>, eob: nat)
    requires |yy| > 0 && eob > RUNB && |v| > 0 && v[0] > RUNB && Decode(v, yy, eob).Some?
    ensures Decode(Flush(z) + v, yy, eob) == Some(Copies(yy[0], z) + Decode(v, yy, eob).value)
  {
    var d := Flush(z);
    var w := d + v;
    if z == 0 {
      assert w == v;
      assert Copies(yy[0], 0) + Decode(v, yy, eob).value == Decode(v, yy, eob).value;
    } else {
      DigitsAheadOf(d, v);
      assert w[..|d|] == d && w[|d|..] == v;
      RunDigitsSum(z - 1);
      assert w[0] <= RUNB;
    }
  }

  /** The decoder undoes the encoder, on every list of symbols. */
  lemma {:induction false} DecodeEncode(l: seq<nat>, yy: seq<nat>, z: nat, eob: nat)
    requires |yy| > 0 && eob > |yy| && forall i :: 0 <= i < |l| ==> l[i] in yy
    ensures Decode(Encode(l, yy, z, eob), yy, eob) == Some(Copies(yy[0], z) + l)
    decreases |l|
  {
    hide Decode, Flush, MoveToFront, IndexIn;
    if l == [] {
      DecodeEnd(yy, eob);
      DecodeFlush(z, [eob], yy, eob);
    } else if yy[0] == l[0] {
      DecodeEncode(l[1..], yy, z + 1, eob);
      assert Copies(yy[0], z + 1) + l[1..] == Copies(yy[0], z) + l;
    } else {
      var k := IndexIn(yy, l[0]);
      MoveToFrontSame(yy, k);
      DecodeEncode(l[1..], MoveToFront(yy, k), 0, eob);
      var rest := Encode(l[1..], MoveToFront(yy, k), 0, eob);
      assert Copies(MoveToFront(yy, k)[0], 0) + l[1..] == l[1..];
      DecodeMove(k, rest, yy, eob);
      DecodeFlush(z, [k + 1] + rest, yy, eob);
      assert Flush(z) + [k + 1] + rest == Flush(z) + ([k + 1] + rest);
      assert [yy[k]] + l[1..] == l;
    }
  }

  lemma DecodeEnd(yy: seq<nat>, eob: nat)
    requires |yy| > 0 && eob > RUNB
    ensures Decode([eob], yy, eob) == Some([])
  {
  }

  lemma DecodeMove(k: nat, rest: seq<nat>, yy: seq<nat>, eob: nat)
    requires 0 < k < |yy| < eob && Decode(rest, MoveToFront(yy, k), eob).Some?
    ensures Decode([k + 1] + rest, yy, eob) == Some([yy[k]] + Decode(rest, MoveToFront(yy, k), eob).value)
  {
    assert ([k + 1] + rest)[1..] == rest;
  }

  /** Symbols beyond the ones in use, which only the decoder's list has, do not matter. */
  lemma {:induction false} DecodeLongerList(v: seq<nat>, yy: seq<nat>, t: seq<nat>, eob: nat)
    requires |yy| > 0 && eob > RUNB && Decode(v, yy, eob).Some?
    ensures Decode(v, yy + t, eob) == Decode(v, yy, eob)
    decreases |v|
  {
    if v[0] == eob {
    } else if v[0] <= RUNB {
      DecodeLongerList(v[DigitsAhead(v)..], yy, t, eob);
    } else {
      MoveToFrontPrefix(yy, t, v[0] - 1);
      DecodeLongerList(v[1..], MoveToFront(yy, v[0] - 1), t, eob);
    }
  }
}

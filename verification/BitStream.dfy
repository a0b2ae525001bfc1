/**
 Bit strings, most significant bit first, and the 32-bit buffers through which they
 are written and read.
 */
module BitStream {
  import opened Rotations
  import opened Bits

  function ToBits(v: nat, n: nat): (b: seq<bool>)
    ensures |b| == n
  {
    if n == 0 then [] else ToBits(v / 2, n - 1) + [v % 2 == 1]
  }

  function FromBits(b: seq<bool>): nat {
    if |b| == 0 then 0 else 2 * FromBits(b[..|b| - 1]) + if b[|b| - 1] then 1 else 0
  }

  lemma {:induction false} FromToBits(v: nat, n: nat)
    requires v < Pow2(n)
    ensures FromBits(ToBits(v, n)) == v
  {
    if n > 0 {
      FromToBits(v / 2, n - 1);
      assert ToBits(v, n)[..n - 1] == ToBits(v / 2, n - 1);
    }
  }

  lemma {:induction false} FromBitsBound(b: seq<bool>)
    ensures FromBits(b) < Pow2(|b|)
  {
    if |b| > 0 { FromBitsBound(b[..|b| - 1]); }
  }

  lemma {:induction false} ToFromBits(b: seq<bool>)
    ensures ToBits(FromBits(b), |b|) == b
  {
    if |b| > 0 { ToFromBits(b[..|b| - 1]); }
  }

  /** A field of `a + b` bits is its high part followed by its low part. */
  lemma {:induction false} ToBitsSplit(hi: nat, lo: nat, a: nat, b: nat)
    requires lo < Pow2(b)
    ensures ToBits(hi * Pow2(b) + lo, a + b) == ToBits(hi, a) + ToBits(lo, b)
    decreases b
  {
    if b == 0 {
      assert hi * Pow2(0) == hi;
    } else {
      var v := hi * Pow2(b) + lo;
      var p := Pow2(b - 1);
      assert hi * (2 * p) == 2 * (hi * p);
      assert v / 2 == hi * p + lo / 2 && v % 2 == lo % 2;
      ToBitsSplit(hi, lo / 2, a, b - 1);
    }
  }

  function BytesToBits(s: seq<byte>): (b: seq<bool>)
    ensures |b| == 8 * |s|
  {
    if s == [] then [] else ToBits(s[0], 8) + BytesToBits(s[1..])
  }

  lemma {:induction false} BytesToBitsAppend(s: seq<byte>, t: seq<byte>)
    ensures BytesToBits(s + t) == BytesToBits(s) + BytesToBits(t)
    decreases |s|
  {
    if s == [] {
      assert s + t == t;
    } else {
      assert (s + t)[1..] == s[1..] + t;
      BytesToBitsAppend(s[1..], t);
    }
  }

  // ---------------------------------------------------------------- writing

  /** A shift to the right, by a power of two. */
  function Shr(x: nat, p: nat): nat
    requires p > 0
  {
    x / p
  }

  /** The bits held at the top of a 32-bit buffer. */
  function Held(buff: nat, live: nat): seq<bool>
    requires live <= 32
  {
    ToBits(Shr(buff, Pow2(32 - live)), live)
  }

  lemma HeldLength(buff: nat, live: nat)
    requires live <= 32
    ensures |Held(buff, live)| == live
  {
  }

  /** `buff` holds `live` bits, and zeros below them. */
  ghost predicate BufferOk(buff: nat, live: nat) {
    live <= 32 && exists x: nat :: HoldsValue(buff, live, x)
  }

  ghost predicate HoldsValue(buff: nat, live: nat, x: nat)
    requires live <= 32
  {
    x < Pow2(live) && buff == x * Pow2(32 - live)
  }

  lemma HeldIs(buff: nat, live: nat, x: nat)
    requires live <= 32 && HoldsValue(buff, live, x)
    ensures Held(buff, live) == ToBits(x, live) && buff < 0x1_0000_0000
  {
    DivExact(x, Pow2(32 - live));
    Pow2Add(live, 32 - live);
    Pow2Values();
    MulMonotone(x + 1, Pow2(live), Pow2(32 - live));
    MulNext(x, Pow2(32 - live));
  }

  lemma DivExact(x: nat, p: nat)
    requires p > 0
    ensures x * p / p == x
  {
    DivAtLeast(x * p, x, p);
    var q := x * p / p;
    assert x * p == p * q + (x * p) % p;
    FactorOrder(q, x, p);
  }

  lemma DivRem(hi: nat, lo: nat, p: nat)
    requires lo < p
    ensures (hi * p + lo) / p == hi && (hi * p + lo) % p == lo
  {
    var v := hi * p + lo;
    var q := v / p;
    assert v == p * q + v % p;
    DivAtLeast(v, hi, p);
    if q > hi {
      MulMonotone(hi + 1, q, p);
      MulNext(hi, p);
    }
    assert q == hi;
  }

  lemma Spread(hi: nat, p: nat, lo: nat, r: nat)
    ensures (hi * p + lo) * r == hi * (p * r) + lo * r
  {
  }

  lemma {:induction false} ShiftOut(hi: nat, lo: nat, p: nat, r: nat, buff: nat)
    requires p * r == 0x100_0000 && lo < p && r > 0 && buff == (hi * p + lo) * r
    ensures buff / 0x100_0000 == hi
    ensures buff * 256 % 0x1_0000_0000 == lo * (256 * r)
  {
    Spread(hi, p, lo, r);
    MulMonotone(lo + 1, p, r);
    MulNext(lo, r);
    DivRem(hi, lo * r, 0x100_0000);
    assert lo * (256 * r) == (lo * r) * 256;
    DivRem(hi, (lo * r) * 256, 0x1_0000_0000);
  }

  /** Taking the top byte off a buffer. */
  lemma {:induction false} TakeByte(buff: nat, live: nat)
    requires BufferOk(buff, live) && live >= 8
    ensures buff / 0x100_0000 < 256
    ensures BufferOk(buff * 256 % 0x1_0000_0000, live - 8)
    ensures Held(buff, live) == ToBits(buff / 0x100_0000, 8) + Held(buff * 256 % 0x1_0000_0000, live - 8)
  {
    hide Pow2, ToBits, Held;
    var x: nat :| HoldsValue(buff, live, x);
    HeldIs(buff, live, x);
    var p, r := Pow2(live - 8), Pow2(32 - live);
    Pow2Values();
    Pow2Add(live - 8, 32 - live);
    Pow2Add(8, live - 8);
    Pow2Add(8, 32 - live);
    var hi, lo := x / p, x % p;
    HiLo(x, p);
    ShiftOut(hi, lo, p, r, buff);
    HiBelow(x, hi, lo, p, 256);
    var rest := buff * 256 % 0x1_0000_0000;
    assert HoldsValue(rest, live - 8, lo);
    HeldIs(rest, live - 8, lo);
    ToBitsSplit(hi, lo, 8, live - 8);
  }

  lemma HiLo(x: nat, p: nat)
    requires p > 0
    ensures x == (x / p) * p + x % p && x % p < p
  {
  }

  lemma HiBelow(x: nat, hi: nat, lo: nat, p: nat, n: nat)
    requires p > 0 && x == hi * p + lo && x < n * p
    ensures hi < n
  {
    FactorOrder(n, hi, p);
  }

  /** Or-ing `n` more bits into a buffer. */
  lemma {:induction false} AddBits(buff: nat, live: nat, v: nat, n: nat)
    requires BufferOk(buff, live) && live + n <= 32 && v < Pow2(n)
    ensures BufferOk(BitOr(buff, v * Pow2(32 - live - n)), live + n)
    ensures Held(BitOr(buff, v * Pow2(32 - live - n)), live + n) == Held(buff, live) + ToBits(v, n)
  {
    hide Pow2, ToBits, Held, BitOr;
    var x: nat :| HoldsValue(buff, live, x);
    HeldIs(buff, live, x);
    var q, r := Pow2(n), Pow2(32 - live - n);
    Pow2Add(n, 32 - live - n);
    Pow2Add(live, n);
    JoinFields(x, Pow2(live), v, q, r);
    BitOrDisjoint(x, v * r, 32 - live);
    var y := x * q + v;
    var both := BitOr(buff, v * r);
    assert HoldsValue(both, live + n, y);
    HeldIs(both, live + n, y);
    ToBitsSplit(x, v, live, n);
  }

  /** A field of values below `l`, followed by one of values below `q`. */
  lemma JoinFields(x: nat, l: nat, v: nat, q: nat, r: nat)
    requires x < l && v < q && r > 0
    ensures x * q + v < l * q && v * r < q * r && (x * q + v) * r == x * (q * r) + v * r
  {
    MulMonotone(x + 1, l, q);
    MulNext(x, q);
    MulMonotone(v + 1, q, r);
    MulNext(v, r);
    Spread(x, q, v, r);
  }

  /** The output side: `zbits` collects whole bytes, the rest waits in the buffer. */
  class BitWriter {
    var zbits: seq<byte>
    var bsBuff: nat
    var bsLive: int
    ghost var earlier: seq<bool>

    constructor ()
      ensures Valid() && Bits() == [] && zbits == []
    {
      zbits, bsBuff, bsLive, earlier := [], 0, 0, [];
      new;
      assert HoldsValue(0, 0, 0);
    }

    ghost predicate Valid()
      reads this
    {
      0 <= bsLive <= 32 && BufferOk(bsBuff, bsLive)
    }

    /** Everything written so far, including bytes already taken away. */
    ghost function Bits(): seq<bool>
      requires Valid()
      reads this
    {
      earlier + BytesToBits(zbits) + Held(bsBuff, bsLive)
    }

    /** bsNEEDW: whole bytes leave the buffer. */
    method Drain()
      requires Valid()
      modifies this
      ensures 0 <= bsLive < 8 && Valid() && Bits() == old(Bits()) && earlier == old(earlier)
      ensures old(zbits) <= zbits
    {
      hide BufferOk, Held, ToBits, BytesToBits, Pow2;
      while bsLive >= 8
        invariant 0 <= bsLive <= 32 && Valid() && Bits() == old(Bits()) && earlier == old(earlier)
          && old(zbits) <= zbits
        decreases bsLive
      {
        TakeByte(bsBuff, bsLive);
        ghost var rest := Held(bsBuff * 256 % 0x1_0000_0000, bsLive - 8);
        BytesToBitsAppend(zbits, [bsBuff / 0x100_0000]);
        OneByte(bsBuff / 0x100_0000);
        assert earlier + BytesToBits(zbits) + (ToBits(bsBuff / 0x100_0000, 8) + rest)
            == earlier + (BytesToBits(zbits) + ToBits(bsBuff / 0x100_0000, 8)) + rest;
        zbits := zbits + [bsBuff / 0x100_0000];
        bsBuff := bsBuff * 256 % 0x1_0000_0000;
        bsLive := bsLive - 8;
      }
    }

    /** bsW: appends the `n` low bits of `v`. */
    method Write(n: nat, v: nat)
      requires Valid() && n <= 24 && v < Pow2(n)
      modifies this
      ensures Valid() && Bits() == old(Bits()) + ToBits(v, n) && earlier == old(earlier)
      ensures old(zbits) <= zbits
    {
      hide BufferOk, Held, ToBits, BytesToBits, Pow2, BitOr;
      Drain();
      AddBits(bsBuff, bsLive, v, n);
      assert earlier + BytesToBits(zbits) + (Held(bsBuff, bsLive) + ToBits(v, n))
          == earlier + BytesToBits(zbits) + Held(bsBuff, bsLive) + ToBits(v, n);
      bsBuff := BitOr(bsBuff, v * Pow2(32 - bsLive - n));
      bsLive := bsLive + n;
    }

    /** Forgets the whole bytes, which have been taken away. */
    method Release()
      modifies this
      ensures old(Valid()) ==> Valid() && Bits() == old(Bits())
      ensures zbits == [] && earlier == old(earlier + BytesToBits(zbits))
      ensures bsBuff == old(bsBuff) && bsLive == old(bsLive)
    {
      hide BufferOk, Held;
      earlier := earlier + BytesToBits(zbits);
      zbits := [];
      assert BytesToBits([]) == [];
      assert earlier + [] == earlier;
    }

    /** bsFinishWrite: the last byte is filled up with zero bits. */
    method Finish()
      requires Valid()
      modifies this
      ensures earlier == old(earlier) && old(zbits) <= zbits
      ensures exists pad: nat :: pad < 8 && earlier + BytesToBits(zbits) == old(Bits()) + Zeros(pad)
    {
      hide BufferOk, Held, ToBits, BytesToBits, Pow2;
      ghost var all := Bits();
      if bsLive == 0 { NothingHeld(); }
      while bsLive > 0
        invariant earlier == old(earlier) && old(zbits) <= zbits
        invariant bsLive > 0 ==> Valid() && Bits() == all
        invariant bsLive <= 0 ==> Padded(all)
        decreases bsLive
      {
        FinishStep(all);
        zbits := zbits + [bsBuff / 0x100_0000];
        bsBuff := bsBuff * 256 % 0x1_0000_0000;
        bsLive := bsLive - 8;
      }
    }

    /** All bits are in whole bytes, with fewer than eight zeros added. */
    ghost predicate Padded(all: seq<bool>)
      reads this
    {
      exists pad: nat :: pad < 8 && earlier + BytesToBits(zbits) == all + Zeros(pad)
    }

    lemma NothingHeld()
      requires Valid() && bsLive == 0
      ensures Padded(Bits())
    {
      assert Held(bsBuff, 0) == [];
      assert earlier + BytesToBits(zbits) == Bits() + Zeros(0);
    }

    /** One more byte leaves the buffer, which may have fewer than eight bits left. */
    lemma FinishStep(all: seq<bool>)
      requires Valid() && bsLive > 0 && Bits() == all
      ensures bsBuff / 0x100_0000 < 256
      ensures var z, buff, live := zbits + [bsBuff / 0x100_0000], bsBuff * 256 % 0x1_0000_0000, bsLive - 8;
              && (live > 0 ==> BufferOk(buff, live) && earlier + BytesToBits(z) + Held(buff, live) == all)
              && (live <= 0 ==> exists pad: nat :: pad < 8 && earlier + BytesToBits(z) == all + Zeros(pad))
    {
      hide BufferOk, Held, ToBits, BytesToBits, Pow2;
      var c := bsBuff / 0x100_0000;
      if bsLive >= 8 { TakeByte(bsBuff, bsLive); } else { TakeLast(bsBuff, bsLive); }
      BytesToBitsAppend(zbits, [c]);
      OneByte(c);
      var z, buff, live := zbits + [c], bsBuff * 256 % 0x1_0000_0000, bsLive - 8;
      if live > 0 {
        assert earlier + (BytesToBits(zbits) + ToBits(c, 8)) + Held(buff, live)
            == earlier + BytesToBits(zbits) + (ToBits(c, 8) + Held(buff, live));
      } else if live == 0 {
        HeldNothing(buff);
        assert earlier + BytesToBits(z) == all + Zeros(0);
      } else {
        assert earlier + (BytesToBits(zbits) + (Held(bsBuff, bsLive) + Zeros(8 - bsLive)))
            == earlier + BytesToBits(zbits) + Held(bsBuff, bsLive) + Zeros(8 - bsLive);
        assert earlier + BytesToBits(z) == all + Zeros(8 - bsLive);
      }
    }
  }

  function Zeros(n: nat): (z: seq<bool>)
    ensures |z| == n
  {
    seq(n, _ => false)
  }

  lemma HeldNothing(buff: nat)
    ensures Held(buff, 0) == []
  {
  }

  lemma {:induction false} ZeroBits(n: nat)
    ensures ToBits(0, n) == Zeros(n)
  {
    if n > 0 { ZeroBits(n - 1); }
  }

  /** The last byte: the bits left, then zeros. */
  lemma {:induction false} TakeLast(buff: nat, live: nat)
    requires BufferOk(buff, live) && 0 < live < 8
    ensures buff / 0x100_0000 < 256
    ensures ToBits(buff / 0x100_0000, 8) == Held(buff, live) + Zeros(8 - live)
  {
    hide Pow2, ToBits, Held;
    var x: nat :| HoldsValue(buff, live, x);
    HeldIs(buff, live, x);
    Pow2Values();
    Pow2Add(8 - live, 24);
    Pow2Add(live, 8 - live);
    var q := Pow2(8 - live);
    assert x * (q * 0x100_0000) == (x * q) * 0x100_0000;
    DivExact(x * q, 0x100_0000);
    MulMonotone(x + 1, Pow2(live), q);
    MulNext(x, q);
    ToBitsSplit(x, 0, live, 8 - live);
    ZeroBits(8 - live);
  }

  lemma OneByte(c: byte)
    ensures BytesToBits([c]) == ToBits(c, 8)
  {
    assert BytesToBits([]) == [];
    assert [c][1..] == [];
    assert ToBits(c, 8) + [] == ToBits(c, 8);
  }
}

/**
 Machine words as natural numbers: shifts are products and quotients by powers of
 two, and bitwise "or" is defined digit by digit.
 */
module Bits {

  function Pow2(k: nat): (p: nat)
    ensures p >= 1
  {
    if k == 0 then 1 else 2 * Pow2(k - 1)
  }

  lemma Pow2Add(a: nat, b: nat)
    ensures Pow2(a + b) == Pow2(a) * Pow2(b)
  {
    if a > 0 { Pow2Add(a - 1, b); }
  }

  lemma Pow2Values()
    ensures Pow2(8) == 256 && Pow2(16) == 0x1_0000 && Pow2(24) == 0x100_0000 && Pow2(32) == 0x1_0000_0000
  {
    assert Pow2(4) == 16;
    Pow2Add(4, 4);
    Pow2Add(8, 8);
    Pow2Add(16, 8);
    Pow2Add(16, 16);
  }

  lemma MulMonotone(x: int, y: int, p: nat)
    requires x <= y
    ensures x * p <= y * p
  {
  }

  lemma MulNext(y: int, p: int)
    ensures (y + 1) * p == y * p + p
  {
  }

  /** Multiplying by a positive factor keeps the order. */
  lemma FactorOrder(x: int, y: int, p: int)
    requires p > 0
    ensures x * p <= y * p <==> x <= y
  {
    if x <= y {
      MulMonotone(x, y, p);
    } else {
      MulMonotone(y + 1, x, p);
      MulNext(y, p);
    }
  }

  lemma DivAtLeast(a: nat, b: nat, p: nat)
    requires p > 0 && a >= b * p
    ensures a / p >= b
  {
    var q := a / p;
    assert a == p * q + a % p;
    assert (q + 1) * p == p * q + p;
    FactorOrder(b + 1, q + 1, p);
    FactorOrder(q + 1, b, p);
  }

  /** Bitwise or. */
  function BitOr(a: nat, b: nat): (r: nat) {
    if a == 0 then b
    else if b == 0 then a
    else 2 * BitOr(a / 2, b / 2) + (if a % 2 == 1 || b % 2 == 1 then 1 else 0)
  }

  lemma {:induction false} BitOrComm(a: nat, b: nat)
    ensures BitOr(a, b) == BitOr(b, a)
  {
    if a != 0 && b != 0 { BitOrComm(a / 2, b / 2); }
  }

  /** Or-ing bits into a field of zeros is addition. */
  lemma {:induction false} BitOrDisjoint(a: nat, b: nat, k: nat)
    requires b < Pow2(k)
    ensures BitOr(a * Pow2(k), b) == a * Pow2(k) + b
    decreases k
  {
    if k == 0 || b == 0 || a == 0 {
    } else {
      var p := Pow2(k - 1);
      assert a * Pow2(k) == 2 * (a * p) by { assert Pow2(k) == 2 * p; }
      BitOrDisjoint(a, b / 2, k - 1);
      assert a * p > 0;
    }
  }

  /** Bitwise exclusive or. */
  function BitXor(a: nat, b: nat): (r: nat) {
    if a == 0 then b
    else if b == 0 then a
    else 2 * BitXor(a / 2, b / 2) + (if a % 2 == b % 2 then 0 else 1)
  }

  lemma {:induction false} BitXorBound(a: nat, b: nat, k: nat)
    requires a < Pow2(k) && b < Pow2(k)
    ensures BitXor(a, b) < Pow2(k)
    decreases k
  {
    if k > 0 && a != 0 && b != 0 { BitXorBound(a / 2, b / 2, k - 1); }
  }
}

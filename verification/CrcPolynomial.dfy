/**
 What the table of checksums is for: with the entries of the AUTODIN-II polynomial a byte
 at a time does what eight single bits do, and such a table tells all bytes apart.
 */
module CrcPolynomial {
  import opened Rotations
  import opened Bits
  import opened Crc

  const POLYNOMIAL: word := 0x04c1_1db7

  function Xor(a: word, b: word): (r: word)
    ensures r == BitXor(a, b)
  {
    Pow2Values();
    BitXorBound(a, b, 32);
    BitXor(a, b)
  }

  /** One bit of the division: the remainder moves up, and the divisor is taken off if a one
      falls out at the top. */
  function Step(x: word): word {
    if x < 0x8000_0000 then 2 * x else Xor(2 * (x - 0x8000_0000), POLYNOMIAL)
  }

  function Steps(x: word, n: nat): word {
    if n == 0 then x else Step(Steps(x, n - 1))
  }

  /** The byte goes in at the top, and eight bits are done. */
  function ByteByBits(crc: word, c: byte): word {
    Steps(Xor(crc, c * 0x100_0000), 8)
  }

  function ByBits(crc: word, s: seq<byte>): word
    decreases |s|
  {
    if s == [] then crc else ByBits(ByteByBits(crc, s[0]), s[1..])
  }

  /** The entries are those of the polynomial, as in crctable.c. */
  ghost predicate OfPolynomial(t: Table) {
    forall i: word :: i < 256 ==> t[i] == Steps(i * 0x100_0000, 8)
  }

  function TableOfPolynomial(): (t: Table)
    ensures OfPolynomial(t)
  {
    seq(256, i requires 0 <= i < 256 => Steps(i * 0x100_0000, 8))
  }

  // ---------------------------------------------------------------- exclusive or

  lemma {:induction false} XorAssociates(a: nat, b: nat, c: nat)
    ensures BitXor(BitXor(a, b), c) == BitXor(a, BitXor(b, c))
    decreases a + b + c
  {
    hide BitXor;
    XorStep(a, b);
    XorStep(b, c);
    XorStep(BitXor(a, b), c);
    XorStep(a, BitXor(b, c));
    if a + b + c > 0 { XorAssociates(a / 2, b / 2, c / 2); }
  }

  lemma {:induction false} XorSelf(a: nat)
    ensures BitXor(a, a) == 0
  {
    if a > 0 { XorSelf(a / 2); }
  }

  /** Exclusive or acts on the upper and the lower bits apart. */
  lemma {:induction false} XorParts(a: nat, x: nat, b: nat, y: nat, k: nat)
    requires x < Pow2(k) && y < Pow2(k)
    ensures BitXor(a * Pow2(k) + x, b * Pow2(k) + y) == BitXor(a, b) * Pow2(k) + BitXor(x, y)
    decreases k
  {
    if k > 0 {
      XorParts(a, x / 2, b, y / 2, k - 1);
      OneBitMore(a, x, b, y, Pow2(k - 1));
    }
  }

  lemma OneBitMore(a: nat, x: nat, b: nat, y: nat, p: nat)
    requires BitXor(a * p + x / 2, b * p + y / 2) == BitXor(a, b) * p + BitXor(x / 2, y / 2)
    ensures BitXor(a * (2 * p) + x, b * (2 * p) + y) == BitXor(a, b) * (2 * p) + BitXor(x, y)
  {
    hide BitXor;
    XorStep(a * (2 * p) + x, b * (2 * p) + y);
    XorStep(x, y);
    HalfOf(a, x, p);
    HalfOf(b, y, p);
    assert BitXor(a, b) * (2 * p) == 2 * (BitXor(a, b) * p);
  }

  lemma HalfOf(a: nat, x: nat, p: nat)
    ensures (a * (2 * p) + x) / 2 == a * p + x / 2 && (a * (2 * p) + x) % 2 == x % 2
  {
    assert a * (2 * p) == 2 * (a * p);
  }

  /** Four terms may be taken in another order. */
  lemma XorSwap(a: word, b: word, c: word, d: word)
    ensures Xor(Xor(a, b), Xor(c, d)) == Xor(Xor(a, c), Xor(b, d))
  {
    hide BitXor;
    XorAssociates(a, b, Xor(c, d));
    XorAssociates(b, c, d);
    XorCommutes(b, c);
    XorAssociates(c, b, d);
    XorAssociates(a, c, Xor(b, d));
  }

  // ---------------------------------------------------------------- the division is linear

  function MovedUp(x: word): word { if x < 0x8000_0000 then 2 * x else 2 * (x - 0x8000_0000) }

  function Divisor(x: word): word { if x < 0x8000_0000 then 0 else POLYNOMIAL }

  lemma StepIs(x: word)
    ensures Step(x) == Xor(MovedUp(x), Divisor(x))
  {
    XorCommutes(MovedUp(x), 0);
  }

  lemma TopBits(a: word, b: word)
    ensures MovedUp(Xor(a, b)) == Xor(MovedUp(a), MovedUp(b))
    ensures Divisor(Xor(a, b)) == Xor(Divisor(a), Divisor(b))
  {
    hide BitXor;
    Top31();
    var a1, b1 := if a < 0x8000_0000 then 0 else 1, if b < 0x8000_0000 then 0 else 1;
    var x, y := a - a1 * 0x8000_0000, b - b1 * 0x8000_0000;
    XorParts(a1, x, b1, y, 31);
    BitXorBound(x, y, 31);
    XorStep(2 * x, 2 * y);
    OneBits(a1, b1);
  }

  lemma OneBits(a: nat, b: nat)
    requires a <= 1 && b <= 1
    ensures BitXor(a, b) == if a == b then 0 else 1
    ensures BitXor(a * POLYNOMIAL, b * POLYNOMIAL) == if a == b then 0 else POLYNOMIAL
  {
    XorSelf(POLYNOMIAL);
    XorCommutes(POLYNOMIAL, 0);
  }

  lemma Top31()
    ensures Pow2(31) == 0x8000_0000
  {
    Pow2Values();
  }

  lemma StepLinear(a: word, b: word)
    ensures Step(Xor(a, b)) == Xor(Step(a), Step(b))
  {
    hide Xor, Step;
    StepIs(Xor(a, b));
    StepIs(a);
    StepIs(b);
    TopBits(a, b);
    XorSwap(MovedUp(a), Divisor(a), MovedUp(b), Divisor(b));
  }

  lemma {:induction false} StepsLinear(a: word, b: word, n: nat)
    ensures Steps(Xor(a, b), n) == Xor(Steps(a, n), Steps(b, n))
  {
    hide Xor, Step;
    if n > 0 {
      StepsLinear(a, b, n - 1);
      StepLinear(Steps(a, n - 1), Steps(b, n - 1));
    }
  }

  /** As long as nothing falls out, the steps only move the bits up. */
  lemma {:induction false} StepsShift(x: word, n: nat)
    requires x * Pow2(n) < 0x1_0000_0000
    ensures Steps(x, n) == x * Pow2(n)
  {
    if n > 0 {
      var p := Pow2(n - 1);
      assert x * (2 * p) == 2 * (x * p);
      StepsShift(x, n - 1);
    }
  }

  // ---------------------------------------------------------------- the table

  /** One byte with the table does what eight bits do. */
  lemma UpdateByBits(t: Table, crc: word, c: byte)
    requires OfPolynomial(t)
    ensures Update(t, crc, c) == ByteByBits(crc, c)
  {
    hide BitXor, Steps;
    Pow2Values();
    var hi, lo := crc / 0x100_0000, crc % 0x100_0000;
    BitXorBound(hi, c, 8);
    var i := BitXor(hi, c);
    XorParts(hi, lo, c, 0, 24);
    XorCommutes(lo, 0);
    assert BitXor(0, lo) == lo by { XorZero(lo); }
    assert Xor(crc, c * 0x100_0000) == i * 0x100_0000 + lo;
    XorParts(i, 0, 0, lo, 24);
    XorZero(lo);
    XorZero(i);
    XorCommutes(i, 0);
    assert Xor(i * 0x100_0000, lo) == i * 0x100_0000 + lo;
    StepsLinear(i * 0x100_0000, lo, 8);
    StepsShift(lo, 8);
    assert crc * 256 % 0x1_0000_0000 == lo * 256;
    XorCommutes(t[i], lo * 256);
  }

  lemma XorZero(a: nat)
    ensures BitXor(0, a) == a
  {
  }

  /** The checksum of a text with the table is that made bit by bit. */
  lemma {:induction false} FoldByBits(t: Table, crc: word, s: seq<byte>)
    requires OfPolynomial(t)
    ensures Fold(t, crc, s) == ByBits(crc, s)
    decreases |s|
  {
    hide Update, ByteByBits, OfPolynomial;
    if s != [] {
      UpdateByBits(t, crc, s[0]);
      FoldByBits(t, Update(t, crc, s[0]), s[1..]);
    }
  }

  /** The checksum of a block: all ones at the start, and complemented at the end. */
  lemma BlockChecksum(t: Table, s: seq<byte>)
    requires OfPolynomial(t)
    ensures Finalise(Fold(t, INITIAL, s)) == 0xffff_ffff - ByBits(0xffff_ffff, s)
  {
    FoldByBits(t, INITIAL, s);
  }

  // ---------------------------------------------------------------- all entries differ

  /** If the last n bits are zero after n steps, nothing has fallen out: the divisor is odd. */
  lemma {:induction false} NothingFellOut(x: word, n: nat)
    requires Steps(x, n) % Pow2(n) == 0
    ensures Steps(x, n) == x * Pow2(n)
  {
    if n > 0 {
      var y, p := Steps(x, n - 1), Pow2(n - 1);
      Halved(Step(y), p);
      OddDivisor(y);
      assert Step(y) == 2 * y;
      assert y % p == 0;
      NothingFellOut(x, n - 1);
      assert x * (2 * p) == 2 * (x * p);
    }
  }

  lemma OddDivisor(y: word)
    ensures Step(y) % 2 == 0 <==> y < 0x8000_0000
  {
    if y >= 0x8000_0000 { XorStep(2 * (y - 0x8000_0000), POLYNOMIAL); }
  }

  /** So whatever is proved of tables whose entries differ in their low bytes holds of this one. */
  lemma EntriesDiffer(t: Table)
    requires OfPolynomial(t)
    ensures LowBytesDiffer(t)
  {
    hide BitXor, Steps;
    forall i: word, j: word | i < 256 && j < 256 && t[i] % 256 == t[j] % 256 ensures i == j {
      EntryApart(i, j);
    }
  }

  lemma EntryApart(i: word, j: word)
    requires i < 256 && j < 256 && Steps(i * 0x100_0000, 8) % 256 == Steps(j * 0x100_0000, 8) % 256
    ensures i == j
  {
    hide BitXor, Steps;
    Pow2Values();
    BitXorBound(i, j, 8);
    var d := Xor(i, j);
    XorParts(i, 0, j, 0, 24);
    assert BitXor(0, 0) == 0 by { XorZero(0); }
    StepsLinear(i * 0x100_0000, j * 0x100_0000, 8);
    SameLow(Steps(i * 0x100_0000, 8), Steps(j * 0x100_0000, 8), 8);
    NothingFellOut(d * 0x100_0000, 8);
    assert d == 0;
    XorSelf(i);
    XorInjective(i, i, j);
  }

  lemma {:induction false} SameLow(a: nat, b: nat, k: nat)
    requires a % Pow2(k) == b % Pow2(k)
    ensures BitXor(a, b) % Pow2(k) == 0
  {
    hide BitXor;
    if k > 0 {
      var p := Pow2(k - 1);
      Halved(a, p);
      Halved(b, p);
      XorStep(a, b);
      Halved(BitXor(a, b), p);
      SameLow(a / 2, b / 2, k - 1);
    }
  }
}

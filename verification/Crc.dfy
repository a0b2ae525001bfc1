/**
 The block and stream checksums, for any table of 256 words.  Both sides fold the same
 bytes; and with a table whose entries differ in their low bytes every byte, and every
 block's checksum, makes a difference.
 */
module Crc {
  import opened Rotations
  import opened Bits

  type word = w: nat | w < 0x1_0000_0000

  type Table = t: seq<word> | |t| == 256 witness seq(256, _ => 0)

  const INITIAL: word := 0xffff_ffff

  /** One byte into the checksum. */
  function Update(t: Table, crc: word, c: byte): word {
    Pow2Values();
    BitXorBound(crc / 0x100_0000, c, 8);
    var entry := t[BitXor(crc / 0x100_0000, c)];
    BitXorBound(crc * 256 % 0x1_0000_0000, entry, 32);
    BitXor(crc * 256 % 0x1_0000_0000, entry)
  }

  function Finalise(crc: word): word {
    0xffff_ffff - crc
  }

  /** A finished block checksum into the checksum of the whole stream. */
  function Combine(combined: word, blockCrc: word): word {
    Pow2Values();
    var rotated := combined * 2 % 0x1_0000_0000 + combined / 0x8000_0000;
    BitXorBound(rotated, blockCrc, 32);
    BitXor(rotated, blockCrc)
  }

  /** The checksum after a string of bytes. */
  function Fold(t: Table, crc: word, s: seq<byte>): word
    decreases |s|
  {
    if s == [] then crc else Fold(t, Update(t, crc, s[0]), s[1..])
  }

  lemma {:induction false} FoldAppend(t: Table, crc: word, s: seq<byte>, u: seq<byte>)
    ensures Fold(t, crc, s + u) == Fold(t, Fold(t, crc, s), u)
    decreases |s|
  {
    if s == [] {
      assert s + u == u;
    } else {
      assert (s + u)[1..] == s[1..] + u;
      FoldAppend(t, Update(t, crc, s[0]), s[1..], u);
    }
  }

  lemma FoldOne(t: Table, crc: word, c: byte)
    ensures Fold(t, crc, [c]) == Update(t, crc, c)
  {
    assert Fold(t, Update(t, crc, c), []) == Update(t, crc, c);
  }

  // ---------------------------------------------------------------- every byte makes a difference

  lemma XorStep(a: nat, b: nat)
    ensures BitXor(a, b) == 2 * BitXor(a / 2, b / 2) + (if a % 2 == b % 2 then 0 else 1)
  {
  }

  lemma {:induction false} XorInjective(a: nat, b: nat, c: nat)
    requires BitXor(a, b) == BitXor(a, c)
    ensures b == c
    decreases a + b + c
  {
    hide BitXor;
    XorStep(a, b);
    XorStep(a, c);
    if a + b + c > 0 { XorInjective(a / 2, b / 2, c / 2); }
  }

  lemma {:induction false} XorCommutes(a: nat, b: nat)
    ensures BitXor(a, b) == BitXor(b, a)
    decreases a + b
  {
    if a != 0 && b != 0 { XorCommutes(a / 2, b / 2); }
  }

  /** Zeros at the low end let the other number through. */
  lemma {:induction false} XorLow(a: nat, b: nat, k: nat)
    requires a % Pow2(k) == 0
    ensures BitXor(a, b) % Pow2(k) == b % Pow2(k)
  {
    hide BitXor;
    if k > 0 {
      var m := Pow2(k - 1);
      XorStep(a, b);
      Halved(a, m);
      Halved(b, m);
      Halved(BitXor(a, b), m);
      XorLow(a / 2, b / 2, k - 1);
    }
  }

  lemma Halved(x: nat, m: nat)
    requires m > 0
    ensures x % (2 * m) == 2 * (x / 2 % m) + x % 2
  {
    var y, q := x / 2, x / 2 / m;
    assert y == m * q + y % m;
    assert x == 2 * m * q + (2 * (y % m) + x % 2);
    DivMod(q, 2 * (y % m) + x % 2, 2 * m);
  }

  lemma DivMod(q: nat, r: nat, m: nat)
    requires r < m
    ensures (m * q + r) % m == r
  {
    var x := m * q + r;
    var p := x / m;
    assert x == m * p + x % m;
    MulNext(q, m);
    MulNext(p, m);
    if p < q { MulMonotone(p + 1, q, m); }
    if q < p { MulMonotone(q + 1, p, m); }
  }

  /** As the entries of the program's table do, all differ in their low bytes. */
  ghost predicate LowBytesDiffer(t: Table) {
    forall i, j :: 0 <= i < 256 && 0 <= j < 256 && t[i] % 256 == t[j] % 256 ==> i == j
  }

  lemma ShiftedLow(crc: nat)
    ensures (crc * 256 % 0x1_0000_0000) % 256 == 0
  {
  }

  /** The next byte makes a difference to the checksum. */
  lemma UpdateTellsByte(t: Table, crc: word, c: byte, d: byte)
    requires LowBytesDiffer(t) && Update(t, crc, c) == Update(t, crc, d)
    ensures c == d
  {
    hide BitXor, LowBytesDiffer;
    Pow2Values();
    BitXorBound(crc / 0x100_0000, c, 8);
    BitXorBound(crc / 0x100_0000, d, 8);
    var i, j := BitXor(crc / 0x100_0000, c), BitXor(crc / 0x100_0000, d);
    ShiftedLow(crc);
    XorLow(crc * 256 % 0x1_0000_0000, t[i], 8);
    XorLow(crc * 256 % 0x1_0000_0000, t[j], 8);
    SameEntry(t, i, j);
    XorInjective(crc / 0x100_0000, c, d);
  }

  lemma SameEntry(t: Table, i: int, j: int)
    requires LowBytesDiffer(t) && 0 <= i < 256 && 0 <= j < 256 && t[i] % 256 == t[j] % 256
    ensures i == j
  {
  }

  /** So does what has been folded before. */
  lemma UpdateTellsCrc(t: Table, crc: word, crc': word, c: byte)
    requires LowBytesDiffer(t) && Update(t, crc, c) == Update(t, crc', c)
    ensures crc == crc'
  {
    hide BitXor, LowBytesDiffer;
    Pow2Values();
    BitXorBound(crc / 0x100_0000, c, 8);
    BitXorBound(crc' / 0x100_0000, c, 8);
    var i, j := BitXor(crc / 0x100_0000, c), BitXor(crc' / 0x100_0000, c);
    var a, b := crc * 256 % 0x1_0000_0000, crc' * 256 % 0x1_0000_0000;
    ShiftedLow(crc);
    ShiftedLow(crc');
    XorLow(a, t[i], 8);
    XorLow(b, t[j], 8);
    SameEntry(t, i, j);
    XorCommutes(crc / 0x100_0000, c);
    XorCommutes(crc' / 0x100_0000, c);
    XorInjective(c, crc / 0x100_0000, crc' / 0x100_0000);
    XorCommutes(a, t[i]);
    XorCommutes(b, t[i]);
    XorInjective(t[i], a, b);
  }

  lemma {:induction false} FoldTellsCrc(t: Table, crc: word, crc': word, s: seq<byte>)
    requires LowBytesDiffer(t) && Fold(t, crc, s) == Fold(t, crc', s)
    ensures crc == crc'
    decreases |s|
  {
    hide Update, LowBytesDiffer;
    if s != [] {
      FoldTellsCrc(t, Update(t, crc, s[0]), Update(t, crc', s[0]), s[1..]);
      UpdateTellsCrc(t, crc, crc', s[0]);
    }
  }

  /** Two texts that differ in exactly one byte have different checksums. */
  lemma OneByteTells(t: Table, crc: word, x: seq<byte>, c: byte, d: byte, y: seq<byte>)
    requires LowBytesDiffer(t) && c != d
    ensures Finalise(Fold(t, crc, x + [c] + y)) != Finalise(Fold(t, crc, x + [d] + y))
  {
    hide Update, LowBytesDiffer, Fold;
    FoldAppend(t, crc, x + [c], y);
    FoldAppend(t, crc, x + [d], y);
    FoldAppend(t, crc, x, [c]);
    FoldAppend(t, crc, x, [d]);
    var mid := Fold(t, crc, x);
    FoldOne(t, mid, c);
    FoldOne(t, mid, d);
    if Update(t, mid, c) == Update(t, mid, d) { UpdateTellsByte(t, mid, c, d); }
    if Fold(t, Update(t, mid, c), y) == Fold(t, Update(t, mid, d), y) {
      FoldTellsCrc(t, Update(t, mid, c), Update(t, mid, d), y);
    }
  }

  /** Turning a word by one bit loses nothing. */
  lemma TurnInjective(a: word, b: word)
    requires a * 2 % 0x1_0000_0000 + a / 0x8000_0000 == b * 2 % 0x1_0000_0000 + b / 0x8000_0000
    ensures a == b
  {
    assert a * 2 % 0x1_0000_0000 == a * 2 - a / 0x8000_0000 * 0x1_0000_0000;
    assert b * 2 % 0x1_0000_0000 == b * 2 - b / 0x8000_0000 * 0x1_0000_0000;
  }

  /** The checksum of the stream depends on each block's checksum, and on those before it. */
  lemma CombineTells(combined: word, combined': word, crc: word, crc': word)
    ensures Combine(combined, crc) == Combine(combined, crc') ==> crc == crc'
    ensures Combine(combined, crc) == Combine(combined', crc) ==> combined == combined'
  {
    hide BitXor;
    var r := combined * 2 % 0x1_0000_0000 + combined / 0x8000_0000;
    var r' := combined' * 2 % 0x1_0000_0000 + combined' / 0x8000_0000;
    if Combine(combined, crc) == Combine(combined, crc') { XorInjective(r, crc, crc'); }
    if Combine(combined, crc) == Combine(combined', crc) {
      XorCommutes(r, crc);
      XorCommutes(r', crc);
      XorInjective(crc, r, r');
      TurnInjective(combined, combined');
    }
  }
}

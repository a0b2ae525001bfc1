/**
 Blocks that repeat themselves: how many rotations are equal to a given one, and where
 equal rotations stand in a sorted listing of all that start with one symbol.
 */
module Repetition {
  import opened Rotations
  import opened Permutations
  import opened Predecessors

  /** The rotations equal to rotation `y`. */
  ghost function EqualTo(b: seq<byte>, y: int): (s: set<int>)
    requires 0 <= y < |b|
    ensures forall x :: x in s <==> 0 <= x < |b| && Cmp(b, x, y, |b|) == 0
  {
    set x | 0 <= x < |b| && Cmp(b, x, y, |b|) == 0
  }

  /** How many rotations are equal to the block itself, which is counted. */
  ghost function Multiplicity(b: seq<byte>): (m: nat)
    ensures m > 0
  {
    if b == [] then 1
    else
      CmpRefl(b, 0, |b|);
      assert 0 in EqualTo(b, 0);
      |EqualTo(b, 0)|
  }

  /** Some other rotation equals the block itself. */
  ghost predicate Repeats(b: seq<byte>) {
    exists i :: 0 < i < |b| && Cmp(b, 0, i, |b|) == 0
  }

  lemma RepeatsIff(b: seq<byte>)
    requires |b| > 0
    ensures Repeats(b) <==> Multiplicity(b) > 1
  {
    hide Cmp;
    var s := EqualTo(b, 0);
    CmpRefl(b, 0, |b|);
    if i :| 0 < i < |b| && Cmp(b, 0, i, |b|) == 0 {
      CmpAnti(b, 0, i, |b|);
      SubsetSize({0, i}, s);
    }
    if |s| > 1 {
      assert |s - {0}| == |s| - 1;
      var i := Member(s - {0});
      CmpAnti(b, 0, i, |b|);
      assert Repeats(b);
    }
  }

  // ---------------------------------------------------------------- all classes are of one size

  lemma CmpEqual(b: seq<byte>, x: int, y: int, z: int)
    requires 0 <= x < |b| && 0 <= y < |b| && 0 <= z < |b| && Cmp(b, y, z, |b|) == 0
    ensures Cmp(b, x, y, |b|) == 0 <==> Cmp(b, x, z, |b|) == 0
    ensures Cmp(b, x, y, |b|) < 0 <==> Cmp(b, x, z, |b|) < 0
    ensures Cmp(b, y, x, |b|) < 0 <==> Cmp(b, z, x, |b|) < 0
  {
    hide Cmp;
    CmpAnti(b, y, z, |b|);
    CmpAnti(b, x, y, |b|);
    CmpAnti(b, x, z, |b|);
    if Cmp(b, x, y, |b|) <= 0 { CmpTrans(b, x, y, z, |b|); }
    if Cmp(b, x, z, |b|) <= 0 { CmpTrans(b, x, z, y, |b|); }
    if Cmp(b, y, x, |b|) <= 0 { CmpTrans(b, z, y, x, |b|); }
    if Cmp(b, z, x, |b|) <= 0 { CmpTrans(b, y, z, x, |b|); }
  }

  /** Moving all rotations one place on carries equal ones to equal ones. */
  lemma NextClass(b: seq<byte>, y: int)
    requires 0 <= y < |b|
    ensures |EqualTo(b, Next(|b|, y))| == |EqualTo(b, y)|
  {
    hide Cmp;
    var n := |b|;
    var moved := set x | x in EqualTo(b, y) :: Next(n, x);
    forall x | x in EqualTo(b, y) ensures Next(n, x) in EqualTo(b, Next(n, y)) {
      CmpFull(b, x, y, n + 1);
      StepOn(b, x, y);
    }
    forall x | x in EqualTo(b, Next(n, y)) ensures x in moved {
      var w := Prev(n, x);
      CmpPrev(b, x, Next(n, y));
      EqualBefore(b, x, Next(n, y));
      assert Prev(n, Next(n, y)) == y;
      assert w in EqualTo(b, y) && Next(n, w) == x;
    }
    assert moved == EqualTo(b, Next(n, y));
    MovedSize(n, EqualTo(b, y));
  }

  lemma StepOn(b: seq<byte>, x: int, y: int)
    requires 0 <= x < |b| && 0 <= y < |b| && Cmp(b, x, y, |b| + 1) == 0
    ensures Cmp(b, Next(|b|, x), Next(|b|, y), |b|) == 0
  {
  }

  /** Equal rotations have the same symbol before them. */
  lemma EqualBefore(b: seq<byte>, x: int, y: int)
    requires 0 <= x < |b| && 0 <= y < |b| && Cmp(b, x, y, |b|) == 0
    ensures b[Prev(|b|, x)] == b[Prev(|b|, y)]
  {
    var n := |b|;
    CmpSplit(b, x, y, n - 1, 1);
    AdvWrap(n, x, n - 1);
    AdvWrap(n, y, n - 1);
  }

  lemma {:induction false} MovedSize(n: nat, s: set<int>)
    requires forall x :: x in s ==> 0 <= x < n
    ensures |set x | x in s :: Next(n, x)| == |s|
  {
    if s != {} {
      var x := Member(s);
      MovedSize(n, s - {x});
      assert (set z | z in s :: Next(n, z)) == (set z | z in s - {x} :: Next(n, z)) + {Next(n, x)};
    }
  }

  lemma {:induction false} OneSize(b: seq<byte>, y: int)
    requires 0 <= y < |b|
    ensures |EqualTo(b, y)| == Multiplicity(b)
  {
    if y > 0 {
      OneSize(b, y - 1);
      NextClass(b, y - 1);
    }
  }

  // ---------------------------------------------------------------- equal rotations in a row

  /** A row lists, in order, all rotations that start with `ss`. */
  ghost predicate WholeRow(b: seq<byte>, row: seq<int>, ss: byte) {
    Row(b, row, ss) && forall x :: 0 <= x < |b| && b[x] == ss ==> x in row
  }

  lemma RowPair(b: seq<byte>, row: seq<int>, ss: byte, k: int, l: int)
    requires Row(b, row, ss) && 0 <= k <= l < |row|
    ensures 0 <= row[k] < |b| && 0 <= row[l] < |b| && Cmp(b, row[k], row[l], |b|) <= 0
  {
    if k == l { CmpRefl(b, row[k], |b|); } else { assert RotLe(b, row[k], row[l]); }
  }

  /** From place `s`, where a class starts, `e` is as far as the class goes. */
  ghost function ClassEnd(b: seq<byte>, row: seq<int>, ss: byte, s: int, e: int): (r: int)
    requires Row(b, row, ss) && 0 <= s <= e <= |row| && s < |row|
    requires forall p :: s <= p < e ==> 0 <= row[p] < |b| && 0 <= row[s] < |b| && Cmp(b, row[p], row[s], |b|) == 0
    ensures e <= r <= |row|
    ensures forall p :: s <= p < r ==> 0 <= row[p] < |b| && 0 <= row[s] < |b| && Cmp(b, row[p], row[s], |b|) == 0
    ensures r < |row| ==> 0 <= row[r] < |b| && 0 <= row[s] < |b| && Cmp(b, row[r], row[s], |b|) != 0
    decreases |row| - e
  {
    if e < |row| && Cmp(b, row[e], row[s], |b|) == 0 then ClassEnd(b, row, ss, s, e + 1) else e
  }

  /** The classes of equal rotations in a row are all of the same size. */
  lemma ClassRun(b: seq<byte>, row: seq<int>, ss: byte, s: int)
    requires WholeRow(b, row, ss) && 0 <= s < |row|
    requires s > 0 ==> 0 <= row[s - 1] < |b| && 0 <= row[s] < |b| && Cmp(b, row[s - 1], row[s], |b|) < 0
    ensures s + Multiplicity(b) <= |row|
    ensures forall p :: s <= p < |row| ==>
      0 <= row[p] < |b| && 0 <= row[s] < |b| && (Cmp(b, row[p], row[s], |b|) == 0 <==> p < s + Multiplicity(b))
  {
    hide Cmp, Multiplicity;
    RowPair(b, row, ss, s, s);
    var e := ClassEnd(b, row, ss, s, s);
    var x := row[s];
    CmpRefl(b, x, |b|);
    forall p | e <= p < |row| ensures 0 <= row[p] < |b| && Cmp(b, row[p], x, |b|) != 0 {
      RowPair(b, row, ss, s, e);
      RowPair(b, row, ss, e, p);
      CmpAnti(b, x, row[e], |b|);
      CmpTrans(b, x, row[e], row[p], |b|);
      CmpAnti(b, x, row[p], |b|);
    }
    RunSize(b, row, ss, s, e);
  }

  lemma RunSize(b: seq<byte>, row: seq<int>, ss: byte, s: int, e: int)
    requires WholeRow(b, row, ss) && 0 <= s < e <= |row| && 0 <= row[s] < |b|
    requires s > 0 ==> 0 <= row[s - 1] < |b| && Cmp(b, row[s - 1], row[s], |b|) < 0
    requires forall p :: s <= p < e ==> 0 <= row[p] < |b| && Cmp(b, row[p], row[s], |b|) == 0
    requires forall p :: e <= p < |row| ==> 0 <= row[p] < |b| && Cmp(b, row[p], row[s], |b|) != 0
    ensures e == s + Multiplicity(b)
  {
    hide Cmp, Multiplicity, EqualTo, WholeRow;
    var part := row[s..e];
    forall y ensures y in Elements(part) <==> y in EqualTo(b, row[s]) {
      if y in Elements(part) {
        var k :| 0 <= k < |part| && part[k] == y;
        assert row[s + k] == y;
      }
      if y in EqualTo(b, row[s]) { InRun(b, row, ss, s, e, y); }
    }
    assert Elements(part) == EqualTo(b, row[s]);
    PartDistinct(b, row, ss, s, e);
    OneSize(b, row[s]);
  }

  lemma PartDistinct(b: seq<byte>, row: seq<int>, ss: byte, s: int, e: int)
    requires WholeRow(b, row, ss) && 0 <= s < e <= |row|
    ensures |Elements(row[s..e])| == e - s
  {
    hide RotLe;
    ElementsDistinct(row[s..e]);
  }

  /** A rotation equal to the one at `s` stands between `s` and `e`. */
  lemma InRun(b: seq<byte>, row: seq<int>, ss: byte, s: int, e: int, y: int)
    requires WholeRow(b, row, ss) && 0 <= s < e <= |row| && 0 <= y < |b| && 0 <= row[s] < |b|
    requires Cmp(b, y, row[s], |b|) == 0
    requires s > 0 ==> 0 <= row[s - 1] < |b| && Cmp(b, row[s - 1], row[s], |b|) < 0
    requires forall p :: e <= p < |row| ==> 0 <= row[p] < |b| && Cmp(b, row[p], row[s], |b|) != 0
    ensures y in Elements(row[s..e])
  {
    CmpEarly(b, y, row[s], 1, |b|);
    assert b[y] == ss;
    hide Cmp;
    var p :| 0 <= p < |row| && row[p] == y;
    if p < s {
      RowPair(b, row, ss, p, s - 1);
      CmpTrans(b, row[p], row[s - 1], row[s], |b|);
      assert false;
    }
    assert row[s..e][p - s] == y;
  }

  /** So classes start at the multiples of that size. */
  lemma {:induction false} ClassStart(b: seq<byte>, row: seq<int>, ss: byte, s: int)
    requires WholeRow(b, row, ss) && 0 <= s < |row| && s % Multiplicity(b) == 0
    ensures s > 0 ==> 0 <= row[s - 1] < |b| && 0 <= row[s] < |b| && Cmp(b, row[s - 1], row[s], |b|) < 0
    decreases s
  {
    hide Cmp, Multiplicity;
    var m := Multiplicity(b);
    if s > 0 {
      OneLess(s, m);
      ClassStart(b, row, ss, s - m);
      ClassRun(b, row, ss, s - m);
      RowPair(b, row, ss, s - 1, s);
      var x := row[s - m];
      CmpAnti(b, row[s - 1], row[s], |b|);
      CmpEqual(b, row[s], row[s - 1], x);
    }
  }

  lemma OneLess(s: int, m: int)
    requires s > 0 && m > 0 && s % m == 0
    ensures s >= m && (s - m) % m == 0
  {
    var q := s / m;
    assert s == m * q;
    if q < 1 { Times(q, 0, m); }
    Times(1, q, m);
    assert m * (q - 1) == s - m;
    Quotient(q - 1, 0, m);
  }

  /** Two rotations in a row are equal if and only if no multiple of that size separates them. */
  lemma ClassOf(b: seq<byte>, row: seq<int>, ss: byte, k: int, l: int)
    requires WholeRow(b, row, ss) && 0 <= k <= l < |row|
    ensures 0 <= row[k] < |b| && 0 <= row[l] < |b|
    ensures Cmp(b, row[k], row[l], |b|) == 0 <==> k / Multiplicity(b) == l / Multiplicity(b)
  {
    hide Cmp, Multiplicity;
    var m := Multiplicity(b);
    RowPair(b, row, ss, k, l);
    var s := k - k % m;
    Rounded(k, l, m);
    ClassStart(b, row, ss, s);
    ClassRun(b, row, ss, s);
    CmpAnti(b, row[k], row[l], |b|);
    CmpEqual(b, row[l], row[k], row[s]);
  }

  lemma Rounded(k: int, l: int, m: int)
    requires 0 <= k <= l && m > 0
    ensures 0 <= k - k % m <= k < k - k % m + m && (k - k % m) % m == 0
    ensures l < k - k % m + m <==> k / m == l / m
  {
    var p, q := l / m, k / m;
    assert k == m * q + k % m && l == m * p + l % m;
    Quotient(q, 0, m);
    RoundedBelow(q, k % m, p, l % m, m);
  }

  lemma RoundedBelow(q: int, r: int, p: int, s: int, m: int)
    requires 0 <= r < m && 0 <= s < m && 0 <= m * q + r <= m * p + s
    ensures 0 <= m * q
    ensures m * p + s < m * q + m <==> q == p
  {
    assert m * (q + 1) == m * q + m && m * (p + 1) == m * p + m;
    if q < 0 { Times(q + 1, 0, m); }
    if p > q { Times(q + 1, p, m); }
    if p < q { Times(p + 1, q, m); }
  }

  lemma Quotient(q: int, r: int, m: int)
    requires 0 <= r < m
    ensures (m * q + r) / m == q && (m * q + r) % m == r
  {
    var x := m * q + r;
    var p := x / m;
    assert x == m * p + x % m;
    assert m * (p + 1) == m * p + m && m * (q + 1) == m * q + m;
    if p < q { Times(p + 1, q, m); } else if q < p { Times(q + 1, p, m); }
  }

  /** Places separated by a multiple of `unit` are separated by one of any divisor of it. */
  lemma Coarser(k: int, l: int, unit: int, m: int)
    requires 0 <= k < l && unit > 0 && m > 0 && unit % m == 0 && k / unit < l / unit
    ensures k / m != l / m
  {
    var p, u := l / unit, unit / m;
    Separated(k, l, unit, p);
    assert unit == m * u;
    Regroup(m, u, p);
    Separated(k, l, m, u * p);
  }

  /** `m * c` lies between two places if and only if `c` lies between their quotients. */
  lemma Separated(k: int, l: int, m: int, c: int)
    requires m > 0
    ensures k < m * c <==> k / m < c
    ensures m * c <= l <==> c <= l / m
  {
    var p, q := k / m, l / m;
    assert k == m * p + k % m && l == m * q + l % m;
    assert m * (p + 1) == m * p + m && m * (q + 1) == m * q + m;
    if p < c { Times(p + 1, c, m); } else { Times(c, p, m); }
    if q < c { Times(q + 1, c, m); } else { Times(c, q, m); }
  }

  lemma Regroup(a: int, b: int, c: int)
    ensures (a * b) * c == a * (b * c)
  {
  }

  /** The first place with a new number, when `m` does not divide the unit. */
  lemma Crossing(unit: int, m: int)
    requires unit > 0 && m > 0 && unit % m != 0
    ensures (unit - 1) / unit == 0 && unit / unit == 1 && (unit - 1) / m == unit / m
  {
    Quotient(0, unit - 1, unit);
    Quotient(1, 0, unit);
    assert unit == m * (unit / m) + unit % m;
    Quotient(unit / m, unit % m - 1, m);
  }

  lemma Times(a: int, c: int, m: int)
    requires a <= c && m > 0
    ensures a * m <= c * m && m * a <= m * c
  {
  }
}

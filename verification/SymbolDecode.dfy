/**
 The decoder reads back the coded values of a block and turns them into the last
 column of the sorted rotations.
 */
module SymbolDecode {
  import opened Rotations
  import opened Bits
  import opened BitStream
  import opened Counting
  import opened BwtSpec
  import opened CanonicalCode
  import opened RunLength
  import opened BlockFormat
  import opened Decoder
  import opened HeaderDecode
  import opened Mtf

  // ---------------------------------------------------------------- one code

  lemma {:induction false} MinLenPositive(len: seq<nat>)
    requires forall i :: 0 <= i < |len| ==> len[i] > 0
    ensures MinLen(len) > 0
  {
    if |len| > 0 { MinLenPositive(len[..|len| - 1]); }
  }

  /** The first bit of a field, and the rest. */
  lemma LeadingBit(x: nat, m: nat)
    requires m > 0 && x < Pow2(m)
    ensures var q := Pow2(m - 1);
      x / q <= 1 && x % q < q && x == (x / q) * q + x % q &&
      ToBits(x, m) == [x / q == 1] + ToBits(x % q, m - 1)
  {
    hide ToBits;
    var q := Pow2(m - 1);
    HiLo(x, q);
    HiBelow(x, x / q, x % q, q, 2);
    ToBitsSplit(x / q, x % q, 1, m - 1);
    OneBit(x / q);
  }

  lemma OneBit(h: nat)
    requires h <= 1
    ensures ToBits(h, 1) == [h == 1]
  {
    assert ToBits(h / 2, 0) == [];
  }

  /** The code of `sym` is found at its own length and at no shorter one. */
  lemma CodeTest(len: seq<nat>, sym: int, n: nat, a: nat, r: nat)
    requires Prefixable(len, MAX_LEN) && 0 <= sym < |len| <= 258 && MinLen(len) <= n <= len[sym]
    requires Code(len, sym) == a * Pow2(len[sym] - n) + r && r < Pow2(len[sym] - n)
    ensures n < len[sym] ==> a > Limit(len, n)
    ensures n == len[sym] ==> a <= Limit(len, n) && 0 <= a - Base(len, n) < 258 && Perm(len, a - Base(len, n)) == sym
  {
    hide First, Count, CountBelow, LF;
    MinMaxLen(len, sym);
    DivRem(a, r, Pow2(len[sym] - n));
    if n < len[sym] {
      LongerExceeds(len, sym, n);
    } else {
      assert a * Pow2(0) == a;
      CodeRange(len, sym);
      LFPlace(len, sym);
      PermIs(len, sym);
    }
  }

  lemma LFPlace(len: seq<nat>, i: int)
    requires 0 <= i < |len|
    ensures Code(len, i) - First(len, len[i]) + CountBelow(len, len[i]) == LF(len, i)
  {
  }

  lemma {:induction false} ReadRest(st: DState, site: Site, sym: int, a: nat, r: nat)
    requires var len := Lens(st);
      && Prefixable(len, MAX_LEN) && 0 <= sym < |len| <= 258 && MinLen(len) <= st.zn <= len[sym]
      && r < Pow2(len[sym] - st.zn)
      && Code(len, sym) == a * Pow2(len[sym] - st.zn) + r
    requires st.zvec == a
    ensures Feed(CheckCode(st, site), ToBits(r, Lens(st)[sym] - st.zn)) ==
      Some(Value(st.(point := MtfFirst(site), zn := 0, zvec := 0), site, sym))
    decreases Lens(st)[sym] - st.zn
  {
    hide Feed, Value, Code, Limit, Base, Perm, MinLen, ToBits, Prefixable;
    var len := Lens(st);
    CodeTest(len, sym, st.zn, a, r);
    LengthBound(len, sym);
    var m := len[sym] - st.zn;
    var end := Value(st.(point := MtfFirst(site), zn := 0, zvec := 0), site, sym);
    if m == 0 {
      FeedNothing(end);
      NoBits(r);
    } else {
      LeadingBit(r, m);
      var q := Pow2(m - 1);
      var h, r' := r / q, r % q;
      Regroup(a, h, q, r');
      var s1 := st.(point := MtfNext(site), zn := st.zn + 1);
      var s2 := s1.(zvec := 2 * a + h);
      ReadRest(s2, site, sym, 2 * a + h, r');
      FeedBitThen(s1, h == 1, ToBits(r', m - 1), end);
    }
  }

  lemma LengthBound(len: seq<nat>, sym: int)
    requires Prefixable(len, MAX_LEN) && 0 <= sym < |len|
    ensures 1 <= len[sym] <= MAX_LEN
  {
  }

  lemma NoBits(r: nat)
    ensures ToBits(r, 0) == []
  {
  }

  lemma Regroup(a: nat, h: nat, q: nat, r: nat)
    ensures a * (2 * q) + (h * q + r) == (2 * a + h) * q + r
  {
  }

  /** From its code the decoder finds the symbol, reading no bit further. */
  lemma ReadCode(st: DState, site: Site, sym: int)
    requires var len := Lens(st);
      Prefixable(len, MAX_LEN) && 0 <= sym < |len| <= 258 && st.zn == MinLen(len) && st.point == MtfFirst(site)
    ensures var len := Lens(st);
      Feed(st, ToBits(Code(len, sym), len[sym])) == Some(Value(st.(zn := 0, zvec := 0), site, sym))
  {
    hide Feed, Value, Code, MinLen, ToBits, CheckCode, Pow2, Prefixable, Lens;
    var len := Lens(st);
    CodeFits(len, sym, MAX_LEN);
    MinMaxLen(len, sym);
    LengthsPositive(len);
    var a, r := SplitField(Code(len, sym), len[sym], st.zn);
    var m := len[sym] - st.zn;
    var end := Value(st.(zn := 0, zvec := 0), site, sym);
    FeedOne(st, a, st.zn);
    var st' := st.(zvec := a);
    assert Lens(st') == len by { SameLens(st, a); }
    ReadRest(st', site, sym, a, r);
    FeedThen(st, ToBits(a, st.zn), CheckCode(st', site), ToBits(r, m), end);
  }

  lemma SameLens(st: DState, a: nat)
    ensures Lens(st.(zvec := a)) == Lens(st)
  {
  }

  lemma LengthsPositive(len: seq<nat>)
    requires Prefixable(len, MAX_LEN)
    ensures MinLen(len) > 0
  {
    MinLenPositive(len);
  }

  /** A field of `l` bits is read in two parts. */
  lemma SplitField(v: nat, l: nat, n: nat) returns (a: nat, r: nat)
    requires v < Pow2(l) && n <= l
    ensures v == a * Pow2(l - n) + r && r < Pow2(l - n) && a < Pow2(n)
    ensures ToBits(v, l) == ToBits(a, n) + ToBits(r, l - n)
  {
    hide ToBits, Pow2;
    var q := Pow2(l - n);
    a, r := v / q, v % q;
    HiLo(v, q);
    Pow2Add(n, l - n);
    HiBelow(v, a, r, q, Pow2(n));
    ToBitsSplit(a, r, n, l - n);
  }

  // ---------------------------------------------------------------- all values

  /** The coded values end with the end marker and hold no other. */
  predicate EndsWith(v: seq<nat>, eob: nat) {
    |v| > 0 && v[|v| - 1] == eob && forall k :: 0 <= k < |v| - 1 ==> v[k] < eob
  }

  /** The decoder has read all tables; what is to come are the codes of `v`. */
  ghost predicate Prepared(base: DState, c: Coding, a: nat, v: seq<nat>) {
    && base.len == c.len && base.selector == c.selector && base.nSelectors == |c.selector|
    && 3 <= AlphaSize(base) == a <= 258
    && Codable(c, a, v) && EndsWith(v, a - 1)
  }

  /** The table is chosen for value `k`. */
  function AtValue(base: DState, k: nat, es: int, n: nat, list: seq<nat>, tt: seq<byte>): DState {
    base.(groupNo := k / GROUP_SIZE, groupPos := GROUP_SIZE - 1 - k % GROUP_SIZE, zn := 0, zvec := 0,
          es := es, n := n, list := list, tt := tt)
  }

  /** The decoder waits for the first bits of value `k`. */
  function Waiting(base: DState, k: nat, site: Site, es: int, n: nat, list: seq<nat>, tt: seq<byte>): DState {
    var st := AtValue(base, k, es, n, list, tt);
    st.(point := MtfFirst(site), zn := MinLen(Lens(st)))
  }

  lemma LensAre(base: DState, c: Coding, a: nat, v: seq<nat>, k: nat, st: DState)
    requires Prepared(base, c, a, v) && k < |v|
    requires st.len == base.len && st.selector == base.selector && st.groupNo == k / GROUP_SIZE
    ensures k / GROUP_SIZE < |c.selector| && c.selector[k / GROUP_SIZE] < |c.len|
    ensures Lens(st) == LenFor(c, k) && |Lens(st)| == a && v[k] < a && Prefixable(Lens(st), MAX_LEN)
  {
    CodableAt(c, a, v, k);
  }

  /** After value `k` the decoder turns to value `k + 1`. */
  lemma StartNext(base: DState, c: Coding, a: nat, v: seq<nat>, k: nat, st: DState, site: Site)
    requires Prepared(base, c, a, v) && k + 1 < |v|
    requires st == AtValue(base, k, st.es, st.n, st.list, st.tt).(point := st.point)
    ensures StartMtf(st, site) == Waiting(base, k + 1, site, st.es, st.n, st.list, st.tt)
  {
    hide MinLen, AlphaSize, ValidTables;
    CodableAt(c, a, v, k + 1);
  }

  lemma StartFirst(base: DState, c: Coding, a: nat, v: seq<nat>, st: DState)
    requires Prepared(base, c, a, v) && base.zvec == 0
    requires st == base.(groupNo := -1, groupPos := 0)
    ensures StartMtf(st, AtStart) == Waiting(base, 0, AtStart, st.es, st.n, st.list, st.tt)
  {
    hide MinLen, AlphaSize, ValidTables;
    CodableAt(c, a, v, 0);
  }

  /** One value is read. */
  lemma OneValue(base: DState, c: Coding, a: nat, v: seq<nat>, k: nat, site: Site, es: int, n: nat, list: seq<nat>,
    tt: seq<byte>, end: Option<DState>)
    requires Prepared(base, c, a, v) && k < |v|
    requires end == Feed(Value(AtValue(base, k, es, n, list, tt).(point := MtfFirst(site)), site, v[k]),
      DataBits(c, a, v, k + 1))
    ensures Feed(Waiting(base, k, site, es, n, list, tt), DataBits(c, a, v, k)) == end
  {
    hide Feed, Value, MinLen, ToBits, Code, Prefixable;
    var st := Waiting(base, k, site, es, n, list, tt);
    LensAre(base, c, a, v, k, st);
    ReadCode(st, site, v[k]);
    FeedAppend(st, SymbolBits(c, v, k), DataBits(c, a, v, k + 1));
  }

  /** The weight of a digit after `d` more digits. */
  function Weight(n: nat, d: nat): nat {
    n * Pow2(d)
  }

  /** The digits of a run add up. */
  lemma {:induction false} ReadDigits(base: DState, c: Coding, a: nat, v: seq<nat>, k: nat, m: nat, es: int, n: nat,
    list: seq<nat>, tt: seq<byte>)
    requires Prepared(base, c, a, v) && k <= m < |v|
    requires forall j :: k <= j < m ==> v[j] <= RUNB
    requires Weight(n, m - k) <= RUN_WEIGHT_LIMIT && n > 0
    ensures Feed(Waiting(base, k, InRun, es, n, list, tt), DataBits(c, a, v, k))
      == Feed(Waiting(base, m, InRun, es + DigitSum(v[k..m], n), Weight(n, m - k), list, tt), DataBits(c, a, v, m))
    decreases m - k
  {
    hide Feed, DataBits, Waiting, Codable, StartMtf, AlphaSize, Weight;
    if k == m {
      assert v[k..m] == [];
      NoDoubling(n);
    } else {
      assert v[k..m][1..] == v[k + 1..m];
      var es' := es + (v[k] + 1) * n;
      Doubling(n, m - k);
      ReadDigits(base, c, a, v, k + 1, m, es', 2 * n, list, tt);
      var st := AtValue(base, k, es, n, list, tt).(point := MtfFirst(InRun));
      StartNext(base, c, a, v, k, st.(es := es', n := 2 * n), InRun);
      OneValue(base, c, a, v, k, InRun, es, n, list, tt,
               Feed(Waiting(base, k + 1, InRun, es', 2 * n, list, tt), DataBits(c, a, v, k + 1)));
    }
  }

  lemma NoDoubling(n: nat)
    ensures Weight(n, 0) == n
  {
  }

  lemma Doubling(n: nat, d: nat)
    requires d > 0
    ensures Weight(n, d) == Weight(2 * n, d - 1) >= 2 * n
  {
    assert n * (2 * Pow2(d - 1)) == (2 * n) * Pow2(d - 1);
    MulMonotone(1, Pow2(d - 1), 2 * n);
  }

  /** The symbols that list entries stand for. */
  function Unnumber(used: seq<byte>, l: seq<nat>): (s: seq<byte>)
    ensures |s| == |l|
  {
    seq(|l|, i requires 0 <= i < |l| => Nth(used, l[i], 0))
  }

  /** The block is complete. */
  predicate Finished(base: DState, end: DState, tt: seq<byte>) {
    && end.point == OutputReady && end.tt == tt
    && end.blockSize100k == base.blockSize100k && end.origPtr == base.origPtr
    && end.storedBlockCRC == base.storedBlockCRC && end.storedCombinedCRC == base.storedCombinedCRC
    && end.zvec == 0 && end.zn == 0 && end.es == 0 && end.n == 0
  }

  /** What remains fits in the block, and `origPtr` lies in it. */
  predicate Roomy(base: DState, total: nat) {
    total <= 100000 * base.blockSize100k <= 900000 && base.origPtr < total
  }

  lemma DecodeStep(w: seq<nat>, list: seq<nat>, eob: nat)
    requires |list| > 0 && eob > RUNB && Decode(w, list, eob).Some? && w[0] > RUNB && w[0] != eob
    ensures w[0] <= |list|
    ensures Decode(w[1..], MoveToFront(list, w[0] - 1), eob).Some?
    ensures Decode(w, list, eob).value == [list[w[0] - 1]] + Decode(w[1..], MoveToFront(list, w[0] - 1), eob).value
  {
  }

  lemma DecodeRunStep(w: seq<nat>, list: seq<nat>, eob: nat)
    requires |list| > 0 && eob > RUNB && Decode(w, list, eob).Some? && w[0] <= RUNB
    ensures 0 < DigitsAhead(w) < |w| && Decode(w[DigitsAhead(w)..], list, eob).Some?
    ensures Decode(w, list, eob).value
         == Copies(list[0], DigitSum(w[..DigitsAhead(w)], 1)) + Decode(w[DigitsAhead(w)..], list, eob).value
  {
  }

  lemma UnnumberAppend(used: seq<byte>, l: seq<nat>, r: seq<nat>)
    ensures Unnumber(used, l + r) == Unnumber(used, l) + Unnumber(used, r)
  {
  }

  lemma UnnumberOne(used: seq<byte>, x: nat, r: seq<nat>, tt: seq<byte>)
    ensures tt + Unnumber(used, [x] + r) == tt + [Nth(used, x, 0)] + Unnumber(used, r)
  {
    UnnumberAppend(used, [x], r);
  }

  lemma UnnumberCopies(used: seq<byte>, x: nat, z: nat)
    ensures Unnumber(used, Copies(x, z)) == Rep(Nth(used, x, 0), z)
  {
  }

  /** From the next value on, outside a run. */
  lemma {:induction false} ReadValues(base: DState, c: Coding, a: nat, v: seq<nat>, k: nat, site: Site,
    list: seq<nat>, tt: seq<byte>) returns (end: DState)
    requires Prepared(base, c, a, v) && k < |v| && site != InRun && |list| == 256
    requires Decode(v[k..], list, a - 1).Some? && Roomy(base, |tt| + |Decode(v[k..], list, a - 1).value|)
    ensures Feed(Waiting(base, k, site, 0, 0, list, tt), DataBits(c, a, v, k)) == Some(end)
    ensures Finished(base, end, tt + Unnumber(UsedOf(base.inUse), Decode(v[k..], list, a - 1).value))
    decreases |v| - k, 1
  {
    hide Feed, DataBits, Waiting, StartMtf, Decode, UsedOf, Codable;
    var w := v[k..];
    var rest := Decode(w, list, a - 1).value;
    var st := AtValue(base, k, 0, 0, list, tt).(point := MtfFirst(site));
    if v[k] > RUNB {
      end := ReadSymbol(base, c, a, v, k, site, list, tt);
      OneValue(base, c, a, v, k, site, 0, 0, list, tt, Some(end));
    } else {
      DecodeRunStep(w, list, a - 1);
      var d := DigitsAhead(w);
      var m := k + d;
      assert w[d..] == v[m..] && w[..d] == v[k..m];
      assert forall j :: k <= j < m ==> v[j] == w[j - k];
      assert v[m] == w[d];
      var sum := DigitSum(v[k..m], 1);
      RunFits(v[k..m], sum);
      var tt' := AddRun(base, list, tt, sum);
      end := ReadSymbol(base, c, a, v, m, InRun, list, tt');
      ReadRun(base, c, a, v, k, m, site, list, tt, sum, Some(end));
      UnnumberCopies(UsedOf(base.inUse), list[0], sum);
      UnnumberAppend(UsedOf(base.inUse), Copies(list[0], sum), Decode(v[m..], list, a - 1).value);
      Assoc(tt, Rep(Nth(UsedOf(base.inUse), list[0], 0), sum),
        Unnumber(UsedOf(base.inUse), Decode(v[m..], list, a - 1).value));
    }
  }

  lemma Assoc(a: seq<byte>, b: seq<byte>, c: seq<byte>)
    ensures (a + b) + c == a + (b + c)
  {
  }

  lemma RunFits(d: seq<nat>, sum: nat)
    requires sum == DigitSum(d, 1) && sum <= 900000
    ensures Pow2(|d|) <= RUN_WEIGHT_LIMIT
  {
    DigitSumLarge(d, 1);
    assert (Pow2(|d|) - 1) * 1 == Pow2(|d|) - 1;
  }

  /** A run of the front symbol is written out. */
  function AddRun(base: DState, list: seq<nat>, tt: seq<byte>, sum: nat): seq<byte>
    requires |list| > 0
  {
    tt + Rep(Nth(UsedOf(base.inUse), list[0], 0), sum)
  }

  /** A run of the front symbol and the value that ends it. */
  lemma ReadRun(base: DState, c: Coding, a: nat, v: seq<nat>, k: nat, m: nat, site: Site, list: seq<nat>,
    tt: seq<byte>, sum: nat, end: Option<DState>)
    requires Prepared(base, c, a, v) && k < m < |v| && site != InRun && |list| == 256
    requires (forall j :: k <= j < m ==> v[j] <= RUNB) && v[m] > RUNB && sum == DigitSum(v[k..m], 1)
    requires Pow2(m - k) <= RUN_WEIGHT_LIMIT && |tt| + sum <= 100000 * base.blockSize100k
    requires end == Feed(NotInRun(AtValue(base, m, 0, 0, list,
      AddRun(base, list, tt, sum)).(point := MtfFirst(InRun)), v[m]),
                         DataBits(c, a, v, m + 1))
    ensures Feed(Waiting(base, k, site, 0, 0, list, tt), DataBits(c, a, v, k)) == end
  {
    hide Feed, DataBits, Waiting, StartMtf, UsedOf, NotInRun, Codable, AlphaSize, Pow2;
    var first := v[k];
    Pow2Values();
    assert Pow2(m - k) == 2 * Pow2(m - k - 1) by { PowStep(m - k); }
    assert v[k..m][1..] == v[k + 1..m];
    ReadDigits(base, c, a, v, k + 1, m, first, 2, list, tt);
    // the first digit
    var st := AtValue(base, k, -1, 1, list, tt).(point := MtfFirst(site));
    StartNext(base, c, a, v, k, st.(es := first, n := 2), InRun);
    FirstDigit(base, k, site, list, tt, v[k]);
    // the value after the run
    var es, n := first + DigitSum(v[k + 1..m], 2), 2 * Pow2(m - k - 1);
    assert es + 1 == sum;
    EndOfRun(base, m, es, n, list, tt, v[m]);
    OneValue(base, c, a, v, m, InRun, es, n, list, tt, end);
    OneValue(base, c, a, v, k, site, 0, 0, list, tt, end);
  }

  lemma PowStep(k: nat)
    requires k > 0
    ensures Pow2(k) == 2 * Pow2(k - 1)
  {
  }

  lemma FirstDigit(base: DState, k: nat, site: Site, list: seq<nat>, tt: seq<byte>, d: nat)
    requires d <= RUNB && site != InRun && AlphaSize(base) >= 3
    ensures Value(AtValue(base, k, 0, 0, list, tt).(point := MtfFirst(site)), site, d)
      == StartMtf(AtValue(base, k, d, 2, list, tt).(point := MtfFirst(site)), InRun)
  {
    hide StartMtf, UsedOf;
  }

  lemma EndOfRun(base: DState, m: nat, es: int, n: nat, list: seq<nat>, tt: seq<byte>, sym: nat)
    requires sym > RUNB && es >= 0 && |list| > 0 && |tt| + es + 1 <= 100000 * base.blockSize100k
    ensures var tt' := AddRun(base, list, tt, es + 1);
      Value(AtValue(base, m, es, n, list, tt).(point := MtfFirst(InRun)), InRun, sym)
      == NotInRun(AtValue(base, m, 0, 0, list, tt').(point := MtfFirst(InRun)), sym)
  {
    hide NotInRun, UsedOf;
  }

  /** The reaction to value `k` when it is not a run digit, and all that follows. */
  lemma {:induction false} ReadSymbol(base: DState, c: Coding, a: nat, v: seq<nat>, k: nat, site: Site,
    list: seq<nat>, tt: seq<byte>) returns (end: DState)
    requires Prepared(base, c, a, v) && k < |v| && v[k] > RUNB && |list| == 256
    requires Decode(v[k..], list, a - 1).Some? && Roomy(base, |tt| + |Decode(v[k..], list, a - 1).value|)
    ensures Feed(NotInRun(AtValue(base, k, 0, 0, list, tt).(point := MtfFirst(site)), v[k]),
      DataBits(c, a, v, k + 1)) == Some(end)
    ensures Finished(base, end, tt + Unnumber(UsedOf(base.inUse), Decode(v[k..], list, a - 1).value))
    decreases |v| - k, 0
  {
    hide Feed, DataBits, StartMtf, Waiting, UsedOf, Codable, MoveToFront, Unnumber;
    var st := AtValue(base, k, 0, 0, list, tt).(point := MtfFirst(site));
    var w := v[k..];
    var rest := Decode(w, list, a - 1).value;
    if v[k] == a - 1 {
      assert k + 1 == |v|;
      assert DataBits(c, a, v, k + 1) == [] by { NoMoreData(c, a, v); }
      end := FinishBlock(st);
      FeedNothing(end);
      assert tt + Unnumber(UsedOf(base.inUse), rest) == tt;
    } else {
      DecodeStep(w, list, a - 1);
      assert w[1..] == v[k + 1..];
      var list' := MoveToFront(list, v[k] - 1);
      var uc := Nth(UsedOf(base.inUse), list[v[k] - 1], 0);
      StartNext(base, c, a, v, k, st.(list := list', tt := tt + [uc]), AfterSymbol);
      end := ReadValues(base, c, a, v, k + 1, AfterSymbol, list', tt + [uc]);
      var more := Decode(v[k + 1..], list', a - 1).value;
      UnnumberOne(UsedOf(base.inUse), list[v[k] - 1], more, tt);
    }
  }

  lemma NoMoreData(c: Coding, a: nat, v: seq<nat>)
    requires Codable(c, a, v)
    ensures DataBits(c, a, v, |v|) == []
  {
  }
}

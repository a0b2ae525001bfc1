/**
 What holds of the decoder's saved variables at every request, on any input
 whatever: no table is ever indexed out of range, and no request is for more bits
 than the buffer can hold.
 */
module DecoderState {
  import opened Rotations
  import opened Bits
  import opened RunLength
  import opened MtfEncode
  import opened BlockFormat
  import opened Decoder
  import opened Counting
  import opened BwtSpec
  import opened CanonicalCode
  import opened SymbolDecode
  import Mtf

  predicate SizeKnown(st: DState) {
    1 <= st.blockSize100k <= 9
  }

  predicate MapKnown(st: DState) {
    SizeKnown(st) && |st.inUse| == 256 && |Used(st.inUse, 256)| > 0
  }

  predicate GroupsKnown(st: DState) {
    MapKnown(st) && 2 <= st.nGroups <= 6
  }

  predicate SelectorsKnown(st: DState) {
    && GroupsKnown(st) && |st.selector| == st.nSelectors >= 1
    && Bounded(st.selector, st.nGroups)
  }

  predicate Bounded(s: seq<nat>, limit: nat) {
    forall i :: 0 <= i < |s| ==> s[i] < limit
  }

  /** Lengths as the decoder accepts them. */
  predicate Lengths(len: seq<nat>) {
    forall i :: 0 <= i < |len| ==> 1 <= len[i] <= 20
  }

  predicate TablesSoFar(st: DState) {
    SelectorsKnown(st) && forall t :: 0 <= t < |st.len| ==> |st.len[t]| == AlphaSize(st) && Lengths(st.len[t])
  }

  predicate Reading(st: DState) {
    && TablesSoFar(st) && |st.len| == st.nGroups
    && |st.list| == 256 && Bounded(st.list[..AlphaSize(st) - 2], AlphaSize(st) - 2)
    && |st.tt| <= 100000 * st.blockSize100k
  }

  predicate InGroup(st: DState) {
    0 <= st.groupNo < st.nSelectors && st.groupPos < GROUP_SIZE
  }

  predicate RunOk(st: DState, site: Site) {
    site == InRun ==> st.es >= 0 && 0 < st.n <= 2 * RUN_WEIGHT_LIMIT
  }

  predicate WellFormed(st: DState) {
    match st.point
    case Magic(k) => k <= 3
    case BlkHdr(k) => k <= 5 && SizeKnown(st)
    case BlkCrc(k) => k <= 3 && SizeKnown(st) && st.storedBlockCRC < 0x1_0000_0000
    case RandBit => SizeKnown(st) && st.storedBlockCRC < 0x1_0000_0000
    case OrigPtr(k) => k <= 2 && SizeKnown(st)
    case Mapping1 => SizeKnown(st) && st.i < 16 && |st.inUse16| == st.i && st.inUse == []
    case Mapping2 => SizeKnown(st) && st.i < 16 && st.j < 16 && |st.inUse16| == 16 && |st.inUse| == 16 * st.i + st.j
    case Selector1 => MapKnown(st) && st.j == 0
    case Selector2 => GroupsKnown(st)
    case Selector3 => GroupsKnown(st) && st.j < st.nGroups && |st.selectorMtf| < st.nSelectors
      && Bounded(st.selectorMtf, st.nGroups)
    case Coding1 => TablesSoFar(st) && |st.len| < st.nGroups && st.lenT == []
    case Coding2 => TablesSoFar(st) && |st.len| < st.nGroups && |st.lenT| < AlphaSize(st) && Lengths(st.lenT)
      && 1 <= st.curr <= 20
    case Coding3 => TablesSoFar(st) && |st.len| < st.nGroups && |st.lenT| < AlphaSize(st) && Lengths(st.lenT)
      && 1 <= st.curr <= 20
    case MtfFirst(site) => Reading(st) && InGroup(st) && RunOk(st, site) && st.zn == MinLen(Lens(st))
    case MtfNext(site) => Reading(st) && InGroup(st) && RunOk(st, site) && MinLen(Lens(st)) <= st.zn <= 21
    case EndHdr(k) => k <= 5
    case StreamCrc(k) => k <= 3 && st.storedCombinedCRC < 0x1_0000_0000
    case OutputReady => SizeKnown(st) && st.origPtr < |st.tt| <= 100000 * st.blockSize100k
    case Idle => st.storedCombinedCRC < 0x1_0000_0000
    case Failed(_) => true
  }

  // ---------------------------------------------------------------- requests are small

  lemma {:induction false} MinLenRange(len: seq<nat>)
    requires |len| > 0 && Lengths(len)
    ensures 1 <= MinLen(len) <= 20
  {
    MinMaxLen(len, 0);
    MinLenPositive(len);
  }

  lemma LensKnown(st: DState)
    requires TablesSoFar(st) && |st.len| == st.nGroups && InGroup(st)
    ensures |Lens(st)| == AlphaSize(st) && Lengths(Lens(st)) && 1 <= MinLen(Lens(st)) <= 20
  {
    hide MinLen;
    assert st.selector[st.groupNo] < |st.len|;
    MinLenRange(Lens(st));
  }

  /** No request is for nothing, or for more than twenty bits. */
  lemma NeedBounded(st: DState)
    requires WellFormed(st) && Running(st)
    ensures 1 <= Need(st) <= 20
  {
    if st.point.MtfFirst? { LensKnown(st); }
  }

  // ---------------------------------------------------------------- every step keeps it

  lemma {:induction false} NextGroupKeeps(st: DState, k: nat)
    requires k <= 16 && SizeKnown(st) && |st.inUse16| == 16 && |st.inUse| == 16 * k
    ensures WellFormed(NextGroup(st, k))
    decreases 16 - k
  {
    hide Used;
    if k < 16 && !st.inUse16[k] {
      NextGroupKeeps(st.(inUse := st.inUse + seq(16, _ => false)), k + 1);
    }
  }

  lemma {:induction false} UndoBounded(ms: seq<nat>, pos: seq<nat>, limit: nat)
    requires limit > 0 && Bounded(pos, limit)
    ensures Bounded(UndoSelectors(ms, pos), limit)
    decreases |ms|
  {
    if ms != [] {
      if ms[0] < |pos| {
        UndoBounded(ms[1..], Mtf.MoveToFront(pos, ms[0]), limit);
      } else {
        UndoBounded(ms[1..], pos, limit);
      }
    }
  }

  /** Going on to the next value keeps the tables within reach. */
  lemma StartKeeps(st: DState, site: Site)
    requires Reading(st) && RunOk(st, site)
    requires InGroup(st) || (st.groupNo == -1 && st.groupPos == 0)
    ensures WellFormed(StartMtf(st, site))
  {
    hide MinLen, Lengths;
  }

  lemma {:induction false} PermBelow(len: seq<nat>, k: int, i: nat)
    requires i <= |len| && |len| > 0
    ensures SymbolFrom(len, k, i) < |len|
    decreases |len| - i
  {
    hide LF;
    if i < |len| { PermBelow(len, k, i + 1); }
  }

  lemma MoveKeeps(list: seq<nat>, k: nat, limit: nat)
    requires k < limit <= |list| && Bounded(list[..limit], limit)
    ensures Bounded(Mtf.MoveToFront(list, k)[..limit], limit)
  {
    var m := Mtf.MoveToFront(list, k);
    forall i | 0 <= i < limit ensures m[..limit][i] < limit {
      var j := if i == 0 then k else if i <= k then i - 1 else i;
      assert m[i] == list[j] == list[..limit][j];
    }
  }

  lemma NotInRunKeeps(st: DState, sym: nat)
    requires Reading(st) && InGroup(st) && sym < AlphaSize(st)
    ensures WellFormed(NotInRun(st, sym))
  {
    hide Used, StartMtf, Lengths, Mtf.MoveToFront;
    var a := AlphaSize(st);
    if sym == a - 1 {
    } else if sym <= Mtf.RUNB {
      StartKeeps(st.(es := -1 + (sym + 1) * 1, n := 2), InRun);
    } else if |st.tt| < 100000 * st.blockSize100k {
      MoveKeeps(st.list, sym - 1, a - 2);
      var uc := Nth(UsedOf(st.inUse), st.list[sym - 1], 0);
      StartKeeps(st.(list := Mtf.MoveToFront(st.list, sym - 1), tt := st.tt + [uc]), AfterSymbol);
    }
  }

  lemma ValueKeeps(st: DState, site: Site, sym: nat)
    requires Reading(st) && InGroup(st) && RunOk(st, site) && sym < AlphaSize(st)
    ensures WellFormed(Value(st, site, sym))
  {
    hide Used, StartMtf, NotInRun, Lengths;
    if site == InRun && sym <= Mtf.RUNB {
      if st.n < RUN_WEIGHT_LIMIT {
        StartKeeps(st.(es := st.es + (sym + 1) * st.n, n := 2 * st.n), InRun);
      }
    } else if site == InRun {
      var st' := EndRun(st);
      if !st'.point.Failed? { NotInRunKeeps(st', sym); }
    } else {
      NotInRunKeeps(st, sym);
    }
  }

  lemma CheckKeeps(st: DState, site: Site)
    requires Reading(st) && InGroup(st) && RunOk(st, site) && MinLen(Lens(st)) <= st.zn <= 21
    ensures WellFormed(CheckCode(st, site))
  {
    hide Used, Value, Limit, Base, MinLen, Lengths;
    LensKnown(st);
    if st.zn <= 20 && st.zvec <= Limit(Lens(st), st.zn) {
      var k := st.zvec - Base(Lens(st), st.zn);
      PermBelow(Lens(st), k, 0);
      ValueKeeps(st.(point := MtfFirst(site), zn := 0, zvec := 0), site, Perm(Lens(st), k));
    }
  }

  lemma Coding2Keeps(st: DState, v: nat)
    requires WellFormed(st) && st.point == Coding2
    ensures WellFormed(AfterCoding2(st, v))
  {
    hide Used, StartMtf;
    if v == 0 {
      var lenT := st.lenT + [st.curr];
      assert Lengths(lenT);
      if |lenT| == AlphaSize(st) && |st.len| + 1 == st.nGroups {
        StartKeeps(st.(lenT := [], len := st.len + [lenT], curr := 0, groupNo := -1, groupPos := 0,
                       list := Iota(256), tt := []), AtStart);
      }
    }
  }

  lemma Selector3Keeps(st: DState, v: nat)
    requires WellFormed(st) && st.point == Selector3
    ensures WellFormed(AfterSelector3(st, v))
  {
    hide Used;
    if v == 0 {
      UndoBounded(st.selectorMtf + [st.j], Iota(st.nGroups), st.nGroups);
    }
  }

  predicate InHeader(st: DState) {
    st.point.Magic? || st.point.BlkHdr? || st.point.BlkCrc? || st.point.RandBit? || st.point.OrigPtr?
    || st.point.EndHdr? || st.point.StreamCrc?
  }

  lemma HeaderKeeps(st: DState, v: nat)
    requires WellFormed(st) && InHeader(st)
    ensures WellFormed(After(st, v))
  {
    hide Used;
  }

  /** Whatever bits arrive, the saved variables stay well formed. */
  lemma AfterKeeps(st: DState, v: nat)
    requires WellFormed(st) && Running(st) && v < Pow2(Need(st))
    ensures WellFormed(After(st, v))
  {
    hide Used, StartMtf, NextGroup, CheckCode, Pow2;
    if InHeader(st) {
      HeaderKeeps(st, v);
      return;
    }
    match st.point
    case Mapping1 => if st.i == 15 { NextGroupKeeps(AfterMapping1State(st, v), 0); }
    case Mapping2 => if st.j == 15 { NextGroupKeeps(st.(inUse := st.inUse + [v == 1]), st.i + 1); }
    case Selector3 => Selector3Keeps(st, v);
    case Coding2 => Coding2Keeps(st, v);
    case MtfFirst(site) => LensKnown(st); SameTables(st, v); CheckKeeps(st.(zvec := v), site);
    case MtfNext(site) => SameTables(st, 2 * st.zvec + v); CheckKeeps(st.(zvec := 2 * st.zvec + v), site);
    case _ =>
  }

  function AfterMapping1State(st: DState, v: nat): DState {
    st.(inUse16 := st.inUse16 + [v == 1], inUse := [])
  }

  lemma SameTables(st: DState, z: nat)
    ensures Lens(st.(zvec := z)) == Lens(st)
  {
  }
}

/**
 The block decoder as a machine that asks for a few bits at a time.  Everything that
 the decoder must remember between two requests is in its state, so it can be
 suspended at any of them.
 */
module Decoder {
  import opened Rotations
  import opened Bits
  import opened BitStream
  import opened Counting
  import opened BwtSpec
  import opened CanonicalCode
  import opened RunLength
  import opened MtfEncode
  import opened BlockFormat
  import Mtf

  const RUN_WEIGHT_LIMIT := 2097152

  datatype Error = DataErrorMagic | DataError | Randomised

  /** Where in the code a value of the move-to-front stream is being read. */
  datatype Site = AtStart | InRun | AfterSymbol

  /** The points at which the decoder waits for input. */
  datatype Point =
    | Magic(k: nat) | BlkHdr(k: nat) | BlkCrc(k: nat) | RandBit | OrigPtr(k: nat)
    | Mapping1 | Mapping2 | Selector1 | Selector2 | Selector3
    | Coding1 | Coding2 | Coding3
    | MtfFirst(site: Site) | MtfNext(site: Site)
    | EndHdr(k: nat) | StreamCrc(k: nat)
    | OutputReady | Idle | Failed(error: Error)

  /** The decoder's saved variables.  A variable whose value is no longer needed is cleared,
      so that two decoders that have read the same bits are in equal states.  `inUse`, `lenT`,
      `len`, `selectorMtf` and `tt` grow as their elements arrive. */
  datatype DState = DState(
    point: Point,
    blockSize100k: nat,
    storedBlockCRC: nat,
    storedCombinedCRC: nat,
    origPtr: nat,
    inUse16: seq<bool>,
    inUse: seq<bool>,
    i: nat, j: nat,
    nGroups: nat,
    nSelectors: nat,
    selectorMtf: seq<nat>,
    selector: seq<nat>,
    curr: int,
    lenT: seq<nat>,
    len: seq<seq<nat>>,
    groupNo: int,
    groupPos: nat,
    zn: nat,
    zvec: nat,
    es: int,
    n: nat,
    list: seq<nat>,
    tt: seq<byte>)

  function Init(): DState {
    DState(Magic(0), 0, 0, 0, 0, [], [], 0, 0, 0, 0, [], [], 0, [], [], -1, 0, 0, 0, 0, 0, [], [])
  }

  function Nth<T>(s: seq<T>, i: int, default: T): T {
    if 0 <= i < |s| then s[i] else default
  }

  /** After a failure list and block are no longer needed. */
  function Fail(st: DState, e: Error): DState {
    st.(point := Failed(e), list := [], tt := [])
  }

  predicate Running(st: DState) {
    !st.point.OutputReady? && !st.point.Idle? && !st.point.Failed?
  }

  /** How many bits the decoder is waiting for. */
  function Need(st: DState): nat {
    match st.point
    case Magic(_) => 8
    case BlkHdr(_) => 8
    case BlkCrc(_) => 8
    case RandBit => 1
    case OrigPtr(_) => 8
    case Mapping1 => 1
    case Mapping2 => 1
    case Selector1 => 3
    case Selector2 => 15
    case Selector3 => 1
    case Coding1 => 5
    case Coding2 => 1
    case Coding3 => 1
    case MtfFirst(_) => st.zn
    case MtfNext(_) => 1
    case EndHdr(_) => 8
    case StreamCrc(_) => 8
    case OutputReady => 0
    case Idle => 0
    case Failed(_) => 0
  }

  // ---------------------------------------------------------------- headers

  function AfterMagic(st: DState, k: nat, v: nat): DState {
    if k == 0 then if v == 0x42 then st.(point := Magic(1)) else Fail(st, DataErrorMagic)
    else if k == 1 then if v == 0x5a then st.(point := Magic(2)) else Fail(st, DataErrorMagic)
    else if k == 2 then if v == 0x68 then st.(point := Magic(3)) else Fail(st, DataErrorMagic)
    else if v < 0x31 || v > 0x39 then Fail(st, DataErrorMagic)
    else st.(point := BlkHdr(0), blockSize100k := v - 0x30)
  }

  function AfterBlkHdr(st: DState, k: nat, v: nat): DState {
    if k == 0 && v == 0x17 then st.(point := EndHdr(1))
    else if k > 5 || v != BLOCK_MAGIC[k] then Fail(st, DataError)
    else if k < 5 then st.(point := BlkHdr(k + 1))
    else st.(point := BlkCrc(0), storedBlockCRC := 0)
  }

  function ShiftIn(crc: nat, v: nat): nat {
    (crc * 256 + v) % 0x1_0000_0000
  }

  function AfterBlkCrc(st: DState, k: nat, v: nat): DState {
    st.(point := if k < 3 then BlkCrc(k + 1) else RandBit, storedBlockCRC := ShiftIn(st.storedBlockCRC, v))
  }

  function AfterOrigPtr(st: DState, k: nat, v: nat): DState {
    var o := st.origPtr * 256 + v;
    if k < 2 then st.(point := OrigPtr(k + 1), origPtr := o)
    else if o > 10 + 100000 * st.blockSize100k then Fail(st.(origPtr := o), DataError)
    else st.(point := Mapping1, origPtr := o, i := 0, inUse16 := [], inUse := [])
  }

  function AfterEndHdr(st: DState, k: nat, v: nat): DState {
    if k > 5 || v != END_MAGIC[k] then Fail(st, DataError)
    else if k < 5 then st.(point := EndHdr(k + 1))
    else st.(point := StreamCrc(0), storedCombinedCRC := 0)
  }

  function AfterStreamCrc(st: DState, k: nat, v: nat): DState {
    st.(point := if k < 3 then StreamCrc(k + 1) else Idle, storedCombinedCRC := ShiftIn(st.storedCombinedCRC, v))
  }

  // ---------------------------------------------------------------- symbol map

  /** Goes on to group `i` of sixteen symbols, or past it when none of them is in use. */
  function NextGroup(st: DState, i: nat): DState
    decreases 16 - i
  {
    if i >= 16 then EndMapping(st)
    else if Nth(st.inUse16, i, false) then st.(point := Mapping2, i := i, j := 0)
    else NextGroup(st.(inUse := st.inUse + seq(16, _ => false)), i + 1)
  }

  function UsedOf(inUse: seq<bool>): seq<byte> {
    if |inUse| == 256 then Used(inUse, 256) else []
  }

  function EndMapping(st: DState): DState {
    if |UsedOf(st.inUse)| == 0 then Fail(st, DataError) else st.(point := Selector1, inUse16 := [], i := 0, j := 0)
  }

  function AlphaSize(st: DState): nat {
    |UsedOf(st.inUse)| + 2
  }

  function AfterMapping1(st: DState, v: nat): DState {
    var u := st.inUse16 + [v == 1];
    if st.i + 1 < 16 then st.(inUse16 := u, i := st.i + 1)
    else NextGroup(st.(inUse16 := u, inUse := []), 0)
  }

  function AfterMapping2(st: DState, v: nat): DState {
    var u := st.inUse + [v == 1];
    if st.j + 1 < 16 then st.(inUse := u, j := st.j + 1)
    else NextGroup(st.(inUse := u), st.i + 1)
  }

  // ---------------------------------------------------------------- selectors

  /** Undoes the move-to-front coding of the selectors. */
  function UndoSelectors(ms: seq<nat>, pos: seq<nat>): (r: seq<nat>)
    ensures |r| == |ms|
  {
    if ms == [] then []
    else if ms[0] >= |pos| then [0] + UndoSelectors(ms[1..], pos)
    else [pos[ms[0]]] + UndoSelectors(ms[1..], Mtf.MoveToFront(pos, ms[0]))
  }

  function AfterSelector1(st: DState, v: nat): DState {
    if v < 2 || v > 6 then Fail(st, DataError) else st.(point := Selector2, nGroups := v)
  }

  function AfterSelector2(st: DState, v: nat): DState {
    if v < 1 then Fail(st, DataError)
    else st.(point := Selector3, nSelectors := v, selectorMtf := [], j := 0)
  }

  function AfterSelector3(st: DState, v: nat): DState {
    if v != 0 then
      if st.j + 1 >= st.nGroups then Fail(st, DataError) else st.(j := st.j + 1)
    else
      var ms := st.selectorMtf + [st.j];
      if |ms| < st.nSelectors then st.(selectorMtf := ms, j := 0)
      else st.(point := Coding1, selectorMtf := [], j := 0, selector := UndoSelectors(ms, Iota(st.nGroups)),
        len := [], lenT := [])
  }

  // ---------------------------------------------------------------- code lengths

  function CheckCurr(st: DState): DState {
    if st.curr < 1 || st.curr > 20 then Fail(st, DataError) else st.(point := Coding2)
  }

  function AfterCoding2(st: DState, v: nat): DState {
    if v != 0 then st.(point := Coding3)
    else
      var lenT := st.lenT + [if st.curr < 0 then 0 else st.curr];
      if |lenT| < AlphaSize(st) then CheckCurr(st.(lenT := lenT))
      else
        var len := st.len + [lenT];
        if |len| < st.nGroups then st.(point := Coding1, lenT := [], len := len, curr := 0)
        else StartMtf(st.(lenT := [], len := len, curr := 0, groupNo := -1, groupPos := 0,
                          list := Iota(256), tt := []), AtStart)
  }

  // ---------------------------------------------------------------- symbols

  /** The lengths in force for the current group. */
  function Lens(st: DState): seq<nat> {
    Nth(st.len, Nth(st.selector, st.groupNo, 0), [])
  }

  /** GET_MTF_VAL up to its first request: every fifty values the next selector takes over. */
  function StartMtf(st: DState, site: Site): DState {
    if st.groupPos == 0 then
      if st.groupNo + 1 >= st.nSelectors then Fail(st, DataError)
      else
        var st' := st.(groupNo := st.groupNo + 1, groupPos := GROUP_SIZE - 1);
        st'.(point := MtfFirst(site), zn := MinLen(Lens(st')))
    else
      st.(point := MtfFirst(site), groupPos := st.groupPos - 1, zn := MinLen(Lens(st)))
  }

  /** The test whether enough bits have been read. */
  function CheckCode(st: DState, site: Site): DState {
    var len := Lens(st);
    if st.zn > 20 then Fail(st, DataError)
    else if st.zvec <= Limit(len, st.zn) then
      var k := st.zvec - Base(len, st.zn);
      if k < 0 || k >= 258 then Fail(st, DataError)
        else Value(st.(point := MtfFirst(site), zn := 0, zvec := 0), site, Perm(len, k))
    else st.(point := MtfNext(site), zn := st.zn + 1)
  }

  /** One more value: in a run it may be another digit, otherwise the run is written out. */
  function Value(st: DState, site: Site, sym: int): DState {
    if site == InRun then
      if 0 <= sym <= Mtf.RUNB then RunDigit(st, sym)
      else
        var st' := EndRun(st);
        if st'.point.Failed? then st' else NotInRun(st', sym)
    else NotInRun(st, sym)
  }

  function NotInRun(st: DState, sym: int): DState {
    if sym == AlphaSize(st) - 1 then FinishBlock(st)
    else if 0 <= sym <= Mtf.RUNB then RunDigit(st.(es := -1, n := 1), sym)
    else if |st.tt| >= 100000 * st.blockSize100k then Fail(st, DataError)
    else if sym < 1 || sym > |st.list| then Fail(st, DataError)
    else
      var uc := Nth(UsedOf(st.inUse), st.list[sym - 1], 0);
      StartMtf(st.(list := Mtf.MoveToFront(st.list, sym - 1), tt := st.tt + [uc]), AfterSymbol)
  }

  function RunDigit(st: DState, sym: int): DState {
    if st.n >= RUN_WEIGHT_LIMIT then Fail(st, DataError)
    else StartMtf(st.(es := st.es + (sym + 1) * st.n, n := 2 * st.n), InRun)
  }

  function EndRun(st: DState): DState {
    var es := if st.es + 1 < 0 then 0 else st.es + 1;
    var uc := Nth(UsedOf(st.inUse), Nth(st.list, 0, 0), 0);
    if |st.tt| + es > 100000 * st.blockSize100k then Fail(st, DataError)
    else st.(es := 0, n := 0, tt := st.tt + Rep(uc, es))
  }

  function FinishBlock(st: DState): DState {
    if st.origPtr >= |st.tt| then Fail(st, DataError) else st.(point := OutputReady, list := [])
  }

  // ---------------------------------------------------------------- the machine

  /** The decoder's reaction to the bits it asked for. */
  function After(st: DState, v: nat): DState {
    match st.point
    case Magic(k) => AfterMagic(st, k, v)
    case BlkHdr(k) => AfterBlkHdr(st, k, v)
    case BlkCrc(k) => AfterBlkCrc(st, k, v)
    case RandBit => if v != 0 then Fail(st, Randomised) else st.(point := OrigPtr(0), origPtr := 0)
    case OrigPtr(k) => AfterOrigPtr(st, k, v)
    case Mapping1 => AfterMapping1(st, v)
    case Mapping2 => AfterMapping2(st, v)
    case Selector1 => AfterSelector1(st, v)
    case Selector2 => AfterSelector2(st, v)
    case Selector3 => AfterSelector3(st, v)
    case Coding1 => CheckCurr(st.(curr := v))
    case Coding2 => AfterCoding2(st, v)
    case Coding3 => CheckCurr(st.(curr := if v == 0 then st.curr + 1 else st.curr - 1))
    case MtfFirst(site) => CheckCode(st.(zvec := v), site)
    case MtfNext(site) => CheckCode(st.(zvec := 2 * st.zvec + v), site)
    case EndHdr(k) => AfterEndHdr(st, k, v)
    case StreamCrc(k) => AfterStreamCrc(st, k, v)
    case OutputReady => st
    case Idle => st
    case Failed(_) => st
  }

  /** The state after consuming exactly the bits `b`, if they answer whole requests. */
  function Feed(st: DState, b: seq<bool>): Option<DState>
    decreases |b|
  {
    if b == [] then Some(st)
    else if !Running(st) || Need(st) == 0 || Need(st) > |b| then None
    else Feed(After(st, FromBits(b[..Need(st)])), b[Need(st)..])
  }

  lemma {:induction false} FeedAppend(st: DState, a: seq<bool>, b: seq<bool>)
    requires Feed(st, a).Some?
    ensures Feed(st, a + b) == Feed(Feed(st, a).value, b)
    decreases |a|
  {
    hide After, Need;
    if a == [] {
      assert a + b == b;
    } else {
      var n := Need(st);
      assert (a + b)[..n] == a[..n] && (a + b)[n..] == a[n..] + b;
      FeedAppend(After(st, FromBits(a[..n])), a[n..], b);
    }
  }

  /** One request answered. */
  lemma FeedOne(st: DState, v: nat, n: nat)
    requires Running(st) && Need(st) == n > 0 && v < Pow2(n)
    ensures Feed(st, ToBits(v, n)) == Some(After(st, v))
  {
    hide After, Need;
    var b := ToBits(v, n);
    FromToBits(v, n);
    assert b[..n] == b && b[n..] == [];
    assert Feed(After(st, v), []) == Some(After(st, v));
  }

  /** Two stretches of input, one after the other. */
  lemma FeedThen(st: DState, a: seq<bool>, mid: DState, b: seq<bool>, end: DState)
    requires Feed(st, a) == Some(mid) && Feed(mid, b) == Some(end)
    ensures Feed(st, a + b) == Some(end)
  {
    FeedAppend(st, a, b);
  }
}

/**
 The decoder reads back the fixed part of a stream: headers, checksums, the symbol
 map, the selectors and the code lengths.
 */
module HeaderDecode {
  import opened Rotations
  import opened Bits
  import opened BitStream
  import opened RunLength
  import opened MtfEncode
  import opened BlockFormat
  import opened Decoder
  import opened Mtf

  // ---------------------------------------------------------------- bytes

  /** The decoder, waiting for a byte, gets one. */
  lemma FeedByte(st: DState, s: seq<byte>, end: DState)
    requires Running(st) && Need(st) == 8 && |s| > 0
    requires Feed(After(st, s[0]), BytesToBits(s[1..])) == Some(end)
    ensures Feed(st, BytesToBits(s)) == Some(end)
  {
    hide After, Need;
    Pow2Values();
    FeedOne(st, s[0], 8);
    FeedThen(st, ToBits(s[0], 8), After(st, s[0]), BytesToBits(s[1..]), end);
  }

  lemma FeedNothing(st: DState)
    ensures Feed(st, []) == Some(st) && Feed(st, BytesToBits([])) == Some(st)
  {
  }

  lemma FeedHeader(blockSize100k: nat)
    requires 1 <= blockSize100k <= 9
    ensures Feed(Init(), HeaderBits(blockSize100k)) == Some(Init().(point := BlkHdr(0), blockSize100k := blockSize100k))
  {
    hide Feed;
    var st := Init();
    var s: seq<byte> := [0x42, 0x5a, 0x68, 0x30 + blockSize100k];
    var end := st.(point := BlkHdr(0), blockSize100k := blockSize100k);
    FeedNothing(end);
    assert s[3..][1..] == [];
    FeedByte(st.(point := Magic(3)), s[3..], end);
    assert s[2..][1..] == s[3..];
    FeedByte(st.(point := Magic(2)), s[2..], end);
    assert s[1..][1..] == s[2..];
    FeedByte(st.(point := Magic(1)), s[1..], end);
    assert s[0..] == s;
    FeedByte(st, s, end);
  }

  lemma {:induction false} FeedBlockMagic(st: DState, k: nat)
    requires k <= 5 && st.point == BlkHdr(k)
    ensures Feed(st, BytesToBits(BLOCK_MAGIC[k..])) == Some(st.(point := BlkCrc(0), storedBlockCRC := 0))
    decreases 6 - k
  {
    hide Feed;
    var s := BLOCK_MAGIC[k..];
    var st' := After(st, s[0]);
    assert s[1..] == BLOCK_MAGIC[k + 1..];
    if k < 5 {
      FeedBlockMagic(st', k + 1);
    } else {
      FeedNothing(st');
    }
    FeedByte(st, s, st.(point := BlkCrc(0), storedBlockCRC := 0));
  }

  lemma {:induction false} FeedEndMagic(st: DState, k: nat)
    requires k <= 5 && st.point == (if k == 0 then BlkHdr(0) else EndHdr(k))
    ensures Feed(st, BytesToBits(END_MAGIC[k..])) == Some(st.(point := StreamCrc(0), storedCombinedCRC := 0))
    decreases 6 - k
  {
    hide Feed;
    var s := END_MAGIC[k..];
    var st' := After(st, s[0]);
    assert s[1..] == END_MAGIC[k + 1..];
    if k < 5 {
      FeedEndMagic(st', k + 1);
    } else {
      FeedNothing(st');
    }
    FeedByte(st, s, st.(point := StreamCrc(0), storedCombinedCRC := 0));
  }

  /** Shifting in the four bytes of a word gives the word. */
  lemma WordShifts(w: nat)
    requires w < 0x1_0000_0000
    ensures var s := Word(w); ShiftIn(ShiftIn(ShiftIn(ShiftIn(0, s[0]), s[1]), s[2]), s[3]) == w
  {
    hide Word, ShiftIn;
    var a := w / 256;
    var b := a / 256;
    var c := b / 256;
    Quotients(w, a, b, c);
    ShiftsBack(c, 0);
    ShiftsBack(b, c);
    ShiftsBack(a, b);
    ShiftsBack(w, a);
  }

  lemma ShiftsBack(v: nat, hi: nat)
    requires v < 0x1_0000_0000 && hi == v / 256
    ensures ShiftIn(hi, v % 256) == v
  {
  }

  lemma Quotients(w: nat, a: nat, b: nat, c: nat)
    requires w < 0x1_0000_0000 && a == w / 256 && b == a / 256 && c == b / 256
    ensures Word(w) == [c, b % 256, a % 256, w % 256] && c / 256 == 0 && c % 256 == c
  {
    assert w / 0x1_0000 == b && w / 0x100_0000 == c;
  }

  lemma FeedBlockCrc(st: DState, crc: nat)
    requires crc < 0x1_0000_0000 && st.point == BlkCrc(0) && st.storedBlockCRC == 0
    ensures Feed(st, BytesToBits(Word(crc))) == Some(st.(point := RandBit, storedBlockCRC := crc))
  {
    hide Feed, Word, ShiftIn;
    var s := Word(crc);
    WordShifts(crc);
    var s1 := After(st, s[0]);
    var s2 := After(s1, s[1]);
    var s3 := After(s2, s[2]);
    var s4 := After(s3, s[3]);
    FeedNothing(s4);
    assert s[3..][1..] == [];
    FeedByte(s3, s[3..], s4);
    assert s[2..][1..] == s[3..];
    FeedByte(s2, s[2..], s4);
    assert s[1..][1..] == s[2..];
    FeedByte(s1, s[1..], s4);
    FeedByte(st, s, s4);
  }

  lemma FeedStreamCrc(st: DState, crc: nat)
    requires crc < 0x1_0000_0000 && st.point == StreamCrc(0) && st.storedCombinedCRC == 0
    ensures Feed(st, BytesToBits(Word(crc))) == Some(st.(point := Idle, storedCombinedCRC := crc))
  {
    hide Feed, Word, ShiftIn;
    var s := Word(crc);
    WordShifts(crc);
    var s1 := After(st, s[0]);
    var s2 := After(s1, s[1]);
    var s3 := After(s2, s[2]);
    var s4 := After(s3, s[3]);
    FeedNothing(s4);
    assert s[3..][1..] == [];
    FeedByte(s3, s[3..], s4);
    assert s[2..][1..] == s[3..];
    FeedByte(s2, s[2..], s4);
    assert s[1..][1..] == s[2..];
    FeedByte(s1, s[1..], s4);
    FeedByte(st, s, s4);
  }

  /** Twenty-four bits are three bytes. */
  lemma ThreeBytes(v: nat)
    requires v < 0x100_0000
    ensures v / 0x1_0000 < 256
    ensures ToBits(v, 24) == BytesToBits([v / 0x1_0000, v / 256 % 256, v % 256])
  {
    hide ToBits, Pow2, BytesToBits;
    Pow2Values();
    var a: byte, b: byte, c: byte := v / 0x1_0000, v / 256 % 256, v % 256;
    ToBitsSplit(v / 0x100, c, 16, 8);
    ToBitsSplit(a, b, 8, 8);
    OneByte(a);
    OneByte(b);
    OneByte(c);
    BytesToBitsAppend([a], [b]);
    BytesToBitsAppend([a] + [b], [c]);
    assert [a] + [b] + [c] == [a, b, c];
  }

  lemma OrigPtrShifts(v: nat, a: nat, b: nat, c: nat)
    requires v < 0x100_0000 && a == v / 0x1_0000 && b == v / 256 % 256 && c == v % 256
    ensures (a * 256 + b) * 256 + c == v
  {
    assert v / 256 / 256 == a;
  }

  lemma FeedOrigPtr(st: DState, o: nat)
    requires o < 0x100_0000 && st.point == OrigPtr(0) && st.origPtr == 0
    requires o <= 10 + 100000 * st.blockSize100k
    ensures Feed(st, ToBits(o, 24)) == Some(st.(point := Mapping1, origPtr := o, i := 0, inUse16 := [], inUse := []))
  {
    hide Feed, ToBits;
    ThreeBytes(o);
    OrigPtrShifts(o, o / 0x1_0000, o / 256 % 256, o % 256);
    var s: seq<byte> := [o / 0x1_0000, o / 256 % 256, o % 256];
    var s1 := After(st, s[0]);
    var s2 := After(s1, s[1]);
    var s3 := After(s2, s[2]);
    FeedNothing(s3);
    assert s[2..][1..] == [];
    FeedByte(s2, s[2..], s3);
    assert s[1..][1..] == s[2..];
    FeedByte(s1, s[1..], s3);
    FeedByte(st, s, s3);
  }

  lemma FeedPreamble(st: DState, crc: nat, o: nat)
    requires crc < 0x1_0000_0000 && o < 0x100_0000 && st.point == BlkHdr(0)
    requires o <= 10 + 100000 * st.blockSize100k
    ensures Feed(st, PreambleBits(crc, o)) ==
      Some(st.(point := Mapping1, storedBlockCRC := crc, origPtr := o, i := 0, inUse16 := [], inUse := []))
  {
    hide Feed, ToBits, BytesToBits, Word;
    var s1 := st.(point := BlkCrc(0), storedBlockCRC := 0);
    var s2 := st.(point := RandBit, storedBlockCRC := crc);
    var s3 := s2.(point := OrigPtr(0), origPtr := 0);
    var s4 := st.(point := Mapping1, storedBlockCRC := crc, origPtr := o, i := 0, inUse16 := [], inUse := []);
    FeedBlockMagic(st, 0);
    assert BLOCK_MAGIC[0..] == BLOCK_MAGIC;
    FeedBlockCrc(s1, crc);
    FeedBit(s2, false);
    FeedOrigPtr(s3, o);
    var b1, b2, b3, b4 := BytesToBits(BLOCK_MAGIC), BytesToBits(Word(crc)), [false], ToBits(o, 24);
    FeedThen(st, b1, s1, b2, s2);
    FeedThen(st, b1 + b2, s2, b3, s3);
    FeedThen(st, b1 + b2 + b3, s3, b4, s4);
  }

  lemma FeedTrailer(st: DState, crc: nat)
    requires crc < 0x1_0000_0000 && st.point == BlkHdr(0)
    ensures Feed(st, TrailerBits(crc)) == Some(st.(point := Idle, storedCombinedCRC := crc))
  {
    hide Feed, BytesToBits, Word;
    var s1 := st.(point := StreamCrc(0), storedCombinedCRC := 0);
    FeedEndMagic(st, 0);
    assert END_MAGIC[0..] == END_MAGIC;
    FeedStreamCrc(s1, crc);
    FeedThen(st, BytesToBits(END_MAGIC), s1, BytesToBits(Word(crc)), s1.(point := Idle, storedCombinedCRC := crc));
  }

  // ---------------------------------------------------------------- nothing else is accepted

  /** Reading bytes one at a time. */
  lemma FeedFirst(st: DState, s: seq<byte>)
    requires Running(st) && Need(st) == 8 && |s| > 0
    ensures Feed(st, BytesToBits(s)) == Feed(After(st, s[0]), BytesToBits(s[1..]))
  {
    hide After, Need;
    Pow2Values();
    FeedOne(st, s[0], 8);
    FeedAppend(st, ToBits(s[0], 8), BytesToBits(s[1..]));
  }

  /** A decoder that has failed takes nothing more. */
  lemma FailedTakesNothing(st: DState, s: seq<byte>)
    requires st.point.Failed? && |s| > 0
    ensures Feed(st, BytesToBits(s)) == None
  {
  }

  /** The decoder has come through `s` to the given point. */
  ghost predicate Reaches(st: DState, s: seq<byte>, point: Point) {
    Feed(st, BytesToBits(s)).Some? && Feed(st, BytesToBits(s)).value.point == point
  }

  predicate StreamHeader(s: seq<byte>) {
    |s| == 4 && s[..3] == [0x42, 0x5a, 0x68] && 0x31 <= s[3] <= 0x39
  }

  /** The stream header is the only four bytes after which the decoder waits for a block. */
  lemma HeaderExact(s: seq<byte>)
    requires |s| == 4
    ensures Reaches(Init(), s, BlkHdr(0)) <==> StreamHeader(s)
  {
    hide Feed;
    HeaderFrom(Init(), s, 0);
    assert s[0..] == s;
  }

  function HeaderByte(k: nat): byte
    requires k < 3
  {
    if k == 0 then 0x42 else if k == 1 then 0x5a else 0x68
  }

  lemma {:induction false} HeaderFrom(st: DState, s: seq<byte>, k: nat)
    requires |s| == 4 && k <= 3 && st.point == Magic(k)
    ensures Reaches(st, s[k..], BlkHdr(0)) <==>
      (forall i: nat :: k <= i < 3 ==> s[i] == HeaderByte(i)) && 0x31 <= s[3] <= 0x39
    decreases 4 - k
  {
    hide Feed, BytesToBits;
    var t := s[k..];
    FeedFirst(st, t);
    var st' := After(st, t[0]);
    assert t[1..] == s[k + 1..];
    if k == 3 {
      assert t[1..] == [];
      FeedNothing(st');
    } else if st'.point.Failed? {
      FailedTakesNothing(st', s[k + 1..]);
    } else {
      HeaderFrom(st', s, k + 1);
    }
  }

  /** The block magic is the only six bytes that lead to a block. */
  lemma {:induction false} BlockMagicExact(st: DState, s: seq<byte>, k: nat)
    requires |s| == 6 && k <= 5 && st.point == BlkHdr(k)
    ensures Reaches(st, s[k..], BlkCrc(0)) <==> s[k..] == BLOCK_MAGIC[k..]
    decreases 6 - k
  {
    hide Feed, BytesToBits;
    var t := s[k..];
    FeedFirst(st, t);
    var st' := After(st, t[0]);
    assert t[1..] == s[k + 1..];
    assert t == [s[k]] + s[k + 1..] && BLOCK_MAGIC[k..] == [BLOCK_MAGIC[k]] + BLOCK_MAGIC[k + 1..];
    if k == 5 {
      assert t[1..] == [];
      FeedNothing(st');
    } else if st'.point.Failed? {
      FailedTakesNothing(st', s[k + 1..]);
    } else if st'.point.EndHdr? {
      EndMagicExact(st', s, 1);
    } else {
      BlockMagicExact(st', s, k + 1);
    }
  }

  /** The end magic is the only six bytes that lead to the stream's checksum, and leads to no
      block. */
  lemma {:induction false} EndMagicExact(st: DState, s: seq<byte>, k: nat)
    requires |s| == 6 && 1 <= k <= 5 && st.point == EndHdr(k)
    ensures Reaches(st, s[k..], StreamCrc(0)) <==> s[k..] == END_MAGIC[k..]
    ensures !Reaches(st, s[k..], BlkCrc(0))
    decreases 6 - k
  {
    hide Feed, BytesToBits;
    var t := s[k..];
    FeedFirst(st, t);
    var st' := After(st, t[0]);
    assert t[1..] == s[k + 1..];
    assert t == [s[k]] + s[k + 1..] && END_MAGIC[k..] == [END_MAGIC[k]] + END_MAGIC[k + 1..];
    if k == 5 {
      assert t[1..] == [];
      FeedNothing(st');
    } else if st'.point.Failed? {
      FailedTakesNothing(st', s[k + 1..]);
    } else {
      EndMagicExact(st', s, k + 1);
    }
  }

  function BitValue(b: bool): nat {
    if b then 1 else 0
  }

  /** The decoder, waiting for a bit, gets one. */
  lemma FeedBit(st: DState, b: bool)
    requires Running(st) && Need(st) == 1
    ensures Feed(st, [b]) == Some(After(st, BitValue(b)))
  {
    hide After, Need;
    assert ToBits(BitValue(b), 1) == ToBits(0, 0) + [b] == [b];
    assert Pow2(1) == 2;
    FeedOne(st, BitValue(b), 1);
  }

  lemma FeedBitThen(st: DState, b: bool, rest: seq<bool>, end: DState)
    requires Running(st) && Need(st) == 1
    requires Feed(After(st, BitValue(b)), rest) == Some(end)
    ensures Feed(st, [b] + rest) == Some(end)
  {
    hide After, Need, Feed;
    FeedBit(st, b);
    FeedThen(st, [b], After(st, BitValue(b)), rest, end);
  }

  // ---------------------------------------------------------------- symbol map

  /** The bits that say which groups have symbols in use. */
  function Groups(inUse: seq<bool>): (g: seq<bool>)
    requires |inUse| == 256
    ensures |g| == 16
    ensures forall i :: 0 <= i < 16 ==> g[i] == AnyUsed(GroupOf(inUse, i))
  {
    seq(16, i requires 0 <= i < 16 => AnyUsed(GroupOf(inUse, i)))
  }

  lemma {:induction false} FeedGroups(st: DState, inUse: seq<bool>, k: nat)
    requires |inUse| == 256 && k < 16
    requires st.point == Mapping1 && st.i == k && st.inUse16 == Groups(inUse)[..k] && st.inUse == []
    ensures Feed(st, GroupBits(inUse, k)) == Some(NextGroup(st.(inUse16 := Groups(inUse), i := 15), 0))
    decreases 16 - k
  {
    hide Feed, NextGroup, AnyUsed;
    var g := Groups(inUse);
    var st' := After(st, BitValue(g[k]));
    assert st.inUse16 + [g[k]] == g[..k + 1];
    if k == 15 {
      assert g[..16] == g;
      assert GroupBits(inUse, 16) == [];
      FeedNothing(st');
      FeedBitThen(st, g[k], [], st');
    } else {
      FeedGroups(st', inUse, k + 1);
      FeedBitThen(st, g[k], GroupBits(inUse, k + 1), NextGroup(st.(inUse16 := g, i := 15), 0));
    }
  }

  /** The rest of one group. */
  lemma {:induction false} FeedOneGroup(st: DState, g: seq<bool>, k: nat)
    requires |g| == 16 && k < 16 && st.point == Mapping2 && st.j == k && st.i < 16
    ensures Feed(st, g[k..]) == Some(NextGroup(st.(inUse := st.inUse + g[k..], j := 15), st.i + 1))
    decreases 16 - k
  {
    hide Feed, NextGroup;
    var st' := After(st, BitValue(g[k]));
    assert g[k..] == [g[k]] + g[k + 1..];
    assert st.inUse + [g[k]] + g[k + 1..] == st.inUse + g[k..];
    if k == 15 {
      assert g[16..] == [];
      assert st.inUse + [g[k]] == st.inUse + g[k..];
      FeedNothing(st');
      FeedBitThen(st, g[k], [], st');
    } else {
      FeedOneGroup(st', g, k + 1);
      FeedBitThen(st, g[k], g[k + 1..], NextGroup(st.(inUse := st.inUse + g[k..], j := 15), st.i + 1));
    }
  }

  lemma NoneUsed(g: seq<bool>)
    requires |g| == 16 && !AnyUsed(g)
    ensures g == seq(16, _ => false)
  {
  }

  /** What has been read of the map, once groups below `k` are done. */
  lemma UpToGroup(inUse: seq<bool>, k: nat)
    requires |inUse| == 256 && k < 16
    ensures inUse[..16 * k] + GroupOf(inUse, k) == inUse[..16 * (k + 1)]
  {
  }

  predicate AtGroup(st: DState, inUse: seq<bool>, k: nat)
    requires |inUse| == 256 && k <= 16
  {
    st.inUse16 == Groups(inUse) && st.inUse == inUse[..16 * k]
  }

  lemma {:induction false} FeedUsed(st: DState, inUse: seq<bool>, k: nat)
    requires |inUse| == 256 && k <= 16 && AtGroup(st, inUse, k) && |Used(inUse, 256)| > 0
    ensures Feed(NextGroup(st, k), UsedBits(inUse, k)) ==
      Some(st.(point := Selector1, inUse16 := [], inUse := inUse, i := 0, j := 0))
    decreases 16 - k
  {
    hide Feed, AnyUsed, Used;
    var end := st.(point := Selector1, inUse16 := [], inUse := inUse, i := 0, j := 0);
    if k == 16 {
      assert inUse[..256] == inUse;
      FeedNothing(end);
    } else {
      var g := GroupOf(inUse, k);
      UpToGroup(inUse, k);
      var after := st.(inUse := inUse[..16 * (k + 1)]);
      if AnyUsed(g) {
        var here := st.(point := Mapping2, i := k, j := 0);
        FeedOneGroup(here, g, 0);
        assert g[0..] == g;
        var there := after.(point := Mapping2, i := k, j := 15);
        FeedUsed(there, inUse, k + 1);
        FeedThen(here, g, NextGroup(there, k + 1), UsedBits(inUse, k + 1), end);
      } else {
        NoneUsed(g);
        FeedUsed(after, inUse, k + 1);
        assert [] + UsedBits(inUse, k + 1) == UsedBits(inUse, k + 1);
      }
    }
  }

  lemma FeedMapping(st: DState, inUse: seq<bool>)
    requires |inUse| == 256 && |Used(inUse, 256)| > 0
    requires st.point == Mapping1 && st.i == 0 && st.inUse16 == [] && st.inUse == []
    ensures Feed(st, MappingBits(inUse)) ==
      Some(st.(point := Selector1, inUse16 := [], inUse := inUse, i := 0, j := 0))
  {
    hide Feed, NextGroup, Used, AnyUsed;
    FeedGroups(st, inUse, 0);
    var mid := st.(inUse16 := Groups(inUse), i := 15);
    FeedUsed(mid, inUse, 0);
    FeedThen(st, GroupBits(inUse, 0), NextGroup(mid, 0), UsedBits(inUse, 0),
             st.(point := Selector1, inUse16 := [], inUse := inUse, i := 0, j := 0));
  }

  // ---------------------------------------------------------------- selectors

  /** The move-to-front coding of the selectors is undone. */
  lemma {:induction false} SelectorsUndone(sel: seq<nat>, pos: seq<nat>)
    requires forall k :: 0 <= k < |sel| ==> sel[k] in pos
    ensures UndoSelectors(MtfSelectors(sel, pos), pos) == sel
    decreases |sel|
  {
    if sel != [] {
      var k := IndexIn(pos, sel[0]);
      MoveToFrontSame(pos, k);
      var ms := MtfSelectors(sel, pos);
      assert ms[1..] == MtfSelectors(sel[1..], MoveToFront(pos, k));
      SelectorsUndone(sel[1..], MoveToFront(pos, k));
    }
  }

  lemma {:induction false} FeedUnary(st: DState, m: nat)
    requires st.point == Selector3 && st.j + m < st.nGroups
    ensures Feed(st, Unary(m)) == Some(AfterSelector3(st.(j := st.j + m), 0))
    decreases m
  {
    hide Feed;
    var st' := After(st, BitValue(m > 0));
    if m == 0 {
      FeedNothing(st');
      FeedBitThen(st, false, [], st');
      assert [false] + [] == [false];
    } else {
      FeedUnary(st', m - 1);
      FeedBitThen(st, true, Unary(m - 1), AfterSelector3(st.(j := st.j + m), 0));
    }
  }

  lemma {:induction false} FeedUnaries(st: DState, ms: seq<nat>, k: nat)
    requires st.point == Selector3 && st.j == 0 && k < |ms| == st.nSelectors && st.selectorMtf == ms[..k]
    requires forall i :: 0 <= i < |ms| ==> ms[i] < st.nGroups
    ensures Feed(st, UnaryBits(ms[k..])) ==
      Some(st.(point := Coding1, selectorMtf := [], selector := UndoSelectors(ms, Iota(st.nGroups)), len := [],
        lenT := []))
    decreases |ms| - k
  {
    hide Feed, UndoSelectors;
    var end := st.(point := Coding1, selectorMtf := [], selector := UndoSelectors(ms, Iota(st.nGroups)), len := [],
      lenT := []);
    FeedUnary(st, ms[k]);
    var st' := AfterSelector3(st.(j := ms[k]), 0);
    assert ms[k..][1..] == ms[k + 1..];
    assert ms[..k] + [ms[k]] == ms[..k + 1];
    if k + 1 == |ms| {
      assert ms[..k + 1] == ms;
      FeedNothing(end);
    } else {
      FeedUnaries(st', ms, k + 1);
    }
    FeedThen(st, Unary(ms[k]), st', UnaryBits(ms[k + 1..]), end);
  }

  lemma FeedSelectors(st: DState, nGroups: nat, sel: seq<nat>)
    requires st.point == Selector1 && st.j == 0 && 2 <= nGroups <= 6 && 1 <= |sel| < 0x8000
    requires forall k :: 0 <= k < |sel| ==> sel[k] in Iota(nGroups)
    ensures Feed(st, SelectorBits(nGroups, MtfSelectors(sel, Iota(nGroups)))) ==
      Some(st.(point := Coding1, nGroups := nGroups, nSelectors := |sel|, selectorMtf := [], selector := sel,
        len := [], lenT := []))
  {
    hide Feed, UndoSelectors, MtfSelectors, ToBits;
    var ms := MtfSelectors(sel, Iota(nGroups));
    var s1 := st.(point := Selector2, nGroups := nGroups);
    var s2 := s1.(point := Selector3, nSelectors := |sel|, selectorMtf := []);
    var s3 := s2.(point := Coding1, selectorMtf := [], selector := sel, len := [], lenT := []);
    assert Pow2(3) == 8;
    Pow2Add(7, 8);
    Pow2Values();
    assert Pow2(7) == 128;
    FeedOne(st, nGroups, 3);
    FeedOne(s1, |ms|, 15);
    SelectorsUndone(sel, Iota(nGroups));
    FeedUnaries(s2, ms, 0);
    assert ms[0..] == ms;
    FeedThen(st, ToBits(nGroups, 3), s1, ToBits(|ms|, 15), s2);
    FeedThen(st, ToBits(nGroups, 3) + ToBits(|ms|, 15), s2, UnaryBits(ms), s3);
  }

  // ---------------------------------------------------------------- code lengths

  predicate LengthsInRange(len: seq<nat>) {
    forall i :: 0 <= i < |len| ==> 1 <= len[i] <= MAX_LEN
  }

  lemma {:induction false} FeedDelta(st: DState, target: nat)
    requires st.point == Coding2 && 1 <= st.curr <= 20 && 1 <= target <= 20
    ensures Feed(st, DeltaBits(st.curr, target)) == Some(AfterCoding2(st.(curr := target), 0))
    decreases if st.curr < target then target - st.curr else st.curr - target
  {
    hide Feed, StartMtf;
    if st.curr == target {
      FeedBit(st, false);
    } else {
      var s1 := st.(point := Coding3);
      var up := st.curr < target;
      var s2 := st.(curr := if up then st.curr + 1 else st.curr - 1);
      FeedDelta(s2, target);
      var rest, end := DeltaBits(s2.curr, target), AfterCoding2(st.(curr := target), 0);
      FeedBitThen(s1, !up, rest, end);
      FeedBitThen(st, true, [!up] + rest, end);
      assert [true, !up] + rest == [true] + ([!up] + rest);
    }
  }

  /** The state in which a table has been read. */
  function TableRead(st: DState, len: seq<nat>): DState {
    var all := st.len + [len];
    if |all| < st.nGroups then st.(point := Coding1, lenT := [], len := all, curr := 0)
    else StartMtf(st.(lenT := [], len := all, curr := 0, groupNo := -1, groupPos := 0, list := Iota(256), tt := []),
      AtStart)
  }

  lemma {:induction false} FeedLengths(st: DState, len: seq<nat>, k: nat)
    requires st.point == Coding2 && k < |len| == AlphaSize(st) && LengthsInRange(len)
    requires st.lenT == len[..k] && 1 <= st.curr <= 20
    ensures Feed(st, LengthBits(len[k..], st.curr)) == Some(TableRead(st, len))
    decreases |len| - k
  {
    hide Feed, StartMtf, UsedOf;
    FeedDelta(st, len[k]);
    var st' := AfterCoding2(st.(curr := len[k]), 0);
    assert len[k..][1..] == len[k + 1..];
    assert len[..k] + [len[k]] == len[..k + 1];
    if k + 1 == |len| {
      assert len[..k + 1] == len;
      FeedNothing(st');
    } else {
      FeedLengths(st', len, k + 1);
    }
    FeedThen(st, DeltaBits(st.curr, len[k]), st', LengthBits(len[k + 1..], len[k]), TableRead(st, len));
  }

  lemma FeedTable(st: DState, len: seq<nat>)
    requires st.point == Coding1 && |len| == AlphaSize(st) && LengthsInRange(len) && st.lenT == []
    ensures Feed(st, TableBits(len)) == Some(TableRead(st, len))
  {
    hide Feed, ToBits, UsedOf;
    var st' := st.(point := Coding2, curr := len[0]);
    assert Pow2(5) == 32;
    FeedOne(st, len[0], 5);
    FeedLengths(st', len, 0);
    assert len[0..] == len;
    FeedThen(st, ToBits(len[0], 5), st', LengthBits(len, len[0]), TableRead(st, len));
  }

  /** The state in which all tables have been read. */
  function TablesRead(st: DState, len: seq<seq<nat>>): DState {
    StartMtf(st.(lenT := [], len := len, curr := 0, groupNo := -1, groupPos := 0, list := Iota(256), tt := []), AtStart)
  }

  lemma {:induction false} FeedTables(st: DState, len: seq<seq<nat>>, t: nat)
    requires st.point == Coding1 && t < |len| == st.nGroups && st.len == len[..t] && st.lenT == []
    requires forall t :: 0 <= t < |len| ==> |len[t]| == AlphaSize(st) && LengthsInRange(len[t])
    ensures Feed(st, TablesBits(len[t..])) == Some(TablesRead(st, len))
    decreases |len| - t
  {
    hide Feed, StartMtf, UsedOf, TableBits;
    FeedTable(st, len[t]);
    var st' := TableRead(st, len[t]);
    assert len[t..][1..] == len[t + 1..];
    assert len[..t] + [len[t]] == len[..t + 1];
    if t + 1 == |len| {
      assert len[..t + 1] == len;
      FeedNothing(st');
    } else {
      FeedTables(st', len, t + 1);
    }
    FeedThen(st, TableBits(len[t]), st', TablesBits(len[t + 1..]), TablesRead(st, len));
  }
}

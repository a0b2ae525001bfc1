/**
 A whole block: what the compressor sends for it, and what the decoder makes of that.
 */
module BlockDecode {
  import opened Rotations
  import opened Permutations
  import opened Bits
  import opened BitStream
  import opened BwtSpec
  import opened CanonicalCode
  import opened RunLength
  import opened MtfEncode
  import opened BlockFormat
  import opened Decoder
  import opened HeaderDecode
  import opened SymbolDecode
  import opened Mtf

  /** Which symbols occur in a block. */
  function InUse(bytes: seq<byte>): (u: seq<bool>)
    ensures |u| == 256 && forall c :: 0 <= c < 256 ==> u[c] == (c in bytes)
  {
    seq(256, c requires 0 <= c < 256 => c in bytes)
  }

  function UsedCount(bytes: seq<byte>): nat {
    |Used(InUse(bytes), 256)|
  }

  /** The numbers of the symbols in the last column. */
  ghost function Numbers(bytes: seq<byte>, ptr: seq<int>): (l: seq<nat>)
    requires |bytes| > 0 && SortedRotations(bytes, ptr)
    ensures |l| == |bytes| && UsedCount(bytes) >= 1 && forall i :: 0 <= i < |l| ==> l[i] in Iota(UsedCount(bytes))
  {
    SymbolsListed(bytes, ptr, InUse(bytes));
    Numbered(LastColumn(bytes, ptr), InUse(bytes))
  }

  /** The values sent for a block. */
  ghost function Values(bytes: seq<byte>, ptr: seq<int>): seq<nat>
    requires |bytes| > 0 && SortedRotations(bytes, ptr)
  {
    var l := Numbers(bytes, ptr);
    Encode(l, Iota(UsedCount(bytes)), 0, UsedCount(bytes) + 1)
  }

  /** The bits of one block after its preamble. */
  ghost function BodyBits(inUse: seq<bool>, a: nat, c: Coding, v: seq<nat>): seq<bool>
    requires |inUse| == 256 && Codable(c, a, v)
  {
    SelectorsListed(c, a, |v|);
    MappingBits(inUse) + SelectorBits(|c.len|, MtfSelectors(c.selector, Iota(|c.len|))) + TablesBits(c.len)
      + DataBits(c, a, v, 0)
  }

  lemma SelectorsListed(c: Coding, a: nat, count: nat)
    requires ValidCoding(c, a, count)
    ensures forall k :: 0 <= k < |c.selector| ==> c.selector[k] in Iota(|c.len|)
  {
    forall k | 0 <= k < |c.selector| ensures c.selector[k] in Iota(|c.len|) {
      assert Iota(|c.len|)[c.selector[k]] == c.selector[k];
    }
  }

  lemma LengthsFollow(c: Coding, a: nat, count: nat, t: nat)
    requires ValidCoding(c, a, count) && t < |c.len|
    ensures |c.len[t]| == a && LengthsInRange(c.len[t])
  {
  }

  /** All coded values but the last are smaller than the end marker. */
  lemma {:induction false} EncodeEndsWith(l: seq<nat>, yy: seq<nat>, z: nat, eob: nat)
    requires |yy| > 0 && eob == |yy| + 1 && forall i :: 0 <= i < |l| ==> l[i] in yy
    ensures EndsWith(Encode(l, yy, z, eob), eob)
    decreases |l|
  {
    hide Flush, IndexIn;
    if l != [] {
      if yy[0] == l[0] {
        EncodeEndsWith(l[1..], yy, z + 1, eob);
      } else {
        EncodeMove(l, yy, z, eob);
        EncodeEndsWith(l[1..], MoveToFront(yy, IndexIn(yy, l[0])), 0, eob);
      }
    }
  }

  /** The decoder's longer list makes no difference. */
  lemma DecodeFull(l: seq<nat>, n: nat)
    requires 1 <= n <= 256 && forall i :: 0 <= i < |l| ==> l[i] in Iota(n)
    ensures var v := Encode(l, Iota(n), 0, n + 1); |v| > 0 && Decode(v, Iota(256), n + 1) == Some(l)
  {
    DecodeEncode(l, Iota(n), 0, n + 1);
    EncodeEndsWith(l, Iota(n), 0, n + 1);
    assert Copies(Iota(n)[0], 0) + l == l;
    var v := Encode(l, Iota(n), 0, n + 1);
    var more := seq(256 - n, i => n + i);
    assert Iota(n) + more == Iota(256);
    DecodeLongerList(v, Iota(n), more, n + 1);
  }

  /** The decoder, after the preamble, reads the body of a block. */
  lemma FeedBody(st: DState, inUse: seq<bool>, c: Coding, l: seq<nat>) returns (end: DState)
    requires |inUse| == 256 && |Used(inUse, 256)| >= 1 && forall i :: 0 <= i < |l| ==> l[i] in Iota(|Used(inUse, 256)|)
    requires var n := |Used(inUse, 256)|; Codable(c, n + 2, Encode(l, Iota(n), 0, n + 1))
    requires st.point == Mapping1 && st.i == 0 && st.inUse16 == [] && st.inUse == [] && Roomy(st, |l|)
    requires st.zvec == 0 && st.zn == 0 && st.es == 0 && st.n == 0
    ensures var n := |Used(inUse, 256)|;
      Feed(st, BodyBits(inUse, n + 2, c, Encode(l, Iota(n), 0, n + 1))) == Some(end)
    ensures Finished(st, end, Unnumber(Used(inUse, 256), l))
  {
    hide Feed, StartMtf, Used, Encode, Decode, DataBits, MappingBits, SelectorBits, TablesBits, Codable, TablesRead,
      Unnumber, MtfSelectors;
    var n := |Used(inUse, 256)|;
    var v := Encode(l, Iota(n), 0, n + 1);
    assert ValidCoding(c, n + 2, |v|) by { CodingOf(c, n + 2, v); }
    SelectorsListed(c, n + 2, |v|);
    // the map
    var s1 := st.(point := Selector1, inUse16 := [], inUse := inUse, i := 0, j := 0);
    FeedMapping(st, inUse);
    // the selectors
    var ms := MtfSelectors(c.selector, Iota(|c.len|));
    var s2 := s1.(point := Coding1, nGroups := |c.len|, nSelectors := |c.selector|, selectorMtf := [],
      selector := c.selector, len := [], lenT := []);
    FeedSelectors(s1, |c.len|, c.selector);
    // the tables
    var s3 := TablesRead(s2, c.len);
    forall t | 0 <= t < |c.len|
      ensures |c.len[t]| == AlphaSize(s2) && LengthsInRange(c.len[t]) { LengthsFollow(c, n + 2, |v|, t); }
    FeedTables(s2, c.len, 0);
    assert c.len[0..] == c.len;
    // the values
    end := FeedValues(s2, c, l);
    var b1, b2, b3, b4 := MappingBits(inUse), SelectorBits(|c.len|, ms), TablesBits(c.len), DataBits(c, n + 2, v, 0);
    FeedFour(st, b1, s1, b2, s2, b3, s3, b4, end);
  }

  lemma FeedFour(s0: DState, b1: seq<bool>, s1: DState, b2: seq<bool>, s2: DState, b3: seq<bool>, s3: DState,
    b4: seq<bool>, s4: DState)
    requires Feed(s0, b1) == Some(s1) && Feed(s1, b2) == Some(s2) && Feed(s2, b3) == Some(s3)
      && Feed(s3, b4) == Some(s4)
    ensures Feed(s0, b1 + b2 + b3 + b4) == Some(s4)
  {
    hide Feed;
    FeedThen(s0, b1, s1, b2, s2);
    FeedThen(s0, b1 + b2, s2, b3, s3);
    FeedThen(s0, b1 + b2 + b3, s3, b4, s4);
  }

  /** The decoder, after the tables, reads the values. */
  lemma FeedValues(st: DState, c: Coding, l: seq<nat>) returns (end: DState)
    requires |st.inUse| == 256 && |Used(st.inUse, 256)| >= 1 && forall i :: 0 <= i < |l| ==>
      l[i] in Iota(|Used(st.inUse, 256)|)
    requires var n := |Used(st.inUse, 256)|; Codable(c, n + 2, Encode(l, Iota(n), 0, n + 1))
    requires st.nGroups == |c.len| && st.nSelectors == |c.selector| && st.selector == c.selector && Roomy(st, |l|)
    requires st.zvec == 0 && st.zn == 0 && st.es == 0 && st.n == 0
    ensures var n := |Used(st.inUse, 256)|;
      Feed(TablesRead(st, c.len), DataBits(c, n + 2, Encode(l, Iota(n), 0, n + 1), 0)) == Some(end)
    ensures Finished(st, end, Unnumber(Used(st.inUse, 256), l))
  {
    hide Feed, StartMtf, Used, Encode, Decode, DataBits, Waiting, Codable;
    var n := |Used(st.inUse, 256)|;
    var v := Encode(l, Iota(n), 0, n + 1);
    var base := st.(lenT := [], len := c.len, curr := 0, groupNo := -1, groupPos := 0, list := Iota(256), tt := []);
    EncodeEndsWith(l, Iota(n), 0, n + 1);
    StartFirst(base, c, n + 2, v, base);
    DecodeFull(l, n);
    assert v[0..] == v;
    end := ReadValues(base, c, n + 2, v, 0, AtStart, Iota(256), []);
    assert [] + Unnumber(Used(st.inUse, 256), l) == Unnumber(Used(st.inUse, 256), l);
  }

  lemma CodingOf(c: Coding, a: nat, v: seq<nat>)
    requires Codable(c, a, v)
    ensures ValidCoding(c, a, |v|)
  {
  }

  /** Numbering symbols and looking them up again. */
  lemma {:induction false} UnnumberNumbered(l: seq<byte>, inUse: seq<bool>)
    requires |inUse| == 256 && forall i :: 0 <= i < |l| ==> inUse[l[i]]
    ensures Unnumber(Used(inUse, 256), Numbered(l, inUse)) == l
  {
    var u := Unnumber(Used(inUse, 256), Numbered(l, inUse));
    forall i | 0 <= i < |l| ensures u[i] == l[i] { UsedNumber(inUse, l[i]); }
  }

  // ---------------------------------------------------------------- blocks

  /** A block and the compressor's choices for it: a sorted listing of its rotations, and
      how to code its values. */
  datatype Block = Block(bytes: seq<byte>, ptr: seq<int>, coding: Coding)

  ghost predicate ValidBlock(b: Block, blockSize100k: nat) {
    && |b.bytes| <= 100000 * blockSize100k <= 900000
    && UnRle(b.bytes).Some?
    && Sendable(b)
  }

  ghost predicate Sendable(b: Block) {
    && |b.bytes| > 0
    && SortedRotations(b.bytes, b.ptr)
    && Codable(b.coding, UsedCount(b.bytes) + 2, Values(b.bytes, b.ptr))
  }

  ghost function StartRow(b: Block): (o: int)
    requires |b.bytes| > 0 && SortedRotations(b.bytes, b.ptr)
    ensures 0 <= o < |b.bytes| && b.ptr[o] == 0
  {
    IndexOf(b.ptr, |b.bytes|, 0)
  }

  ghost function BlockBits(b: Block, crc: nat): seq<bool>
    requires crc < 0x1_0000_0000 && Sendable(b)
  {
    PreambleBits(crc, StartRow(b)) + BodyBits(InUse(b.bytes), UsedCount(b.bytes) + 2, b.coding, Values(b.bytes, b.ptr))
  }

  /** The decoder's variables between blocks. */
  predicate AtBlockStart(st: DState) {
    st.point == BlkHdr(0) && st.zvec == 0 && st.zn == 0 && st.es == 0 && st.n == 0
  }

  /** The decoder reads a block back: the last column, the place of rotation 0, the checksum. */
  lemma FeedBlock(st: DState, b: Block, crc: nat) returns (end: DState)
    requires crc < 0x1_0000_0000 && AtBlockStart(st) && ValidBlock(b, st.blockSize100k)
    ensures Feed(st, BlockBits(b, crc)) == Some(end)
    ensures end.point == OutputReady && end.blockSize100k == st.blockSize100k
    ensures end.origPtr == StartRow(b) && end.storedBlockCRC == crc && end.tt == LastColumn(b.bytes, b.ptr)
    ensures AtBlockStart(end.(point := BlkHdr(0)))
  {
    hide Feed, PreambleBits, BodyBits, Used, Encode, Codable;
    var inUse := InUse(b.bytes);
    var o := StartRow(b);
    FeedPreamble(st, crc, o);
    var s1 := st.(point := Mapping1, storedBlockCRC := crc, origPtr := o, i := 0, inUse16 := [], inUse := []);
    end := FeedBody(s1, inUse, b.coding, Numbers(b.bytes, b.ptr));
    UnnumberNumbered(LastColumn(b.bytes, b.ptr), inUse);
    FeedThen(st, PreambleBits(crc, o), s1, BodyBits(inUse, UsedCount(b.bytes) + 2, b.coding, Values(b.bytes, b.ptr)),
      end);
  }
}

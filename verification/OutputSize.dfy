/**
 How long the bits of a block can be: with codes of at most 17 bits, all output of a block
 fits behind the block in the compressor's second array.
 */
module OutputSize {
  import opened Rotations
  import opened Bits
  import opened BitStream
  import opened BwtSpec
  import opened CanonicalCode
  import opened MtfEncode
  import opened BlockFormat
  import opened BlockDecode
  import opened Mtf
  import opened MainOrder

  lemma {:induction false} EncodeShort(l: seq<nat>, yy: seq<nat>, z: nat, eob: nat)
    requires |yy| > 0 && forall i :: 0 <= i < |l| ==> l[i] in yy
    ensures |Encode(l, yy, z, eob)| <= |l| + z + 1
    decreases |l|
  {
    hide Flush, IndexIn;
    FlushShort(z);
    if l != [] {
      if yy[0] == l[0] {
        EncodeShort(l[1..], yy, z + 1, eob);
      } else {
        EncodeMove(l, yy, z, eob);
        EncodeShort(l[1..], MoveToFront(yy, IndexIn(yy, l[0])), 0, eob);
      }
    }
  }

  lemma {:induction false} UnaryShort(ms: seq<nat>, limit: nat)
    requires forall k :: 0 <= k < |ms| ==> ms[k] < limit
    ensures |UnaryBits(ms)| <= |ms| * limit
  {
    if ms != [] {
      UnaryShort(ms[1..], limit);
      MulNext(|ms| - 1, limit);
    }
  }

  lemma {:induction false} DeltaShort(curr: nat, target: nat)
    requires 1 <= curr <= MAX_LEN && 1 <= target <= MAX_LEN
    ensures |DeltaBits(curr, target)| <= 33
    ensures |DeltaBits(curr, target)| == 2 * (if curr < target then target - curr else curr - target) + 1
    decreases if curr < target then target - curr else curr - target
  {
    if curr < target { DeltaShort(curr + 1, target); }
    if curr > target { DeltaShort(curr - 1, target); }
  }

  lemma {:induction false} LengthsShort(len: seq<nat>, curr: nat)
    requires 1 <= curr <= MAX_LEN && forall i :: 0 <= i < |len| ==> 1 <= len[i] <= MAX_LEN
    ensures |LengthBits(len, curr)| <= 33 * |len|
    decreases |len|
  {
    if len != [] {
      DeltaShort(curr, len[0]);
      LengthsShort(len[1..], len[0]);
    }
  }

  lemma TableShort(len: seq<nat>)
    requires Prefixable(len, MAX_LEN)
    ensures |TableBits(len)| <= 5 + 33 * |len|
  {
    hide LengthBits, ToBits, Kraft;
    if len != [] { LengthsShort(len, len[0]); }
  }

  lemma {:induction false} TablesShort(len: seq<seq<nat>>, limit: nat)
    requires forall t :: 0 <= t < |len| ==> |TableBits(len[t])| <= limit
    ensures |TablesBits(len)| <= limit * |len|
  {
    hide TableBits;
    if len != [] {
      assert |TableBits(len[0])| <= limit;
      TablesShort(len[1..], limit);
      MulNext(|len| - 1, limit);
    }
  }

  lemma {:induction false} DataShort(c: Coding, a: nat, v: seq<nat>, k: nat)
    requires Codable(c, a, v) && k <= |v|
    ensures |DataBits(c, a, v, k)| <= MAX_LEN * (|v| - k)
    decreases |v| - k
  {
    if k < |v| {
      CodableAt(c, a, v, k);
      DataShort(c, a, v, k + 1);
    }
  }

  /** A bound on the bits of a block of `n` bytes. */
  function BlockLimit(n: nat): nat {
    395 + 6 * ((n + GROUP_SIZE) / GROUP_SIZE) + 6 * (5 + 33 * 258) + MAX_LEN * (n + 1)
  }

  lemma UsedAtMost(bytes: seq<byte>)
    ensures UsedCount(bytes) <= 256
  {
  }

  lemma BlockShort(b: Block, crc: nat)
    requires crc < 0x1_0000_0000 && Sendable(b)
    ensures |BlockBits(b, crc)| <= BlockLimit(|b.bytes|)
  {
    hide Encode, Used, Codable, PreambleBits, BodyBits, SortedRotations;
    UsedAtMost(b.bytes);
    EncodeShort(Numbers(b.bytes, b.ptr), Iota(UsedCount(b.bytes)), 0, UsedCount(b.bytes) + 1);
    BodyShort(InUse(b.bytes), UsedCount(b.bytes) + 2, b.coding, Values(b.bytes, b.ptr), |b.bytes|);
    PreambleShort(crc, StartRow(b));
  }

  lemma PreambleShort(crc: nat, o: nat)
    requires crc < 0x1_0000_0000
    ensures |PreambleBits(crc, o)| == 105
  {
    hide BytesToBits, ToBits, Word;
  }

  lemma TrailerShort(crc: nat)
    requires crc < 0x1_0000_0000
    ensures |TrailerBits(crc)| == 80
  {
    hide BytesToBits, Word;
  }

  lemma BodyShort(inUse: seq<bool>, a: nat, c: Coding, v: seq<nat>, n: nat)
    requires |inUse| == 256 && Codable(c, a, v) && a <= 258 && |v| <= n + 1
    ensures |BodyBits(inUse, a, c, v)| <= BlockLimit(n) - 105
  {
    hide Prefixable, TablesBits, DataBits, UnaryBits, MappingBits, ToBits, TableBits, Iota, MtfSelectors;
    SelectorsListed(c, a, |v|);
    var ms := MtfSelectors(c.selector, Iota(|c.len|));
    UnaryShort(ms, |c.len|);
    forall t | 0 <= t < |c.len| ensures |TableBits(c.len[t])| <= 5 + 33 * a { TableShort(c.len[t]); }
    TablesShort(c.len, 5 + 33 * a);
    DataShort(c, a, v, 0);
    MappingShort(inUse);
    Products(|c.len|, |ms|, a, |v|, n);
  }

  lemma MappingShort(inUse: seq<bool>)
    requires |inUse| == 256
    ensures |MappingBits(inUse)| <= 272
  {
    hide GroupBits, UsedBits;
  }

  lemma Products(groups: nat, selectors: nat, a: nat, values: nat, n: nat)
    requires groups <= 6 && a <= 258 && values <= n + 1 && selectors == (values + GROUP_SIZE - 1) / GROUP_SIZE
    ensures selectors * groups <= 6 * ((n + GROUP_SIZE) / GROUP_SIZE)
    ensures (5 + 33 * a) * groups <= 6 * (5 + 33 * 258)
  {
    MulMonotone(groups, 6, selectors);
    MulMonotone(groups, 6, 5 + 33 * a);
  }

  /** The room behind a block of `nblock` bytes, in an array of words for blocks of up to `n`. */
  function Room(n: nat, nblock: nat): int {
    4 * (n + OVERSHOOT) - nblock
  }

  /** Bits held over from the block before, header, block, trailer and padding fit. */
  lemma OutputFits(bits: nat, bytes: nat, nblock: nat, blockSize100k: nat)
    requires 1 <= blockSize100k <= 9 && nblock <= 100000 * blockSize100k
    requires bits <= 32 + 32 + BlockLimit(nblock) + 80 + 7 && 8 * bytes <= bits
    ensures bytes <= Room(100000 * blockSize100k, nblock)
  {
    assert 50 * ((nblock + 50) / 50) <= nblock + 50;
  }

  /** The block sorter's quadrants fit behind the block as well, in 16 bits each. */
  lemma QuadrantFits(n: nat, nblock: nat)
    requires OVERSHOOT < nblock <= n
    ensures var start := nblock + OVERSHOOT + (nblock + OVERSHOOT) % 2;
      start % 2 == 0 && start >= nblock + OVERSHOOT && start + 2 * (nblock + OVERSHOOT) <= 4 * (n + OVERSHOOT)
  {
  }
}

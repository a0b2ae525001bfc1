/**
 What the compressor sends, as a function of its input: the bits of all blocks, each coded
 as its bytes and the work factor determine, in bytes.
 */
module Emission {
  import opened Rotations
  import opened Bits
  import opened BitStream
  import opened BlockFormat
  import opened BlockDecode
  import opened BlockCompress
  import opened Cutting
  import opened OutputSize
  import Stream
  import Crc

  function BytesOf(blocks: seq<Block>): (s: seq<seq<byte>>)
    ensures |s| == |blocks| && forall k :: 0 <= k < |s| ==> s[k] == blocks[k].bytes
  {
    seq(|blocks|, k requires 0 <= k < |blocks| => blocks[k].bytes)
  }

  /** Each block has the listing, tables and selectors that its bytes determine. */
  ghost predicate AsCoded(blocks: seq<Block>, workFactor: int) {
    forall k :: 0 <= k < |blocks| ==> blocks[k] == BlockOf(blocks[k].bytes, workFactor)
  }

  lemma CodedMore(blocks: seq<Block>, b: Block, workFactor: int)
    requires AsCoded(blocks, workFactor) && b == BlockOf(b.bytes, workFactor)
    ensures AsCoded(blocks + [b], workFactor)
  {
    hide BlockOf;
  }

  ghost function Coded(cuts: seq<seq<byte>>, workFactor: int): (blocks: seq<Block>)
    ensures |blocks| == |cuts|
  {
    seq(|cuts|, k requires 0 <= k < |cuts| => BlockOf(cuts[k], workFactor))
  }

  /** The bits of blocks with the given bytes. */
  ghost function CutBits(t: Crc.Table, cuts: seq<seq<byte>>, workFactor: int): seq<bool> {
    if cuts == [] then []
    else
      var b := BlockOf(cuts[|cuts| - 1], workFactor);
      CutBits(t, cuts[..|cuts| - 1], workFactor) + if Sendable(b) then BlockBits(b, Stream.BlockCrc(t, b.bytes)) else []
  }

  lemma {:induction false} CutBitsAre(t: Crc.Table, blocks: seq<Block>, blockSize100k: nat, workFactor: int)
    requires Stream.ValidBlocks(blocks, blockSize100k) && AsCoded(blocks, workFactor)
    ensures Coded(BytesOf(blocks), workFactor) == blocks
    ensures CutBits(t, BytesOf(blocks), workFactor) == Stream.BlocksBits(t, blocks, blockSize100k)
  {
    hide BlockOf, BlockBits, Sendable;
    if blocks != [] {
      var front := blocks[..|blocks| - 1];
      assert BytesOf(blocks)[..|blocks| - 1] == BytesOf(front);
      CutBitsAre(t, front, blockSize100k, workFactor);
      assert ValidBlock(blocks[|blocks| - 1], blockSize100k);
    }
  }

  lemma {:induction false} CutBitsGrow(t: Crc.Table, a: seq<seq<byte>>, b: seq<seq<byte>>, workFactor: int)
    requires a <= b
    ensures |CutBits(t, a, workFactor)| <= |CutBits(t, b, workFactor)|
    decreases |b|
  {
    hide BlockOf, BlockBits, Sendable;
    if |a| == |b| {
      assert a == b;
    } else {
      CutBitsGrow(t, a, b[..|b| - 1], workFactor);
    }
  }

  /** The bits of a stream of blocks with the given bytes. */
  ghost function SentBits(t: Crc.Table, cuts: seq<seq<byte>>, blockSize100k: nat, workFactor: int): seq<bool>
    requires 1 <= blockSize100k <= 9
  {
    HeaderBits(blockSize100k) + CutBits(t, cuts, workFactor)
      + TrailerBits(Stream.CombinedCrc(t, Coded(cuts, workFactor)))
  }

  lemma SentBitsAre(t: Crc.Table, blocks: seq<Block>, blockSize100k: nat, workFactor: int)
    requires 1 <= blockSize100k <= 9 && Stream.ValidBlocks(blocks, blockSize100k) && AsCoded(blocks, workFactor)
    ensures SentBits(t, BytesOf(blocks), blockSize100k, workFactor) == Stream.StreamBits(t, blocks, blockSize100k)
  {
    hide BlockOf, CutBits, Stream.BlocksBits, Stream.CombinedCrc;
    CutBitsAre(t, blocks, blockSize100k, workFactor);
  }

  /** A stream is longer than its header and any blocks that it begins with. */
  lemma SentLonger(t: Crc.Table, front: seq<seq<byte>>, cuts: seq<seq<byte>>, blockSize100k: nat, workFactor: int)
    requires 1 <= blockSize100k <= 9 && front <= cuts
    ensures |SentBits(t, cuts, blockSize100k, workFactor)| >= |HeaderBits(blockSize100k)|
      + |CutBits(t, front, workFactor)| + 80
  {
    hide BlockOf, CutBits, Stream.CombinedCrc, HeaderBits, TrailerBits;
    CutBitsGrow(t, front, cuts, workFactor);
    TrailerShort(Stream.CombinedCrc(t, Coded(cuts, workFactor)));
  }

  // ---------------------------------------------------------------- bits in bytes

  function Octet(b: seq<bool>): byte
    requires |b| == 8
  {
    FromBitsBound(b);
    Pow2Values();
    FromBits(b)
  }

  /** Bits in bytes, the last one filled up with zeros. */
  function Bytes(b: seq<bool>): (s: seq<byte>)
    ensures |s| == (|b| + 7) / 8
    decreases |b|
  {
    if b == [] then [] else if |b| < 8 then [Octet(b + Zeros(8 - |b|))] else [Octet(b[..8])] + Bytes(b[8..])
  }

  /** There is only one way to put bits into bytes with fewer than eight zeros added. */
  lemma {:induction false} OnlyBytes(s: seq<byte>, b: seq<bool>, pad: nat)
    requires pad < 8 && BytesToBits(s) == b + Zeros(pad)
    ensures s == Bytes(b)
    decreases |s|
  {
    hide ToBits, FromBits;
    Pow2Values();
    if s != [] {
      FromToBits(s[0], 8);
      if |b| >= 8 {
        assert BytesToBits(s)[..8] == ToBits(s[0], 8) == b[..8];
        assert BytesToBits(s)[8..] == BytesToBits(s[1..]) == b[8..] + Zeros(pad);
        OnlyBytes(s[1..], b[8..], pad);
      } else {
        assert s[1..] == [] && BytesToBits(s) == ToBits(s[0], 8);
        assert b + Zeros(8 - |b|) == ToBits(s[0], 8);
      }
    }
  }

  // ---------------------------------------------------------------- the whole output

  function CutsOf(blockSize100k: nat, x: seq<byte>, announced: bool): seq<seq<byte>> {
    if announced then FinishAtOnce(blockSize100k, x) else RunThenFinish(blockSize100k, x)
  }

  /** Everything that is sent for the input `x`; `announced` says whether the finish request
      itself brought some of it. */
  ghost function Emitted(t: Crc.Table, blockSize100k: nat, workFactor: int, x: seq<byte>, announced: bool): seq<byte>
    requires 1 <= blockSize100k <= 9
  {
    Bytes(SentBits(t, CutsOf(blockSize100k, x, announced), blockSize100k, workFactor))
  }

  /** Unless the last byte fills a block it makes no difference when the end was announced. */
  lemma EmittedAlike(t: Crc.Table, blockSize100k: nat, workFactor: int, x: seq<byte>)
    requires 1 <= blockSize100k <= 9 && !LastByteFills(blockSize100k, x)
    ensures Emitted(t, blockSize100k, workFactor, x, true) == Emitted(t, blockSize100k, workFactor, x, false)
  {
    hide LastByteFills, FinishAtOnce, RunThenFinish, SentBits, Bytes;
    EndsAlike(blockSize100k, x);
  }
}

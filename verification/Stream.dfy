/**
 A whole compressed stream.  Whatever listing of equal rotations and whatever code
 tables the compressor chose, decompression gives back the input.
 */
module Stream {
  import opened Rotations
  import opened Bits
  import opened BitStream
  import opened BwtSpec
  import opened RunLength
  import opened BlockFormat
  import opened Decoder
  import opened HeaderDecode
  import opened BlockDecode
  import Crc

  function BlockCrc(t: Crc.Table, bytes: seq<byte>): Crc.word {
    if UnRle(bytes).None? then 0 else Crc.Finalise(Crc.Fold(t, Crc.INITIAL, UnRle(bytes).value))
  }

  ghost predicate ValidBlocks(blocks: seq<Block>, blockSize100k: nat) {
    forall k :: 0 <= k < |blocks| ==> ValidBlock(blocks[k], blockSize100k)
  }

  /** The checksum of the blocks so far. */
  function CombinedCrc(t: Crc.Table, blocks: seq<Block>): Crc.word {
    if blocks == [] then 0
    else Crc.Combine(CombinedCrc(t, blocks[..|blocks| - 1]), BlockCrc(t, blocks[|blocks| - 1].bytes))
  }

  /** The bits of the blocks, one after the other, without alignment. */
  ghost function BlocksBits(t: Crc.Table, blocks: seq<Block>, blockSize100k: nat): seq<bool>
    requires ValidBlocks(blocks, blockSize100k)
  {
    if blocks == [] then []
    else
      var b := blocks[|blocks| - 1];
      BlocksBits(t, blocks[..|blocks| - 1], blockSize100k) + BlockBits(b, BlockCrc(t, b.bytes))
  }

  /** What the blocks stand for. */
  function Text(blocks: seq<Block>): seq<byte> {
    if blocks == [] then []
    else Text(blocks[..|blocks| - 1]) + UnRle(blocks[|blocks| - 1].bytes).GetOr([])
  }

  ghost function StreamBits(t: Crc.Table, blocks: seq<Block>, blockSize100k: nat): seq<bool>
    requires 1 <= blockSize100k <= 9 && ValidBlocks(blocks, blockSize100k)
  {
    HeaderBits(blockSize100k) + BlocksBits(t, blocks, blockSize100k) + TrailerBits(CombinedCrc(t, blocks))
  }

  // ---------------------------------------------------------------- decompression

  datatype Outcome = Done(text: seq<byte>) | Bad(error: Error) | Incomplete

  /** Runs the decoder until it has something to say or asks for more than is there. */
  function RunOn(st: DState, b: seq<bool>): (r: (DState, seq<bool>))
    ensures |r.1| <= |b| && (Running(st) && !Running(r.0) ==> |r.1| < |b|)
    decreases |b|
  {
    if !Running(st) || Need(st) == 0 || Need(st) > |b| then (st, b)
    else RunOn(After(st, FromBits(b[..Need(st)])), b[Need(st)..])
  }

  /** Undoes block sorting and the initial run-length code. */
  ghost function Expand(tt: seq<byte>, origPtr: nat): Option<seq<byte>> {
    if origPtr >= |tt| then None else UnRle(Chain(tt, FLTable(tt), FL(tt, origPtr), |tt|))
  }

  /** Decompression from state `st`, with `out` and `combined` the results so far. */
  ghost function DecodeFrom(t: Crc.Table, st: DState, b: seq<bool>, out: seq<byte>, combined: Crc.word): Outcome
    requires Running(st)
    decreases |b|
  {
    var (st', rest) := RunOn(st, b);
    match st'.point
    case Failed(e) => Bad(e)
    case Idle => if combined == st'.storedCombinedCRC then Done(out) else Bad(DataError)
    case OutputReady =>
      (match Expand(st'.tt, st'.origPtr)
       case None => Bad(DataError)
       case Some(text) =>
         var crc := Crc.Finalise(Crc.Fold(t, Crc.INITIAL, text));
         if crc != st'.storedBlockCRC then Bad(DataError)
         else DecodeFrom(t, st'.(point := BlkHdr(0)), rest, out + text, Crc.Combine(combined, crc)))
    case _ => Incomplete
  }

  ghost function Decompress(t: Crc.Table, b: seq<bool>): Outcome {
    DecodeFrom(t, Init(), b, [], 0)
  }

  lemma {:induction false} FeedThenRun(st: DState, a: seq<bool>, mid: DState, b: seq<bool>)
    requires Feed(st, a) == Some(mid)
    ensures RunOn(st, a + b) == RunOn(mid, b)
    decreases |a|
  {
    hide After, Need;
    if a == [] {
      assert a + b == b;
    } else {
      var n := Need(st);
      assert (a + b)[..n] == a[..n] && (a + b)[n..] == a[n..] + b;
      FeedThenRun(After(st, FromBits(a[..n])), a[n..], mid, b);
    }
  }

  lemma StopsThere(st: DState, b: seq<bool>)
    requires !Running(st)
    ensures RunOn(st, b) == (st, b)
  {
  }

  lemma ExpandBlock(b: Block, blockSize100k: nat)
    requires ValidBlock(b, blockSize100k)
    ensures Expand(LastColumn(b.bytes, b.ptr), StartRow(b)) == UnRle(b.bytes)
  {
    ChainRecoversBlock(b.bytes, b.ptr, StartRow(b));
  }

  /** One block of a stream. */
  lemma DecodeBlock(t: Crc.Table, st: DState, b: Block, bits: seq<bool>, rest: seq<bool>, out: seq<byte>,
    combined: Crc.word) returns (st': DState)
    requires AtBlockStart(st) && ValidBlock(b, st.blockSize100k) && bits == BlockBits(b, BlockCrc(t, b.bytes))
    ensures AtBlockStart(st') && st'.blockSize100k == st.blockSize100k
    ensures DecodeFrom(t, st, bits + rest, out, combined)
         == DecodeFrom(t, st', rest, out + UnRle(b.bytes).GetOr([]), Crc.Combine(combined, BlockCrc(t, b.bytes)))
  {
    hide RunOn, Feed, BlockBits, Expand, UnRle, Crc.Fold, Codable;
    var end := FeedBlock(st, b, BlockCrc(t, b.bytes));
    FeedThenRun(st, bits, end, rest);
    StopsThere(end, rest);
    ExpandBlock(b, st.blockSize100k);
    st' := end.(point := BlkHdr(0));
  }

  /** The blocks of a stream, whatever follows them. */
  lemma {:induction false} DecodeBlocks(t: Crc.Table, blocks: seq<Block>, blockSize100k: nat, rest: seq<bool>)
    returns (st: DState)
    requires 1 <= blockSize100k <= 9 && ValidBlocks(blocks, blockSize100k)
    ensures AtBlockStart(st) && st.blockSize100k == blockSize100k
    ensures Decompress(t, HeaderBits(blockSize100k) + BlocksBits(t, blocks, blockSize100k) + rest)
         == DecodeFrom(t, st, rest, Text(blocks), CombinedCrc(t, blocks))
    decreases |blocks|
  {
    hide RunOn, Feed, BlockBits, HeaderBits, UnRle, DecodeFrom, Codable, SortedRotations;
    if blocks == [] {
      st := StartOfStream(t, blockSize100k, rest);
      assert HeaderBits(blockSize100k) + [] + rest == HeaderBits(blockSize100k) + rest;
    } else {
      var front, b := blocks[..|blocks| - 1], blocks[|blocks| - 1];
      var bits := BlockBits(b, BlockCrc(t, b.bytes));
      var st0 := DecodeBlocks(t, front, blockSize100k, bits + rest);
      st := DecodeBlock(t, st0, b, bits, rest, Text(front), CombinedCrc(t, front));
      var head := HeaderBits(blockSize100k);
      var sent := BlocksBits(t, front, blockSize100k);
      assert head + (sent + bits) + rest == head + sent + (bits + rest);
    }
  }

  lemma StartOfStream(t: Crc.Table, blockSize100k: nat, rest: seq<bool>) returns (st: DState)
    requires 1 <= blockSize100k <= 9
    ensures AtBlockStart(st) && st.blockSize100k == blockSize100k
    ensures Decompress(t, HeaderBits(blockSize100k) + rest) == DecodeFrom(t, st, rest, [], 0)
  {
    hide RunOn, Feed, HeaderBits;
    FeedHeader(blockSize100k);
    st := Init().(point := BlkHdr(0), blockSize100k := blockSize100k);
    FeedThenRun(Init(), HeaderBits(blockSize100k), st, rest);
  }

  /** A block whose stored checksum is not that of its text makes the stream bad, whatever comes
      before and behind it. */
  lemma WrongBlockCrc(t: Crc.Table, front: seq<Block>, b: Block, crc: Crc.word, blockSize100k: nat, rest: seq<bool>)
    requires 1 <= blockSize100k <= 9 && ValidBlocks(front, blockSize100k) && ValidBlock(b, blockSize100k)
    requires crc != BlockCrc(t, b.bytes)
    ensures Decompress(t, HeaderBits(blockSize100k) + BlocksBits(t, front, blockSize100k) + (BlockBits(b, crc) + rest))
         == Bad(DataError)
  {
    hide RunOn, Feed, BlockBits, HeaderBits, Expand, UnRle, Crc.Fold, Codable, BlocksBits;
    var st := DecodeBlocks(t, front, blockSize100k, BlockBits(b, crc) + rest);
    var end := FeedBlock(st, b, crc);
    FeedThenRun(st, BlockBits(b, crc), end, rest);
    StopsThere(end, rest);
    ExpandBlock(b, blockSize100k);
  }

  /** So does a stored combined checksum that is not that of the blocks. */
  lemma WrongCombinedCrc(t: Crc.Table, blocks: seq<Block>, crc: Crc.word, blockSize100k: nat, padding: seq<bool>)
    requires 1 <= blockSize100k <= 9 && ValidBlocks(blocks, blockSize100k) && crc != CombinedCrc(t, blocks)
    ensures Decompress(t, HeaderBits(blockSize100k) + BlocksBits(t, blocks, blockSize100k)
      + (TrailerBits(crc) + padding))
         == Bad(DataError)
  {
    hide RunOn, Feed, HeaderBits, TrailerBits, BlocksBits, Text, CombinedCrc, ValidBlock, Expand, Crc.Combine;
    var st := DecodeBlocks(t, blocks, blockSize100k, TrailerBits(crc) + padding);
    var end := st.(point := Idle, storedCombinedCRC := crc);
    FeedTrailer(st, crc);
    FeedThenRun(st, TrailerBits(crc), end, padding);
    StopsThere(end, padding);
  }

  /** The round trip: decompressing any stream that stands for these blocks, padded in any
      way, gives their text, and both kinds of checksum agree. */
  lemma RoundTrip(t: Crc.Table, blocks: seq<Block>, blockSize100k: nat, padding: seq<bool>)
    requires 1 <= blockSize100k <= 9 && ValidBlocks(blocks, blockSize100k)
    ensures Decompress(t, StreamBits(t, blocks, blockSize100k) + padding) == Done(Text(blocks))
  {
    hide RunOn, Feed, HeaderBits, TrailerBits, BlocksBits;
    var crc := CombinedCrc(t, blocks);
    var st := DecodeBlocks(t, blocks, blockSize100k, TrailerBits(crc) + padding);
    var head, sent, tail := HeaderBits(blockSize100k), BlocksBits(t, blocks, blockSize100k), TrailerBits(crc);
    assert head + sent + tail + padding == head + sent + (tail + padding);
    FeedTrailer(st, crc);
    FeedThenRun(st, tail, st.(point := Idle, storedCombinedCRC := crc), padding);
    StopsThere(st.(point := Idle, storedCombinedCRC := crc), padding);
  }

  // ---------------------------------------------------------------- how many blocks there are

  /** How often the decoder comes to the end of a block. */
  ghost function BlockCount(st: DState, b: seq<bool>): nat
    requires Running(st)
    decreases |b|
  {
    var (st', rest) := RunOn(st, b);
    if st'.point == OutputReady then 1 + BlockCount(st'.(point := BlkHdr(0)), rest) else 0
  }

  lemma CountOnwards(st: DState, a: seq<bool>, mid: DState, b: seq<bool>)
    requires Running(st) && Running(mid) && Feed(st, a) == Some(mid)
    ensures BlockCount(st, a + b) == BlockCount(mid, b)
  {
    hide RunOn, Feed;
    FeedThenRun(st, a, mid, b);
  }

  lemma CountBlock(st: DState, b: Block, crc: Crc.word, rest: seq<bool>) returns (st': DState)
    requires AtBlockStart(st) && ValidBlock(b, st.blockSize100k)
    ensures AtBlockStart(st') && st'.blockSize100k == st.blockSize100k
    ensures BlockCount(st, BlockBits(b, crc) + rest) == 1 + BlockCount(st', rest)
  {
    hide RunOn, Feed, BlockBits, UnRle, Codable;
    var end := FeedBlock(st, b, crc);
    FeedThenRun(st, BlockBits(b, crc), end, rest);
    StopsThere(end, rest);
    st' := end.(point := BlkHdr(0));
  }

  lemma {:induction false} CountBlocks(t: Crc.Table, blocks: seq<Block>, blockSize100k: nat, rest: seq<bool>)
    returns (st: DState)
    requires 1 <= blockSize100k <= 9 && ValidBlocks(blocks, blockSize100k)
    ensures AtBlockStart(st) && st.blockSize100k == blockSize100k
    ensures BlockCount(Init(), HeaderBits(blockSize100k) + BlocksBits(t, blocks, blockSize100k) + rest) ==
      |blocks| + BlockCount(st, rest)
    decreases |blocks|
  {
    hide RunOn, Feed, BlockBits, HeaderBits, UnRle, BlockCount, Codable, SortedRotations, Crc.Fold, Crc.Finalise;
    var head := HeaderBits(blockSize100k);
    if blocks == [] {
      FeedHeader(blockSize100k);
      st := Init().(point := BlkHdr(0), blockSize100k := blockSize100k);
      CountOnwards(Init(), head, st, rest);
      assert head + [] + rest == head + rest;
    } else {
      var front, b := blocks[..|blocks| - 1], blocks[|blocks| - 1];
      var bits := BlockBits(b, BlockCrc(t, b.bytes));
      var st0 := CountBlocks(t, front, blockSize100k, bits + rest);
      st := CountBlock(st0, b, BlockCrc(t, b.bytes), rest);
      var sent := BlocksBits(t, front, blockSize100k);
      assert head + (sent + bits) + rest == head + sent + (bits + rest);
    }
  }

  /** A stream tells how many blocks it was made from. */
  lemma CountIsKnown(t: Crc.Table, blocks: seq<Block>, blockSize100k: nat, padding: seq<bool>)
    requires 1 <= blockSize100k <= 9 && ValidBlocks(blocks, blockSize100k)
    ensures BlockCount(Init(), StreamBits(t, blocks, blockSize100k) + padding) == |blocks|
  {
    hide RunOn, Feed, HeaderBits, TrailerBits, BlocksBits;
    var crc := CombinedCrc(t, blocks);
    var st := CountBlocks(t, blocks, blockSize100k, TrailerBits(crc) + padding);
    var head, sent, tail := HeaderBits(blockSize100k), BlocksBits(t, blocks, blockSize100k), TrailerBits(crc);
    assert head + sent + tail + padding == head + sent + (tail + padding);
    FeedTrailer(st, crc);
    var end := st.(point := Idle, storedCombinedCRC := crc);
    FeedThenRun(st, tail, end, padding);
    StopsThere(end, padding);
  }
}

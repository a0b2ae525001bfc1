/**
 The compressor as its callers see it: any sequence of run, flush and finish requests,
 with any division of the input and of the output space.
 */
module Compressor {
  import opened Rotations
  import opened Bits
  import opened BitStream
  import opened RunLength
  import opened Collect
  import opened Cutting
  import opened BlockFormat
  import opened BlockDecode
  import opened SendMtf
  import opened BlockCompress
  import opened OutputSize
  import opened Emission
  import Decoder
  import Stream
  import Crc

  datatype Mode = Unused | Running | Flushing | Finishing
  datatype Phase = Input | Output
  datatype Action = Run | Flush | Finish
  datatype Status = RunOk | FlushOk | FinishOk | StreamEnd | SequenceError | ParamError

  /** The stream header and the blocks, once the header is due. */
  ghost function Written(t: Crc.Table, blocks: seq<Block>, blockSize100k: nat, started: bool): seq<bool>
    requires 1 <= blockSize100k <= 9 && Stream.ValidBlocks(blocks, blockSize100k)
  {
    if started then HeaderBits(blockSize100k) + Stream.BlocksBits(t, blocks, blockSize100k) else []
  }

  lemma OneMoreBlock(t: Crc.Table, blocks: seq<Block>, b: Block, blockSize100k: nat)
    requires 1 <= blockSize100k <= 9 && Stream.ValidBlocks(blocks, blockSize100k) && ValidBlock(b, blockSize100k)
    ensures Stream.ValidBlocks(blocks + [b], blockSize100k)
    ensures Written(t, blocks + [b], blockSize100k, true)
         == Written(t, blocks, blockSize100k, true) + BlockBits(b, Stream.BlockCrc(t, b.bytes))
    ensures Stream.CombinedCrc(t, blocks + [b]) ==
      Crc.Combine(Stream.CombinedCrc(t, blocks), Stream.BlockCrc(t, b.bytes))
    ensures Stream.Text(blocks + [b]) == Stream.Text(blocks) + UnRle(b.bytes).GetOr([])
    ensures BytesOf(blocks + [b]) == BytesOf(blocks) + [b.bytes]
  {
    hide Sendable, BlockBits, UnRle;
    var all := blocks + [b];
    assert all[..|all| - 1] == blocks && all[|all| - 1] == b;
    var h, s, x := HeaderBits(blockSize100k), Stream.BlocksBits(t, blocks, blockSize100k),
      BlockBits(b, Stream.BlockCrc(t, b.bytes));
    assert h + (s + x) == (h + s) + x;
  }

  lemma NoBlocks(t: Crc.Table, blockSize100k: nat)
    requires 1 <= blockSize100k <= 9
    ensures Stream.BlocksBits(t, [], blockSize100k) == []
      && Written(t, [], blockSize100k, true) == HeaderBits(blockSize100k)
    ensures Stream.Text([]) == [] && Stream.CombinedCrc(t, []) == 0 && Stream.ValidBlocks([], blockSize100k)
  {
    assert HeaderBits(blockSize100k) + [] == HeaderBits(blockSize100k);
  }

  /** All bits of the stream are in `bytes`. */
  ghost predicate Complete(t: Crc.Table, blocks: seq<Block>, blockSize100k: nat, b: seq<bool>)
    requires 1 <= blockSize100k <= 9 && Stream.ValidBlocks(blocks, blockSize100k)
  {
    exists pad: nat :: pad < 8 && b == Stream.StreamBits(t, blocks, blockSize100k) + Zeros(pad)
  }

  class Compressor {
    const coll: Collector
    const w: BitWriter
    const blockSize100k: nat
    const table: Crc.Table
    const workFactor: nat

    var mode: Mode
    var state: Phase
    var avail_in_expect: nat
    var blockNo: nat
    var combinedCRC: Crc.word
    var state_out_pos: nat
    // the caller's input and output space
    var next_in: seq<byte>
    var avail_out: nat
    var next_out: seq<byte>

    // history
    ghost var fed: seq<byte>       // all input taken
    ghost var blocks: seq<Block>   // the blocks sent
    ghost var trailer: bool        // the trailer has been written
    ghost var flushed: bool        // a flush was requested
    ghost var announced: bool      // input was given along with the first finish request

    constructor (blockSize100k: nat, workFactor: nat, table: Crc.Table)
      requires 1 <= blockSize100k <= 9
      ensures Valid() && mode == Running && state == Input && !flushed
      ensures fed == [] && next_out == []
      ensures fresh(coll) && fresh(coll.block) && fresh(coll.inUse) && fresh(w)
      ensures this.blockSize100k == blockSize100k && this.table == table
      ensures this.workFactor == if workFactor == 0 then 30 else workFactor
    {
      coll := new Collector(blockSize100k, table);
      w := new BitWriter();
      this.blockSize100k, this.table := blockSize100k, table;
      this.workFactor := if workFactor == 0 then 30 else workFactor;
      mode, state, avail_in_expect, blockNo := Running, Input, 0, 1;
      combinedCRC, state_out_pos, next_in, avail_out, next_out := 0, 0, [], 0, [];
      fed, blocks, trailer, flushed, announced := [], [], false, false, false;
      new;
      NoBlocks(table, blockSize100k);
      EmptyBlock();
    }

    ghost predicate Parts()
      reads coll, coll.block, coll.inUse
    {
      coll.Valid() && coll.blockSize100k == blockSize100k && coll.table == table && 1 <= blockSize100k <= 9
    }

    /** The checksum and the bits are those of the blocks. */
    ghost predicate Sent(started: bool)
      reads `blocks, `combinedCRC, `trailer, w
    {
      && 1 <= blockSize100k <= 9
      && Stream.ValidBlocks(blocks, blockSize100k) && AsCoded(blocks, workFactor)
      && combinedCRC == Stream.CombinedCrc(table, blocks)
      && if trailer then Complete(table, blocks, blockSize100k, w.earlier + BytesToBits(w.zbits))
         else w.Valid() && w.Bits() == Written(table, blocks, blockSize100k, started) && (!started ==> blocks == [])
    }

    /** What the caller has received is the beginning of what was written. */
    ghost predicate Delivered()
      reads `state_out_pos, `next_out, w
    {
      state_out_pos <= |w.zbits| && BytesToBits(next_out) == w.earlier + BytesToBits(w.zbits[..state_out_pos])
    }

    /** Every byte taken is in a block, or pending. */
    ghost predicate Accounted()
      requires Parts()
      reads `state, `blocks, `fed, `trailer, `state_out_pos, coll, coll.block, coll.inUse, w
    {
      match state
      case Input =>
        && Stream.Text(blocks) + coll.Content() == fed && Room()
        && !trailer && w.zbits == [] && state_out_pos == 0
      case Output =>
        && Stream.Text(blocks) + coll.Pending() == fed
    }

    /** The block can take another byte. */
    ghost predicate Room()
      requires Parts()
      reads coll, coll.block, coll.inUse
    {
      coll.nblock < coll.nblockMAX && (coll.state_in_ch == 256 ==> coll.nblock == 0)
    }

    ghost predicate Modes()
      reads `mode, `state, `trailer, `avail_in_expect, `announced, `flushed, coll
    {
      && (mode == Running && state == Output ==> coll.state_in_ch < 256)
      && (trailer ==>
            (mode == Finishing || mode == Unused) && avail_in_expect == 0 && coll.state_in_ch == 256 && state == Output)
      && (mode == Unused ==> trailer)
      && (mode == Finishing && !trailer ==>
            (state == Output && avail_in_expect == 0 ==> coll.state_in_ch < 256)
            && (announced <==> avail_in_expect > 0))
      && (mode == Running || mode == Flushing ==> !announced)
      && (mode == Flushing ==> flushed)
    }

    /** Without a flush, the blocks depend on the bytes alone. */
    ghost predicate Cuts()
      requires Parts()
      reads `flushed, `trailer, `blocks, `announced, `fed, `state, coll, coll.block, coll.inUse
    {
      !flushed ==>
        if trailer then
          BytesOf(blocks) == if announced then FinishAtOnce(blockSize100k, fed) else RunThenFinish(blockSize100k, fed)
        else
          Cut(BytesOf(blocks), if state == Input then coll.Gathered() else coll.Gathered().(block := []))
            == CutAll(blockSize100k, fed)
    }

    /** What holds between requests: output that is not complete is still to be delivered. */
    ghost predicate Valid()
      reads this, coll, coll.block, coll.inUse, w
    {
      Working() && Resting()
    }

    ghost predicate Resting()
      reads `mode, `state, `state_out_pos, w
    {
      state == Output && mode != Unused ==> state_out_pos < |w.zbits|
    }

    /** What holds during a request as well. */
    ghost predicate Working()
      reads this, coll, coll.block, coll.inUse, w
    {
      && blockNo >= 1
      && Parts() && Sent(blockNo > 1 || state == Output) && Delivered()
      && Accounted() && Modes() && Cuts()
      && (mode == Unused ==> state_out_pos == |w.zbits|)
    }

    lemma EmptyBlock()
      requires Parts() && coll.Bytes() == [] && coll.Pending() == []
      ensures coll.Content() == [] && coll.Gathered() == START
    {
      assert UnRle([]) == Some([]);
    }

    function IsEmptyRL(): bool
      reads coll
    {
      !(coll.state_in_ch < 256 && coll.state_in_len > 0)
    }

    lemma EmptyIff()
      requires Parts()
      ensures IsEmptyRL() <==> coll.state_in_ch == 256
    {
    }

    // ---------------------------------------------------------------- input

    /** The bytes taken since `fed0`, when the last of them has not yet been looked at. */
    ghost predicate LastStep()
      requires Parts()
      reads `blocks, `fed, coll, coll.block, coll.inUse
    {
      fed != [] &&
      var s := CutAll(blockSize100k, fed[..|fed| - 1]);
      Cut(BytesOf(blocks), coll.Gathered()) == Cut(s.done, AddByte(s.run, fed[|fed| - 1]))
    }

    ghost predicate InStep()
      requires Parts()
      reads `blocks, `fed, coll, coll.block, coll.inUse
    {
      Cut(BytesOf(blocks), coll.Gathered()) == CutAll(blockSize100k, fed)
    }

    /** Takes one byte into the block. */
    method TakeByte()
      requires Parts() && Room() && next_in != []
      requires Stream.Text(blocks) + coll.Content() == fed && (!flushed ==> InStep())
      modifies coll, coll.block, coll.inUse, this`next_in, this`fed
      ensures Parts() && Stream.Text(blocks) + coll.Content() == fed
      ensures fed == old(fed) + old(next_in)[..1] && next_in == old(next_in)[1..]
      ensures coll.nblock < coll.nblockMAX + 5 && coll.state_in_ch < 256
      ensures !flushed ==> LastStep() && (coll.nblock < coll.nblockMAX ==> InStep())
    {
      hide UnRle, OpenSymbol, AddByte;
      ghost var before := coll.Content();
      var c := next_in[0];
      assert next_in[..1] == [c];
      coll.AddCharToBlock(c);
      assert Stream.Text(blocks) + (before + [c]) == Stream.Text(blocks) + before + [c];
      next_in := next_in[1..];
      fed := fed + [c];
      assert fed[..|fed| - 1] == old(fed);
    }

    /** copy_input_until_stop. */
    method CopyInputUntilStop() returns (progress: bool)
      requires Parts() && Room() && (mode != Running ==> avail_in_expect == |next_in|)
      requires Stream.Text(blocks) + coll.Content() == fed && (!flushed ==> InStep())
      modifies coll, coll.block, coll.inUse, this`next_in, this`fed, this`avail_in_expect
      ensures Parts() && Stream.Text(blocks) + coll.Content() == fed
      ensures Taken(old(fed), old(next_in)) && progress == (|next_in| < |old(next_in)|)
      ensures mode != Running ==> avail_in_expect == |next_in|
      ensures mode == Running ==> avail_in_expect == old(avail_in_expect)
      ensures coll.nblock < coll.nblockMAX + 5 && (coll.nblock >= coll.nblockMAX || next_in == [])
      ensures progress ==> coll.state_in_ch < 256
      ensures old(next_in) != [] ==> progress
      ensures coll.state_in_ch == 256 ==> coll.nblock == 0
      ensures !progress ==> coll.Gathered() == old(coll.Gathered())
      ensures !flushed ==> if progress then LastStep() else InStep()
      ensures !flushed && coll.nblock < coll.nblockMAX ==> InStep()
    {
      hide UnRle, OpenSymbol, AddByte, CutAll;
      progress := false;
      TakenNothing();
      while true
        invariant Parts() && Stream.Text(blocks) + coll.Content() == fed
        invariant Taken(old(fed), old(next_in)) && progress == (|next_in| < |old(next_in)|)
        invariant mode != Running ==> avail_in_expect == |next_in|
        invariant mode == Running ==> avail_in_expect == old(avail_in_expect)
        invariant coll.nblock < coll.nblockMAX + 5
        invariant if progress then coll.state_in_ch < 256 else Room() && coll.Gathered() == old(coll.Gathered())
        invariant !flushed ==> if progress then LastStep() else InStep()
        invariant !flushed && coll.nblock < coll.nblockMAX ==> InStep()
        decreases |next_in|
      {
        if coll.nblock >= coll.nblockMAX { break; }
        if next_in == [] { break; }
        if mode != Running && avail_in_expect == 0 { break; }
        progress := true;
        ghost var f, i := fed, next_in;
        TakeByte();
        TakenMore(old(fed), old(next_in), f, i);
        if mode != Running { avail_in_expect := avail_in_expect - 1; }
      }
    }

    /** Input moves from the caller to the compressor, in order. */
    ghost predicate Taken(fed0: seq<byte>, in0: seq<byte>)
      reads `fed, `next_in
    {
      |next_in| <= |in0| && fed + next_in == fed0 + in0
    }

    lemma TakenNothing()
      ensures Taken(fed, next_in)
    {
    }

    lemma TakenMore(fed0: seq<byte>, in0: seq<byte>, f: seq<byte>, i: seq<byte>)
      requires |i| <= |in0| && f + i == fed0 + in0 && i != [] && fed == f + i[..1] && next_in == i[1..]
      ensures Taken(fed0, in0)
    {
      assert i[..1] + i[1..] == i;
      assert f + i[..1] + i[1..] == f + (i[..1] + i[1..]);
    }

    // ---------------------------------------------------------------- output

    /** copy_output_until_stop. */
    method CopyOutputUntilStop() returns (progress: bool)
      requires Delivered()
      modifies this`state_out_pos, this`avail_out, this`next_out
      ensures Delivered() && Given(old(next_out), old(avail_out))
      ensures state_out_pos < |w.zbits| ==> avail_out == 0
      ensures old(state_out_pos) <= state_out_pos && progress == (state_out_pos > old(state_out_pos))
      ensures |next_out| - |old(next_out)| == state_out_pos - old(state_out_pos)
    {
      hide BytesToBits;
      progress := false;
      assert next_out[..|next_out|] == next_out;
      while true
        invariant Delivered() && Given(old(next_out), old(avail_out)) && old(state_out_pos) <= state_out_pos
        invariant progress == (state_out_pos > old(state_out_pos))
        invariant |next_out| - |old(next_out)| == state_out_pos - old(state_out_pos)
        decreases avail_out
      {
        if avail_out == 0 { break; }
        if state_out_pos >= |w.zbits| { break; }
        progress := true;
        OutStep(state_out_pos);
        next_out := next_out + [w.zbits[state_out_pos]];
        state_out_pos := state_out_pos + 1;
        avail_out := avail_out - 1;
      }
    }

    /** Output moves from the compressor to the caller's space. */
    ghost predicate Given(out0: seq<byte>, avail0: nat)
      reads `next_out, `avail_out
    {
      out0 <= next_out && |next_out| - |out0| == avail0 - avail_out
    }

    lemma OutStep(p: nat)
      requires p == state_out_pos < |w.zbits| && Delivered()
      ensures BytesToBits(next_out + [w.zbits[p]]) == w.earlier + BytesToBits(w.zbits[..p + 1])
    {
      hide BytesToBits;
      var c := w.zbits[p];
      BytesToBitsAppend(next_out, [c]);
      BytesToBitsAppend(w.zbits[..p], [c]);
      assert w.zbits[..p + 1] == w.zbits[..p] + [c];
      assert w.earlier + BytesToBits(w.zbits[..p]) + BytesToBits([c]) ==
        w.earlier + (BytesToBits(w.zbits[..p]) + BytesToBits([c]));
    }

    // ---------------------------------------------------------------- blocks

    /** BZ2_compressBlock: the header before the first block, the block unless it is empty, the
        trailer after the last. */
    method CompressBlock(isLast: bool)
      requires Parts() && !trailer && Sent(blockNo > 1) && blockNo >= 1 && Delivered()
      modifies coll.block, w, this`blocks, this`combinedCRC, this`trailer
      ensures Parts() && Sent(true) && Delivered() && trailer == isLast
      ensures coll.Gathered() == old(coll.Gathered()) && coll.Pending() == old(coll.Pending())
      ensures Stream.Text(blocks) == Stream.Text(old(blocks)) + UnRle(old(coll.Bytes())).value
      ensures BytesOf(blocks) == old(BytesOf(blocks)) + if coll.nblock > 0 then [old(coll.Bytes())] else []
      ensures old(w.zbits) == [] ==> |w.zbits| <= OutputSize.Room(100000 * blockSize100k, coll.nblock)
      ensures isLast ==> state_out_pos < |w.zbits|
    {
      hide UnRle, OpenSymbol, Sent, Delivered, Wrote, BlockLimit;
      ghost var bytes, e0 := coll.Bytes(), w.earlier;
      ghost var limit := |e0| + 8 * |w.zbits| + 32;
      NothingWrote();
      if blockNo == 1 { WriteHeader(e0, limit); } else { WroteMore(e0, limit); }
      if coll.nblock > 0 {
        SendOne(bytes, e0, limit + 32);
      } else {
        EmptyText(bytes, Stream.Text(blocks));
        assert BytesOf(blocks) + [] == BytesOf(blocks);
        assert Wrote(e0, limit + 32 + BlockLimit(0)) by { WroteEmpty(e0, limit + 32); }
      }
      if isLast { SendEnd(e0, limit + 32 + BlockLimit(coll.nblock)); }
      ghost var all := limit + 32 + BlockLimit(coll.nblock) + if isLast then 87 else 0;
      WroteBytes(e0, all);
      if |old(w.zbits)| == 0 { OutputFits(all - |e0|, |w.zbits|, coll.nblock, blockSize100k); }
    }

    /** Since `earlier` was all there was, at most `limit` bits have come to be. */
    ghost predicate Wrote(e0: seq<bool>, limit: int)
      reads `trailer, w
    {
      w.earlier == e0 &&
      if trailer then |e0| + 8 * |w.zbits| <= limit else w.Valid() && |w.Bits()| <= limit
    }

    lemma NothingWrote()
      requires !trailer && Sent(blockNo > 1)
      ensures Wrote(w.earlier, |w.earlier| + 8 * |w.zbits| + 32)
    {
      hide Held, BytesToBits, Written, Stream.ValidBlocks, Stream.CombinedCrc, Complete, BufferOk;
      HeldLength(w.bsBuff, w.bsLive);
    }

    lemma WroteMore(e0: seq<bool>, limit: int)
      requires Wrote(e0, limit)
      ensures Wrote(e0, limit + 32)
    {
    }

    lemma WroteEmpty(e0: seq<bool>, limit: int)
      requires Wrote(e0, limit)
      ensures Wrote(e0, limit + BlockLimit(0))
    {
    }

    lemma WroteBytes(e0: seq<bool>, limit: int)
      requires Wrote(e0, limit)
      ensures |e0| + 8 * |w.zbits| <= limit
    {
      hide Held, BytesToBits;
    }

    method WriteHeader(ghost e0: seq<bool>, ghost limit: int)
      requires blockNo == 1 && 1 <= blockSize100k <= 9 && !trailer && Sent(false) && Delivered() && Wrote(e0, limit)
      modifies w
      ensures Sent(true) && Delivered() && Wrote(e0, limit + 32)
    {
      hide BufferOk, Held, BytesToBits;
      PutBytes(w, [0x42, 0x5a, 0x68, 0x30 + blockSize100k]);
      StartWritten();
      assert w.zbits[..state_out_pos] == old(w.zbits)[..state_out_pos];
    }

    lemma EmptyText(bytes: seq<byte>, text: seq<byte>)
      requires bytes == []
      ensures UnRle(bytes) == Some([]) && text + [] == text
    {
    }

    lemma StartWritten()
      requires 1 <= blockSize100k <= 9
      ensures [] + BytesToBits([0x42, 0x5a, 0x68, 0x30 + blockSize100k]) == Written(table, [], blockSize100k, true)
    {
      NoBlocks(table, blockSize100k);
    }

    /** Sends the block that has been gathered. */
    method SendOne(ghost bytes: seq<byte>, ghost e0: seq<bool>, ghost limit: int)
      requires Wrote(e0, limit)
      requires Parts() && !trailer && Sent(true) && Delivered() && 0 < coll.nblock && bytes == coll.Bytes()
      modifies coll.block, w, this`blocks, this`combinedCRC
      ensures Parts() && Sent(true) && coll.Bytes() == bytes
      ensures Delivered() && Wrote(e0, limit + BlockLimit(coll.nblock))
      ensures Stream.Text(blocks) == Stream.Text(old(blocks)) + UnRle(bytes).value
      ensures BytesOf(blocks) == BytesOf(old(blocks)) + [bytes]
    {
      hide UnRle, OpenSymbol, BufferOk, Held, BlockBits, Sendable, BlockLimit, BlockOf, AsCoded;
      var crc := Crc.Finalise(coll.blockCRC);
      assert crc == Stream.BlockCrc(table, bytes);
      ghost var b := SendBlock(w, coll.block, coll.nblock, coll.inUse, crc, workFactor);
      assert ValidBlock(b, blockSize100k);
      BlockShort(b, crc);
      OneMoreBlock(table, blocks, b, blockSize100k);
      CodedMore(blocks, b, workFactor);
      assert w.zbits[..state_out_pos] == old(w.zbits)[..state_out_pos];
      blocks := blocks + [b];
      combinedCRC := Crc.Combine(combinedCRC, crc);
    }

    method SendEnd(ghost e0: seq<bool>, ghost limit: int)
      requires 1 <= blockSize100k <= 9 && !trailer && Sent(true) && Delivered() && Wrote(e0, limit)
      modifies w, this`trailer
      ensures Sent(true) && trailer && Wrote(e0, limit + 87)
      ensures Delivered() && state_out_pos < |w.zbits|
    {
      hide BufferOk, Held, HeaderBits, TrailerBits, BytesToBits, Stream.BlocksBits, Stream.ValidBlocks, AsCoded;
      ghost var bits, z := w.Bits(), w.zbits;
      SendTrailer(w, combinedCRC);
      assert w.Bits() == Stream.StreamBits(table, blocks, blockSize100k);
      TrailerShort(combinedCRC);
      w.Finish();
      assert w.zbits[..state_out_pos] == old(w.zbits)[..state_out_pos];
      assert |w.earlier| + 8 * |w.zbits| >= |bits| + 80;
      assert |bits| >= |w.earlier| + 8 * |z|;
      trailer := true;
    }

    /** prepare_new_block: what was written has been delivered; the pending run stays. */
    method PrepareNewBlock()
      requires Parts() && !trailer && Sent(true) && Delivered() && state_out_pos == |w.zbits|
      modifies coll, coll.inUse, w, this`state_out_pos, this`blockNo
      ensures Parts() && Sent(true) && Delivered() && blockNo == old(blockNo) + 1
      ensures w.zbits == [] && state_out_pos == 0
      ensures coll.Gathered() == old(coll.Gathered()).(block := [])
        && coll.Content() == old(coll.Pending()) == coll.Pending()
    {
      hide Sent, Delivered, UnRle, OpenSymbol, Collector.Consistent;
      EmptyCollector();
      EmptyOutput();
      blockNo := blockNo + 1;
    }

    method EmptyCollector()
      requires Parts()
      modifies coll, coll.inUse
      ensures Parts() && coll.Gathered() == old(coll.Gathered()).(block := [])
      ensures coll.Content() == old(coll.Pending()) == coll.Pending()
    {
      hide UnRle, OpenSymbol;
      coll.PrepareNewBlock();
      EmptyText([], []);
      assert [] + coll.Pending() == coll.Pending();
    }

    method EmptyOutput()
      requires Sent(true) && !trailer && Delivered() && state_out_pos == |w.zbits|
      modifies w, this`state_out_pos
      ensures Sent(true) && Delivered() && w.zbits == [] && state_out_pos == 0
    {
      hide BufferOk, Held, Complete, Written, Stream.ValidBlocks;
      assert w.zbits[..|w.zbits|] == w.zbits;
      w.Release();
      assert w.zbits[..0] == [] && BytesToBits([]) == [];
      assert w.earlier + [] == w.earlier;
      state_out_pos := 0;
    }

    // ---------------------------------------------------------------- the two phases

    /** Nothing is left to take in, and the end of the request has been put into a block. */
    ghost predicate Ending()
      reads `mode, `state, `avail_in_expect, coll
    {
      mode != Running && state == Output && avail_in_expect == 0 && coll.state_in_ch == 256
    }

    ghost predicate Expecting()
      reads `mode, `avail_in_expect, `next_in
    {
      (mode == Flushing || mode == Finishing) ==> avail_in_expect == |next_in|
    }

    /** The next block is begun. */
    method StartBlock()
      requires Working() && state == Output && !trailer && state_out_pos == |w.zbits|
      modifies this`state, this`state_out_pos, this`blockNo, coll, coll.inUse, w
      ensures Working() && state == Input && coll.state_in_ch == old(coll.state_in_ch) && coll.nblock == 0
    {
      hide UnRle, OpenSymbol, CutAll, Complete, Stream.Text, Sent, Delivered;
      PrepareNewBlock();
      state := Input;
    }

    /** The output phase of handle_compress. */
    method OutputPhase() returns (progress: bool, stop: bool)
      requires Working() && Expecting() && state == Output && mode != Unused
      modifies this`state, this`state_out_pos, this`blockNo, this`avail_out, this`next_out, coll, coll.inUse, w
      ensures Working() && Expecting() && Given(old(next_out), old(avail_out))
      ensures stop ==> Stopped()
      ensures !stop ==> state == Input && !old(Ending())
      ensures progress <==> old(avail_out > 0 && state_out_pos < |w.zbits|)
      ensures progress <==> |next_out| > |old(next_out)|
      ensures old(avail_out == 0 && state_out_pos < |w.zbits|) ==> stop && state == Output && state_out_pos < |w.zbits|
    {
      hide Parts, Sent, Delivered, Accounted, Cuts;
      progress := DeliverSome();
      if state_out_pos < |w.zbits| { return progress, true; }
      assert state_out_pos == |w.zbits| by { AllDelivered(); }
      EmptyIff();
      if mode == Finishing && avail_in_expect == 0 && IsEmptyRL() { return progress, true; }
      StartBlock();
      EmptyIff();
      stop := mode == Flushing && avail_in_expect == 0 && IsEmptyRL();
    }

    lemma AllDelivered()
      requires Delivered() && state_out_pos >= |w.zbits|
      ensures state_out_pos == |w.zbits|
    {
    }

    method DeliverSome() returns (progress: bool)
      requires Working() && state == Output
      modifies this`state_out_pos, this`avail_out, this`next_out
      ensures Working() && Given(old(next_out), old(avail_out))
      ensures state_out_pos < |w.zbits| ==> avail_out == 0
      ensures old(state_out_pos) <= state_out_pos <= |w.zbits| && progress == (state_out_pos > old(state_out_pos))
      ensures |next_out| - |old(next_out)| == state_out_pos - old(state_out_pos)
    {
      hide Parts, Sent, Modes, Cuts;
      progress := CopyOutputUntilStop();
    }

    /** Why handle_compress stops: no room for output, no input to run on, or all done. */
    ghost predicate Stopped()
      reads `mode, `state, `avail_out, `state_out_pos, `next_in, `avail_in_expect, `trailer, coll, w
    {
      || (state == Output && state_out_pos < |w.zbits| && avail_out == 0)
      || (mode == Running && state == Input && next_in == [])
      || (mode == Flushing && state == Input && avail_in_expect == 0 && coll.state_in_ch == 256 && coll.nblock == 0)
      || (mode == Finishing && trailer && state_out_pos == |w.zbits|)
    }

    /** The end of the input of a flush or finish request: the pending run goes into the block. */
    method EndOfInput()
      requires Parts() && Sent(blockNo > 1) && Delivered() && blockNo >= 1 && !trailer && state == Input
      requires mode == Finishing || (mode == Flushing && flushed && !announced)
      requires avail_in_expect == 0 && Stream.Text(blocks) + coll.Content() == fed && coll.nblock < coll.nblockMAX + 5
      requires !flushed ==> EndStep()
      modifies this`state, this`blocks, this`combinedCRC, this`trailer, coll, coll.block, coll.inUse, w
      ensures Working() && Ending() && coll.nblock <= 100000 * blockSize100k - 10
      ensures mode == Finishing ==> state_out_pos < |w.zbits|
    {
      hide Sent, Delivered, UnRle, OpenSymbol, CutAll, Stream.Text, WithRun, LastStep, InStep;
      ghost var g, done := coll.Gathered(), BytesOf(blocks);
      assert !flushed ==> EndsInto(done, g) by { if !flushed { EndCuts(); } }
      FlushRun();
      CompressBlock(mode == Finishing);
      state := Output;
      assert coll.Pending() == [];
      assert Stream.Text(blocks) + [] == Stream.Text(blocks);
      assert done + [] == done;
    }

    method FlushRun()
      requires Parts() && coll.nblock < coll.nblockMAX + 5
      modifies coll, coll.block, coll.inUse
      ensures Parts() && coll.Pending() == [] && coll.state_in_ch == 256
        && UnRle(coll.Bytes()).value == old(coll.Content())
      ensures coll.nblock <= old(coll.nblock) + 5
      ensures coll.Bytes() == old(WithRun(coll.Gathered()))
    {
      hide UnRle, OpenSymbol, WithRun;
      coll.FlushRL();
    }

    /** The state of the cut at the end of a finish request. */
    ghost predicate EndStep()
      requires Parts()
      reads `announced, `blocks, `fed, coll, coll.block, coll.inUse
    {
      if announced then LastStep() else InStep()
    }

    ghost predicate EndsInto(done: seq<seq<byte>>, g: Gathering)
      requires Proper(g)
      reads `announced, `fed
    {
      done + (if WithRun(g) == [] then [] else [WithRun(g)]) ==
        if announced then FinishAtOnce(blockSize100k, fed) else RunThenFinish(blockSize100k, fed)
    }

    lemma EndCuts()
      requires Parts() && EndStep()
      ensures EndsInto(BytesOf(blocks), coll.Gathered())
    {
      hide UnRle, OpenSymbol, CutAll, AddByte, WithRun;
      assert BytesOf(blocks) + [] == BytesOf(blocks);
    }

    /** A full block is sent; its pending run stays. */
    method FullBlock()
      requires Parts() && Sent(blockNo > 1) && Delivered() && Modes() && blockNo >= 1 && !trailer && state == Input
      requires Stream.Text(blocks) + coll.Content() == fed && coll.nblockMAX <= coll.nblock
      requires mode != Unused && (mode != Running ==> avail_in_expect > 0) && coll.state_in_ch < 256
      requires !flushed ==> LastStep()
      modifies this`state, this`blocks, this`combinedCRC, this`trailer, coll.block, w
      ensures Working() && state == Output && !trailer && coll.nblock == old(coll.nblock)
    {
      hide Sent, Delivered, UnRle, OpenSymbol, CutAll, Stream.Text, AddByte;
      ghost var g, done, text := coll.Gathered(), BytesOf(blocks), Stream.Text(blocks);
      assert !flushed ==> Cut(done + [g.block], g.(block := [])) == CutAll(blockSize100k, fed)
        by { if !flushed { FullCut(); } }
      assert text + coll.Content() == (text + UnRle(coll.Bytes()).value) + coll.Pending();
      CompressBlock(false);
      state := Output;
    }

    lemma FullCut()
      requires Parts() && LastStep() && coll.nblockMAX <= coll.nblock
      ensures Cut(BytesOf(blocks) + [coll.Bytes()], coll.Gathered().(block := [])) == CutAll(blockSize100k, fed)
    {
      hide UnRle, OpenSymbol, AddByte;
    }

    /** The blocks that were sent because they were full: all of them until the end is sent, and
        then all but the last. */
    ghost predicate FullBlocks()
      reads `blocks, `trailer
    {
      forall k :: 0 <= k < |blocks| - (if trailer then 1 else 0) ==>
        100000 * blockSize100k - 19 <= |blocks[k].bytes| <= 100000 * blockSize100k - 15
    }

    /** Without a flush no block is ever sent early. */
    lemma SentWhenFull()
      requires Working() && !flushed
      ensures FullBlocks()
    {
      hide Sent, Delivered, Accounted, Modes, CutAll, RunThenFinish, FinishAtOnce, AddByte;
      BlocksAreFull(blockSize100k, fed);
      DoneAreFull(blockSize100k, fed);
      assert forall k :: 0 <= k < |blocks| ==> BytesOf(blocks)[k] == blocks[k].bytes;
    }

    /** The input phase of handle_compress. */
    method InputPhase() returns (progress: bool, stop: bool)
      requires Working() && Expecting() && state == Input && mode != Unused
      modifies this`state, this`blocks, this`combinedCRC, this`trailer, this`next_in, this`fed, this`avail_in_expect,
               coll, coll.block, coll.inUse, w
      ensures Working() && Expecting() && Taken(old(fed), old(next_in))
      ensures stop ==> Stopped()
      ensures !stop ==> state == Output && (Ending() || |next_in| < |old(next_in)|)
      ensures coll.nblock <= 100000 * blockSize100k - 10
      ensures !flushed ==> FullBlocks()
      ensures progress <==> old(next_in) != []
      ensures progress <==> |next_in| < |old(next_in)|
      ensures stop ==> state == Input
      ensures mode == Finishing && old(next_in) == [] ==> !stop && Ending() && state_out_pos < |w.zbits|
      ensures mode == Running && old(next_in) == [] ==> stop
    {
      hide Sent, Delivered, UnRle, OpenSymbol, CutAll, Stream.Text, LastStep, InStep, AddByte;
      StepIn();
      progress := CopyInputUntilStop();
      if mode != Running && avail_in_expect == 0 {
        EndOfInput();
        stop := false;
      } else if coll.nblock >= coll.nblockMAX {
        FullBlock();
        stop := false;
      } else {
        assert next_in == [];
        stop := true;
        assert Cuts() by { StepOut(); }
      }
      if !flushed { SentWhenFull(); }
    }

    lemma StepIn()
      requires Parts() && Cuts() && state == Input && !trailer
      ensures !flushed ==> InStep()
    {
    }

    lemma StepOut()
      requires Parts() && state == Input && !trailer && (!flushed ==> InStep())
      ensures Cuts()
    {
    }

    /** One turn of the loop of handle_compress: output, then input. */
    method Turn() returns (progress: bool, stop: bool)
      requires Working() && Expecting() && mode != Unused
      modifies this, coll, coll.block, coll.inUse, w
      ensures Working() && Expecting()
      ensures mode == old(mode) && flushed == old(flushed) && announced == old(announced)
      ensures Taken(old(fed), old(next_in)) && Given(old(next_out), old(avail_out))
      ensures progress <==> |next_in| < |old(next_in)| || |next_out| > |old(next_out)|
      ensures stop ==> Stopped()
      ensures !stop ==> state == Output && !old(Ending()) && (Ending() || |next_in| < |old(next_in)|)
      ensures old(state == Output && state_out_pos < |w.zbits|) ==>
        (progress <==> old(avail_out) > 0) && (!progress ==> stop && Resting())
      ensures old(state) == Input ==>
        (progress <==> old(next_in) != []) && avail_out == old(avail_out) && (stop ==> state == Input)
      ensures old(state) == Input && old(next_in) == [] && mode == Running ==> stop
      ensures old(state) == Input && old(next_in) == [] && mode == Finishing ==>
        !stop && Ending() && state_out_pos < |w.zbits|
    {
      hide Parts, Sent, Delivered, Accounted, Modes, Cuts, Stopped;
      progress := false;
      TakenNothing();
      GivenNothing();
      if state == Output {
        progress, stop := OutputPhase();
        if stop { return; }
      }
      var p;
      p, stop := InputPhase();
      progress := progress || p;
    }

    /** handle_compress.  It reports progress exactly when it has taken input or given output,
        and whether it does can be told beforehand. */
    method HandleCompress() returns (progress: bool)
      requires Valid() && Expecting() && mode != Unused
      modifies this, coll, coll.block, coll.inUse, w
      ensures Working() && Expecting() && Stopped()
      ensures mode == old(mode) && flushed == old(flushed) && announced == old(announced)
      ensures Taken(old(fed), old(next_in)) && Given(old(next_out), old(avail_out))
      ensures progress <==> fed != old(fed) || next_out != old(next_out)
      ensures old(state) == Output ==> (progress <==> old(avail_out) > 0)
      ensures old(state) == Input && mode == Running ==> (progress <==> old(next_in) != [])
      ensures old(state) == Input && mode == Finishing ==> (progress <==> old(next_in) != [] || old(avail_out) > 0)
      ensures mode == Finishing && !progress ==> Resting()
    {
      hide Parts, Sent, Delivered, Accounted, Modes, Cuts, Stopped, Working;
      progress := false;
      ghost var went := false;
      TakenNothing();
      GivenNothing();
      while true
        invariant Working() && Expecting()
        invariant mode == old(mode) && mode != Unused && flushed == old(flushed) && announced == old(announced)
        invariant Taken(old(fed), old(next_in)) && Given(old(next_out), old(avail_out))
        invariant |next_in| <= |old(next_in)| && |next_out| >= |old(next_out)|
        invariant progress <==> |next_in| < |old(next_in)| || |next_out| > |old(next_out)|
        invariant !went ==>
          !progress && state == old(state) && next_in == old(next_in) && avail_out == old(avail_out) && Resting()
        invariant went ==> state == Output
        invariant went && old(state) == Output ==> progress && old(avail_out) > 0
        invariant went && old(state) == Input && old(next_in) != [] ==> progress
        invariant went && old(state) == Input && old(next_in) == [] ==>
          mode != Running && (mode == Finishing ==>
            !progress && Ending() && avail_out == old(avail_out) && state_out_pos < |w.zbits|)
        decreases |next_in|, if Ending() then 0 else 1
      {
        ghost var f, i, o, a := fed, next_in, next_out, avail_out;
        var p, stop := Turn();
        GivenMore(old(next_out), old(avail_out), o, a);
        TakenOn(old(fed), old(next_in), f, i);
        progress := progress || p;
        if stop { break; }
        went := true;
      }
      Moved(old(fed), old(next_in), old(next_out), old(avail_out));
    }

    /** Input was taken if and only if less of it is left, and likewise for output. */
    lemma Moved(fed0: seq<byte>, in0: seq<byte>, out0: seq<byte>, avail0: nat)
      requires Taken(fed0, in0) && Given(out0, avail0)
      ensures fed != fed0 <==> |next_in| < |in0|
      ensures next_out != out0 <==> |next_out| > |out0|
    {
      assert |fed| + |next_in| == |fed0| + |in0|;
      if |next_in| == |in0| {
        assert fed == (fed + next_in)[..|fed|] == (fed0 + in0)[..|fed0|] == fed0;
      }
    }

    lemma GivenNothing()
      ensures Given(next_out, avail_out)
    {
    }

    lemma GivenMore(out0: seq<byte>, avail0: nat, o: seq<byte>, a: nat)
      requires out0 <= o && |o| - |out0| == avail0 - a && Given(o, a)
      ensures Given(out0, avail0) && |next_out| >= |o|
    {
    }

    lemma TakenOn(fed0: seq<byte>, in0: seq<byte>, f: seq<byte>, i: seq<byte>)
      requires |i| <= |in0| && f + i == fed0 + in0 && Taken(f, i)
      ensures Taken(fed0, in0) && |next_in| <= |i|
    {
    }

    // ---------------------------------------------------------------- requests

    /** The caller's input and output space for the next request. */
    method Give(input: seq<byte>, room: nat)
      requires Valid()
      modifies this`next_in, this`avail_out
      ensures Valid() && next_in == input && avail_out == room
    {
      hide Parts, Sent, Delivered, Accounted, Modes, Cuts;
      next_in, avail_out := input, room;
    }

    /** Nothing of a flush or finish request is left to do. */
    function Outstanding(): bool
      reads `avail_in_expect, `state_out_pos, coll, w
    {
      avail_in_expect > 0 || !IsEmptyRL() || state_out_pos < |w.zbits|
    }

    /** The request cannot follow the one that is being carried out. */
    predicate Misplaced(action: Action)
      reads `mode, `avail_in_expect, `next_in
    {
      || mode == Unused
      || (mode == Flushing && (action != Flush || avail_in_expect != |next_in|))
      || (mode == Finishing && (action != Finish || avail_in_expect != |next_in|))
    }

    /** A run request can do nothing: no room for the output that is due, or no input. */
    predicate NothingToRun()
      reads `state, `avail_out, `next_in
    {
      if state == Output then avail_out == 0 else next_in == []
    }

    /** A finish request can do nothing. */
    predicate NothingToFinish()
      reads `state, `avail_out, `next_in
    {
      avail_out == 0 && (state == Output || next_in == [])
    }

    /** BZ2_bzCompress. */
    method Compress(action: Action) returns (status: Status)
      requires Valid()
      modifies this, coll, coll.block, coll.inUse, w
      ensures Valid()
      ensures |next_in| <= |old(next_in)| && fed + next_in == old(fed) + old(next_in)
      ensures old(next_out) <= next_out && |next_out| - |old(next_out)| == old(avail_out) - avail_out
      ensures flushed == (old(flushed) || (old(mode) == Running && action == Flush))
      ensures old(mode) == Running && action == Finish ==> (announced <==> old(next_in) != [])
      // the outcome of each kind of request
      ensures status == SequenceError <==> old(Misplaced(action)) || (action == Finish && old(NothingToFinish()))
      ensures status == ParamError <==> old(mode) == Running && action == Run && old(NothingToRun())
      ensures action == Run && status == RunOk ==> fed != old(fed) || next_out != old(next_out)
      ensures action == Run ==> status in {RunOk, ParamError, SequenceError}
      ensures action == Flush ==> status in {RunOk, FlushOk, SequenceError}
      ensures action == Finish ==> status in {StreamEnd, FinishOk, SequenceError}
      // a flush or finish request is left unfinished only for want of space
      ensures status == FlushOk || status == FinishOk ==> avail_out == 0
      ensures status == FinishOk ==> mode == Finishing && state == Output && avail_in_expect == |next_in|
      // a finish request that has been carried out
      ensures status == StreamEnd ==>
        mode == Unused && fed == old(fed) + old(next_in) && coll.Pending() == [] && state_out_pos == |w.zbits|
      ensures old(mode) == Unused || mode != Unused || status == StreamEnd
      // a flush request that has been carried out
      ensures status == RunOk && action == Flush ==>
        && mode == Running && fed == old(fed) + old(next_in)
        && Stream.Text(blocks) == fed && coll.Pending() == [] && w.zbits == []
      // refusals change nothing
      ensures old(Misplaced(action)) ==> next_in == old(next_in) && next_out == old(next_out)
    {
      hide Parts, Sent, Delivered, Accounted, Modes, Cuts;
      GivenNothing();
      TakenNothing();
      if mode == Unused { return SequenceError; }
      if mode == Running && action == Run {
        ExpectNothing();
        var progress := HandleCompress();
        return if progress then RunOk else ParamError;
      }
      if mode == Running {
        Begin(action);
      }
      if (mode == Flushing && action != Flush) || (mode == Finishing && action != Finish) { return SequenceError; }
      if avail_in_expect != |next_in| { return SequenceError; }
      var progress := HandleCompress();
      DoneOrNot();
      if mode == Flushing {
        if Outstanding() { return FlushOk; }
        EndFlush();
        return RunOk;
      }
      if !progress { return SequenceError; }
      if Outstanding() { return FinishOk; }
      EndFinish();
      return StreamEnd;
    }

    lemma DoneOrNot()
      requires Working() && Stopped() && (mode == Flushing || mode == Finishing)
      ensures Outstanding() ==> state == Output && avail_out == 0 && state_out_pos < |w.zbits|
    {
      hide Sent, Delivered, Cuts, Stream.Text, UnRle;
    }

    lemma ExpectNothing()
      requires mode == Running
      ensures Expecting()
    {
    }

    method Begin(action: Action)
      requires Valid() && mode == Running && action != Run
      modifies this`mode, this`avail_in_expect, this`flushed, this`announced
      ensures Valid() && avail_in_expect == |next_in|
      ensures action == Finish ==> (announced <==> next_in != [])
      ensures if action == Flush then mode == Flushing && flushed else mode == Finishing && flushed == old(flushed)
    {
      hide Parts, Sent, Delivered, Accounted, UnRle, OpenSymbol, CutAll, Stream.Text;
      avail_in_expect := |next_in|;
      if action == Flush {
        flushed := true;
        mode := Flushing;
      } else {
        announced := avail_in_expect > 0;
        mode := Finishing;
      }
    }

    method EndFlush()
      requires Working() && Expecting() && Stopped() && mode == Flushing && !Outstanding()
      modifies this`mode
      ensures Working() && mode == Running && next_in == []
      ensures Stream.Text(blocks) == fed && coll.Pending() == [] && w.zbits == []
    {
      hide Sent, Delivered, OpenSymbol, CutAll, Stream.Text, Cuts;
      assert coll.Content() == [] by { EmptyText(coll.Bytes(), []); }
      assert Stream.Text(blocks) + [] == Stream.Text(blocks);
      mode := Running;
    }

    method EndFinish()
      requires Working() && Expecting() && Stopped() && mode == Finishing && !Outstanding()
      modifies this`mode
      ensures Working() && mode == Unused && next_in == [] && coll.Pending() == [] && state_out_pos == |w.zbits|
    {
      hide Sent, Delivered, UnRle, OpenSymbol, CutAll, Stream.Text, Cuts;
      mode := Unused;
    }

    /** End to end: once a finish request has been carried out, decompressing all that the
        caller has received gives all that the caller has supplied, however input and output
        were divided and wherever the caller flushed. */
    lemma EndToEnd()
      requires Valid() && mode == Unused
      ensures Stream.Decompress(table, BytesToBits(next_out)) == Stream.Done(fed)
    {
      hide UnRle, OpenSymbol, CutAll, Stream.StreamBits, Stream.ValidBlocks, Cuts, AsCoded;
      assert w.zbits[..state_out_pos] == w.zbits;
      var pad: nat :| BytesToBits(next_out) == Stream.StreamBits(table, blocks, blockSize100k) + Zeros(pad);
      Stream.RoundTrip(table, blocks, blockSize100k, Zeros(pad));
      assert Stream.Text(blocks) + [] == Stream.Text(blocks);
    }

    /** What the caller has received is the stream of the blocks, in bytes: there is no freedom
        in the padding. */
    lemma OutputIsStream()
      requires Valid() && mode == Unused
      ensures next_out == Bytes(Stream.StreamBits(table, blocks, blockSize100k))
      ensures next_out == Bytes(SentBits(table, BytesOf(blocks), blockSize100k, workFactor))
    {
      hide UnRle, OpenSymbol, CutAll, Stream.StreamBits, Stream.ValidBlocks, Cuts, AsCoded, Bytes, SentBits;
      assert w.zbits[..state_out_pos] == w.zbits;
      var pad: nat :| pad < 8 && BytesToBits(next_out) == Stream.StreamBits(table, blocks, blockSize100k) + Zeros(pad);
      OnlyBytes(next_out, Stream.StreamBits(table, blocks, blockSize100k), pad);
      SentBitsAre(table, blocks, blockSize100k, workFactor);
    }

    /** If nothing was flushed, the blocks handed to the block coder depend only on the bytes
        supplied, and on whether the finish request itself brought some of them. */
    lemma BlocksDependOnInputAlone()
      requires Valid() && mode == Unused && !flushed
      ensures BytesOf(blocks) == CutsOf(blockSize100k, fed, announced)
    {
      hide Parts, Sent, Delivered, Accounted;
    }

    /** If nothing was flushed, all that is sent is a function of the block size, the work factor,
        the checksum table and the bytes supplied, and of whether the finish request itself
        brought some of them: how input and output were divided makes no difference. */
    lemma OutputDependsOnInputAlone()
      requires Valid() && mode == Unused && !flushed
      ensures next_out == Emitted(table, blockSize100k, workFactor, fed, announced)
    {
      hide Parts, Sent, Delivered, Accounted, Cuts, CutsOf, Bytes, SentBits;
      OutputIsStream();
      BlocksDependOnInputAlone();
    }

    /** How many blocks there are can be told from what was sent. */
    lemma BlocksCounted()
      requires Valid() && mode == Unused
      ensures Stream.BlockCount(Decoder.Init(), BytesToBits(next_out)) == |blocks|
    {
      hide UnRle, OpenSymbol, CutAll, Stream.StreamBits, Stream.ValidBlocks, Stream.BlockCount, Cuts, AsCoded;
      assert w.zbits[..state_out_pos] == w.zbits;
      var pad: nat :| BytesToBits(next_out) == Stream.StreamBits(table, blocks, blockSize100k) + Zeros(pad);
      Stream.CountIsKnown(table, blocks, blockSize100k, Zeros(pad));
    }

    /** While a finish request is not complete, the stream is longer than what has been given. */
    lemma MoreToCome()
      requires Valid() && mode == Finishing && state == Output && !flushed && avail_in_expect == |next_in|
      ensures |next_out| < |Emitted(table, blockSize100k, workFactor, fed + next_in, announced)|
    {
      hide Accounted, Cuts, Bytes, SentBits, AsCoded, Stream.ValidBlocks, Stream.BlocksBits, Stream.StreamBits,
        CutBits, CutsOf, HeaderBits;
      var cuts := CutsOf(blockSize100k, fed + next_in, announced);
      assert 8 * |next_out| < |w.earlier| + 8 * |w.zbits|;
      CutsSoFar();
      if trailer {
        SentBitsAre(table, blocks, blockSize100k, workFactor);
      } else {
        CutBitsAre(table, blocks, blockSize100k, workFactor);
        SentLonger(table, BytesOf(blocks), cuts, blockSize100k, workFactor);
      }
    }

    lemma CutsSoFar()
      requires Parts() && Cuts() && Modes() && mode == Finishing && state == Output && !flushed
        && avail_in_expect == |next_in|
      ensures var cuts := CutsOf(blockSize100k, fed + next_in, announced);
        if trailer then cuts == BytesOf(blocks) else BytesOf(blocks) <= cuts
    {
      hide UnRle, OpenSymbol, CutAll, FinishAtOnce, RunThenFinish;
      if next_in == [] { assert fed + next_in == fed; }
      if !trailer { FinishedFirst(blockSize100k, fed, next_in); }
    }
  }

  /** Two compressors that have finished without a flush, with the same block size, work factor
      and table, and supplied with the same bytes, have sent the same bytes if and only if both or
      neither were told of the end along with the last bytes, or the last byte does not fill a
      block. */
  lemma SameInputSameOutput(c: Compressor, d: Compressor)
    requires c.Valid() && d.Valid() && c.mode == d.mode == Unused && !c.flushed && !d.flushed
    requires c.blockSize100k == d.blockSize100k && c.workFactor == d.workFactor && c.table == d.table && c.fed == d.fed
    ensures c.next_out == d.next_out <==> c.announced == d.announced || !LastByteFills(c.blockSize100k, c.fed)
  {
    hide Compressor.Sent, Compressor.Delivered, Compressor.Accounted, Compressor.Cuts, Emitted, LastByteFills,
      Stream.BlockCount;
    hide FinishAtOnce, RunThenFinish;
    c.OutputDependsOnInputAlone();
    d.OutputDependsOnInputAlone();
    if c.announced != d.announced {
      if LastByteFills(c.blockSize100k, c.fed) {
        c.BlocksCounted();
        d.BlocksCounted();
        c.BlocksDependOnInputAlone();
        d.BlocksDependOnInputAlone();
        EndsAlike(c.blockSize100k, c.fed);
      } else {
        EmittedAlike(c.table, c.blockSize100k, c.workFactor, c.fed);
      }
    }
  }

  /** With flushes, equal blocks still mean equal bytes. */
  lemma SameBlocksSameOutput(c: Compressor, d: Compressor)
    requires c.Valid() && d.Valid() && c.mode == d.mode == Unused
    requires c.blockSize100k == d.blockSize100k && c.table == d.table && c.blocks == d.blocks
    ensures c.next_out == d.next_out
  {
    hide Compressor.Sent, Compressor.Delivered, Compressor.Accounted, Compressor.Cuts, Bytes, Stream.StreamBits,
      SentBits;
    c.OutputIsStream();
    d.OutputIsStream();
  }
}

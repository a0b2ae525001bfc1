/**
 One call from buffer to buffer, in both directions.
 */
module Buffers {
  import opened Rotations
  import opened BitStream
  import opened RunLength
  import opened Compressor
  import opened Emission
  import Decoder
  import Decompressor
  import Stream
  import Crc

  datatype BufferResult = Done(bytes: seq<byte>) | OutbuffFull | Refused | Failed(error: Decoder.Error) | UnexpectedEof

  /** What is sent for a whole buffer. */
  ghost function StreamFor(source: seq<byte>, blockSize100k: nat, workFactor: nat, table: Crc.Table): seq<byte>
    requires 1 <= blockSize100k <= 9
  {
    Emitted(table, blockSize100k, if workFactor == 0 then 30 else workFactor, source, source != [])
  }

  /** BZ2_bzBuffToBuffCompress: with valid parameters it gives the stream of the source, which
      decompresses to the source, exactly when the destination has room for it; only nothing to
      nowhere is refused. */
  method CompressBuffer(source: seq<byte>, destLen: nat, blockSize100k: nat, workFactor: nat, table: Crc.Table)
    returns (r: BufferResult)
    ensures !(1 <= blockSize100k <= 9) || workFactor > 250 ==> r == Refused
    ensures 1 <= blockSize100k <= 9 && workFactor <= 250 ==>
      var z := StreamFor(source, blockSize100k, workFactor, table);
      r == if source == [] && destLen == 0 then Refused else if |z| <= destLen then Done(z) else OutbuffFull
    ensures r.Done? ==> Stream.Decompress(table, BytesToBits(r.bytes)) == Stream.Done(source)
  {
    hide *;
    if blockSize100k < 1 || blockSize100k > 9 || workFactor > 250 { return Refused; }
    var s := new Compressor(blockSize100k, workFactor, table);
    s.Give(source, destLen);
    ghost var z := StreamFor(source, blockSize100k, workFactor, table);
    FreshRequest(s, source, destLen);
    StreamForIs(source, blockSize100k, workFactor, table);
    var ret := s.Compress(Finish);
    assert s.fed + s.next_in == source by { assert [] + source == source; }
    if ret == FinishOk {
      s.MoreToCome();
      return OutbuffFull;
    }
    if ret != StreamEnd { return Refused; }
    assert s.fed == source by { assert [] + source == source; }
    s.EndToEnd();
    s.OutputDependsOnInputAlone();
    r := Done(s.next_out);
  }

  lemma StreamForIs(source: seq<byte>, blockSize100k: nat, workFactor: nat, table: Crc.Table)
    requires 1 <= blockSize100k <= 9
    ensures StreamFor(source, blockSize100k, workFactor, table) ==
            Emitted(table, blockSize100k, if workFactor == 0 then 30 else workFactor, source, source != [])
  {
  }

  lemma FreshRequest(s: Compressor, source: seq<byte>, room: nat)
    requires s.mode == Running && s.state == Input && s.next_in == source && s.avail_out == room
    ensures s.Misplaced(Finish) == false && s.NothingToFinish() == (room == 0 && source == [])
  {
  }

  /** BZ2_bzBuffToBuffDecompress, on any bytes whatever: it succeeds exactly when they are a stream
      and the destination is large enough; an error is one of the stream, and the end of the input
      comes too early only if the stream is cut short. */
  method DecompressBuffer(source: seq<byte>, destLen: nat, small: bool, table: Crc.Table) returns (r: BufferResult)
    ensures match Stream.Decompress(table, BytesToBits(source))
      case Done(text) => r == if |text| <= destLen then Done(text) else OutbuffFull
      case Bad(e) => r == Failed(e) || r == OutbuffFull
      case Incomplete => r == UnexpectedEof || r == OutbuffFull
  {
    hide *;
    var s := new Decompressor.Decompressor(small, table, source);
    s.Supply(source);
    s.Room(destLen);
    ghost var outcome := s.outcome;
    var ret := s.Decompress();
    if ret.Failure? { return Failed(ret.error); }
    s.OutputSoFar();
    if ret == Decompressor.Ok { return if s.avail_out > 0 then UnexpectedEof else OutbuffFull; }
    r := Done(s.next_out);
  }
}

/**
 Compressing one block: sorting, move-to-front, and all of its bits.
 */
module BlockCompress {
  import opened Rotations
  import opened Bits
  import opened BitStream
  import opened BwtSpec
  import opened RunLength
  import opened MtfEncode
  import opened BlockFormat
  import opened BlockDecode
  import BlockSort
  import opened SendMtf
  import opened CodeTables
  import opened Mtf
  import Crc

  method SendPreamble(w: BitWriter, crc: Crc.word, origPtr: nat)
    requires w.Valid() && origPtr < 0x100_0000
    modifies w
    ensures Appended(w, PreambleBits(crc, origPtr))
  {
    hide BufferOk, Held, ToBits, BytesToBits, Word, Pow2;
    ghost var b0 := w.Bits();
    Pow2Values();
    PutBytes(w, BLOCK_MAGIC);
    PutBytes(w, Word(crc));
    PutBit(w, false);
    w.Write(24, origPtr);
    ghost var b1, b2, b3 := BytesToBits(BLOCK_MAGIC), BytesToBits(Word(crc)), ToBits(origPtr, 24);
    assert b0 + b1 + b2 + [false] + b3 == b0 + (b1 + b2 + [false] + b3);
  }

  method SendTrailer(w: BitWriter, crc: Crc.word)
    requires w.Valid()
    modifies w
    ensures Appended(w, TrailerBits(crc))
  {
    hide BufferOk, Held, BytesToBits, Word;
    ghost var b0 := w.Bits();
    PutBytes(w, END_MAGIC);
    PutBytes(w, Word(crc));
    ghost var b1, b2 := BytesToBits(END_MAGIC), BytesToBits(Word(crc));
    assert b0 + b1 + b2 == b0 + (b1 + b2);
  }

  lemma InUseIs(u: seq<bool>, bytes: seq<byte>)
    requires |u| == 256 && forall c :: 0 <= c < 256 ==> u[c] == (c in bytes)
    ensures u == InUse(bytes)
  {
  }

  lemma FitsPointer(n: int)
    requires n <= 900000
    ensures n < 0x100_0000
  {
  }

  /** How often each value occurs. */
  function Frequencies(v: seq<nat>, alphaSize: nat): (freq: seq<nat>)
    ensures |freq| == alphaSize && forall c :: 0 <= c < alphaSize ==> freq[c] == Counting.Count(v, c)
  {
    seq(alphaSize, c requires 0 <= c => Counting.Count(v, c))
  }

  /** The block with its listing, tables and selectors, as a function of its bytes and the work
      factor. */
  ghost function BlockOf(bytes: seq<byte>, workFactor: int): (b: Block)
    ensures b.bytes == bytes
  {
    var p := BlockSort.ListingOf(bytes, workFactor);
    if |bytes| > 0 && SortedRotations(bytes, p) then
      var v := Values(bytes, p);
      Block(bytes, p, Passes(v, Frequencies(v, UsedCount(bytes) + 2), N_ITERS))
    else Block(bytes, p, Coding([], []))
  }

  /** The values of a sorted block, and how often each occurs. */
  method BlockValues(block: seq<byte>, inUse: array<bool>, ptr: array<int>)
    returns (v: seq<nat>, freq: seq<nat>, alphaSize: nat)
    requires 0 < |block| == ptr.Length <= 900000 && inUse.Length == 256 && inUse[..] == InUse(block)
    requires SortedRotations(block, ptr[..])
    modifies ptr
    ensures alphaSize == UsedCount(block) + 2 == |freq| && 3 <= alphaSize <= 258
    ensures v == Values(block, old(ptr[..]))
    ensures 0 < |v| <= MAX_VALUES && Below(v, alphaSize)
    ensures freq == Frequencies(v, alphaSize)
  {
    hide Used, Encode, LastColumn;
    var nblock := |block|;
    var mtfv := new int[2 * nblock];
    var mtfFreq := new int[258];
    var unseqToSeq := new byte[256];
    ghost var p0 := ptr[..];
    assert ptr[..nblock] == p0;
    var nMTF, nInUse := GenerateMtfValues(ptr, mtfv, mtfFreq, block, inUse, unseqToSeq, nblock);
    alphaSize := nInUse + 2;
    assert inUse[..] == InUse(block);
    assert forall i :: 0 <= i < nMTF ==> mtfv[..nMTF][i] == mtfv[i];
    v := mtfv[..nMTF];
    forall c | 0 <= c < alphaSize ensures mtfFreq[c] >= 0 { assert mtfFreq[c] == Counting.Count(mtfv[..nMTF], c); }
    freq := mtfFreq[..alphaSize];
    EncodeEndsWith(Numbers(block, p0), Iota(nInUse), 0, nInUse + 1);
  }

  /** Sorts and sends one block; what is sent is a function of its bytes and the work factor. */
  method SendBlock(w: BitWriter, block: array<byte>, nblock: nat, inUse: array<bool>, crc: Crc.word, workFactor: nat)
    returns (ghost b: Block)
    requires w.Valid() && 0 < nblock <= 900000 && nblock <= block.Length && inUse.Length == 256
    requires forall c :: 0 <= c < 256 ==> inUse[c] == (c in block[..nblock])
    modifies w, block
    ensures b.bytes == old(block[..nblock]) == block[..nblock] && Sendable(b)
    ensures Appended(w, BlockBits(b, crc))
    ensures b == BlockOf(block[..nblock], workFactor)
  {
    hide BufferOk, Held, Used, Encode, PreambleBits, BodyBits, Codable, SortedRotations;
    hide BlockSort.ListingOf, Passes, Frequencies;
    ghost var b0 := w.Bits();
    var ptr, origPtr := BlockSort.Sort(block, nblock, workFactor);
    ghost var p := ptr[..];
    var bytes := block[..nblock];
    InUseIs(inUse[..], bytes);
    var v, freq, alphaSize := BlockValues(bytes, inUse, ptr);
    FitsPointer(nblock);
    SendPreamble(w, crc, origPtr);
    var c := SendMtfValues(w, inUse[..], v, freq, alphaSize);
    b := Block(bytes, p, c);
    OnlyStart(b, origPtr);
    ghost var b1, b2 := PreambleBits(crc, origPtr), BodyBits(InUse(bytes), alphaSize, c, v);
    assert b0 + b1 + b2 == b0 + (b1 + b2);
  }

  lemma OnlyStart(b: Block, o: int)
    requires |b.bytes| > 0 && SortedRotations(b.bytes, b.ptr) && 0 <= o < |b.bytes| && b.ptr[o] == 0
    ensures StartRow(b) == o
  {
  }
}

/**
 Whether it makes a difference which sorter is used: the same blocks, coded with two work
 factors, are sent in the same bytes if and only if both listings have the block itself
 at the same place.
 */
module SorterChoice {
  import opened Rotations
  import opened Bits
  import opened BitStream
  import opened BwtSpec
  import opened BlockFormat
  import opened BlockDecode
  import opened BlockCompress
  import opened BlockSort
  import opened Repetition
  import opened Budget
  import opened Emission
  import opened Compressor
  import opened FallbackSort
  import MainSort
  import Stream
  import Crc

  /** With both work factors the block can be sent. */
  ghost predicate BothSendable(bytes: seq<byte>, w1: int, w2: int) {
    |bytes| <= 900000 && Sendable(BlockOf(bytes, w1)) && Sendable(BlockOf(bytes, w2))
  }

  /** Both listings have the block itself at the same place. */
  ghost predicate SameRow(bytes: seq<byte>, w1: int, w2: int) {
    BothSendable(bytes, w1, w2) && StartRow(BlockOf(bytes, w1)) == StartRow(BlockOf(bytes, w2))
  }

  /** Values, tables and selectors do not depend on the listing. */
  lemma SameCoding(bytes: seq<byte>, w1: int, w2: int)
    requires BothSendable(bytes, w1, w2)
    ensures |bytes| > 0 && SortedRotations(bytes, ListingOf(bytes, w1)) && SortedRotations(bytes, ListingOf(bytes, w2))
    ensures Values(bytes, ListingOf(bytes, w1)) == Values(bytes, ListingOf(bytes, w2))
    ensures BlockOf(bytes, w1).coding == BlockOf(bytes, w2).coding
  {
    hide SortedRotations, ListingOf, LastColumn, Codable;
    SameLastColumn(bytes, ListingOf(bytes, w1), ListingOf(bytes, w2));
  }

  /** A block that does not repeat itself has only one place in any sorted listing. */
  lemma OneRow(bytes: seq<byte>, w1: int, w2: int)
    requires BothSendable(bytes, w1, w2) && !Repeats(bytes)
    ensures SameRow(bytes, w1, w2)
  {
    hide SortedRotations, ListingOf, Codable, Values;
    SameCoding(bytes, w1, w2);
    SameStart(bytes, ListingOf(bytes, w1));
    assert StartOf(bytes, ListingOf(bytes, w2)) == StartOf(bytes, ListingOf(bytes, w1));
  }

  /** Whether the main sort is used and lasts. */
  ghost predicate MainLasts(bytes: seq<byte>, w: int) {
    |bytes| >= MAIN_THRESH && MainSort.After(bytes, BudgetFor(|bytes|, w), 256).budget >= 0
  }

  /** Repeating or not, a block is sent alike if the same sorter makes both listings: only which
      sorter it is depends on the work factor. */
  lemma SameSorter(bytes: seq<byte>, w1: int, w2: int)
    requires MainLasts(bytes, w1) <==> MainLasts(bytes, w2)
    ensures ListingOf(bytes, w1) == ListingOf(bytes, w2)
    ensures BothSendable(bytes, w1, w2) ==> SameRow(bytes, w1, w2)
  {
    hide MainSort.After, Fallen, SortedRotations, Codable, Values;
    if MainLasts(bytes, w1) { OneListing(bytes, BudgetFor(|bytes|, w1), BudgetFor(|bytes|, w2)); }
    assert ListingOf(bytes, w1) == ListingOf(bytes, w2);
    if BothSendable(bytes, w1, w2) { SameCoding(bytes, w1, w2); }
  }

  /** Without looking at listings: the block does not repeat itself, or the same sorter lists it. */
  ghost predicate Safe(bytes: seq<byte>, w1: int, w2: int) {
    Repeats(bytes) ==> (MainLasts(bytes, w1) <==> MainLasts(bytes, w2))
  }

  lemma SafeRow(bytes: seq<byte>, w1: int, w2: int)
    requires BothSendable(bytes, w1, w2) && Safe(bytes, w1, w2)
    ensures SameRow(bytes, w1, w2)
  {
    hide MainLasts, Repeats, BothSendable, SameRow;
    if Repeats(bytes) { SameSorter(bytes, w1, w2); } else { OneRow(bytes, w1, w2); }
  }

  lemma PointerBits(a: nat, b: nat)
    requires a < 0x100_0000 && b < 0x100_0000
    ensures ToBits(a, 24) == ToBits(b, 24) <==> a == b
  {
    Pow2Values();
    FromToBits(a, 24);
    FromToBits(b, 24);
  }

  /** One block is sent in the same bits if and only if its place is the same. */
  lemma BlockAlike(bytes: seq<byte>, w1: int, w2: int, crc: nat)
    requires BothSendable(bytes, w1, w2) && crc < 0x1_0000_0000
    ensures |BlockBits(BlockOf(bytes, w1), crc)| == |BlockBits(BlockOf(bytes, w2), crc)|
    ensures BlockBits(BlockOf(bytes, w1), crc) == BlockBits(BlockOf(bytes, w2), crc) <==> SameRow(bytes, w1, w2)
  {
    hide SortedRotations, ListingOf, Codable, Values, BodyBits, ToBits, BytesToBits, Word;
    SameCoding(bytes, w1, w2);
    var r1, r2 := StartRow(BlockOf(bytes, w1)), StartRow(BlockOf(bytes, w2));
    PointerBits(r1, r2);
    var head := BytesToBits(BLOCK_MAGIC) + BytesToBits(Word(crc)) + [false];
    var c := BlockOf(bytes, w1).coding;
    var body := BodyBits(InUse(bytes), UsedCount(bytes) + 2, c, Values(bytes, ListingOf(bytes, w1)));
    var b1, b2 := BlockBits(BlockOf(bytes, w1), crc), BlockBits(BlockOf(bytes, w2), crc);
    assert b1 == head + ToBits(r1, 24) + body && b2 == head + ToBits(r2, 24) + body;
    assert b1[|head|..|head| + 24] == ToBits(r1, 24) && b2[|head|..|head| + 24] == ToBits(r2, 24);
  }

  // ---------------------------------------------------------------- streams

  lemma AppendAlike<T>(a: seq<T>, b: seq<T>, a': seq<T>, b': seq<T>)
    requires |a| == |a'| && |b| == |b'|
    ensures a + b == a' + b' <==> a == a' && b == b'
  {
    assert (a + b)[..|a|] == a && (a + b)[|a|..] == b;
    assert (a' + b')[..|a'|] == a' && (a' + b')[|a'|..] == b';
  }

  lemma {:induction false} CutsAlike(t: Crc.Table, cuts: seq<seq<byte>>, w1: int, w2: int)
    requires forall k :: 0 <= k < |cuts| ==> BothSendable(cuts[k], w1, w2)
    ensures |CutBits(t, cuts, w1)| == |CutBits(t, cuts, w2)|
    ensures CutBits(t, cuts, w1) == CutBits(t, cuts, w2) <==> forall k :: 0 <= k < |cuts| ==> SameRow(cuts[k], w1, w2)
  {
    hide BlockOf, BlockBits, Sendable, StartRow;
    if cuts != [] {
      var front, last := cuts[..|cuts| - 1], cuts[|cuts| - 1];
      assert BothSendable(last, w1, w2);
      CutsAlike(t, front, w1, w2);
      var crc := Stream.BlockCrc(t, last);
      BlockAlike(last, w1, w2, crc);
      AppendAlike(CutBits(t, front, w1), BlockBits(BlockOf(last, w1), crc), CutBits(t, front, w2),
        BlockBits(BlockOf(last, w2), crc));
      assert forall k :: 0 <= k < |front| ==> front[k] == cuts[k];
    }
  }

  /** The checksum depends on the bytes alone. */
  lemma {:induction false} SameCrc(t: Crc.Table, cuts: seq<seq<byte>>, w1: int, w2: int)
    ensures Stream.CombinedCrc(t, Coded(cuts, w1)) == Stream.CombinedCrc(t, Coded(cuts, w2))
  {
    hide BlockOf;
    if cuts != [] {
      var front := cuts[..|cuts| - 1];
      SameCrc(t, front, w1, w2);
      assert Coded(cuts, w1)[..|cuts| - 1] == Coded(front, w1) && Coded(cuts, w2)[..|cuts| - 1] == Coded(front, w2);
      assert Coded(cuts, w1)[|cuts| - 1].bytes == Coded(cuts, w2)[|cuts| - 1].bytes;
    }
  }

  lemma SentAlike(t: Crc.Table, cuts: seq<seq<byte>>, blockSize100k: nat, w1: int, w2: int)
    requires 1 <= blockSize100k <= 9 && forall k :: 0 <= k < |cuts| ==> BothSendable(cuts[k], w1, w2)
    ensures Bytes(SentBits(t, cuts, blockSize100k, w1)) == Bytes(SentBits(t, cuts, blockSize100k, w2)) <==>
      forall k :: 0 <= k < |cuts| ==> SameRow(cuts[k], w1, w2)
  {
    hide CutBits, HeaderBits, TrailerBits, Stream.CombinedCrc, BothSendable, SameRow, Bytes;
    SameCrc(t, cuts, w1, w2);
    CutsAlike(t, cuts, w1, w2);
    var head, c1, c2 := HeaderBits(blockSize100k), CutBits(t, cuts, w1), CutBits(t, cuts, w2);
    var tail := TrailerBits(Stream.CombinedCrc(t, Coded(cuts, w1)));
    AppendAlike(head, c1, head, c2);
    AppendAlike(head + c1, tail, head + c2, tail);
    BytesAlike(head + c1 + tail, head + c2 + tail);
  }

  /** Different bits of the same number are in different bytes. */
  lemma BytesAlike(a: seq<bool>, b: seq<bool>)
    requires |a| == |b|
    ensures Bytes(a) == Bytes(b) <==> a == b
  {
    var p := BytesHold(a);
    var q := BytesHold(b);
    if Bytes(a) == Bytes(b) {
      assert (a + Zeros(p))[..|a|] == a && (b + Zeros(q))[..|b|] == b;
    }
  }

  lemma {:induction false} BytesHold(b: seq<bool>) returns (pad: nat)
    ensures BytesToBits(Bytes(b)) == b + Zeros(pad)
    decreases |b|
  {
    hide ToBits, FromBits;
    if b == [] {
      pad := 0;
    } else if |b| < 8 {
      pad := 8 - |b|;
      ToFromBits(b + Zeros(pad));
    } else {
      pad := BytesHold(b[8..]);
      ToFromBits(b[..8]);
      assert b == b[..8] + b[8..];
    }
  }

  /** For one input and two work factors: the same is sent if and only if no block has changed its
      place. */
  lemma WorkFactorIff(t: Crc.Table, blockSize100k: nat, w1: int, w2: int, x: seq<byte>, announced: bool)
    requires 1 <= blockSize100k <= 9
    requires var cuts := CutsOf(blockSize100k, x, announced); forall k :: 0 <= k < |cuts| ==>
      BothSendable(cuts[k], w1, w2)
    ensures var cuts := CutsOf(blockSize100k, x, announced);
      Emitted(t, blockSize100k, w1, x, announced) == Emitted(t, blockSize100k, w2, x, announced) <==>
      forall k :: 0 <= k < |cuts| ==> SameRow(cuts[k], w1, w2)
  {
    hide CutsOf, BothSendable, SameRow, SentBits, Bytes;
    SentAlike(t, CutsOf(blockSize100k, x, announced), blockSize100k, w1, w2);
  }

  /** Two compressors that have finished, with any work factors, any sequences of requests and the
      same bytes in their blocks, have sent the same if and only if all blocks are at the same
      places in their listings. */
  lemma SameCutsSameOutput(c: Compressor, d: Compressor)
    requires c.Valid() && d.Valid() && c.mode == d.mode == Unused
    requires c.blockSize100k == d.blockSize100k && c.table == d.table && BytesOf(c.blocks) == BytesOf(d.blocks)
    ensures c.next_out == d.next_out <==>
      forall k :: 0 <= k < |c.blocks| ==> SameRow(c.blocks[k].bytes, c.workFactor, d.workFactor)
    ensures (forall k :: 0 <= k < |c.blocks| ==> Safe(c.blocks[k].bytes, c.workFactor, d.workFactor)) ==>
      c.next_out == d.next_out
  {
    hide Compressor.Sent, Compressor.Delivered, Compressor.Accounted, Compressor.Cuts, Bytes, Stream.StreamBits,
      SentBits;
    hide BlockOf, Sendable, StartRow, Safe;
    c.OutputIsStream();
    d.OutputIsStream();
    var cuts := BytesOf(c.blocks);
    forall k | 0 <= k < |cuts| ensures BothSendable(cuts[k], c.workFactor, d.workFactor) {
      CanBeSent(c, k);
      CanBeSent(d, k);
      assert cuts[k] == BytesOf(d.blocks)[k];
    }
    SentAlike(c.table, cuts, c.blockSize100k, c.workFactor, d.workFactor);
    forall k | 0 <= k < |cuts| && Safe(cuts[k], c.workFactor, d.workFactor)
      ensures SameRow(cuts[k], c.workFactor, d.workFactor)
    {
      SafeRow(cuts[k], c.workFactor, d.workFactor);
    }
  }

  lemma CanBeSent(c: Compressor, k: int)
    requires c.Valid() && c.mode == Unused && 0 <= k < |c.blocks|
    ensures |c.blocks[k].bytes| <= 900000 && Sendable(BlockOf(c.blocks[k].bytes, c.workFactor))
  {
    hide Compressor.Delivered, Compressor.Accounted, Compressor.Cuts, BlockOf, Sendable, Stream.StreamBits,
      Stream.BlocksBits;
    assert ValidBlock(c.blocks[k], c.blockSize100k);
  }
}

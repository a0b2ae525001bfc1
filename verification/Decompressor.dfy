/**
 The decompressor as its callers see it: any bytes as input, in any pieces, output space
 in any pieces, with either decoder.
 */
module Decompressor {
  import opened Rotations
  import opened Counting
  import opened BwtSpec
  import opened BwtDecode
  import opened BitStream
  import opened RunLength
  import opened Decoder
  import opened DecoderState
  import opened Resume
  import opened Output
  import Stream
  import Crc

  datatype Status = Ok | End | SequenceError | Failure(error: Error)

  /** The counts of each symbol in the last column, and their running totals. */
  method CountSymbols(l: seq<byte>) returns (cftab: array<int>)
    ensures fresh(cftab) && cftab.Length == 257 && Counted(cftab[..], l, 0)
    ensures forall c :: 0 <= c <= 256 ==> cftab[c] == CountBelow(l, c)
  {
    hide Count, CountBelow;
    var unzftab := new int[256];
    forall c: nat | c < 256 ensures Count(l[..0], c) == 0 { NoCount(l, c); }
    for i := 0 to 256
      invariant forall c :: 0 <= c < i ==> unzftab[c] == 0
    {
      unzftab[i] := 0;
    }
    for i := 0 to |l|
      invariant forall c :: 0 <= c < 256 ==> unzftab[c] == Count(l[..i], c)
    {
      forall c | 0 <= c < 256
        ensures Count(l[..i + 1], c) == Count(l[..i], c) + if l[i] == c then 1 else 0 { CountPrefixStep(l, i, c); }
      unzftab[l[i]] := unzftab[l[i]] + 1;
    }
    assert l[..|l|] == l;
    cftab := new int[257];
    MakeCftab(unzftab, cftab, l);
  }

  lemma NoCount(l: seq<nat>, c: nat)
    ensures Count(l[..0], c) == 0
  {
  }

  /** What a block decodes to before the initial run-length code is undone. */
  ghost function BlockText(l: seq<byte>, origPtr: nat): (s: seq<byte>)
    requires origPtr < |l|
    ensures |s| == |l|
  {
    Chain(l, FLTable(l), FL(l, origPtr), |l|)
  }

  /** Inverse block sorting for the fast decoder. */
  method MakeFast(l: seq<byte>, origPtr: nat, blockSize100k: nat, table: Crc.Table) returns (stage: OutputStage)
    requires origPtr < |l| <= 100000 * blockSize100k
    ensures fresh(stage) && fresh(stage.tt) && fresh(stage.ll16) && fresh(stage.ll4) && fresh(stage.cftab)
    ensures !stage.small && stage.table == table && stage.text == BlockText(l, origPtr)
    ensures stage.LinkedAt(stage.tPos, 0) && stage.state_out_len == 0 && stage.calculatedBlockCRC == Crc.INITIAL
  {
    var cftab := CountSymbols(l);
    var tt := new nat[|l|](k requires 0 <= k < |l| => Entry(l[k], 0));
    BuildFast(tt, cftab, |l|, l);
    EntryParts(l[origPtr], FL(l, origPtr));
    var none := new int[0];
    stage := new OutputStage(false, blockSize100k, table, tt, none, none, cftab, EntryRow(tt[origPtr]), |l|, l, [],
      BlockText(l, origPtr));
    assert stage.text[0..] == stage.text;
  }

  /** Inverse block sorting for the small decoder. */
  method MakeSmall(l: seq<byte>, origPtr: nat, blockSize100k: nat, table: Crc.Table) returns (stage: OutputStage)
    requires origPtr < |l| <= 100000 * blockSize100k && blockSize100k <= 9
    ensures fresh(stage) && fresh(stage.tt) && fresh(stage.ll16) && fresh(stage.ll4) && fresh(stage.cftab)
    ensures stage.small && stage.table == table && stage.text == BlockText(l, origPtr)
    ensures stage.LinkedAt(stage.tPos, 0) && stage.state_out_len == 0 && stage.calculatedBlockCRC == Crc.INITIAL
  {
    hide LFCycle, Stores, GetLL, CountBelow, LF, Chain, Counted, OutputStage.LinkedAt;
    var cftab := CountSymbols(l);
    var cftabCopy := new int[257](c requires 0 <= c < 257 reads cftab requires cftab.Length == 257 => cftab[c]);
    assert cftabCopy[..] == cftab[..];
    var ll16 := new int[|l|](k requires 0 <= k < |l| => l[k] as int);
    var ll4 := new int[(1 + |l|) / 2](_ => 0);
    assert Stores(ll16, ll4) by { FreshStores(ll16, ll4); }
    var cycle := BuildSmall(ll16, ll4, cftabCopy, |l|, origPtr, l);
    var none := new nat[0];
    stage := new OutputStage(true, blockSize100k, table, none, ll16, ll4, cftab, origPtr, |l|, l, cycle,
      BlockText(l, origPtr));
    assert origPtr == cycle[0] && origPtr in cycle by { CycleStart(l, cycle); }
    stage.LinkSmall();
  }

  lemma FreshStores(ll16: array<int>, ll4: array<int>)
    requires ll16 != ll4 && ll16.Length <= 2 * ll4.Length
    requires forall k :: 0 <= k < ll16.Length ==> 0 <= ll16[k] < 256
    requires forall k :: 0 <= k < ll4.Length ==> ll4[k] == 0
    ensures Stores(ll16, ll4)
  {
  }

  lemma CycleStart(l: seq<byte>, cycle: seq<int>)
    requires LFCycle(l, cycle)
    ensures |cycle| > 0
  {
  }

  // ---------------------------------------------------------------- what remains to be decoded

  /** Decoding part of the input first makes no difference to the outcome. */
  lemma DecodeAlong(t: Crc.Table, st: DState, a: seq<bool>, f: seq<bool>, out: seq<byte>, combined: Crc.word)
    requires WellFormed(st) && Running(st)
    ensures var (mid, rest) := Stream.RunOn(st, a);
      && WellFormed(mid)
      && (Running(mid) ==>
            Stream.DecodeFrom(t, st, a + f, out, combined) == Stream.DecodeFrom(t, mid, rest + f, out, combined))
      && (!Running(mid) ==> Stream.RunOn(st, a + f) == (mid, rest + f) && |rest| < |a|)
  {
    hide WellFormed;
    RunOnAppend(st, a, f);
    var (mid, rest) := Stream.RunOn(st, a);
    if !Running(mid) { Stream.StopsThere(mid, rest + f); }
  }

  /** What the decompressor has put out is the beginning of what it will put out. */
  lemma {:induction false} OutputIsPrefix(t: Crc.Table, st: DState, b: seq<bool>, out: seq<byte>, combined: Crc.word)
    requires Running(st) && Stream.DecodeFrom(t, st, b, out, combined).Done?
    ensures out <= Stream.DecodeFrom(t, st, b, out, combined).text
    decreases |b|
  {
    hide Stream.RunOn, Stream.Expand, Crc.Fold, UnRle;
    var (st', rest) := Stream.RunOn(st, b);
    if st'.point == OutputReady {
      var text := Stream.Expand(st'.tt, st'.origPtr).value;
      var crc := Crc.Finalise(Crc.Fold(t, Crc.INITIAL, text));
      OutputIsPrefix(t, st'.(point := BlkHdr(0)), rest, out + text, Crc.Combine(combined, crc));
    }
  }

  class Decompressor {
    const small: bool
    const table: Crc.Table
    const reader: BitReader
    var stage: OutputStage?
    var calculatedCombinedCRC: Crc.word
    var next_out: seq<byte>
    var avail_out: nat

    ghost var future: seq<byte>   // compressed bytes that the caller has yet to supply
    ghost var given: seq<byte>    // what has been delivered of the current block
    ghost const outcome: Stream.Outcome   // what decompressing all of the stream comes to

    constructor (small: bool, table: Crc.Table, ghost stream: seq<byte>)
      ensures Valid() && future == stream && next_out == [] && this.small == small && this.table == table
      ensures outcome == Stream.Decompress(table, BytesToBits(stream))
      ensures fresh(reader) && stage == null && reader.st == Init() && reader.owned == {}
      ensures reader.st.point != Idle
    {
      this.small, this.table := small, table;
      reader := new BitReader();
      stage, calculatedCombinedCRC, next_out, avail_out := null, 0, [], 0;
      future, given := stream, [];
      outcome := Stream.Decompress(table, BytesToBits(stream));
      new;
      assert [] + BytesToBits(stream) == BytesToBits(stream);
    }

    /** The bits still to be used. */
    ghost function Bits(): seq<bool>
      reads `future, reader
    {
      reader.Unread() + BytesToBits(future)
    }

    /** A block is being delivered.  If it breaks off, or its checksum will turn out to be wrong, the
        stream is bad. */
    ghost predicate Delivering(s: OutputStage)
      reads `given, `next_out, `calculatedCombinedCRC, `future, reader, s, s.tt, s.ll16, s.ll4, s.cftab
    {
      && s.small == small && s.table == table && s.Valid()
      && match s.Remaining()
         case None => outcome == Stream.Bad(DataError)
         case Some(r) =>
           && s.calculatedBlockCRC == Crc.Fold(table, Crc.INITIAL, given)
           && BlockDue(given + r, next_out + r)
    }

    /** When the block is `whole` and the output has come to `out`, the stream goes on if the block has
        its checksum. */
    ghost predicate BlockDue(whole: seq<byte>, out: seq<byte>)
      reads `calculatedCombinedCRC, `future, reader
    {
      var crc := Crc.Finalise(Crc.Fold(table, Crc.INITIAL, whole));
      && SizeKnown(reader.st)
      && outcome ==
           if crc != reader.st.storedBlockCRC then Stream.Bad(DataError)
           else Stream.DecodeFrom(table, reader.st.(point := BlkHdr(0)), Bits(), out,
                                  Crc.Combine(calculatedCombinedCRC, crc))
    }

    ghost predicate Valid()
      reads this, reader, reader.owned, stage, if stage == null then {} else {stage.tt},
            if stage == null then {} else {stage.ll16},
            if stage == null then {} else {stage.ll4}, if stage == null then {} else {stage.cftab}
    {
      && reader.Valid() && this !in reader.owned
      && (Running(reader.st) ==>
            outcome == Stream.DecodeFrom(table, reader.st, Bits(), next_out, calculatedCombinedCRC))
      && (reader.st.point == OutputReady ==> stage != null && Delivering(stage))
      && (reader.st.point == Idle ==> outcome == Stream.Done(next_out))
      && !reader.st.point.Failed?
    }

    /** The caller supplies more input. */
    method Supply(chunk: seq<byte>)
      requires Valid() && chunk <= future
      modifies this`future, reader`next_in
      ensures Valid() && old(future) == chunk + future && reader.next_in == old(reader.next_in) + chunk
      ensures stage == old(stage) && reader.st == old(reader.st)
    {
      hide Stream.DecodeFrom, WellFormed, Low, BytesToBits, BitReader.Mirrors;
      BytesToBitsAppend(reader.next_in, chunk);
      BytesToBitsAppend(chunk, future[|chunk|..]);
      assert future == chunk + future[|chunk|..];
      ghost var low, a, b, c := Low(reader.bsBuff, reader.bsLive), BytesToBits(reader.next_in), BytesToBits(chunk),
        BytesToBits(future[|chunk|..]);
      assert (low + a) + (b + c) == (low + (a + b)) + c;
      reader.next_in := reader.next_in + chunk;
      future := future[|chunk|..];
    }

    /** The caller provides output space. */
    method Room(room: nat)
      requires Valid()
      modifies this`avail_out
      ensures Valid() && avail_out == room
    {
      hide Stream.DecodeFrom, Delivering;
      avail_out := room;
    }

    /** Delivers as much of the current block as there is room for. */
    method DeliverBlock() returns (corrupt: bool, finished: bool)
      requires Valid() && reader.st.point == OutputReady
      modifies this`next_out, this`avail_out, this`given, stage
      ensures if corrupt then outcome == Stream.Bad(DataError) else Valid()
      ensures old(next_out) <= next_out && |next_out| - |old(next_out)| == old(avail_out) - avail_out
      ensures !corrupt ==> finished == (stage.nblock_used == stage.save_nblock + 1 && stage.state_out_len == 0)
      ensures !corrupt ==> if finished then stage.Remaining() == Some([])
        else avail_out == 0 && stage.Remaining() != Some([])
    {
      hide Stream.DecodeFrom, BlockDue, UnRle, Rep, Crc.Fold, OutputStage.Drawn, OutputStage.Rest;
      ghost var whole := stage.Remaining();
      ghost var out0, avail0 := next_out, avail_out;
      corrupt := Deliver(stage, whole);
      if corrupt {
        next_out, avail_out := stage.out, stage.avail_out;
        return true, false;
      }
      Account(stage, whole);
      stage.FinishedIff();
      finished := stage.nblock_used == stage.save_nblock + 1 && stage.state_out_len == 0;
    }

    /** What the stage has delivered is accounted for. */
    method Account(s: OutputStage, ghost whole: Option<seq<byte>>)
      requires s.Valid() && s.small == small && s.table == table
      requires next_out <= s.out && |s.out| - |next_out| == avail_out - s.avail_out
      requires match whole
        case Some(r) =>
          var e := if |r| <= avail_out then |r| else avail_out;
          && s.Remaining() == Some(r[e..]) && s.out == next_out + r[..e] && s.avail_out == avail_out - e
          && s.calculatedBlockCRC == Crc.Fold(table, Crc.INITIAL, given + r[..e]) && BlockDue(given + r, next_out + r)
        case None => s.Remaining() == None && s.avail_out == 0 && outcome == Stream.Bad(DataError)
      modifies this`next_out, this`avail_out, this`given
      ensures Delivering(s) && next_out == s.out && avail_out == s.avail_out
      ensures avail_out == 0 || s.Remaining() == Some([])
    {
      hide Stream.DecodeFrom, BlockDue, OutputStage.Valid, OutputStage.Remaining;
      if whole.Some? {
        ghost var r := whole.value;
        ghost var e := if |r| <= avail_out then |r| else avail_out;
        Regroup(given, r, e);
        Regroup(next_out, r, e);
        given := given + r[..e];
      }
      next_out, avail_out := s.out, s.avail_out;
    }

    /** What has not been delivered of the block is still to come, if the stream is a good one. */
    lemma MoreToCome()
      requires Valid() && reader.st.point == OutputReady && stage.Remaining() != Some([])
      ensures outcome.Done? ==> next_out <= outcome.text && |next_out| < |outcome.text|
    {
      hide Stream.DecodeFrom, BlockDue, UnRle, OutputStage.Drawn, OutputStage.Rest;
      if outcome.Done? {
        DueIsPrefix(given + stage.Remaining().value, next_out + stage.Remaining().value);
      }
    }

    lemma DueIsPrefix(whole: seq<byte>, out: seq<byte>)
      requires BlockDue(whole, out) && outcome.Done?
      ensures out <= outcome.text
    {
      hide Stream.DecodeFrom, Crc.Fold;
      var crc := Crc.Finalise(Crc.Fold(table, Crc.INITIAL, whole));
      OutputIsPrefix(table, reader.st.(point := BlkHdr(0)), Bits(), out, Crc.Combine(calculatedCombinedCRC, crc));
    }

    /** At every moment the output is the beginning of what the stream stands for, if it stands for
        anything. */
    lemma OutputSoFar()
      requires Valid()
      ensures outcome.Done? ==> next_out <= outcome.text
    {
      hide Stream.DecodeFrom, BlockDue, UnRle, OutputStage.Drawn, OutputStage.Rest;
      if outcome.Done? {
        if Running(reader.st) {
          OutputIsPrefix(table, reader.st, Bits(), next_out, calculatedCombinedCRC);
        } else if reader.st.point == OutputReady {
          DueIsPrefix(given + stage.Remaining().value, next_out + stage.Remaining().value);
        }
      }
    }

    lemma Regroup(a: seq<byte>, r: seq<byte>, e: nat)
      requires e <= |r|
      ensures a + r == (a + r[..e]) + r[e..]
    {
      assert r == r[..e] + r[e..];
    }

    /** The output loop of the chosen decoder. */
    method Deliver(s: OutputStage, ghost whole: Option<seq<byte>>) returns (corrupt: bool)
      requires s.small == small && s.table == table && s.Valid() && whole == s.Remaining()
      requires whole.Some? ==> s.calculatedBlockCRC == Crc.Fold(table, Crc.INITIAL, given)
      modifies s
      ensures corrupt ==> whole == None
      ensures next_out <= s.out && |s.out| - |next_out| == avail_out - s.avail_out
      ensures !corrupt ==>
        && s.Valid()
        && match whole
           case Some(r) =>
             var e := if |r| <= avail_out then |r| else avail_out;
             && s.Remaining() == Some(r[e..]) && s.out == next_out + r[..e] && s.avail_out == avail_out - e
             && s.calculatedBlockCRC == Crc.Fold(table, Crc.INITIAL, given + r[..e])
           case None => s.Remaining() == None && s.avail_out == 0
    {
      hide UnRle, Rep, Crc.Fold, OutputStage.Drawn, OutputStage.Rest;
      s.out, s.avail_out := next_out, avail_out;
      if whole.Some? {
        ghost var r := whole.value;
        Crc.FoldAppend(table, Crc.INITIAL, given, r[..if |r| <= avail_out then |r| else avail_out]);
      }
      if small { corrupt := s.UnRleSmall(); } else { corrupt := s.UnRleFast(); }
    }

    /** What the block that is to come means for the stream. */
    ghost predicate Ahead()
      reads `calculatedCombinedCRC, `future, `next_out, reader
    {
      && SizeKnown(reader.st) && reader.st.origPtr < |reader.st.tt| <= 100000 * reader.st.blockSize100k
      && match Stream.Expand(reader.st.tt, reader.st.origPtr)
         case None => outcome == Stream.Bad(DataError)
         case Some(whole) => BlockDue(whole, next_out + whole)
    }

    /** Decodes as far as the input reaches. */
    method Onward() returns (r: Result)
      requires Valid() && Running(reader.st)
      modifies reader, reader.owned
      ensures reader.Valid() && fresh(reader.owned - old(reader.owned))
      ensures (r.Trouble? <==> reader.st.point.Failed?) && (r == EndOfStream <==> reader.st.point == Idle)
      ensures r.Trouble? ==> outcome == Stream.Bad(r.error)
      ensures Running(reader.st) ==>
        && reader.next_in == [] && (future == [] ==> outcome == Stream.Incomplete)
        && outcome == Stream.DecodeFrom(table, reader.st, Bits(), next_out, calculatedCombinedCRC)
      ensures reader.st.point == OutputReady ==> Ahead()
      ensures reader.st.point == Idle ==>
        outcome ==
        if calculatedCombinedCRC == reader.st.storedCombinedCRC then Stream.Done(next_out) else Stream.Bad(DataError)
      ensures |reader.Unread()| <= |old(reader.Unread())|
      ensures reader.st.point == OutputReady ==> |reader.Unread()| < |old(reader.Unread())|
    {
      hide Stream.DecodeFrom, Stream.RunOn, WellFormed, Low, BytesToBits, UnRle, Crc.Fold, BitReader.Mirrors,
        Delivering, Stream.Expand;
      ghost var st0, a, f := reader.st, reader.Unread(), BytesToBits(future);
      DecodeAlong(table, st0, a, f, next_out, calculatedCombinedCRC);
      r := reader.Decompress();
      ghost var mid, rest := reader.st, reader.Unread();
      if mid.point == OutputReady {
        ReadyBounds(mid);
        BlockAhead(st0, a + f, mid, rest + f);
      } else if !Running(mid) {
        StreamAhead(st0, a + f, mid, rest + f);
      } else if future == [] {
        RunTwice(st0, a);
        StuckIsIncomplete(mid, rest, f);
      }
    }

    /** Reads on to the next block, the end of the stream, or the end of the input. */
    method ReadOn() returns (r: Result)
      requires Valid() && Running(reader.st)
      modifies reader, reader.owned, this`stage, this`given
      ensures reader.Valid() && (stage == old(stage) || FreshStage()) && fresh(reader.owned - old(reader.owned))
      ensures r.Trouble? ==> outcome == Stream.Bad(r.error)
      ensures r == EndOfStream <==> reader.st.point == Idle
      ensures !r.Trouble? && r != EndOfStream ==> Valid()
      ensures r == EndOfStream ==>
        if calculatedCombinedCRC == reader.st.storedCombinedCRC then Valid() else outcome == Stream.Bad(DataError)
      ensures Running(reader.st) ==> reader.next_in == [] && (future == [] ==> outcome == Stream.Incomplete)
      ensures |reader.Unread()| <= |old(reader.Unread())|
      ensures reader.st.point == OutputReady ==> |reader.Unread()| < |old(reader.Unread())|
    {
      hide Stream.DecodeFrom, Stream.Expand, BitReader.Unread, BitReader.Valid, UnRle, Crc.Fold, OutputStage.Drawn,
        OutputStage.Rest;
      r := Onward();
      ControlIs();
      if reader.control.point == OutputReady {
        stage := Begun(reader.control.tt, reader.control.origPtr, reader.control.blockSize100k);
        given := [];
        if stage.Remaining().Some? { assert [] + stage.Remaining().value == stage.Remaining().value; }
        assert Crc.Fold(table, Crc.INITIAL, []) == Crc.INITIAL by { FoldNothing(); }
      }
    }

    /** When all bits have been used and more are asked for, the stream is cut short. */
    lemma StuckIsIncomplete(mid: DState, rest: seq<bool>, f: seq<bool>)
      requires Running(mid) && Stream.RunOn(mid, rest) == (mid, rest) && f == BytesToBits([])
      requires outcome == Stream.DecodeFrom(table, mid, rest + f, next_out, calculatedCombinedCRC)
      ensures outcome == Stream.Incomplete
    {
      hide Stream.RunOn;
      assert f == [] && rest + f == rest;
    }

    lemma FoldNothing()
      ensures Crc.Fold(table, Crc.INITIAL, []) == Crc.INITIAL
    {
    }

    lemma ReadyBounds(st: DState)
      requires WellFormed(st) && st.point == OutputReady
      ensures SizeKnown(st) && st.origPtr < |st.tt| <= 100000 * st.blockSize100k
    {
    }

    /** Inverse block sorting, and the first symbol. */
    method Begun(tt: seq<byte>, origPtr: nat, blockSize100k: nat) returns (s: OutputStage)
      requires origPtr < |tt| <= 100000 * blockSize100k && blockSize100k <= 9
      ensures fresh(s) && fresh(s.tt) && fresh(s.ll16) && fresh(s.ll4) && fresh(s.cftab)
      ensures s.small == small && s.table == table && s.Valid() && s.calculatedBlockCRC == Crc.INITIAL
      ensures s.Remaining() == Stream.Expand(tt, origPtr)
    {
      hide UnRle, OutputStage.LinkedAt;
      if small {
        s := MakeSmall(tt, origPtr, blockSize100k, table);
      } else {
        s := MakeFast(tt, origPtr, blockSize100k, table);
      }
      s.Begin();
    }

    twostate predicate FreshStage()
      reads `stage
    {
      stage != null && fresh(stage)
    }

    /** The stream goes on from a block if that can be expanded and has the checksum stored with it. */
    lemma BlockAhead(st0: DState, b: seq<bool>, mid: DState, rest: seq<bool>)
      requires Running(st0) && Stream.RunOn(st0, b) == (mid, rest) && mid.point == OutputReady
      requires outcome == Stream.DecodeFrom(table, st0, b, next_out, calculatedCombinedCRC)
      ensures match Stream.Expand(mid.tt, mid.origPtr)
        case None => outcome == Stream.Bad(DataError)
        case Some(whole) =>
          var crc := Crc.Finalise(Crc.Fold(table, Crc.INITIAL, whole));
          outcome ==
          if crc != mid.storedBlockCRC then Stream.Bad(DataError)
          else Stream.DecodeFrom(table, mid.(point := BlkHdr(0)), rest, next_out + whole,
                                 Crc.Combine(calculatedCombinedCRC, crc))
    {
      hide Stream.RunOn, Stream.Expand, Crc.Fold;
    }

    lemma StreamAhead(st0: DState, b: seq<bool>, mid: DState, rest: seq<bool>)
      requires Running(st0) && Stream.RunOn(st0, b) == (mid, rest) && !Running(mid) && mid.point != OutputReady
      requires outcome == Stream.DecodeFrom(table, st0, b, next_out, calculatedCombinedCRC)
      ensures mid.point.Failed? ==> outcome == Stream.Bad(mid.point.error)
      ensures mid.point == Idle ==>
        outcome == if calculatedCombinedCRC == mid.storedCombinedCRC then Stream.Done(next_out)
          else Stream.Bad(DataError)
    {
      hide Stream.RunOn, Stream.Expand, Crc.Fold;
    }

    /** BZ2_bzDecompress, on any bytes whatever.  It reports the end exactly when decompressing all of
        the stream comes to what has been put out, and an error only if it comes to that error; and
        it asks for more only while there is more to come, or the stream is cut short. */
    method Decompress() returns (status: Status)
      requires Valid()
      modifies this`next_out, this`avail_out, this`given, this`stage, this`calculatedCombinedCRC, stage, reader,
        reader.owned
      ensures status.Failure? || Valid()
      ensures (stage == old(stage) || FreshStage()) && fresh(reader.owned - old(reader.owned))
      ensures old(next_out) <= next_out && |next_out| - |old(next_out)| == old(avail_out) - avail_out
      ensures status == SequenceError <==> old(reader.st.point) == Idle
      ensures status == End ==> outcome == Stream.Done(next_out)
      ensures status.Failure? ==> outcome == Stream.Bad(status.error)
      ensures status == Ok ==>
        || (avail_out == 0 && (outcome.Done? ==> |next_out| < |outcome.text|))
        || (reader.next_in == [] && (future == [] ==> outcome == Stream.Incomplete))
    {
      hide Stream.DecodeFrom, Delivering, BitReader.Unread, BitReader.Valid, Low, BytesToBits, UnRle, Rep,
        OutputStage.Drawn, OutputStage.Rest, Crc.Fold;
      while true
        invariant Valid() && (stage == old(stage) || FreshStage()) && fresh(reader.owned - old(reader.owned))
        invariant old(next_out) <= next_out && |next_out| - |old(next_out)| == old(avail_out) - avail_out
        invariant reader.st.point == Idle <==> old(reader.st.point) == Idle
        decreases |reader.Unread()|
      {
        ControlIs();
        if reader.control.point == Idle { return SequenceError; }
        if reader.control.point == OutputReady {
          var corrupt, finished := DeliverBlock();
          if corrupt { return Failure(DataError); }
          if !finished {
            MoreToCome();
            return Ok;
          }
          var right := NextBlock();
          if !right { return Failure(DataError); }
        }
        var r := ReadOn();
        ControlIs();
        if r == EndOfStream {
          if calculatedCombinedCRC != reader.control.storedCombinedCRC { return Failure(DataError); }
          return End;
        }
        if r.Trouble? { return Failure(r.error); }
        if reader.control.point != OutputReady { return Ok; }
      }
    }

    lemma ControlIs()
      requires reader.Valid()
      ensures reader.control.point == reader.st.point
      ensures !InValues(reader.st.point) ==> reader.control == reader.st
    {
      hide BitReader.Mirrors;
      reader.ControlKnown();
    }

    /** The checksums are compared and combined, and the next block header is due. */
    method NextBlock() returns (right: bool)
      requires Valid() && reader.st.point == OutputReady && stage.Remaining() == Some([])
      modifies this`calculatedCombinedCRC, reader`st, reader`control
      ensures if right then Valid() && Running(reader.st) else outcome == Stream.Bad(DataError)
      ensures reader.Unread() == old(reader.Unread()) && reader.owned == old(reader.owned)
    {
      hide Stream.DecodeFrom, Low, BytesToBits, UnRle, Rep, OutputStage.Drawn, OutputStage.Rest, Crc.Fold;
      assert given + [] == given && next_out + [] == next_out;
      var crc := Crc.Finalise(stage.calculatedBlockCRC);
      ControlIs();
      if crc != reader.control.storedBlockCRC { return false; }
      calculatedCombinedCRC := Crc.Combine(calculatedCombinedCRC, crc);
      reader.NextHeader();
      right := true;
    }
  }
}

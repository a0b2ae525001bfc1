/**
 The compressor's input side: bytes are gathered into runs, and runs are written to
 the block.  A run may be left pending when the block is full; it then opens the next.
 */
module Collect {
  import opened Rotations
  import opened RunLength
  import Crc

  lemma RunCodeSymbols(s: seq<byte>, ch: byte, len: nat)
    requires 1 <= len <= 255
    ensures forall c: byte :: c in s + RunCode(ch, len) <==> c in s || c == ch || (len >= 4 && c == len - 4)
  {
    var u := RunCode(ch, len);
    assert u[0] == ch;
    if len >= 4 { assert u[4] == len - 4; }
  }

  lemma OneCopy()
    ensures forall c: byte :: RunCode(c, 1) == [c]
  {
  }

  lemma OpenSymbolNil()
    ensures OpenSymbol([]) == None
  {
  }

  /** What has been gathered: the block so far, and the pending run (`ch` is 256 for none). */
  datatype Gathering = Gathering(block: seq<byte>, ch: int, len: nat)

  predicate Proper(g: Gathering) {
    if g.ch < 256 then 0 <= g.ch && 1 <= g.len <= 255 else g.ch == 256 && g.len == 0
  }

  /** One more byte of input. */
  function AddByte(g: Gathering, c: byte): (r: Gathering)
    requires Proper(g)
    ensures Proper(r) && r.ch == c && |r.block| <= |g.block| + 5
  {
    if c == g.ch && g.len < 255 then g.(len := g.len + 1)
    else Gathering(WithRun(g), c, 1)
  }

  /** The block with the pending run written to it. */
  function WithRun(g: Gathering): (s: seq<byte>)
    requires Proper(g)
    ensures |g.block| <= |s| <= |g.block| + 5 && (g.ch < 256 ==> |s| > |g.block|)
  {
    if g.ch < 256 then g.block + RunCode(g.ch, g.len) else g.block
  }

  class Collector {
    const blockSize100k: nat
    const nblockMAX: int
    const table: Crc.Table
    const block: array<byte>
    const inUse: array<bool>

    var state_in_ch: int
    var state_in_len: nat
    var nblock: nat
    var blockCRC: Crc.word

    constructor (blockSize100k: nat, table: Crc.Table)
      requires 1 <= blockSize100k <= 9
      ensures Valid() && fresh(block) && fresh(inUse)
      ensures this.blockSize100k == blockSize100k && this.table == table
      ensures Pending() == [] && Bytes() == []
    {
      this.blockSize100k := blockSize100k;
      this.table := table;
      nblockMAX := 100000 * blockSize100k - 19;
      block := new byte[100000 * blockSize100k];
      inUse := new bool[256](_ => false);
      state_in_ch, state_in_len, nblock, blockCRC := 256, 0, 0, Crc.INITIAL;
    }

    ghost predicate Shape()
      reads this, block, inUse
    {
      && 1 <= blockSize100k <= 9 && nblockMAX == 100000 * blockSize100k - 19
      && block.Length == 100000 * blockSize100k && nblock <= block.Length
      && inUse.Length == 256
      && if state_in_ch < 256 then 0 <= state_in_ch && 1 <= state_in_len <= 255
         else state_in_ch == 256 && state_in_len == 0
    }

    /** The block written so far. */
    ghost function Bytes(): seq<byte>
      requires Shape()
      reads this, block, inUse
    {
      block[..nblock]
    }

    ghost function Gathered(): (g: Gathering)
      requires Shape()
      reads this, block, inUse
      ensures Proper(g)
    {
      Gathering(Bytes(), state_in_ch, state_in_len)
    }

    /** The run not yet written. */
    ghost function Pending(): seq<byte>
      requires Shape()
      reads this, block, inUse
    {
      if state_in_ch < 256 then Rep(state_in_ch, state_in_len) else []
    }

    /** The block is a complete run-length code, the pending run can be appended to it, and
        the symbol map and checksum are those of the block. */
    ghost predicate Valid()
      reads this, block, inUse
    {
      && Shape()
      && Consistent(Bytes())
      && (state_in_ch < 256 ==> OpenSymbol(Bytes()) != Some(state_in_ch as byte))
    }

    ghost predicate Consistent(s: seq<byte>)
      requires inUse.Length == 256
      reads inUse, `blockCRC
    {
      && UnRle(s).Some?
      && (forall c :: 0 <= c < 256 ==> inUse[c] == (c in s))
      && blockCRC == Crc.Fold(table, Crc.INITIAL, UnRle(s).value)
    }

    /** All input that the current block and the pending run stand for. */
    ghost function Content(): seq<byte>
      requires Valid()
      reads this, block, inUse
    {
      UnRle(Bytes()).value + Pending()
    }

    method UpdateCrc(c: byte, n: nat)
      modifies `blockCRC
      ensures blockCRC == Crc.Fold(table, old(blockCRC), Rep(c, n))
    {
      assert Rep(c, 0) == [];
      for i := 0 to n
        invariant blockCRC == Crc.Fold(table, old(blockCRC), Rep(c, i))
      {
        assert Rep(c, i + 1) == Rep(c, i) + [c];
        Crc.FoldAppend(table, old(blockCRC), Rep(c, i), [c]);
        Crc.FoldOne(table, blockCRC, c);
        blockCRC := Crc.Update(table, blockCRC, c);
      }
    }

    method PutByte(c: byte)
      requires block.Length > nblock
      modifies block, `nblock
      ensures nblock == old(nblock) + 1 && block[..nblock] == old(block[..nblock]) + [c]
    {
      block[nblock] := c;
      nblock := nblock + 1;
    }

    method PutCopies(c: byte, n: nat)
      requires nblock + n <= block.Length
      modifies block, `nblock
      ensures nblock == old(nblock) + n && block[..nblock] == old(block[..nblock]) + Rep(c, n)
    {
      for i := 0 to n
        invariant nblock == old(nblock) + i && nblock <= block.Length
        invariant block[..nblock] == old(block[..nblock]) + Rep(c, i)
      {
        PutByte(c);
      }
    }

    /** Puts a run into the block and marks its symbols. */
    method PutRun(ch: byte, len: nat)
      requires inUse.Length == 256 && 1 <= len <= 255 && nblock + 5 <= block.Length
      modifies block, inUse, `nblock
      ensures nblock <= old(nblock) + 5 && nblock <= block.Length
      ensures block[..nblock] == old(block[..nblock]) + RunCode(ch, len)
      ensures forall c: byte :: inUse[c] == (old(inUse[c]) || c == ch || (len >= 4 && c == len - 4))
    {
      inUse[ch] := true;
      if len < 4 {
        PutCopies(ch, len);
      } else {
        inUse[len - 4] := true;
        ghost var s := block[..nblock];
        PutCopies(ch, 4);
        PutByte(len - 4);
        assert s + Rep(ch, 4) + [len - 4] == s + RunCode(ch, len);
      }
    }

    /** Writes the pending run to the block. */
    method AddPairToBlock()
      requires Valid() && state_in_ch < 256 && nblock + 5 <= block.Length
      modifies block, inUse, `nblock, `blockCRC
      ensures Shape() && Consistent(Bytes()) && nblock <= old(nblock) + 5
      ensures Bytes() == old(Bytes()) + RunCode(state_in_ch, state_in_len)
      ensures UnRle(Bytes()).value == old(Content())
      ensures OpenSymbol(Bytes()) == if state_in_len < 4 then Some(state_in_ch as byte) else None
    {
      ghost var s := Bytes();
      var ch: byte := state_in_ch;
      UnRleAppendRun(s, ch, state_in_len);
      Crc.FoldAppend(table, Crc.INITIAL, UnRle(s).value, Rep(ch, state_in_len));
      RunCodeSymbols(s, ch, state_in_len);
      hide UnRle, OpenSymbol, RunCode, Crc.Fold;
      UpdateCrc(ch, state_in_len);
      PutRun(ch, state_in_len);
      assert forall c: byte :: inUse[c] == (c in s + RunCode(ch, state_in_len));
    }

    /** The fast track of ADD_CHAR_TO_BLOCK writes a single byte without counting. */
    method AddSingle()
      requires Valid() && state_in_len == 1 && nblock < block.Length
      modifies block, inUse, `nblock, `blockCRC
      ensures Shape() && Consistent(Bytes()) && nblock == old(nblock) + 1
      ensures Bytes() == old(Bytes()) + [state_in_ch as byte]
      ensures UnRle(Bytes()).value == old(Content())
      ensures OpenSymbol(Bytes()) == Some(state_in_ch as byte)
    {
      ghost var s := Bytes();
      var ch: byte := state_in_ch;
      UnRleAppendRun(s, ch, 1);
      Crc.FoldAppend(table, Crc.INITIAL, UnRle(s).value, Rep(ch, 1));
      hide UnRle, OpenSymbol;
      assert Rep(ch, 1) == [ch];
      Crc.FoldOne(table, blockCRC, ch);
      blockCRC := Crc.Update(table, blockCRC, ch);
      inUse[ch] := true;
      PutByte(ch);
      RunCodeSymbols(s, ch, 1);
      assert Bytes() == s + RunCode(ch, 1);
    }

    /** flush_RL: the pending run is written and nothing is left pending. */
    method FlushRL()
      requires Valid() && nblock + 5 <= block.Length
      modifies this, block, inUse
      ensures Valid() && Pending() == [] && state_in_ch == 256 && nblock <= old(nblock) + 5
      ensures UnRle(Bytes()).value == old(Content()) && Bytes() == old(WithRun(Gathered()))
    {
      if state_in_ch < 256 { AddPairToBlock(); }
      state_in_ch, state_in_len := 256, 0;
    }

    /** ADD_CHAR_TO_BLOCK: one more byte of input. */
    method AddCharToBlock(c: byte)
      requires Valid() && nblock < nblockMAX
      requires state_in_ch == 256 ==> nblock == 0
      modifies this, block, inUse
      ensures Valid() && nblock <= old(nblock) + 5 && state_in_ch < 256
      ensures Content() == old(Content()) + [c] && Gathered() == AddByte(old(Gathered()), c)
    {
      OpenSymbolNil();
      hide UnRle, OpenSymbol, RunCode;
      OneCopy();
      ghost var before := Content();
      if c != state_in_ch && state_in_len == 1 {
        AddSingle();
        state_in_ch := c;
      } else if c != state_in_ch || state_in_len == 255 {
        if state_in_ch < 256 { AddPairToBlock(); }
        state_in_ch, state_in_len := c, 1;
      } else {
        state_in_len := state_in_len + 1;
        assert Rep(c, state_in_len) == Rep(c, state_in_len - 1) + [c];
      }
      assert Content() == before + [c];
    }

    /** prepare_new_block: an empty block; the pending run stays. */
    method PrepareNewBlock()
      requires Valid()
      modifies this, inUse
      ensures Valid() && Bytes() == [] && nblock == 0 && Pending() == old(Pending())
      ensures state_in_ch == old(state_in_ch) && state_in_len == old(state_in_len)
    {
      nblock := 0;
      blockCRC := Crc.INITIAL;
      for i := 0 to 256
        invariant forall c :: 0 <= c < i ==> !inUse[c]
        modifies inUse
      {
        inUse[i] := false;
      }
      assert Bytes() == [];
    }
  }
}

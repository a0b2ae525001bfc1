/**
 The last stage of decompression: symbols are drawn one by one from the inverse
 transform, runs are expanded, and bytes are delivered into whatever output space
 the caller has given.
 */
module Output {
  import opened Rotations
  import opened Counting
  import opened BwtSpec
  import opened BwtDecode
  import opened RunLength
  import Crc

  /** Which symbol heads row `indx`, by bisection of the cumulative counts. */
  method IndexIntoF(indx: int, cftab: array<int>) returns (nb: int)
    requires cftab.Length == 257 && cftab[0] <= indx < cftab[256]
    ensures 0 <= nb < 256 && cftab[nb] <= indx < cftab[nb + 1]
  {
    nb := 0;
    var na := 256;
    while true
      invariant 0 <= nb < na <= 256 && (na - nb == 1 || na - nb >= 2)
      invariant cftab[nb] <= indx < cftab[na]
      decreases na - nb
    {
      if na - nb == 1 { break; }
      var mid := (nb + na) / 2;
      if indx >= cftab[mid] { nb := mid; } else { na := mid; }
    }
  }

  /** Row `k` is headed by the symbol stored in the row that leads to it. */
  lemma {:induction false} RowHead(l: seq<byte>, k: int, nb: nat)
    requires 0 <= k < |l| && nb < 256
    requires CountBelow(l, nb) <= k < CountBelow(l, nb + 1)
    ensures nb == l[FL(l, k)]
  {
    var c := l[FL(l, k)];
    LFRange(l, FL(l, k));
    if c < nb { CountBelowMono(l, c as int + 1, nb); }
    if nb < c { CountBelowMono(l, nb + 1, c); }
  }

  class OutputStage {
    const small: bool
    const blockSize100k: nat
    const table: Crc.Table
    const save_nblock: int

    // the inverse transform
    const tt: array<nat>
    const ll16: array<int>
    const ll4: array<int>
    const cftab: array<int>
    var tPos: nat
    // run expansion
    var k0: byte
    var nblock_used: int
    var state_out_ch: byte
    var state_out_len: nat
    var calculatedBlockCRC: Crc.word
    // the caller's output space
    var out: seq<byte>
    var avail_out: nat

    // the last column, the reversed cycle, and the block itself
    ghost const l: seq<byte>
    ghost const cycle: seq<int>
    ghost const text: seq<byte>

    constructor (small: bool, blockSize100k: nat, table: Crc.Table, tt: array<nat>, ll16: array<int>, ll4: array<int>,
                 cftab: array<int>, tPos: nat, nblock: int, ghost l: seq<byte>, ghost cycle: seq<int>,
                 ghost text: seq<byte>)
      ensures this.small == small && this.blockSize100k == blockSize100k && this.table == table && save_nblock == nblock
      ensures this.tt == tt && this.ll16 == ll16 && this.ll4 == ll4 && this.cftab == cftab
      ensures this.l == l && this.cycle == cycle && this.text == text
      ensures this.tPos == tPos && state_out_len == 0 && state_out_ch == 0 && calculatedBlockCRC == Crc.INITIAL
    {
      this.small, this.blockSize100k, this.table := small, blockSize100k, table;
      this.tt, this.ll16, this.ll4, this.cftab, this.tPos := tt, ll16, ll4, cftab, tPos;
      save_nblock := nblock;
      this.l, this.cycle, this.text := l, cycle, text;
      k0, nblock_used, state_out_ch, state_out_len, calculatedBlockCRC := 0, 0, 0, 0, Crc.INITIAL;
      out, avail_out := [], 0;
    }

    /** The vector that the chosen decoder reads is the one its builder left. */
    ghost predicate LinkedRows(pos: nat)
      reads tt, ll16, ll4, cftab
    {
      && 0 < |l| <= 100000 * blockSize100k
      && pos < |l|
      && (!small ==>
        && |l| <= tt.Length
        && forall k :: 0 <= k < |l| ==> tt[k] == Entry(l[k], FL(l, k)))
      && (small ==>
        && Stores(ll16, ll4) && |l| <= ll16.Length && cftab.Length == 257
        && LFCycle(l, cycle) && pos in cycle
        && (forall k :: 0 <= k < |l| ==> GetLL(ll16, ll4, k) == if k in cycle then FL(l, k) else LF(l, k))
        && forall c :: 0 <= c <= 256 ==> cftab[c] == CountBelow(l, c))
    }

    /** Reading starts at the row of rotation 0. */
    lemma LinkSmall()
      requires small && |text| == |l| == save_nblock && 0 < |l| <= 100000 * blockSize100k && tPos < |l|
      requires Stores(ll16, ll4) && |l| <= ll16.Length && cftab.Length == 257
      requires LFCycle(l, cycle) && tPos in cycle
      requires forall k :: 0 <= k < |l| ==> GetLL(ll16, ll4, k) == if k in cycle then FL(l, k) else LF(l, k)
      requires forall c :: 0 <= c <= 256 ==> cftab[c] == CountBelow(l, c)
      requires text == Chain(l, FLTable(l), FL(l, tPos), |l|)
      ensures LinkedAt(tPos, 0)
    {
      hide Stores, LFCycle, GetLL, CountBelow, LF, Chain;
      assert text[0..] == text;
    }

    /** The row whose symbol is read next. */
    ghost function NextRow(pos: nat): (r: int)
      requires pos < |l|
      ensures 0 <= r < |l|
    {
      if small then FL(l, pos) else pos
    }

    /** Reading on from `pos` yields the rest of the block from position `u` on. */
    ghost predicate LinkedAt(pos: nat, u: nat)
      reads tt, ll16, ll4, cftab
    {
      && LinkedRows(pos) && |text| == |l| == save_nblock
      && (u <= |text| ==> Chain(l, FLTable(l), NextRow(pos), |text| - u) == text[u..])
    }

    lemma {:induction false} LinkedStep(pos: nat, u: nat, pos': nat)
      requires LinkedAt(pos, u) && LinkedRows(pos') && NextRow(pos') == FL(l, NextRow(pos))
      ensures LinkedAt(pos', u + 1)
      ensures u < |text| ==> text[u] == l[NextRow(pos)]
    {
      if u < |text| {
        assert text[u..] == [text[u]] + text[u + 1..];
        assert Chain(l, FLTable(l), NextRow(pos), |text| - u)
            == [l[NextRow(pos)]] + Chain(l, FLTable(l), NextRow(pos'), |text| - u - 1);
        assert text[u] == text[u..][0] == l[NextRow(pos)];
        assert text[u + 1..] == text[u..][1..] == Chain(l, FLTable(l), NextRow(pos'), |text| - u - 1);
      }
    }

    /** BZ_GET_FAST: one symbol from the 32-bit vector. */
    method GetFast(pos: nat, ghost u: nat) returns (corrupt: bool, c: byte, pos': nat)
      requires !small && LinkedAt(pos, u)
      ensures LinkedAt(pos', u + 1) && !corrupt
      ensures u < save_nblock ==> u < |text| && c == text[u]
    {
      corrupt, c, pos' := true, 0, pos;
      if pos >= 100000 * blockSize100k { return; }
      EntryParts(l[pos], FL(l, pos));
      c := EntrySymbol(tt[pos]);
      pos' := EntryRow(tt[pos]);
      corrupt := false;
      LinkedStep(pos, u, pos');
    }

    /** BZ_GET_SMALL: one symbol by bisection, and the link from the 20-bit vector. */
    method GetSmall(pos: nat, ghost u: nat) returns (corrupt: bool, c: byte, pos': nat)
      requires small && LinkedAt(pos, u)
      ensures LinkedAt(pos', u + 1) && !corrupt
      ensures u < save_nblock ==> u < |text| && c == text[u]
    {
      corrupt, c, pos' := true, 0, pos;
      if pos >= 100000 * blockSize100k { return; }
      CountBelowAll(l, 256);
      var nb := IndexIntoF(pos, cftab);
      RowHead(l, pos, nb);
      c := nb;
      CycleClosed(l, cycle, pos);
      pos' := GetLL(ll16, ll4, pos);
      corrupt := false;
      LinkedStep(pos, u, pos');
    }

    /** `used` symbols have been drawn, the last of them being `k`.  Only a block that ends in four
        equal symbols without a count makes the decoder draw more than one symbol too many. */
    ghost predicate Drawn(pos: nat, k: byte, used: int)
      reads tt, ll16, ll4, cftab
    {
      && |text| == save_nblock && 1 <= used <= save_nblock + 2
      && LinkedAt(pos, used)
      && (used <= save_nblock ==> k == text[used - 1])
    }

    /** What the symbols from the last one drawn stand for; nothing if a count is missing. */
    ghost function Rest(used: int): Option<seq<byte>> {
      if 1 <= used <= |text| + 1 then UnRle(text[used - 1..]) else None
    }

    /** Draws one run; in the fast loop a single byte is announced by `one` instead of a length. */
    method StartRunFast(pos: nat, k: byte, used: int)
      returns (corrupt: bool, one: bool, len: nat, pos': nat, k0: byte, used': int)
      requires !small && Drawn(pos, k, used) && used <= save_nblock
      ensures !corrupt && Drawn(pos', k0, used') && used < used'
      ensures var pend := if one then 1 else len; pend >= 1 && Rest(used) == Behind(k, pend, Rest(used'))
    {
      hide LinkedAt, UnRle;
      var k1: byte;
      one, len, k0, used' := false, 0, k, used;
      corrupt, k1, pos' := GetFast(pos, used');
      used' := used' + 1;
      if k1 != k0 {
        k0 := k1; one := true;
        CloseRun(text, used - 1, 1);
        return;
      }
      if used' == save_nblock + 1 {
        one := true;
        CloseRun(text, used - 1, 1);
        return;
      }
      len := 2;
      corrupt, k1, pos' := GetFast(pos', used');
      used' := used' + 1;
      if used' == save_nblock + 1 { CloseRun(text, used - 1, 2); return; }
      if k1 != k0 { k0 := k1; CloseRun(text, used - 1, 2); return; }
      len := 3;
      corrupt, k1, pos' := GetFast(pos', used');
      used' := used' + 1;
      if used' == save_nblock + 1 { CloseRun(text, used - 1, 3); return; }
      if k1 != k0 { k0 := k1; CloseRun(text, used - 1, 3); return; }
      CloseRun(text, used - 1, 5);
      corrupt, k1, pos' := GetFast(pos', used');
      used' := used' + 1;
      len := k1 + 4;
      corrupt, k0, pos' := GetFast(pos', used');
      used' := used' + 1;
    }

    /** The same for the small decoder, which tests for the end of the block first. */
    method StartRunSmall(pos: nat, k: byte, used: int)
      returns (corrupt: bool, len: nat, pos': nat, k0: byte, used': int)
      requires small && Drawn(pos, k, used) && used <= save_nblock
      ensures !corrupt && Drawn(pos', k0, used') && used < used'
      ensures len >= 1 && Rest(used) == Behind(k, len, Rest(used'))
    {
      hide LinkedAt, UnRle;
      var k1: byte;
      len, k0, used' := 1, k, used;
      corrupt, k1, pos' := GetSmall(pos, used');
      used' := used' + 1;
      if used' == save_nblock + 1 { CloseRun(text, used - 1, 1); return; }
      if k1 != k0 { k0 := k1; CloseRun(text, used - 1, 1); return; }
      len := 2;
      corrupt, k1, pos' := GetSmall(pos', used');
      used' := used' + 1;
      if used' == save_nblock + 1 { CloseRun(text, used - 1, 2); return; }
      if k1 != k0 { k0 := k1; CloseRun(text, used - 1, 2); return; }
      len := 3;
      corrupt, k1, pos' := GetSmall(pos', used');
      used' := used' + 1;
      if used' == save_nblock + 1 { CloseRun(text, used - 1, 3); return; }
      if k1 != k0 { k0 := k1; CloseRun(text, used - 1, 3); return; }
      CloseRun(text, used - 1, 5);
      corrupt, k1, pos' := GetSmall(pos', used');
      used' := used' + 1;
      len := k1 + 4;
      corrupt, k0, pos' := GetSmall(pos', used');
      used' := used' + 1;
    }

    ghost predicate Valid()
      reads this, tt, ll16, ll4, cftab
    {
      Drawn(tPos, k0, nblock_used)
    }

    /** The first symbol is drawn; the whole block is then still to be delivered. */
    method Begin()
      requires LinkedAt(tPos, 0) && state_out_len == 0
      modifies `k0, `tPos, `nblock_used
      ensures Valid() && Remaining() == UnRle(text)
    {
      hide LinkedAt, UnRle;
      assert |text| == save_nblock && save_nblock >= 1 by { LinkedSize(tPos, 0); }
      var corrupt;
      if small { corrupt, k0, tPos := GetSmall(tPos, 0); } else { corrupt, k0, tPos := GetFast(tPos, 0); }
      nblock_used := 1;
      assert text[0..] == text;
      BehindNothing(state_out_ch, UnRle(text));
    }

    lemma LinkedSize(pos: nat, u: nat)
      requires LinkedAt(pos, u)
      ensures |text| == save_nblock == |l| && |l| >= 1
    {
    }

    /** The bytes still to be delivered; nothing if the block breaks off before its end. */
    ghost function Remaining(): Option<seq<byte>>
      reads `state_out_ch, `state_out_len, `nblock_used
    {
      Behind(state_out_ch, state_out_len, Rest(nblock_used))
    }

    /** `e` bytes of `r` have been delivered since the output stood at `out0`. */
    ghost predicate Sent(r: seq<byte>, e: nat, out0: seq<byte>, avail0: nat, crc0: Crc.word)
      reads `out, `avail_out, `calculatedBlockCRC
    {
      && e <= |r| && e <= avail0
      && out == out0 + r[..e] && avail_out == avail0 - e
      && calculatedBlockCRC == Crc.Fold(table, crc0, r[..e])
    }

    lemma SentNothing(r: seq<byte>)
      ensures Sent(r, 0, out, avail_out, calculatedBlockCRC)
    {
      assert r[..0] == [];
    }

    /** Delivery stops only when the space or the bytes have run out. */
    lemma SentAll(r: seq<byte>, e: nat, out0: seq<byte>, avail0: nat, crc0: Crc.word)
      requires Sent(r, e, out0, avail0, crc0) && (avail_out == 0 || r[e..] == [])
      ensures e == if |r| <= avail0 then |r| else avail0
    {
    }

    /** Delivers one byte. */
    method Put(c: byte, ghost r: seq<byte>, ghost e: nat, ghost out0: seq<byte>, ghost avail0: nat,
      ghost crc0: Crc.word)
      requires Sent(r, e, out0, avail0, crc0) && avail_out > 0 && e < |r| && c == r[e]
      modifies `out, `avail_out, `calculatedBlockCRC
      ensures Sent(r, e + 1, out0, avail0, crc0) && avail_out == old(avail_out) - 1
    {
      assert r[..e + 1] == r[..e] + [c];
      Crc.FoldAppend(table, crc0, r[..e], [c]);
      Crc.FoldOne(table, calculatedBlockCRC, c);
      out := out + [c];
      calculatedBlockCRC := Crc.Update(table, calculatedBlockCRC, c);
      avail_out := avail_out - 1;
    }

    /** Finishes an existing run if the space allows (in the fast loop control may enter at the
        last byte); on a full buffer `left` is what remains of it. */
    method FinishRunFast(ch: byte, len: nat, eqOne: bool,
                         ghost r: seq<byte>, ghost e: nat, ghost out0: seq<byte>, ghost avail0: nat,
                         ghost crc0: Crc.word)
      returns (full: bool, left: nat, ghost e': nat)
      requires eqOne || len > 0
      requires Sent(r, e, out0, avail0, crc0) && r[e..] == Rep(ch, if eqOne then 1 else len)
      modifies `out, `avail_out, `calculatedBlockCRC
      ensures Sent(r, e', out0, avail0, crc0) && e' <= |r|
      ensures if full then avail_out == 0 && r[e'..] == Rep(ch, left) else r[e'..] == []
    {
      left, e' := len, e;
      if !eqOne {
        while true
          invariant left > 0
          invariant Sent(r, e', out0, avail0, crc0) && r[e'..] == Rep(ch, left)
          decreases left
        {
          if avail_out == 0 { return true, left, e'; }
          if left == 1 { break; }
          TakeOne(r, e', ch, left);
          Put(ch, r, e', out0, avail0, crc0);
          e' := e' + 1;
          left := left - 1;
        }
      }
      // s_state_out_len_eq_one:
      if avail_out == 0 { return true, 1, e'; }
      TakeOne(r, e', ch, 1);
      Put(ch, r, e', out0, avail0, crc0);
      e' := e' + 1;
      full := false;
    }

    /** The bytes `r` have been drawn, and then the block goes on as `rest` says. */
    ghost predicate Split(whole: Option<seq<byte>>, r: seq<byte>, rest: Option<seq<byte>>) {
      whole == if rest.None? then None else Some(r + rest.value)
    }

    lemma SplitStart(ch: byte, len: nat, rest: Option<seq<byte>>)
      ensures Split(Behind(ch, len, rest), Rep(ch, len), rest)
    {
    }

    lemma SplitMore(whole: Option<seq<byte>>, r: seq<byte>, ch: byte, len: nat, rest: Option<seq<byte>>)
      requires Split(whole, r, Behind(ch, len, rest))
      ensures Split(whole, r + Rep(ch, len), rest)
    {
      if rest.Some? { assert r + (Rep(ch, len) + rest.value) == r + Rep(ch, len) + rest.value; }
    }

    /** More has been drawn than has been delivered so far. */
    lemma SentOfMore(r: seq<byte>, e: nat, more: seq<byte>, out0: seq<byte>, avail0: nat, crc0: Crc.word)
      requires Sent(r, e, out0, avail0, crc0) && r[e..] == []
      ensures Sent(r + more, e, out0, avail0, crc0) && (r + more)[e..] == more
    {
      assert (r + more)[..e] == r[..e];
    }

    /** What is left when delivery stops: of a block that is complete, all that has not been
        delivered; a block that breaks off stays one. */
    ghost predicate LeftOver(whole: Option<seq<byte>>, out0: seq<byte>, avail0: nat, crc0: Crc.word)
      reads this
    {
      match whole
      case Some(r) =>
        var e := if |r| <= avail0 then |r| else avail0;
        Sent(r, e, out0, avail0, crc0) && Remaining() == Some(r[e..])
      case None => Remaining() == None && avail_out == 0
    }

    lemma Stops(whole: Option<seq<byte>>, r: seq<byte>, e: nat, out0: seq<byte>, avail0: nat, crc0: Crc.word)
      requires Split(whole, r, Rest(nblock_used)) && Sent(r, e, out0, avail0, crc0) && e <= |r|
      requires r[e..] == Rep(state_out_ch, state_out_len)
      requires avail_out == 0 || (r[e..] == [] && Rest(nblock_used) == Some([]))
      ensures LeftOver(whole, out0, avail0, crc0)
    {
      if Rest(nblock_used).Some? {
        var all := r + Rest(nblock_used).value;
        assert all[..e] == r[..e] && all[e..] == r[e..] + Rest(nblock_used).value;
        SentAll(all, e, out0, avail0, crc0);
      }
    }

    /** Delivers as much as the output space takes, and leaves exactly the rest pending:
        how the caller cuts up the output space makes no difference to the bytes or to
        their checksum.  Only a block that breaks off is found corrupt, and always before it is
        finished; nothing is saved then. */
    method UnRleFast() returns (corrupt: bool)
      requires !small && Valid()
      modifies this
      ensures if corrupt then old(Remaining()) == None && out == old(out) && avail_out == old(avail_out)
        else Valid() && LeftOver(old(Remaining()), old(out), old(avail_out), old(calculatedBlockCRC))
      ensures old(out) <= out && |out| - |old(out)| == old(avail_out) - avail_out
    {
      hide LinkedAt, UnRle, Sent, Split, LeftOver, Rest;
      var out0, avail0, crc0 := out, avail_out, calculatedBlockCRC;
      ghost var whole := Remaining();
      var ch, len, used, k, pos := state_out_ch, state_out_len, nblock_used, k0, tPos;
      var eqOne, full := false, false;
      ghost var r, e: nat := Rep(ch, len), 0;
      SentNothing(r);
      SplitStart(ch, len, Rest(used));
      while true
        invariant Drawn(pos, k, used) && Split(whole, r, Rest(used))
        invariant Sent(r, e, out0, avail0, crc0)
        invariant e <= |r| && r[e..] == Rep(ch, if eqOne then 1 else len)
        decreases save_nblock + 2 - used
      {
        if eqOne || len > 0 {
          full, len, e := FinishRunFast(ch, len, eqOne, r, e, out0, avail0, crc0);
          if full {
            state_out_ch, state_out_len, nblock_used, k0, tPos := ch, len, used, k, pos;
            Stops(whole, r, e, out0, avail0, crc0);
            SentSizes(r, e, out0, avail0, crc0);
            return false;
          }
        }
        if used > save_nblock + 1 {
          BrokenOff(whole, r, used);
          out, avail_out, calculatedBlockCRC := out0, avail0, crc0;
          return true;
        }
        if used == save_nblock + 1 {
          state_out_ch, state_out_len, nblock_used, k0, tPos := ch, 0, used, k, pos;
          AllRead(used);
          Stops(whole, r, e, out0, avail0, crc0);
          SentSizes(r, e, out0, avail0, crc0);
          return false;
        }
        ch := k;
        corrupt, eqOne, len, pos, k, used := StartRunFast(pos, k, used);
        SplitMore(whole, r, ch, if eqOne then 1 else len, Rest(used));
        SentOfMore(r, e, Rep(ch, if eqOne then 1 else len), out0, avail0, crc0);
        r := r + Rep(ch, if eqOne then 1 else len);
      }
    }

    lemma SentSizes(r: seq<byte>, e: nat, out0: seq<byte>, avail0: nat, crc0: Crc.word)
      requires Sent(r, e, out0, avail0, crc0)
      ensures out0 <= out && |out| - |out0| == avail0 - avail_out
    {
    }

    lemma BrokenOff(whole: Option<seq<byte>>, r: seq<byte>, used: int)
      requires Split(whole, r, Rest(used)) && used > save_nblock + 1 && |text| == save_nblock
      ensures whole == None
    {
    }

    /** After the last symbol nothing remains to be drawn. */
    lemma AllRead(used: int)
      requires |text| == save_nblock && used == save_nblock + 1
      ensures Rest(used) == Some([])
    {
      UnRleEnd(text);
    }

    /** Finishes an existing run if the space allows. */
    method FinishRunSmall(ghost r: seq<byte>, ghost e: nat, ghost out0: seq<byte>,
      ghost avail0: nat, ghost crc0: Crc.word)
      returns (full: bool, ghost e': nat)
      requires Sent(r, e, out0, avail0, crc0) && r[e..] == Rep(state_out_ch, state_out_len)
      modifies `out, `avail_out, `calculatedBlockCRC, `state_out_len
      ensures Sent(r, e', out0, avail0, crc0) && e' <= |r| && r[e'..] == Rep(state_out_ch, state_out_len)
      ensures if full then avail_out == 0 else state_out_len == 0
    {
      e' := e;
      while true
        invariant Sent(r, e', out0, avail0, crc0) && r[e'..] == Rep(state_out_ch, state_out_len)
        decreases state_out_len
      {
        if avail_out == 0 { return true, e'; }
        if state_out_len == 0 { break; }
        TakeOne(r, e', state_out_ch, state_out_len);
        Put(state_out_ch, r, e', out0, avail0, crc0);
        e' := e' + 1;
        state_out_len := state_out_len - 1;
      }
      full := false;
    }

    /** Draws the next run into the saved variables. */
    method NextRunSmall() returns (corrupt: bool)
      requires small && Valid() && state_out_len == 0 && nblock_used <= save_nblock
      modifies `state_out_ch, `state_out_len, `tPos, `k0, `nblock_used
      ensures !corrupt && Valid() && old(nblock_used) < nblock_used
      ensures old(Rest(nblock_used)) == Behind(state_out_ch, state_out_len, Rest(nblock_used))
    {
      hide LinkedAt, UnRle;
      state_out_ch := k0;
      corrupt, state_out_len, tPos, k0, nblock_used := StartRunSmall(tPos, k0, nblock_used);
    }

    /** The same loop over the small decoder, which works on the saved variables. */
    method UnRleSmall() returns (corrupt: bool)
      requires small && Valid()
      modifies this
      ensures if corrupt then old(Remaining()) == None
        else Valid() && LeftOver(old(Remaining()), old(out), old(avail_out), old(calculatedBlockCRC))
      ensures old(out) <= out && |out| - |old(out)| == old(avail_out) - avail_out
    {
      hide LinkedAt, UnRle, Sent, Split, LeftOver, Rest, Drawn;
      ghost var out0, avail0, crc0 := out, avail_out, calculatedBlockCRC;
      ghost var whole := Remaining();
      ghost var r, e: nat := Rep(state_out_ch, state_out_len), 0;
      SentNothing(r);
      SplitStart(state_out_ch, state_out_len, Rest(nblock_used));
      Bounds();
      while true
        invariant Valid() && 1 <= nblock_used <= save_nblock + 2 && Split(whole, r, Rest(nblock_used))
        invariant Sent(r, e, out0, avail0, crc0)
        invariant e <= |r| && r[e..] == Rep(state_out_ch, state_out_len)
        decreases save_nblock + 2 - nblock_used
      {
        var full;
        full, e := FinishRunSmall(r, e, out0, avail0, crc0);
        SentSizes(r, e, out0, avail0, crc0);
        if full {
          Stops(whole, r, e, out0, avail0, crc0);
          return false;
        }
        if nblock_used == save_nblock + 1 {
          TextSize();
          AllRead(nblock_used);
          Stops(whole, r, e, out0, avail0, crc0);
          return false;
        }
        if nblock_used > save_nblock + 1 {
          TextSize();
          BrokenOff(whole, r, nblock_used);
          return true;
        }
        corrupt := NextRunSmall();
        SplitMore(whole, r, state_out_ch, state_out_len, Rest(nblock_used));
        SentOfMore(r, e, Rep(state_out_ch, state_out_len), out0, avail0, crc0);
        r := r + Rep(state_out_ch, state_out_len);
        Bounds();
      }
    }

    lemma Bounds()
      requires Valid()
      ensures 1 <= nblock_used <= save_nblock + 2
    {
    }

    lemma TextSize()
      requires Valid()
      ensures |text| == save_nblock
    {
    }

    /** The block is finished, as the caller tests it, exactly when nothing is pending. */
    lemma FinishedIff()
      requires Valid()
      ensures nblock_used == save_nblock + 1 && state_out_len == 0 <==> Remaining() == Some([])
    {
      UnRleEnd(text);
      if nblock_used <= save_nblock {
        var s := text[nblock_used - 1..];
        assert FirstCodeLength(s) <= |s| ==> |FirstRun(s)| > 0;
      }
    }
  }

  /** A run in front of what follows. */
  ghost function Behind(c: byte, len: nat, rest: Option<seq<byte>>): Option<seq<byte>> {
    if rest.None? then None else Some(Rep(c, len) + rest.value)
  }

  lemma BehindNothing(c: byte, rest: Option<seq<byte>>)
    ensures Behind(c, 0, rest) == rest
  {
    if rest.Some? { assert Rep(c, 0) + rest.value == rest.value; }
  }

  lemma UnRleEnd(text: seq<byte>)
    ensures UnRle(text[|text|..]) == Some([])
  {
    assert text[|text|..] == [];
  }

  /** The next byte of a pending run. */
  lemma TakeOne(r: seq<byte>, e: nat, c: byte, len: nat)
    requires e <= |r| && len > 0 && r[e..] == Rep(c, len)
    ensures e < |r| && r[e] == c && r[e + 1..] == Rep(c, len - 1)
  {
    assert |r[e..]| > 0;
    assert r[e] == r[e..][0];
    assert r[e + 1..] == r[e..][1..];
    assert Rep(c, len)[1..] == Rep(c, len - 1);
  }

  /** `text` holds `c` at positions `p` to `p + k - 1`, and not at `p + k`. */
  ghost predicate CopiesAt(text: seq<byte>, p: nat, k: nat) {
    && p + k <= |text|
    && (forall i :: p < i < p + k ==> text[i] == text[p])
    && (p + k < |text| ==> text[p + k] != text[p])
  }

  /** Taking the first coded run off a block; a run of four must be followed by its count. */
  lemma {:induction false} CloseRun(text: seq<byte>, p: nat, k: nat)
    requires p < |text|
    requires (1 <= k <= 3 && CopiesAt(text, p, k))
          || (k == 5 && p + 4 <= |text| && text[p] == text[p + 1] == text[p + 2] == text[p + 3])
    ensures UnRle(text[p..]) ==
      if p + k <= |text| then Behind(text[p], if k == 5 then 4 + text[p + 4] else k, UnRle(text[p + k..])) else None
  {
    var s := text[p..];
    assert FirstCodeLength(s) == k;
    if k <= |s| { assert s[k..] == text[p + k..]; }
  }

  /** The reversed links stay on the cycle. */
  lemma {:induction false} CycleClosed(l: seq<byte>, cycle: seq<int>, k: int)
    requires LFCycle(l, cycle) && k in cycle
    ensures 0 <= k < |l| && FL(l, k) in cycle
  {
    var i :| 0 <= i < |cycle| && cycle[i] == k;
    var before := if i == 0 then cycle[|cycle| - 1] else cycle[i - 1];
    FLUnique(l, before);
    assert before in cycle;
  }
}

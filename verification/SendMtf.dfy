/**
 Sending one block's values: sendMTFValues, piece by piece.
 */
module SendMtf {
  import opened Rotations
  import opened Bits
  import opened BitStream
  import opened Counting
  import opened CanonicalCode
  import opened HuffmanTables
  import opened HuffmanLengths
  import opened BlockFormat
  import opened BlockDecode
  import opened CodeTables
  import opened MtfEncode
  import Mtf

  /** `w` has appended `b` to its bits, and taken no byte back. */
  twostate predicate Appended(w: BitWriter, b: seq<bool>)
    reads w
  {
    && old(w.Valid()) && w.Valid()
    && w.Bits() == old(w.Bits()) + b
    && w.earlier == old(w.earlier) && old(w.zbits) <= w.zbits
  }

  method PutBit(w: BitWriter, b: bool)
    requires w.Valid()
    modifies w
    ensures Appended(w, [b])
  {
    assert ToBits(0, 1) == ToBits(0, 0) + [false] == [false];
    assert ToBits(1, 1) == ToBits(0, 0) + [true] == [true];
    assert Pow2(1) == 2;
    w.Write(1, if b then 1 else 0);
  }

  method PutByte(w: BitWriter, c: byte)
    requires w.Valid()
    modifies w
    ensures Appended(w, BytesToBits([c]))
  {
    hide BufferOk, Held;
    Pow2Values();
    OneByte(c);
    w.Write(8, c);
  }

  method PutBytes(w: BitWriter, s: seq<byte>)
    requires w.Valid()
    modifies w
    ensures Appended(w, BytesToBits(s))
  {
    hide BufferOk, Held;
    assert s[..0] == [] && BytesToBits([]) == [];
    for i := 0 to |s|
      invariant Appended(w, BytesToBits(s[..i]))
    {
      assert s[..i + 1] == s[..i] + [s[i]];
      BytesToBitsAppend(s[..i], [s[i]]);
      PutByte(w, s[i]);
    }
    assert s[..|s|] == s;
  }

  // ---------------------------------------------------------------- selectors

  predicate AllIn(s: seq<nat>, pos: seq<nat>) {
    forall k :: 0 <= k < |s| ==> s[k] in pos
  }

  /** Move-to-front over the selectors, shifting the list as it is searched. */
  method CodeSelectors(selector: seq<nat>, nGroups: nat) returns (ms: seq<nat>)
    requires nGroups > 0 && forall k :: 0 <= k < |selector| ==> selector[k] in Iota(nGroups)
    ensures ms == MtfSelectors(selector, Iota(nGroups))
  {
    var pos := new nat[nGroups];
    for i := 0 to nGroups
      invariant forall k :: 0 <= k < i ==> pos[k] == k
    {
      pos[i] := i;
    }
    assert pos[..] == Iota(nGroups);
    ms := [];
    assert selector[0..] == selector;
    for i := 0 to |selector|
      invariant AllIn(selector[i..], pos[..])
      invariant ms + MtfSelectors(selector[i..], pos[..]) == MtfSelectors(selector, Iota(nGroups))
    {
      ghost var rest := selector[i..];
      assert rest[0] == selector[i] && rest[1..] == selector[i + 1..];
      ghost var p0 := pos[..];
      var j := FindSelector(pos, selector[i]);
      MtfStep(ms, rest, p0, j);
      ms := ms + [j];
    }
  }

  lemma MtfStep(ms: seq<nat>, rest: seq<nat>, pos: seq<nat>, j: nat)
    requires |rest| > 0 && AllIn(rest, pos) && j == Mtf.IndexIn(pos, rest[0])
    ensures AllIn(rest[1..], Mtf.MoveToFront(pos, j))
    ensures ms + MtfSelectors(rest, pos) == (ms + [j]) + MtfSelectors(rest[1..], Mtf.MoveToFront(pos, j))
  {
    Mtf.MoveToFrontSame(pos, j);
  }

  method FindSelector(pos: array<nat>, ll: nat) returns (j: nat)
    requires ll in pos[..]
    modifies pos
    ensures j == Mtf.IndexIn(old(pos[..]), ll) && pos[..] == Mtf.MoveToFront(old(pos[..]), j)
  {
    ghost var p0 := pos[..];
    ghost var k := Mtf.IndexIn(p0, ll);
    assert forall i :: 0 <= i < k ==> p0[i] == p0[..k][i];
    j := 0;
    var tmp := pos[0];
    while ll != tmp
      invariant 0 <= j <= k && tmp == p0[j]
      invariant forall i :: 1 <= i <= j ==> pos[i] == p0[i - 1]
      invariant forall i :: j < i < pos.Length ==> pos[i] == p0[i]
      decreases k - j
    {
      j := j + 1;
      var tmp2 := tmp;
      tmp := pos[j];
      pos[j] := tmp2;
    }
    pos[0] := tmp;
    forall i | 0 <= i < pos.Length ensures pos[i] == Mtf.MoveToFront(p0, k)[i] { }
    assert pos[..] == Mtf.MoveToFront(p0, k);
  }

  method SendUnary(w: BitWriter, m: nat)
    requires w.Valid()
    modifies w
    ensures Appended(w, Unary(m))
  {
    hide BufferOk, Held;
    ghost var b0 := w.Bits();
    for j := 0 to m
      invariant w.Valid() && w.Bits() + Unary(m - j) == b0 + Unary(m)
      invariant w.earlier == old(w.earlier) && old(w.zbits) <= w.zbits
    {
      ghost var b := w.Bits();
      PutBit(w, true);
      assert b + ([true] + Unary(m - j - 1)) == w.Bits() + Unary(m - j - 1);
    }
    assert Unary(0) == [false];
    PutBit(w, false);
  }

  method SendSelectors(w: BitWriter, nGroups: nat, ms: seq<nat>)
    requires w.Valid() && nGroups < 8 && |ms| < 32768
    modifies w
    ensures Appended(w, SelectorBits(nGroups, ms))
  {
    hide BufferOk, Held, ToBits;
    ghost var b0 := w.Bits();
    SendCounts(w, nGroups, |ms|);
    ghost var b1 := w.Bits();
    assert ms[0..] == ms;
    for i := 0 to |ms|
      invariant w.Valid() && w.Bits() + UnaryBits(ms[i..]) == b1 + UnaryBits(ms)
      invariant w.earlier == old(w.earlier) && old(w.zbits) <= w.zbits
    {
      ghost var b := w.Bits();
      assert ms[i..][1..] == ms[i + 1..];
      SendUnary(w, ms[i]);
      assert b + (Unary(ms[i]) + UnaryBits(ms[i + 1..])) == w.Bits() + UnaryBits(ms[i + 1..]);
    }
    assert ms[|ms|..] == [];
    assert b0 + (ToBits(nGroups, 3) + ToBits(|ms|, 15)) + UnaryBits(ms) == b0 + SelectorBits(nGroups, ms);
  }

  method SendCounts(w: BitWriter, nGroups: nat, nSelectors: nat)
    requires w.Valid() && nGroups < 8 && nSelectors < 32768
    modifies w
    ensures Appended(w, ToBits(nGroups, 3) + ToBits(nSelectors, 15))
  {
    hide BufferOk, Held, ToBits;
    ghost var b0 := w.Bits();
    assert Pow2(3) == 8;
    Pow2Add(7, 8);
    Pow2Values();
    assert Pow2(7) == 128;
    w.Write(3, nGroups);
    w.Write(15, nSelectors);
    assert b0 + ToBits(nGroups, 3) + ToBits(nSelectors, 15) == b0 + (ToBits(nGroups, 3) + ToBits(nSelectors, 15));
  }

  // ---------------------------------------------------------------- symbol map

  method SendMapping(w: BitWriter, inUse: seq<bool>)
    requires w.Valid() && |inUse| == 256
    modifies w
    ensures Appended(w, MappingBits(inUse))
  {
    hide BufferOk, Held, AnyUsed, GroupBits, UsedBits;
    ghost var b0 := w.Bits();
    var inUse16 := FindGroups(inUse);
    SendGroupFlags(w, inUse, inUse16);
    SendUsedFlags(w, inUse, inUse16);
    assert b0 + GroupBits(inUse, 0) + UsedBits(inUse, 0) == b0 + MappingBits(inUse);
  }

  lemma GroupsStep(inUse: seq<bool>, i: nat)
    requires |inUse| == 256 && i < 16
    ensures GroupBits(inUse, i) == [AnyUsed(GroupOf(inUse, i))] + GroupBits(inUse, i + 1)
    ensures UsedBits(inUse, i) ==
      if AnyUsed(GroupOf(inUse, i)) then GroupOf(inUse, i) + UsedBits(inUse, i + 1) else UsedBits(inUse, i + 1)
  {
    hide AnyUsed, GroupOf;
    assert [] + UsedBits(inUse, i + 1) == UsedBits(inUse, i + 1);
  }

  lemma GroupsEnd(inUse: seq<bool>)
    requires |inUse| == 256
    ensures GroupBits(inUse, 16) == [] == UsedBits(inUse, 16)
  {
  }

  lemma Regroup(a: seq<bool>, b: seq<bool>, c: seq<bool>)
    ensures a + (b + c) == (a + b) + c
  {
  }

  lemma DeltaStep(from: nat, target: nat)
    ensures from < target ==> DeltaBits(from, target) == [true, false] + DeltaBits(from + 1, target)
    ensures from > target ==> DeltaBits(from, target) == [true, true] + DeltaBits(from - 1, target)
    ensures DeltaBits(target, target) == [false]
  {
  }

  method SendGroupFlags(w: BitWriter, inUse: seq<bool>, inUse16: seq<bool>)
    requires w.Valid() && |inUse| == 256 && |inUse16| == 16
    requires forall i :: 0 <= i < 16 ==> inUse16[i] == AnyUsed(GroupOf(inUse, i))
    modifies w
    ensures Appended(w, GroupBits(inUse, 0))
  {
    hide BufferOk, Held, AnyUsed, GroupOf, GroupBits;
    ghost var b0 := w.Bits();
    GroupsEnd(inUse);
    for i := 0 to 16
      invariant w.Valid() && w.Bits() + GroupBits(inUse, i) == b0 + GroupBits(inUse, 0)
      invariant w.earlier == old(w.earlier) && old(w.zbits) <= w.zbits
    {
      ghost var b := w.Bits();
      GroupsStep(inUse, i);
      PutBit(w, inUse16[i]);
      Regroup(b, [inUse16[i]], GroupBits(inUse, i + 1));
    }
  }

  method SendUsedFlags(w: BitWriter, inUse: seq<bool>, inUse16: seq<bool>)
    requires w.Valid() && |inUse| == 256 && |inUse16| == 16
    requires forall i :: 0 <= i < 16 ==> inUse16[i] == AnyUsed(GroupOf(inUse, i))
    modifies w
    ensures Appended(w, UsedBits(inUse, 0))
  {
    hide BufferOk, Held, AnyUsed, GroupOf, UsedBits;
    ghost var b0 := w.Bits();
    GroupsEnd(inUse);
    for i := 0 to 16
      invariant w.Valid() && w.Bits() + UsedBits(inUse, i) == b0 + UsedBits(inUse, 0)
      invariant w.earlier == old(w.earlier) && old(w.zbits) <= w.zbits
    {
      ghost var b := w.Bits();
      var g := GroupOf(inUse, i);
      GroupsStep(inUse, i);
      if inUse16[i] {
        SendFlags(w, g);
        Regroup(b, g, UsedBits(inUse, i + 1));
      }
    }
  }

  method FindGroups(inUse: seq<bool>) returns (inUse16: seq<bool>)
    requires |inUse| == 256
    ensures |inUse16| == 16 && forall i :: 0 <= i < 16 ==> inUse16[i] == AnyUsed(GroupOf(inUse, i))
  {
    inUse16 := [];
    for i := 0 to 16
      invariant |inUse16| == i && forall k :: 0 <= k < i ==> inUse16[k] == AnyUsed(GroupOf(inUse, k))
    {
      var any := false;
      for j := 0 to 16
        invariant any == exists k :: 0 <= k < j && GroupOf(inUse, i)[k]
      {
        if inUse[i * 16 + j] { any := true; assert GroupOf(inUse, i)[j]; }
      }
      inUse16 := inUse16 + [any];
    }
  }

  method SendFlags(w: BitWriter, g: seq<bool>)
    requires w.Valid()
    modifies w
    ensures Appended(w, g)
  {
    hide BufferOk, Held;
    ghost var b0 := w.Bits();
    for j := 0 to |g|
      invariant w.Valid() && w.Bits() == b0 + g[..j]
      invariant w.earlier == old(w.earlier) && old(w.zbits) <= w.zbits
    {
      PutBit(w, g[j]);
      assert b0 + g[..j] + [g[j]] == b0 + g[..j + 1];
    }
    assert g[..|g|] == g;
  }

  // ---------------------------------------------------------------- code lengths

  lemma StepBits()
    ensures ToBits(2, 2) == [true, false] && ToBits(3, 2) == [true, true] && ToBits(0, 1) == [false]
    ensures Pow2(2) == 4 && Pow2(1) == 2
  {
    assert ToBits(1, 1) == ToBits(0, 0) + [true] == [true];
    assert ToBits(2, 2) == ToBits(1, 1) + [false];
    assert ToBits(3, 2) == ToBits(1, 1) + [true];
    assert ToBits(0, 1) == ToBits(0, 0) + [false];
  }

  method SendDelta(w: BitWriter, from: nat, target: nat)
    requires w.Valid()
    modifies w
    ensures Appended(w, DeltaBits(from, target))
  {
    hide BufferOk, Held, ToBits, Pow2, DeltaBits;
    StepBits();
    ghost var b0 := w.Bits();
    var curr := from;
    while curr < target
      invariant curr <= from || curr <= target
      invariant w.Valid() && w.Bits() + DeltaBits(curr, target) == b0 + DeltaBits(from, target)
      invariant w.earlier == old(w.earlier) && old(w.zbits) <= w.zbits
    {
      ghost var b := w.Bits();
      DeltaStep(curr, target);
      w.Write(2, 2);
      Regroup(b, [true, false], DeltaBits(curr + 1, target));
      curr := curr + 1;
    }
    SendDown(w, curr, target);
    assert b0 + DeltaBits(from, target) == w.Bits();
  }

  method SendDown(w: BitWriter, from: nat, target: nat)
    requires w.Valid() && from >= target
    modifies w
    ensures Appended(w, DeltaBits(from, target))
  {
    hide BufferOk, Held, ToBits, Pow2, DeltaBits;
    StepBits();
    ghost var b0 := w.Bits();
    var curr := from;
    while curr > target
      invariant curr >= target
      invariant w.Valid() && w.Bits() + DeltaBits(curr, target) == b0 + DeltaBits(from, target)
      invariant w.earlier == old(w.earlier) && old(w.zbits) <= w.zbits
    {
      ghost var b := w.Bits();
      DeltaStep(curr, target);
      w.Write(2, 3);
      Regroup(b, [true, true], DeltaBits(curr - 1, target));
      curr := curr - 1;
    }
    DeltaStep(target, target);
    w.Write(1, 0);
  }

  method SendTable(w: BitWriter, len: seq<nat>)
    requires w.Valid() && |len| > 0 && Row(len, |len|)
    modifies w
    ensures Appended(w, TableBits(len))
  {
    hide BufferOk, Held, ToBits, DeltaBits;
    ghost var b0 := w.Bits();
    assert Pow2(5) == 32;
    var curr := len[0];
    w.Write(5, curr);
    ghost var b1 := w.Bits();
    assert len[0..] == len;
    for i := 0 to |len|
      invariant w.Valid() && w.Bits() + LengthBits(len[i..], curr) == b1 + LengthBits(len, len[0])
      invariant w.earlier == old(w.earlier) && old(w.zbits) <= w.zbits
    {
      ghost var b := w.Bits();
      assert len[i..][1..] == len[i + 1..];
      SendDelta(w, curr, len[i]);
      assert b + (DeltaBits(curr, len[i]) + LengthBits(len[i + 1..], len[i])) ==
        w.Bits() + LengthBits(len[i + 1..], len[i]);
      curr := len[i];
    }
    assert len[|len|..] == [];
    assert b0 + ToBits(len[0], 5) + LengthBits(len, len[0]) == b0 + TableBits(len);
  }

  method SendTables(w: BitWriter, len: seq<seq<nat>>, alphaSize: nat)
    requires w.Valid() && Rows(len, |len|, alphaSize) && alphaSize > 0
    modifies w
    ensures Appended(w, TablesBits(len))
  {
    hide BufferOk, Held, TableBits;
    ghost var b0 := w.Bits();
    assert len[0..] == len;
    for t := 0 to |len|
      invariant w.Valid() && w.Bits() + TablesBits(len[t..]) == b0 + TablesBits(len)
      invariant w.earlier == old(w.earlier) && old(w.zbits) <= w.zbits
    {
      ghost var b := w.Bits();
      assert len[t..][1..] == len[t + 1..];
      SendTable(w, len[t]);
      assert b + (TableBits(len[t]) + TablesBits(len[t + 1..])) == w.Bits() + TablesBits(len[t + 1..]);
    }
    assert len[|len|..] == [];
  }

  // ---------------------------------------------------------------- codes

  ghost predicate CodesOf(code: seq<int>, len: seq<nat>) {
    |code| == |len| && forall i :: 0 <= i < |len| ==> code[i] == Code(len, i)
  }

  /** The codes of each table; the range of its lengths is found first. */
  method MakeCodes(len: seq<seq<nat>>, alphaSize: nat) returns (code: seq<seq<int>>)
    requires alphaSize > 0 && forall t :: 0 <= t < |len| ==> |len[t]| == alphaSize && Prefixable(len[t], MAX_LEN)
    ensures |code| == |len| && forall t :: 0 <= t < |len| ==> CodesOf(code[t], len[t])
  {
    hide Code;
    code := [];
    var row := new int[alphaSize];
    for t := 0 to |len|
      invariant |code| == t && forall u :: 0 <= u < t ==> CodesOf(code[u], len[u])
    {
      var minLen: nat, maxLen: nat := 32, 0;
      for i := 0 to alphaSize
        invariant forall k :: 0 <= k < i ==> minLen <= len[t][k] <= maxLen
        invariant i > 0 ==> 1 <= minLen <= maxLen <= MAX_LEN
        invariant i == 0 ==> minLen == 32 && maxLen == 0
      {
        if len[t][i] > maxLen { maxLen := len[t][i]; }
        if len[t][i] < minLen { minLen := len[t][i]; }
      }
      AssignCodes(row, len[t], minLen, maxLen, alphaSize);
      code := code + [row[..]];
    }
  }

  method SendData(w: BitWriter, c: Coding, a: nat, v: seq<nat>, code: seq<seq<int>>)
    requires w.Valid() && Codable(c, a, v)
    requires |code| == |c.len| && forall t :: 0 <= t < |code| ==> CodesOf(code[t], c.len[t])
    modifies w
    ensures Appended(w, DataBits(c, a, v, 0))
  {
    hide BufferOk, Held, ToBits, DataBits, Codable;
    ghost var b0 := w.Bits();
    var gs: nat, selCtr: nat := 0, 0;
    while gs < |v|
      invariant gs <= |v| && (gs < |v| ==> gs == selCtr * GROUP_SIZE)
      invariant selCtr == (gs + GROUP_SIZE - 1) / GROUP_SIZE
      invariant w.Valid() && w.Bits() + DataBits(c, a, v, gs) == b0 + DataBits(c, a, v, 0)
      invariant w.earlier == old(w.earlier) && old(w.zbits) <= w.zbits
      decreases |v| - gs
    {
      var ge := gs + GROUP_SIZE - 1;
      if ge >= |v| { ge := |v| - 1; }
      CodableAt(c, a, v, gs);
      assert c.selector[selCtr] < |c.len|;
      SendGroup(w, c, a, v, gs, ge, selCtr, code[c.selector[selCtr]]);
      gs := ge + 1;
      selCtr := selCtr + 1;
    }
    DataEnd(c, a, v);
  }

  method SendGroup(w: BitWriter, c: Coding, a: nat, v: seq<nat>, gs: nat, ge: nat, g: nat, code: seq<int>)
    requires w.Valid() && Codable(c, a, v) && g * GROUP_SIZE == gs <= ge < |v| && ge < gs + GROUP_SIZE
    requires g < |c.selector| && c.selector[g] < |c.len| && CodesOf(code, c.len[c.selector[g]])
    modifies w
    ensures w.Valid() && w.earlier == old(w.earlier) && old(w.zbits) <= w.zbits
    ensures w.Bits() + DataBits(c, a, v, ge + 1) == old(w.Bits()) + DataBits(c, a, v, gs)
  {
    hide BufferOk, Held, ToBits, DataBits, Codable, CodesOf;
    for i := gs to ge + 1
      invariant w.Valid() && w.Bits() + DataBits(c, a, v, i) == old(w.Bits()) + DataBits(c, a, v, gs)
      invariant w.earlier == old(w.earlier) && old(w.zbits) <= w.zbits
    {
      assert i / GROUP_SIZE == g;
      SendSymbol(w, c, a, v, i, code);
    }
  }

  lemma DataEnd(c: Coding, a: nat, v: seq<nat>)
    requires Codable(c, a, v)
    ensures DataBits(c, a, v, |v|) == []
  {
  }

  method SendSymbol(w: BitWriter, c: Coding, a: nat, v: seq<nat>, i: nat, code: seq<int>)
    requires w.Valid() && Codable(c, a, v) && i < |v| && i / GROUP_SIZE < |c.selector|
      && c.selector[i / GROUP_SIZE] < |c.len|
    requires CodesOf(code, LenFor(c, i))
    modifies w
    ensures w.Valid() && w.earlier == old(w.earlier) && old(w.zbits) <= w.zbits
    ensures w.Bits() + DataBits(c, a, v, i + 1) == old(w.Bits()) + DataBits(c, a, v, i)
  {
    hide BufferOk, Held, ToBits, Code;
    CodableAt(c, a, v, i);
    var len := LenFor(c, i);
    CodeFits(len, v[i], MAX_LEN);
    ghost var b := w.Bits();
    w.Write(len[v[i]], code[v[i]]);
    assert b + (SymbolBits(c, v, i) + DataBits(c, a, v, i + 1)) == w.Bits() + DataBits(c, a, v, i + 1);
  }

  // ---------------------------------------------------------------- the whole

  lemma FourParts(b0: seq<bool>, b1: seq<bool>, b2: seq<bool>, b3: seq<bool>, b4: seq<bool>)
    ensures b0 + b1 + b2 + b3 + b4 == b0 + (b1 + b2 + b3 + b4)
  {
  }

  /** The symbol map, the selectors, the tables and the values. */
  method SendBody(w: BitWriter, inUse: seq<bool>, c: Coding, alphaSize: nat, v: seq<nat>, ms: seq<nat>,
    code: seq<seq<int>>)
    requires w.Valid() && |inUse| == 256 && alphaSize > 0 && |c.len| < 8 && |c.selector| < 32768
    requires forall k :: 0 <= k < |c.selector| ==> c.selector[k] in Iota(|c.len|)
    requires ms == MtfSelectors(c.selector, Iota(|c.len|)) && Rows(c.len, |c.len|, alphaSize)
    requires |code| == |c.len| && forall t :: 0 <= t < |code| ==> CodesOf(code[t], c.len[t])
    requires Codable(c, alphaSize, v)
    modifies w
    ensures Appended(w, MappingBits(inUse) + SelectorBits(|c.len|, ms) + TablesBits(c.len)
      + DataBits(c, alphaSize, v, 0))
  {
    hide BufferOk, Held, Codable, MappingBits, SelectorBits, TablesBits, DataBits, MtfSelectors, Rows, CodesOf;
    ghost var b0 := w.Bits();
    SelectorsAsMany(c.selector, Iota(|c.len|));
    SendMapping(w, inUse);
    SendSelectors(w, |c.len|, ms);
    SendTables(w, c.len, alphaSize);
    SendData(w, c, alphaSize, v, code);
    FourParts(b0, MappingBits(inUse), SelectorBits(|c.len|, ms), TablesBits(c.len), DataBits(c, alphaSize, v, 0));
  }

  lemma SelectorsAsMany(selector: seq<nat>, pos: seq<nat>)
    requires forall k :: 0 <= k < |selector| ==> selector[k] in pos
    ensures |MtfSelectors(selector, pos)| == |selector|
  {
  }

  /** sendMTFValues: the bits of a block's body, for the tables and selectors that its values
      determine. */
  method SendMtfValues(w: BitWriter, inUse: seq<bool>, v: seq<nat>, mtfFreq: seq<nat>, alphaSize: nat)
    returns (c: Coding)
    requires w.Valid() && |inUse| == 256
    requires 0 < |v| <= MAX_VALUES && Below(v, alphaSize) && 3 <= alphaSize == |mtfFreq| <= MAX_ALPHA_SIZE
    modifies w
    ensures Codable(c, alphaSize, v) && Appended(w, BodyBits(inUse, alphaSize, c, v))
    ensures c == Passes(v, mtfFreq, N_ITERS)
  {
    hide BufferOk, Held, CompleteCode, MappingBits, SelectorBits, TablesBits, DataBits, Passes, MtfSelectors, Bits.Pow2;
    var len, selector := ChooseTables(v, mtfFreq, alphaSize);
    c := Coding(len, selector);
    SelectorsListed(c, alphaSize, |v|);
    var ms := CodeSelectors(selector, |len|);
    var code := MakeCodes(len, alphaSize);
    forall t | 0 <= t < |len| ensures Row(len[t], alphaSize) { CompleteIsPrefixable(len[t], alphaSize); }
    SendBody(w, inUse, c, alphaSize, v, ms, code);
  }
}

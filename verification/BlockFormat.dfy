/**
 The bits of a compressed stream, as functions of what they carry.  Each part is
 defined from its front, so that both the writer and the reader go through it in
 the same direction.
 */
module BlockFormat {
  import opened Rotations
  import opened Bits
  import opened BitStream
  import opened CanonicalCode
  import Mtf

  const GROUP_SIZE := 50
  const MAX_LEN := 17
  const BLOCK_MAGIC: seq<byte> := [0x31, 0x41, 0x59, 0x26, 0x53, 0x59]
  const END_MAGIC: seq<byte> := [0x17, 0x72, 0x45, 0x38, 0x50, 0x90]

  function Word(w: nat): (s: seq<byte>)
    requires w < 0x1_0000_0000
    ensures |s| == 4
  {
    [w / 0x100_0000, w / 0x1_0000 % 256, w / 0x100 % 256, w % 256]
  }

  // ---------------------------------------------------------------- symbol map

  predicate AnyUsed(inUse: seq<bool>) {
    exists j :: 0 <= j < |inUse| && inUse[j]
  }

  function GroupOf(inUse: seq<bool>, i: nat): seq<bool>
    requires |inUse| == 256 && i < 16
  {
    inUse[16 * i..16 * i + 16]
  }

  /** One bit for each group of sixteen symbols, from group `i` on. */
  function GroupBits(inUse: seq<bool>, i: nat): (b: seq<bool>)
    requires |inUse| == 256 && i <= 16
    ensures |b| == 16 - i
    decreases 16 - i
  {
    if i == 16 then [] else [AnyUsed(GroupOf(inUse, i))] + GroupBits(inUse, i + 1)
  }

  /** Sixteen bits for each group with a symbol in use, from group `i` on. */
  function UsedBits(inUse: seq<bool>, i: nat): (b: seq<bool>)
    requires |inUse| == 256 && i <= 16
    ensures |b| <= 16 * (16 - i)
    decreases 16 - i
  {
    if i == 16 then []
    else (if AnyUsed(GroupOf(inUse, i)) then GroupOf(inUse, i) else []) + UsedBits(inUse, i + 1)
  }

  function MappingBits(inUse: seq<bool>): seq<bool>
    requires |inUse| == 256
  {
    GroupBits(inUse, 0) + UsedBits(inUse, 0)
  }

  // ---------------------------------------------------------------- selectors

  /** Move-to-front positions of the selectors. */
  function MtfSelectors(sel: seq<nat>, pos: seq<nat>): (ms: seq<nat>)
    requires forall k :: 0 <= k < |sel| ==> sel[k] in pos
    ensures |ms| == |sel| && forall k :: 0 <= k < |ms| ==> ms[k] < |pos|
    decreases |sel|
  {
    if sel == [] then []
    else
      var k := Mtf.IndexIn(pos, sel[0]);
      Mtf.MoveToFrontSame(pos, k);
      [k] + MtfSelectors(sel[1..], Mtf.MoveToFront(pos, k))
  }

  function Unary(j: nat): (b: seq<bool>)
    ensures |b| == j + 1
  {
    if j == 0 then [false] else [true] + Unary(j - 1)
  }

  function UnaryBits(ms: seq<nat>): seq<bool> {
    if ms == [] then [] else Unary(ms[0]) + UnaryBits(ms[1..])
  }

  function SelectorBits(nGroups: nat, ms: seq<nat>): seq<bool> {
    ToBits(nGroups, 3) + ToBits(|ms|, 15) + UnaryBits(ms)
  }

  // ---------------------------------------------------------------- code lengths

  /** Steps from length `curr` to `target`, and the mark that it is reached. */
  function DeltaBits(curr: nat, target: nat): (b: seq<bool>)
    decreases if curr < target then target - curr else curr - target
  {
    if curr < target then [true, false] + DeltaBits(curr + 1, target)
    else if curr > target then [true, true] + DeltaBits(curr - 1, target)
    else [false]
  }

  function LengthBits(len: seq<nat>, curr: nat): seq<bool> {
    if len == [] then [] else DeltaBits(curr, len[0]) + LengthBits(len[1..], len[0])
  }

  function TableBits(len: seq<nat>): seq<bool> {
    if len == [] then [] else ToBits(len[0], 5) + LengthBits(len, len[0])
  }

  function TablesBits(len: seq<seq<nat>>): seq<bool> {
    if len == [] then [] else TableBits(len[0]) + TablesBits(len[1..])
  }

  // ---------------------------------------------------------------- symbols

  /** The choices the compressor makes for one block: the code lengths of each table, and
      the table for each group of fifty values. */
  datatype Coding = Coding(len: seq<seq<nat>>, selector: seq<nat>)

  ghost predicate ValidTables(len: seq<seq<nat>>, alphaSize: nat) {
    && 2 <= |len| <= 6
    && forall t :: 0 <= t < |len| ==> |len[t]| == alphaSize && Prefixable(len[t], MAX_LEN)
  }

  /** `count` values can be sent with these choices. */
  ghost predicate ValidCoding(c: Coding, alphaSize: nat, count: nat) {
    && ValidTables(c.len, alphaSize)
    && 1 <= |c.selector| < 0x8000
    && |c.selector| == (count + GROUP_SIZE - 1) / GROUP_SIZE
    && forall g :: 0 <= g < |c.selector| ==> c.selector[g] < |c.len|
  }

  /** The lengths in force for value `k`. */
  function LenFor(c: Coding, k: nat): (len: seq<nat>)
    requires k / GROUP_SIZE < |c.selector| && c.selector[k / GROUP_SIZE] < |c.len|
  {
    c.len[c.selector[k / GROUP_SIZE]]
  }

  ghost predicate Codable(c: Coding, alphaSize: nat, v: seq<nat>) {
    && ValidCoding(c, alphaSize, |v|)
    && forall k :: 0 <= k < |v| ==> v[k] < alphaSize
  }

  function SymbolBits(c: Coding, v: seq<nat>, k: nat): (b: seq<bool>)
    requires k < |v|
    requires k / GROUP_SIZE < |c.selector| && c.selector[k / GROUP_SIZE] < |c.len| && v[k] < |LenFor(c, k)|
  {
    ToBits(Code(LenFor(c, k), v[k]), LenFor(c, k)[v[k]])
  }

  lemma CodableAt(c: Coding, alphaSize: nat, v: seq<nat>, k: nat)
    requires Codable(c, alphaSize, v) && k < |v|
    ensures k / GROUP_SIZE < |c.selector| && c.selector[k / GROUP_SIZE] < |c.len|
    ensures |LenFor(c, k)| == alphaSize && v[k] < alphaSize && Prefixable(LenFor(c, k), MAX_LEN)
  {
  }

  /** The codes of the values from `k` on. */
  ghost function DataBits(c: Coding, alphaSize: nat, v: seq<nat>, k: nat): (b: seq<bool>)
    requires Codable(c, alphaSize, v) && k <= |v|
    decreases |v| - k
  {
    if k == |v| then [] else
      CodableAt(c, alphaSize, v, k);
      SymbolBits(c, v, k) + DataBits(c, alphaSize, v, k + 1)
  }

  // ---------------------------------------------------------------- whole blocks

  function HeaderBits(blockSize100k: nat): seq<bool>
    requires 1 <= blockSize100k <= 9
  {
    BytesToBits([0x42, 0x5a, 0x68, 0x30 + blockSize100k])
  }

  function PreambleBits(crc: nat, origPtr: nat): seq<bool>
    requires crc < 0x1_0000_0000
  {
    BytesToBits(BLOCK_MAGIC) + BytesToBits(Word(crc)) + [false] + ToBits(origPtr, 24)
  }

  function TrailerBits(combinedCrc: nat): seq<bool>
    requires combinedCrc < 0x1_0000_0000
  {
    BytesToBits(END_MAGIC) + BytesToBits(Word(combinedCrc))
  }
}

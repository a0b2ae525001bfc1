/**
 pax: the block buffer between the format routines and an archive in a single regular
 file.  Reading and skipping see a plain stream of bytes; after repositioning onto the
 trailer, writing appends to a plain stream of bytes.
 */
module PaxBuffer {
  import opened Rotations
  import Bits
  import BitStream

  const BLKMULT := 512

  function Min(a: int, b: int): int {
    if a < b then a else b
  }

  /** An archive that is a regular file, with its file offset and the state of the last i/o. */
  class Archive {
    var content: seq<byte>
    var pos: nat
    var lstrval: int

    ghost predicate Valid()
      reads this
    {
      pos <= |content| && (lstrval <= 0 ==> lstrval == 0 && pos == |content|)
    }

    constructor (content: seq<byte>)
      ensures Valid() && this.content == content && pos == 0 && lstrval == 1
    {
      this.content, pos, lstrval := content, 0, 1;
    }

    /** ar_read. */
    method Read(cnt: nat) returns (res: int, data: seq<byte>)
      requires Valid() && cnt > 0
      modifies `pos, `lstrval
      ensures Valid() && |data| == Min(cnt, |content| - old(pos)) && data == content[old(pos)..old(pos) + |data|]
      ensures res == |data| && pos == old(pos) + |data| && (res == 0 ==> lstrval == 0)
    {
      if lstrval <= 0 { return lstrval, []; }
      res := Min(cnt, |content| - pos);
      data := content[pos..pos + res];
      pos := pos + res;
      if res == 0 { lstrval := 0; }
    }

    /** ar_write. */
    method Write(data: seq<byte>) returns (res: int)
      requires pos <= |content| && lstrval > 0
      modifies `content, `pos
      ensures res == |data| && pos == old(pos) + |data| <= |content|
      ensures content[..pos] == old(content)[..old(pos)] + data
      ensures old(pos) == |old(content)| ==> pos == |content|
    {
      content := content[..pos] + data + if pos + |data| <= |content| then content[pos + |data|..] else [];
      pos := pos + |data|;
      res := |data|;
    }

    /** ar_fow: skips forward, but not past the end. */
    method Forward(sksz: int) returns (res: int, skipped: nat)
      requires Valid()
      modifies `pos
      ensures Valid() && res == 0 && pos == old(pos) + skipped
      ensures skipped == if sksz <= 0 then 0 else Min(sksz, |content| - old(pos))
    {
      skipped := 0;
      if sksz <= 0 { return 0, 0; }
      if lstrval <= 0 { return lstrval, 0; }
      var mpos := pos + sksz;
      if mpos > |content| { mpos := |content|; }
      skipped := mpos - pos;
      pos := mpos;
      res := 0;
    }

    /** ar_rev: moves backwards, but not past the start. */
    method Reverse(sksz: int) returns (res: int)
      requires Valid()
      modifies `pos, `lstrval
      ensures Valid() && res == 0 && lstrval == 1
      ensures pos == if sksz <= 0 then old(pos) else if sksz <= old(pos) then old(pos) - sksz else 0
    {
      if sksz > 0 {
        pos := if pos - sksz < 0 then 0 else pos - sksz;
      }
      lstrval := 1;
      res := 0;
    }

    /** ar_set_wr: everything from the current offset on is cut off. */
    method SetWrite() returns (res: int)
      requires pos <= |content|
      modifies `content
      ensures content == old(content)[..pos] && res == 0
    {
      content := content[..pos];
      res := 0;
    }
  }

  lemma SliceParts(s: seq<byte>, a: int, b: int, c: int)
    requires 0 <= a <= b <= c <= |s|
    ensures s[a..c][..b - a] == s[a..b] && s[a..c][b - a..] == s[b..c]
  {
  }

  lemma SameStart(s: seq<byte>, a: nat, t: seq<byte>, b: nat, cnt: nat, n: nat)
    requires a + n <= |s| && b + n <= |t| && cnt <= n && s[a..a + n] == t[b..b + n]
    ensures s[a..a + cnt] == t[b..b + cnt]
  {
    SliceParts(s, a, a + cnt, a + n);
    SliceParts(t, b, b + cnt, b + n);
  }

  /** Moving back `cnt` and forward by the excess over `total` leads to the right place if and
      only if the start of the file was not in the way. */
  lemma OnlyIfInside(c0: seq<byte>, p0: int, total: int, cnt: int)
    requires 0 <= total <= p0 <= |c0| && total <= cnt
    ensures var at := (if cnt <= p0 then p0 - cnt else 0) + (cnt - total);
      at <= |c0| ==> (c0[..at] == c0[..p0 - total] <==> cnt <= p0)
  {
    var at := (if cnt <= p0 then p0 - cnt else 0) + (cnt - total);
    if at <= |c0| && cnt > p0 { assert |c0[..at]| > |c0[..p0 - total]|; }
  }

  /** From one boundary the next block ends at the next boundary, or there is nothing left. */
  lemma NextBoundary(pos: nat, n: nat, k: nat)
    requires k > 0 && pos <= n
    ensures pos % k == 0 && n % k == 0 ==> pos == n || (pos + k <= n && (pos + k) % k == 0)
  {
    if pos % k == 0 && n % k == 0 {
      var a, c := pos / k, n / k;
      assert pos == k * a && n == k * c;
      Bits.FactorOrder(c, a, k);
      Bits.FactorOrder(a + 1, c, k);
      Bits.MulNext(a, k);
      BitStream.DivRem(a + 1, 0, k);
    }
  }

  /** Whole blocks and the rest; skipping whole blocks from a boundary leads to a boundary. */
  lemma WholeBlocks(pos: nat, n: nat, left: nat, k: nat)
    requires k > 0 && pos <= n
    ensures left / k * k + left % k == left && left / k * k >= 0
    ensures pos % k == 0 && n % k == 0 ==> (pos + Min(left / k * k, n - pos)) % k == 0
  {
    var q := left / k;
    assert left == k * q + left % k;
    if pos % k == 0 && n % k == 0 {
      var a := pos / k;
      assert pos == k * a;
      assert pos + q * k == (a + q) * k;
      BitStream.DivRem(a + q, 0, k);
    }
  }

  lemma SlicesJoin(s: seq<byte>, a: int, b: int, c: int)
    requires 0 <= a <= b <= c <= |s|
    ensures s[a..b] + s[b..c] == s[a..c]
  {
  }

  function Until(s: seq<byte>, n: int): seq<byte> {
    if 0 <= n <= |s| then s[..n] else s
  }

  lemma UntilIs(s: seq<byte>, n: int)
    requires 0 <= n <= |s|
    ensures Until(s, n) == s[..n]
  {
  }

  // -------------------------------------------------------------- the block size

  const MAXBLK := 32256
  const FILEBLK := 10240

  /** The largest multiple of 512, from `b` down, that divides the size of the file, or 0. */
  function Dividing(size: nat, b: nat): (r: nat)
    ensures r > 0 ==> size % r == 0
  {
    if b < BLKMULT then 0 else if size % b == 0 then b else Dividing(size, b - BLKMULT)
  }

  /** The block size with which a regular file is opened for appending. */
  function BlockFor(size: nat, wrblksz: nat): (blksz: nat)
    ensures blksz > 0
  {
    if wrblksz > 0 && size % wrblksz == 0 then wrblksz
    else if Dividing(size, MAXBLK) > 0 then Dividing(size, MAXBLK)
    else FILEBLK
  }

  /** A block size that pax knows and that divides the size of the file. */
  predicate Suits(size: nat, b: nat) {
    0 < b <= 32256 && b % 512 == 0 && size % b == 0
  }

  /** The part of ar_open that chooses it: the block size asked for if it divides the size of the
      file; else the largest that pax knows and that does; else 10240. */
  method ChooseBlock(size: nat, wrblksz: nat) returns (rdblksz: nat)
    ensures rdblksz == BlockFor(size, wrblksz)
    ensures wrblksz > 0 && size % wrblksz == 0 ==> rdblksz == wrblksz
    ensures !(wrblksz > 0 && size % wrblksz == 0) ==>
      if exists b: nat :: Suits(size, b)
      then Suits(size, rdblksz) && forall b: nat :: Suits(size, b) ==> b <= rdblksz
      else rdblksz == 10240
  {
    LargestFound(size, MAXBLK);
    if wrblksz != 0 && size % wrblksz == 0 { return wrblksz; }
    rdblksz := MAXBLK;
    while rdblksz > 0
      invariant rdblksz % BLKMULT == 0 && Dividing(size, rdblksz) == Dividing(size, MAXBLK)
    {
      if size % rdblksz == 0 { break; }
      rdblksz := rdblksz - BLKMULT;
    }
    if rdblksz <= 0 { rdblksz := FILEBLK; }
  }

  /** A file whose size is a multiple of 512 is opened as one of whole blocks, and no other is, for
      block sizes as they may be given. */
  lemma WholeIff(size: nat, wrblksz: nat)
    requires wrblksz % BLKMULT == 0
    ensures size % BlockFor(size, wrblksz) == 0 <==> size % BLKMULT == 0
  {
    var b := BlockFor(size, wrblksz);
    DividingMultiple(size, MAXBLK);
    if size % BLKMULT == 0 { DividingFound(size, MAXBLK); }
    if size % b == 0 { Through(size, b, BLKMULT); }
  }

  /** Going down from `b`, the first that divides is the largest. */
  lemma {:induction false} LargestFound(size: nat, b: nat)
    requires b % BLKMULT == 0 && b <= 32256
    ensures Dividing(size, b) > 0 ==> Suits(size, Dividing(size, b)) && Dividing(size, b) <= b
    ensures forall c: nat :: Suits(size, c) && c <= b ==> c <= Dividing(size, b)
    decreases b
  {
    if b >= BLKMULT && size % b != 0 {
      LargestFound(size, b - BLKMULT);
      forall c: nat | Suits(size, c) && c <= b ensures c <= b - BLKMULT { Between(b, c); }
    }
  }

  lemma Between(b: nat, c: nat)
    requires b % BLKMULT == 0 && c % BLKMULT == 0
    ensures c < b ==> c <= b - BLKMULT
  {
  }

  lemma {:induction false} DividingMultiple(size: nat, b: nat)
    requires b % BLKMULT == 0
    ensures Dividing(size, b) % BLKMULT == 0
    decreases b
  {
    if b >= BLKMULT && size % b != 0 { DividingMultiple(size, b - BLKMULT); }
  }

  lemma {:induction false} DividingFound(size: nat, b: nat)
    requires b % BLKMULT == 0 && b >= BLKMULT && size % BLKMULT == 0
    ensures Dividing(size, b) > 0
    decreases b
  {
    if size % b != 0 { DividingFound(size, b - BLKMULT); }
  }

  lemma Through(size: nat, b: nat, k: nat)
    requires b > 0 && k > 0 && size % b == 0 && b % k == 0
    ensures size % k == 0
  {
    var p, q := size / b, b / k;
    assert size == b * p && b == k * q;
    assert (k * q) * p == k * (q * p);
    BitStream.DivRem(q * p, 0, k);
  }

  class Buffer {
    const ar: Archive
    /** The i/o buffer, with room in front of it for pushed-back data. */
    const bufmem: array<byte>
    var bufpt: nat
    var bufend: nat
    var blksz: nat
    var wrblksz: nat
    var rdblksz: nat
    var rdcnt: int
    var wrcnt: int
    var fini: bool

    /** rd_start. */
    constructor (ar: Archive, rdblksz: nat, wrblksz: nat)
      requires ar.Valid() && ar.pos == 0 && ar.lstrval == 1 && rdblksz > 0
      ensures Reading() && this.ar == ar && fresh(bufmem) && this.rdblksz == rdblksz && Position() == 0
    {
      this.ar, this.rdblksz, this.blksz, this.wrblksz := ar, rdblksz, rdblksz, wrblksz;
      bufmem := new byte[BLKMULT + rdblksz](_ => 0);
      bufpt, bufend := BLKMULT + rdblksz, BLKMULT + rdblksz;
      rdcnt, wrcnt, fini := 0, 0, false;
    }

    ghost predicate Shape()
      reads this, ar
    {
      && blksz == rdblksz > 0 && bufmem.Length == BLKMULT + blksz
      && bufpt <= bufend <= bufmem.Length
      && ar.Valid()
    }

    /** What has been read ahead is what lies in front of the file offset. */
    ghost predicate Reading()
      reads this, ar, bufmem
    {
      && Shape() && BLKMULT <= bufend
      && bufend - bufpt <= ar.pos
      && bufmem[bufpt..bufend] == ar.content[ar.pos - (bufend - bufpt)..ar.pos]
      && (fini ==> ar.lstrval == 0)
      && rdcnt == ar.pos
    }

    /** The file offset is at a block boundary, and so is the end of the file. */
    ghost predicate Aligned()
      requires rdblksz > 0
      reads `rdblksz, ar`pos, ar`content
    {
      ar.pos % rdblksz == 0 && |ar.content| % rdblksz == 0
    }

    /** Where the reader is in the stream. */
    ghost function Position(): (p: nat)
      requires Shape() && bufend - bufpt <= ar.pos
      reads this, ar
    {
      ar.pos - (bufend - bufpt)
    }

    // -------------------------------------------------------------- reading

    /** buf_fill: on a single volume the end of the file is the end of the archive. */
    method Fill() returns (res: int)
      requires Reading() && bufpt == bufend
      modifies this`bufpt, this`bufend, this`rdcnt, this`fini, ar`pos, ar`lstrval, bufmem
      ensures Reading() && Position() == old(Position()) && ar.pos >= old(ar.pos)
      ensures res == Min(blksz, |ar.content| - old(Position()))
        && (res > 0 ==> bufpt == BLKMULT && bufend == BLKMULT + res)
      ensures res == 0 ==> bufpt == bufend
      ensures old(Aligned()) ==> Aligned()
    {
      if fini { return 0; }
      var data;
      NextBoundary(ar.pos, |ar.content|, rdblksz);
      res, data := ar.Read(blksz);
      if res > 0 {
        CopyIn(BLKMULT, data);
        bufpt := BLKMULT;
        bufend := BLKMULT + res;
        rdcnt := rdcnt + res;
        return;
      }
      fini := true;
      res := 0;
    }

    /** memcpy into the buffer. */
    method CopyIn(at: nat, data: seq<byte>)
      requires at + |data| <= bufmem.Length
      modifies bufmem
      ensures bufmem[at..at + |data|] == data
      ensures forall k :: 0 <= k < at ==> bufmem[k] == old(bufmem[k])
    {
      for i := 0 to |data|
        invariant forall k :: 0 <= k < i ==> bufmem[at + k] == data[k]
        invariant forall k :: 0 <= k < at ==> bufmem[k] == old(bufmem[k])
      {
        bufmem[at + i] := data[i];
      }
    }

    /** Some of what is buffered is used. */
    method Use(cnt: nat) returns (data: seq<byte>)
      requires Reading() && cnt <= bufend - bufpt
      modifies this`bufpt
      ensures Reading() && Position() == old(Position()) + cnt
      ensures old(Position()) + cnt <= |ar.content| && data == ar.content[old(Position())..old(Position()) + cnt]
    {
      ghost var p := Position();
      data := bufmem[bufpt..bufpt + cnt];
      SliceParts(bufmem[..], bufpt, bufpt + cnt, bufend);
      SliceParts(ar.content, p, p + cnt, ar.pos);
      bufpt := bufpt + cnt;
    }

    /** rd_wrbuf: the next `cpcnt` bytes of the stream, or as many as there are. */
    method RdWrbuf(cpcnt: nat) returns (res: int, data: seq<byte>)
      requires Reading()
      modifies this`bufpt, this`bufend, this`rdcnt, this`fini, ar`pos, ar`lstrval, bufmem
      ensures Reading() && res == |data| == Min(cpcnt, |ar.content| - old(Position()))
      ensures Position() == old(Position()) + |data| <= |ar.content|
      ensures data == ar.content[old(Position())..Position()]
      ensures old(Aligned()) ==> Aligned()
    {
      hide Aligned;
      var incnt := cpcnt;
      data := [];
      while incnt > 0
        invariant old(Aligned()) ==> Aligned()
        invariant Reading() && 0 <= incnt <= cpcnt && |data| == cpcnt - incnt
        invariant old(Position()) + |data| == Position() && data == ar.content[old(Position())..Position()]
        invariant incnt < cpcnt ==> |data| > 0
        decreases incnt
      {
        var cnt := bufend - bufpt;
        if cnt <= 0 {
          cnt := Fill();
          if cnt <= 0 {
            res := cpcnt - incnt;
            if res > 0 { return; }
            return cnt, data;
          }
        }
        cnt := Min(cnt, incnt);
        ghost var p := Position();
        var part := Use(cnt);
        SlicesJoin(ar.content, old(Position()), p, p + cnt);
        data := data + part;
        incnt := incnt - cnt;
      }
      res := cpcnt;
    }

    /** rd_skip: moves forward in the stream; 1 means that it ends before that. */
    method RdSkip(skcnt: nat) returns (r: int)
      requires Reading()
      modifies this`bufpt, this`bufend, this`rdcnt, this`fini, ar`pos, ar`lstrval, bufmem
      ensures Reading() && Position() == old(Position()) + Min(skcnt, |ar.content| - old(Position()))
      ensures r == if old(Position()) + skcnt <= |ar.content| then 0 else 1
      ensures old(Aligned()) ==> Aligned()
    {
      if skcnt == 0 { return 0; }
      var res := Min(bufend - bufpt, skcnt);
      var part := Use(res);
      var left := skcnt - res;
      if left == 0 { return 0; }
      res := left % rdblksz;
      var cnt := left / rdblksz * rdblksz;
      WholeBlocks(ar.pos, |ar.content|, left, rdblksz);
      var skipped;
      r, skipped := ar.Forward(cnt);
      assert bufmem[bufpt..bufend] == [];
      res := res + (cnt - skipped);
      rdcnt := rdcnt + skipped;
      r := SkipRest(res);
    }

    method SkipRest(skcnt: nat) returns (r: int)
      requires Reading()
      modifies this`bufpt, this`bufend, this`rdcnt, this`fini, ar`pos, ar`lstrval, bufmem
      ensures Reading() && Position() == old(Position()) + Min(skcnt, |ar.content| - old(Position()))
      ensures r == if old(Position()) + skcnt <= |ar.content| then 0 else 1
      ensures old(Aligned()) ==> Aligned()
    {
      var res := skcnt;
      while res > 0
        invariant old(Aligned()) ==> Aligned()
        invariant Reading() && 0 <= res <= skcnt && Position() == old(Position()) + skcnt - res <= |ar.content|
        decreases res
      {
        var cnt := bufend - bufpt;
        if cnt <= 0 {
          cnt := Fill();
          if cnt < 0 { return -1; }
        }
        if cnt == 0 { return 1; }
        cnt := Min(cnt, res);
        var part := Use(cnt);
        res := res - cnt;
      }
      r := 0;
    }

    /** pback: what was read last goes back into the buffer; the stream is as before. */
    method Pback(data: seq<byte>)
      requires Reading() && |data| <= BLKMULT && |data| <= bufpt && |data| <= Position()
      requires data == ar.content[Position() - |data|..Position()]
      modifies this`bufpt, bufmem
      ensures Reading() && Position() == old(Position()) - |data|
    {
      ghost var p := Position();
      ghost var rest := bufmem[bufpt..bufend];
      bufpt := bufpt - |data|;
      CopyOver(bufpt, data);
      assert bufmem[bufpt..bufend] == data + rest;
      assert ar.content[p - |data|..p] + ar.content[p..ar.pos] == ar.content[p - |data|..ar.pos];
    }

    /** memcpy that leaves what lies behind alone. */
    method CopyOver(at: nat, data: seq<byte>)
      requires at + |data| <= bufmem.Length
      modifies bufmem
      ensures forall k :: 0 <= k < |data| ==> bufmem[at + k] == data[k]
      ensures forall k :: 0 <= k < bufmem.Length && !(at <= k < at + |data|) ==> bufmem[k] == old(bufmem[k])
    {
      for i := 0 to |data|
        invariant forall k :: 0 <= k < i ==> bufmem[at + k] == data[k]
        invariant forall k :: 0 <= k < bufmem.Length && !(at <= k < at + i) ==> bufmem[k] == old(bufmem[k])
      {
        bufmem[at + i] := data[i];
      }
    }

    // -------------------------------------------------------------- appending

    /** The buffer is collecting a block that will be written at the end of the file. */
    ghost predicate Writing()
      reads this, ar
    {
      && blksz > 0 && bufmem.Length == BLKMULT + blksz
      && BLKMULT <= bufpt <= bufend == BLKMULT + blksz
      && ar.pos == |ar.content| && ar.lstrval == 1
    }

    /** The archive as it would be if nothing more came. */
    ghost function Contents(): seq<byte>
      requires Writing()
      reads this, ar, bufmem
    {
      ar.content + bufmem[BLKMULT..bufpt]
    }

    /** How far appnd_start moves back: whole blocks. */
    function Back(skcnt: nat): int
      requires blksz > 0 && bufpt <= bufend
      reads this
    {
      RoundUp(skcnt + bufend - bufpt, blksz)
    }

    /** The place in the file to which appnd_start moves first. */
    function Landing(skcnt: nat): nat
      requires blksz > 0 && bufpt <= bufend
      reads this, ar
    {
      if Back(skcnt) <= ar.pos then ar.pos - Back(skcnt) else 0
    }

    /** appnd_start: positions the writer `skcnt` bytes before the reader.  It succeeds in that if
        and only if the whole blocks up to there lie in the file. */
    method AppndStart(skcnt: nat, exit_val: int) returns (r: int)
      requires Reading() && skcnt <= Position()
      modifies this, ar, bufmem
      ensures r == 0 || r == -1
      ensures exit_val != 0 ==> r == -1
      ensures r == 0 ==> Writing() && blksz == old(blksz)
      ensures exit_val == 0 && old(Back(skcnt)) <= old(ar.pos) ==> r == 0
      ensures exit_val == 0 ==>
        (r == 0 <==>
         old(Back(skcnt)) == old(skcnt + bufend - bufpt) || old(Landing(skcnt)) + old(blksz) <= |old(ar.content)|)
      ensures r == 0 ==>
        Contents() == Until(old(ar.content), old(Landing(skcnt) + Back(skcnt) - (skcnt + bufend - bufpt)))
      ensures r == 0 ==> (Contents() == old(ar.content)[..old(Position()) - skcnt] <==> old(Back(skcnt)) <= old(ar.pos))
      ensures r == 0 && old(Aligned()) ==> Phase(|ar.content|, blksz) == 0
      ensures r == 0 ==> rdcnt == old(Position()) - skcnt && wrcnt == 0
    {
      hide RoundUp, Until, Buffer.Writing, Buffer.Contents;
      if exit_val != 0 { return -1; }
      if wrblksz == 0 { wrblksz := rdblksz; }
      blksz := rdblksz;
      var total := skcnt + (bufend - bufpt);
      var cnt := RoundUp(total, blksz);
      RoundUpBounds(total, blksz);
      BackAligned(ar.pos, total, blksz);
      ghost var c0, p0 := ar.content, ar.pos;
      r := ar.Reverse(cnt);
      rdcnt := rdcnt - total;
      wrcnt := 0;
      r := StandAt(cnt - total);
      if r == 0 {
        OnlyIfInside(c0, p0, total, cnt);
        UntilIs(c0, (if cnt <= p0 then p0 - cnt else 0) + (cnt - total));
      }
    }

    /** The rest of appnd_start: the block in front of which the file stands is read up if the
        writer is to stand inside it, and the file is cut off. */
    method StandAt(cnt: nat) returns (r: int)
      requires Shape() && cnt < blksz && ar.lstrval == 1
      modifies this`bufpt, this`bufend, this`rdblksz, ar, bufmem
      ensures r == 0 || r == -1
      ensures r == 0 <==> cnt == 0 || old(ar.pos) + blksz <= |old(ar.content)|
      ensures r == 0 ==> Writing() && ar.pos == old(ar.pos) && old(ar.pos) + cnt <= |old(ar.content)|
      ensures r == 0 ==> Contents() == old(ar.content)[..old(ar.pos) + cnt]
    {
      ghost var c0 := ar.content;
      if cnt > 0 {
        r := Reload(cnt);
        if r < 0 { return; }
      } else {
        bufend := BLKMULT + blksz;
        bufpt := BLKMULT;
      }
      rdblksz := blksz;
      r := ar.SetWrite();
      assert c0[..ar.pos] + c0[ar.pos..ar.pos + cnt] == c0[..ar.pos + cnt];
    }

    /** Reads up the block in front of which the file now stands, and goes back to its start. */
    method Reload(cnt: nat) returns (r: int)
      requires Shape() && 0 < cnt < blksz && ar.lstrval == 1
      modifies this`bufpt, this`bufend, ar`pos, ar`lstrval, bufmem
      ensures r == if old(ar.pos) + blksz <= |ar.content| then 0 else -1
      ensures r == 0 ==> ar.Valid() && ar.lstrval == 1 && ar.pos == old(ar.pos)
      ensures r == 0 ==> bufpt == BLKMULT + cnt && bufend == BLKMULT + blksz
      ensures r == 0 ==> bufmem[BLKMULT..bufpt] == ar.content[ar.pos..ar.pos + cnt]
    {
      bufpt := BLKMULT;
      bufend := BLKMULT + blksz;
      var res, data := ar.Read(rdblksz);
      if res <= 0 { return -1; }
      CopyIn(bufpt, data);
      bufpt := bufpt + res;
      if bufpt < bufend {
        var more, rest := ar.Read(rdblksz);
        assert more == 0;
        return -1;
      }
      SameStart(bufmem[..], BLKMULT, ar.content, ar.pos - blksz, cnt, blksz);
      r := ar.Reverse(bufpt - BLKMULT);
      bufpt := BLKMULT + cnt;
    }

    // -------------------------------------------------------------- writing

    /** buf_flush, without a limit on the size of a volume. */
    method Flush(bufcnt: nat) returns (cnt: int)
      requires Writing() && bufpt == bufend && bufcnt == blksz
      modifies this`bufpt, this`wrcnt, ar`content, ar`pos
      ensures Writing() && bufpt == BLKMULT && Contents() == old(Contents()) && cnt == blksz
      ensures |ar.content| == |old(ar.content)| + blksz && wrcnt == old(wrcnt) + blksz
    {
      ghost var c0 := ar.content;
      cnt := ar.Write(bufmem[BLKMULT..BLKMULT + blksz]);
      assert ar.content == ar.content[..ar.pos];
      wrcnt := wrcnt + cnt;
      bufpt := BLKMULT;
      assert c0[..|c0|] == c0;
      assert bufmem[BLKMULT..bufpt] == [];
    }

    /** As much of `data` as there is room for goes into the buffer, which is written out first
        if it is full. */
    method PutSome(data: seq<byte>) returns (cnt: nat)
      requires Writing() && |data| > 0
      modifies this`bufpt, this`wrcnt, ar`content, ar`pos, bufmem
      ensures 0 < cnt <= |data| && Writing() && Contents() == old(Contents()) + data[..cnt]
      ensures Phase(|ar.content|, blksz) == Phase(old(|ar.content|), blksz)
    {
      hide Phase;
      cnt := bufend - bufpt;
      if cnt <= 0 {
        OneBlockMore(|ar.content|, blksz);
        cnt := Flush(blksz);
      }
      cnt := Min(cnt, |data|);
      AddBytes(data[..cnt]);
    }

    /** memcpy to the write point. */
    method AddBytes(data: seq<byte>)
      requires Writing() && |data| <= bufend - bufpt
      modifies this`bufpt, bufmem
      ensures Writing() && Contents() == old(Contents()) + data
    {
      ghost var before := bufmem[BLKMULT..bufpt];
      CopyIn(bufpt, data);
      assert bufmem[BLKMULT..bufpt + |data|] == before + data;
      assert ar.content + (before + data) == ar.content + before + data;
      bufpt := bufpt + |data|;
    }

    /** wr_rdbuf. */
    method WrRdbuf(data: seq<byte>) returns (r: int)
      requires Writing()
      modifies this`bufpt, this`wrcnt, ar`content, ar`pos, bufmem
      ensures r == 0 && Writing() && Contents() == old(Contents()) + data
      ensures Phase(|ar.content|, blksz) == Phase(old(|ar.content|), blksz)
    {
      hide Phase;
      ghost var c := Contents();
      var out := data;
      assert c + data[..0] == c;
      while |out| > 0
        invariant |out| <= |data| && out == data[|data| - |out|..]
        invariant Writing() && Contents() == c + data[..|data| - |out|]
        invariant Phase(|ar.content|, blksz) == Phase(old(|ar.content|), blksz)
        decreases |out|
      {
        ghost var at := |data| - |out|;
        var cnt := PutSome(out);
        assert c + data[..at] + out[..cnt] == c + data[..at + cnt];
        out := out[cnt..];
      }
      assert data[..|data|] == data;
      r := 0;
    }

    /** wr_skip: zeros. */
    method WrSkip(skcnt: nat) returns (r: int)
      requires Writing()
      modifies this`bufpt, this`wrcnt, ar`content, ar`pos, bufmem
      ensures r == 0 && Writing() && Contents() == old(Contents()) + ZeroBytes(skcnt)
      ensures Phase(|ar.content|, blksz) == Phase(old(|ar.content|), blksz)
    {
      hide Phase;
      ghost var c := Contents();
      var left := skcnt;
      assert c + ZeroBytes(0) == c;
      while left > 0
        invariant 0 <= left <= skcnt && Writing() && Contents() == c + ZeroBytes(skcnt - left)
        invariant Phase(|ar.content|, blksz) == Phase(old(|ar.content|), blksz)
        decreases left
      {
        ghost var done := skcnt - left;
        var cnt := PutSome(ZeroBytes(left));
        assert c + ZeroBytes(done) + ZeroBytes(left)[..cnt] == c + ZeroBytes(done + cnt);
        left := left - cnt;
      }
      r := 0;
    }

    /** wr_fin: the last block is filled up with zeros. */
    method WrFin()
      requires Writing()
      modifies this`bufpt, this`wrcnt, ar`content, ar`pos, bufmem
      ensures Writing() && bufpt == BLKMULT
      ensures exists pad: nat :: pad < blksz && ar.content == old(Contents()) + ZeroBytes(pad)
      ensures Phase(|ar.content|, blksz) == Phase(old(|ar.content|), blksz)
    {
      ghost var c := Contents();
      if bufpt > BLKMULT {
        ghost var pad := bufend - bufpt;
        AddBytes(ZeroBytes(bufend - bufpt));
        OneBlockMore(|ar.content|, blksz);
        var cnt := Flush(blksz);
        assert ar.content == Contents() == c + ZeroBytes(pad);
      } else {
        assert ar.content == c + ZeroBytes(0);
      }
    }
  }

  function ZeroBytes(n: nat): (z: seq<byte>)
    ensures |z| == n
  {
    seq(n, _ => 0)
  }

  function RoundUp(n: nat, k: nat): nat
    requires k > 0
  {
    var cnt := n / k * k;
    if cnt < n then cnt + k else cnt
  }

  lemma RoundUpBounds(n: nat, k: nat)
    requires k > 0
    ensures n <= RoundUp(n, k) < n + k && (RoundUp(n, k) == 0 || RoundUp(n, k) >= k)
  {
    var q, r := n / k, n % k;
    DivMod(n, k, q, r);
    if q >= 1 { Bits.MulMonotone(1, q, k); }
  }

  lemma DivMod(n: nat, k: nat, q: nat, r: nat)
    requires k > 0 && q == n / k && r == n % k
    ensures n == q * k + r && r < k
  {
  }

  /** How far past a boundary. */
  function Phase(n: nat, k: nat): nat
    requires k > 0
  {
    n % k
  }

  lemma OneBlockMore(n: nat, k: nat)
    requires k > 0
    ensures Phase(n + k, k) == Phase(n, k)
  {
    var q := n / k;
    assert n == k * q + n % k;
    Bits.MulNext(q, k);
    BitStream.DivRem(q + 1, n % k, k);
  }

  /** From a boundary, whole blocks that cover no more than what lies in front of it stay inside
      the file, and end at a boundary. */
  lemma BackAligned(pos: nat, total: nat, k: nat)
    requires k > 0 && total <= pos
    ensures pos % k == 0 ==> RoundUp(total, k) <= pos && (pos - RoundUp(total, k)) % k == 0
  {
    if pos % k == 0 {
      var a, q := pos / k, total / k;
      assert pos == k * a && total == k * q + total % k;
      var c := if q * k < total then q + 1 else q;
      Bits.MulNext(q, k);
      assert RoundUp(total, k) == c * k;
      Bits.FactorOrder(c, a, k);
      if c > a {
        Bits.MulMonotone(a + 1, c, k);
        Bits.MulNext(a, k);
        assert false;
      }
      assert pos - c * k == (a - c) * k;
      BitStream.DivRem(a - c, 0, k);
    }
  }

  /** Buffered append is exact: for an archive that consists of whole blocks, after any reading
      and skipping, the archive ends up with its bytes up to `tlen` before the reader, the new
      bytes, and zeros up to a block boundary. */
  method Append(b: Buffer, tlen: nat, data: seq<byte>, padding: nat) returns (ghost pad: nat)
    requires b.Reading() && b.Aligned() && tlen <= b.Position()
    modifies b, b.ar, b.bufmem
    ensures pad < old(b.blksz)
    ensures b.ar.content == old(b.ar.content)[..old(b.Position()) - tlen] + data + ZeroBytes(padding) + ZeroBytes(pad)
    ensures |b.ar.content| % old(b.blksz) == 0
  {
    hide Phase, RoundUp, Until, Buffer.Landing;
    AlignedBack(b, tlen);
    var r := b.AppndStart(tlen, 0);
    r := b.WrRdbuf(data);
    r := b.WrSkip(padding);
    ghost var c := b.Contents();
    b.WrFin();
    pad :| pad < b.blksz && b.ar.content == c + ZeroBytes(pad);
    PhaseIs(|b.ar.content|, b.blksz);
  }

  lemma PhaseIs(n: nat, k: nat)
    requires k > 0
    ensures Phase(n, k) == n % k
  {
  }

  lemma AlignedBack(b: Buffer, tlen: nat)
    requires b.Reading() && b.Aligned() && tlen <= b.Position()
    ensures b.Back(tlen) <= b.ar.pos
  {
    BackAligned(b.ar.pos, tlen + b.bufend - b.bufpt, b.blksz);
  }

  /** An archive of 20000 bytes, opened for appending in blocks of 10240 and read up to 10752, the
      end of a trailer of 1024 bytes.  Moving back two blocks stops at the start of the file, and
      appnd_start keeps the first 10208 bytes, where 9728 come before the trailer. */
  method ShortFile(content: seq<byte>) returns (b: Buffer, r: int)
    requires |content| == 20000
    ensures fresh(b) && fresh(b.ar) && r == 0 && b.Writing()
    ensures b.Contents() == content[..10208] != content[..10752 - 1024]
  {
    hide Phase, Until, RoundUp;
    b := ReadUp(content);
    OpenedInTens();
    r := b.AppndStart(1024, 0);
    UntilIs(content, 10208);
    assert |content[..10208]| != |content[..9728]|;
  }

  /** Two blocks are filled, and all of the first and 512 bytes of the second are used. */
  method ReadUp(content: seq<byte>) returns (b: Buffer)
    requires |content| == 20000
    ensures fresh(b) && fresh(b.ar) && fresh(b.bufmem) && b.Reading() && b.rdblksz == BlockFor(20000, 0) == 10240
    ensures b.ar.content == content && b.ar.pos == 20000 && b.Position() == 10752
  {
    hide Dividing, BlockFor, RoundUp;
    var blksz := ChooseBlock(|content|, 0);
    OpenedInTens();
    var ar := new Archive(content);
    b := new Buffer(ar, blksz, 0);
    var res := b.Fill();
    var data := b.Use(10240);
    res := b.Fill();
    data := b.Use(512);
  }

  lemma OpenedInTens()
    ensures BlockFor(20000, 0) == 10240 && RoundUp(1024 + 9248, 10240) == 20480
  {
    NoBlockDivides(MAXBLK);
  }

  lemma {:induction false} NoBlockDivides(b: nat)
    requires b % BLKMULT == 0 && b <= MAXBLK
    ensures Dividing(20000, b) == 0
    decreases b
  {
    if b >= BLKMULT {
      if 20000 % b == 0 { Through(20000, b, BLKMULT); }
      NoBlockDivides(b - BLKMULT);
    }
  }
}

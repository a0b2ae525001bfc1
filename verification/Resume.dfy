/**
 The bit buffer of the decoder, and how decoding is suspended when the input runs
 out and taken up again when more arrives.  Headers and tables are read by the machine
 itself, the values of a block by its tables, its blocked list and its block storage.
 */
module Resume {
  import opened Rotations
  import opened Bits
  import opened BitStream
  import opened RunLength
  import opened Decoder
  import opened DecoderState
  import opened Stream
  import opened CanonicalCode
  import opened ValueReader
  import opened MtfEncode

  // ---------------------------------------------------------------- the bit buffer

  /** The bits that the low end of a buffer holds; bits above them are left over. */
  function Low(buff: nat, live: nat): (b: seq<bool>)
    ensures |b| == live
  {
    ToBits(buff % Pow2(live), live)
  }

  lemma ModProduct(hi: nat, lo: nat, p: nat, q: nat)
    requires lo < p && q > 0
    ensures (hi * p + lo) % (q * p) == (hi % q) * p + lo
  {
    var a, b := hi / q, hi % q;
    assert hi == a * q + b;
    assert hi * p == a * (q * p) + b * p;
    MulMonotone(b + 1, q, p);
    MulNext(b, p);
    DivRem(a, b * p + lo, q * p);
  }

  /** Shifting a byte in at the low end. */
  lemma ShiftInByte(buff: nat, live: nat, c: byte)
    requires live <= 24
    ensures Low((buff * 256 + c) % 0x1_0000_0000, live + 8) == Low(buff, live) + ToBits(c, 8)
  {
    hide ToBits, Pow2;
    Pow2Values();
    var p := Pow2(live);
    Pow2Add(live, 8);
    Pow2Add(live + 8, 24 - live);
    ModOfMod(buff * 256 + c, p * 256, Pow2(24 - live));
    ModProduct(buff, c, 256, p);
    ToBitsSplit(buff % p, c, live, 8);
  }

  lemma ModOfMod(x: nat, p: nat, q: nat)
    requires p > 0 && q > 0
    ensures x % (p * q) % p == x % p
  {
    var a, b := x / (p * q), x % (p * q);
    assert x == a * (p * q) + b;
    var c, d := b / p, b % p;
    assert b == c * p + d;
    assert a * (p * q) + c * p == (a * q + c) * p;
    DivRem(a * q + c, d, p);
  }

  /** Taking bits from the upper end of what is held. */
  lemma TakeBits(buff: nat, live: nat, n: nat)
    requires n <= live
    ensures var v := buff / Pow2(live - n) % Pow2(n);
      v < Pow2(n) && Low(buff, live) == ToBits(v, n) + Low(buff, live - n)
  {
    hide ToBits, Pow2;
    var q, p := Pow2(live - n), Pow2(n);
    Pow2Add(n, live - n);
    var hi, lo := buff / q, buff % q;
    HiLo(buff, q);
    ModProduct(hi, lo, q, p);
    ToBitsSplit(hi % p, lo, n, live - n);
  }

  // ---------------------------------------------------------------- running on

  lemma RunStep(st: DState, v: nat, rest: seq<bool>)
    requires Running(st) && Need(st) > 0 && v < Pow2(Need(st))
    ensures RunOn(st, ToBits(v, Need(st)) + rest) == RunOn(After(st, v), rest)
  {
    hide After, Need, Pow2, ToBits;
    var n := Need(st);
    var b := ToBits(v, n) + rest;
    FromToBits(v, n);
    assert b[..n] == ToBits(v, n) && b[n..] == rest;
  }

  lemma RunStops(st: DState, b: seq<bool>)
    requires !Running(st) || Need(st) > |b|
    ensures RunOn(st, b) == (st, b)
  {
  }

  /** Decoding what has arrived, and the rest later, is decoding all of it. */
  lemma {:induction false} RunOnAppend(st: DState, a: seq<bool>, b: seq<bool>)
    requires WellFormed(st)
    ensures var (mid, rest) := RunOn(st, a); RunOn(st, a + b) == RunOn(mid, rest + b) && WellFormed(mid)
    decreases |a|
  {
    hide After, Need, WellFormed, Pow2, FromBits;
    if Running(st) && Need(st) <= |a| {
      NeedBounded(st);
      var n := Need(st);
      assert (a + b)[..n] == a[..n] && (a + b)[n..] == a[n..] + b;
      FromBitsBound(a[..n]);
      AfterKeeps(st, FromBits(a[..n]));
      RunOnAppend(After(st, FromBits(a[..n])), a[n..], b);
    } else {
      RunStops(st, a);
    }
  }

  function Concat(chunks: seq<seq<byte>>): seq<byte> {
    if chunks == [] then [] else chunks[0] + Concat(chunks[1..])
  }

  /** The decoder given its input in pieces: each time it goes as far as it can, and keeps the
      bits that do not yet answer its request. */
  function RunChunks(st: DState, held: seq<bool>, chunks: seq<seq<byte>>): (DState, seq<bool>)
    decreases |chunks|
  {
    if chunks == [] then (st, held)
    else
      var (st', held') := RunOn(st, held + BytesToBits(chunks[0]));
      RunChunks(st', held', chunks[1..])
  }

  /** Suspending and resuming is invisible: however the input is cut into pieces, the decoder
      ends in the same state, with the same bits left, as with all of it at once. */
  lemma {:induction false} ChunksDoNotMatter(st: DState, held: seq<bool>, chunks: seq<seq<byte>>)
    requires WellFormed(st) && chunks != []
    ensures RunChunks(st, held, chunks) == RunOn(st, held + BytesToBits(Concat(chunks)))
    decreases |chunks|
  {
    hide RunOn, WellFormed, BytesToBits;
    var first, rest := chunks[0], chunks[1..];
    BytesToBitsAppend(first, Concat(rest));
    var b := BytesToBits(Concat(rest));
    RunOnAppend(st, held + BytesToBits(first), b);
    assert held + BytesToBits(first) + b == held + BytesToBits(Concat(chunks));
    var (st', held') := RunOn(st, held + BytesToBits(first));
    if rest != [] {
      ChunksDoNotMatter(st', held', rest);
    } else {
      assert BytesToBits([]) == [];
      assert Concat(rest) == [];
      assert held' + [] == held';
      RunTwice(st, held + BytesToBits(first));
    }
  }

  /** Having gone as far as it can, the decoder goes no further. */
  lemma {:induction false} RunTwice(st: DState, b: seq<bool>)
    requires WellFormed(st)
    ensures var (mid, rest) := RunOn(st, b); RunOn(mid, rest) == (mid, rest)
    decreases |b|
  {
    hide After, WellFormed, Pow2, FromBits;
    if Running(st) && Need(st) <= |b| {
      NeedBounded(st);
      FromBitsBound(b[..Need(st)]);
      AfterKeeps(st, FromBits(b[..Need(st)]));
      RunTwice(After(st, FromBits(b[..Need(st)])), b[Need(st)..]);
    }
  }

  // ---------------------------------------------------------------- the resumable method

  datatype Result = Okay | EndOfStream | Trouble(error: Error)

  /** A value of the move-to-front stream is being read. */
  predicate InValues(p: Point) {
    p.MtfFirst? || p.MtfNext?
  }

  /** Reading of values starts with a full list and an empty block. */
  lemma ValuesBegin(st: DState, v: nat)
    requires WellFormed(st) && Running(st) && v < Pow2(Need(st)) && !InValues(st.point) && InValues(After(st, v).point)
    ensures var s := After(st, v); WellFormed(s) && s.point == MtfFirst(AtStart) && s.list == Iota(256) && s.tt == []
  {
    hide WellFormed, MinLen, Used, Pow2;
    AfterKeeps(st, v);
    if InHeader(st) { HeaderStays(st, v); }
    if st.point == Mapping1 || st.point == Mapping2 { MappingStays(st, v); }
  }

  lemma HeaderStays(st: DState, v: nat)
    requires InHeader(st)
    ensures !InValues(After(st, v).point)
  {
  }

  lemma MappingStays(st: DState, v: nat)
    requires st.point == Mapping1 || st.point == Mapping2
    ensures !InValues(After(st, v).point)
  {
    hide Used;
    if st.point == Mapping1 {
      GroupStays(st.(inUse16 := st.inUse16 + [v == 1], inUse := []), 0);
    } else {
      GroupStays(st.(inUse := st.inUse + [v == 1]), st.i + 1);
    }
  }

  lemma {:induction false} GroupStays(st: DState, i: nat)
    requires !InValues(st.point)
    ensures !InValues(NextGroup(st, i).point)
    decreases 16 - i
  {
    hide Used;
    if i < 16 && !Nth(st.inUse16, i, false) { GroupStays(st.(inUse := st.inUse + seq(16, _ => false)), i + 1); }
  }

  /** One bit of a selector; after the last selector their coding is undone. */
  method SelectorBit(s: DState, v: nat) returns (s': DState)
    requires WellFormed(s) && s.point == Selector3
    ensures s' == AfterSelector3(s, v)
  {
    if v == 0 && |s.selectorMtf| + 1 >= s.nSelectors {
      var ms := s.selectorMtf + [s.j];
      var selector := UndoSelectorMtf(ms, s.nGroups);
      s' := s.(point := Coding1, selectorMtf := [], j := 0, selector := selector, len := [], lenT := []);
    } else {
      s' := AfterSelector3(s, v);
    }
  }

  /** The objects that a reader of values works on. */
  ghost function Owned(r: Reader): set<object> {
    {r, r.list, r.list.mtfa, r.list.mtfbase, r.tt, r.unzftab}
  }

  class BitReader {
    /** The saved variables; while values are read, list and block are kept in `values`. */
    var control: DState
    var values: Reader?
    var bsBuff: nat
    var bsLive: nat
    var next_in: seq<byte>

    /** The state of the machine that this decoder is. */
    ghost var st: DState
    /** The objects of `values`. */
    ghost var owned: set<object>

    constructor ()
      ensures Valid() && st == Init() && Unread() == [] && owned == {}
    {
      control, values, bsBuff, bsLive, next_in := Init(), null, 0, 0, [];
      st, owned := Init(), {};
      new;
      assert BytesToBits([]) == [];
    }

    ghost predicate Valid()
      reads this, owned
    {
      && WellFormed(st) && bsLive <= 24 && bsBuff < 0x1_0000_0000
      && this !in owned && (!InValues(st.point) ==> owned == {}) && Mirrors()
    }

    /** Variables, list, block and tables together are the state of the machine. */
    ghost predicate Mirrors()
      reads `st, `control, `values, `owned, owned
    {
      if InValues(st.point) then
        && values != null && owned == Owned(values)
        && values.Valid() && values.View() == st && control == values.st
      else values == null && control == st
    }

    lemma ControlKnown()
      requires Mirrors()
      ensures control.point == st.point && Need(control) == Need(st) && (Running(control) <==> Running(st))
      ensures !InValues(st.point) ==> control == st
    {
      hide WellFormed;
    }

    /** The bits not yet used. */
    ghost function Unread(): seq<bool>
      reads this
    {
      Low(bsBuff, bsLive) + BytesToBits(next_in)
    }

    /** GET_BITS: `n` bits, unless the input runs out first; then nothing is lost. */
    method GetBits(n: nat) returns (ok: bool, v: nat)
      requires 1 <= n <= 20 && bsLive <= 24 && bsBuff < 0x1_0000_0000
      modifies this`bsBuff, this`bsLive, this`next_in
      ensures bsLive <= 24 && bsBuff < 0x1_0000_0000
      ensures ok ==> v < Pow2(n) && old(Unread()) == ToBits(v, n) + Unread()
      ensures !ok ==> old(Unread()) == Unread() && |Unread()| < n && next_in == []
    {
      hide Low, ToBits, BytesToBits, Pow2;
      v := 0;
      while true
        invariant bsLive < 32 && bsBuff < 0x1_0000_0000 && Unread() == old(Unread())
        invariant bsLive <= 24 || bsLive <= n + 7
        decreases |next_in|
      {
        if bsLive >= n {
          TakeBits(bsBuff, bsLive, n);
          v := bsBuff / Pow2(bsLive - n) % Pow2(n);
          bsLive := bsLive - n;
          assert ToBits(v, n) + Low(bsBuff, bsLive) + BytesToBits(next_in) == ToBits(v, n) + Unread();
          return true, v;
        }
        if next_in == [] {
          NoBytes();
          return false, v;
        }
        ShiftInByte(bsBuff, bsLive, next_in[0]);
        FirstByte(next_in, Low(bsBuff, bsLive));
        bsBuff := (bsBuff * 256 + next_in[0]) % 0x1_0000_0000;
        bsLive := bsLive + 8;
        next_in := next_in[1..];
      }
    }

    lemma NoBytes()
      requires next_in == []
      ensures |Unread()| == bsLive
    {
      assert BytesToBits([]) == [];
    }

    lemma MirrorsControl()
      requires !InValues(st.point) && values == null && control == st
      ensures Mirrors()
    {
    }

    lemma MirrorsValues()
      requires InValues(st.point) && values != null && values.Valid() && values.View() == st && control == values.st
      requires owned == Owned(values)
      ensures Mirrors()
    {
    }

    lemma NoValues()
      requires Mirrors() && !InValues(st.point)
      ensures values == null && control == st
    {
    }

    /** The tables are complete: from here on `values` keeps list and block. */
    method BeginValues(ghost next: DState)
      requires WellFormed(control) && control.point == MtfFirst(AtStart) && control.list == Iota(256)
        && control.tt == [] && next == control
      modifies this`control, this`values, this`st, this`owned
      ensures st == next && Mirrors() && fresh(owned)
    {
      hide WellFormed, Reader.Valid, Reader.View, Mirrors;
      values := Begin(control);
      control := values.st;
      st := next;
      owned := Owned(values);
      MirrorsValues();
    }

    /** A request outside the values of a block has been answered. */
    method StepControl(v: nat)
      requires Valid() && Running(st) && !InValues(st.point) && v < Pow2(Need(st))
      modifies this`control, this`values, this`st, this`owned
      ensures Valid() && st == After(old(st), v) && fresh(owned)
    {
      hide After, WellFormed, Pow2, Need, Mirrors;
      NoValues();
      AfterKeeps(st, v);
      if control.point == Selector3 {
        Selector3Is(control, v);
        control := SelectorBit(control, v);
      } else {
        control := After(control, v);
      }
      if InValues(control.point) {
        ValuesBegin(st, v);
        BeginValues(After(st, v));
      } else {
        st := After(st, v);
        MirrorsControl();
      }
    }

    lemma Selector3Is(s: DState, v: nat)
      requires s.point == Selector3
      ensures After(s, v) == AfterSelector3(s, v)
    {
    }

    /** A request for bits of a value has been answered. */
    method StepValue(v: nat)
      requires Valid() && InValues(st.point) && v < Pow2(Need(st))
      modifies this`control, this`values, this`st, this`owned, owned
      ensures Valid() && st == After(old(st), v) && (owned == old(owned) || owned == {})
    {
      hide After, WellFormed, Pow2;
      AfterKeeps(st, v);
      ghost var next := After(st, v);
      ValuesStay(st, v);
      values.Answer(v);
      control := values.st;
      if control.point == OutputReady { control := control.(tt := values.tt[..values.nblock]); }
      if !InValues(control.point) {
        values := null;
        owned := {};
      }
      st := next;
    }

    /** BZ2_decompress: goes on from wherever it was suspended. */
    method Decompress() returns (r: Result)
      requires Valid()
      modifies this, owned
      ensures Valid() && fresh(owned - old(owned))
      ensures (st, Unread()) == RunOn(old(st), old(Unread()))
      ensures r == if st.point.Failed? then Trouble(st.point.error) else if st.point.Idle? then EndOfStream else Okay
      ensures Running(st) ==> next_in == []
    {
      hide RunOn, After, Need, WellFormed, Low, ToBits, BytesToBits, Pow2, Mirrors;
      ControlKnown();
      while Running(control)
        invariant Valid() && RunOn(st, Unread()) == RunOn(old(st), old(Unread()))
        invariant fresh(owned - old(owned)) && (Running(control) <==> Running(st))
        decreases |Unread()|
      {
        ControlKnown();
        NeedBounded(st);
        ghost var before := Unread();
        var ok, v := GetBits(Need(control));
        if !ok {
          RunStops(st, Unread());
          return Okay;
        }
        RunStep(st, v, Unread());
        if InValues(control.point) { StepValue(v); } else { StepControl(v); }
        ControlKnown();
      }
      ControlKnown();
      RunStops(st, Unread());
      r := if control.point.Failed? then Trouble(control.point.error) else if control.point.Idle? then EndOfStream
        else Okay;
    }

    /** The block has been delivered, and the next header is due. */
    method NextHeader()
      requires Valid() && st.point == OutputReady
      modifies this`control, this`st
      ensures Valid() && st == old(st).(point := BlkHdr(0))
    {
      control := control.(point := BlkHdr(0));
      st := st.(point := BlkHdr(0));
    }
  }

  /** From a value the machine goes on to a value, to the end of the block, or fails. */
  lemma ValuesStay(st: DState, v: nat)
    requires WellFormed(st) && InValues(st.point) && v < Pow2(Need(st))
    ensures InValues(After(st, v).point) || After(st, v).point == OutputReady || After(st, v).point.Failed?
  {
    hide Used, Limit, Base, Perm, MinLen, Pow2, WellFormed;
  }

  lemma FirstByte(s: seq<byte>, low: seq<bool>)
    requires s != []
    ensures low + BytesToBits(s) == (low + ToBits(s[0], 8)) + BytesToBits(s[1..])
  {
  }
}

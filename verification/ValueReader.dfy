/**
 The decoder at work on the values of a block: with its limit/base/perm tables, its
 blocked move-to-front list, its block storage and its symbol counts, it does exactly
 what the abstract machine does.
 */
module ValueReader {
  import opened Rotations
  import opened Bits
  import opened Counting
  import opened CanonicalCode
  import opened HuffmanTables
  import opened RunLength
  import opened MtfEncode
  import opened BlockFormat
  import opened Decoder
  import opened DecoderState
  import MtfDecode
  import Mtf

  /** Limit, base and perm of one group. */
  datatype Group = Group(limit: seq<int>, base: seq<int>, perm: seq<int>, minLen: nat)

  ghost predicate GroupOk(g: Group, len: seq<nat>) {
    Decodes(g.limit, g.base, g.perm, len) && g.minLen == MinLen(len)
  }

  /** The tables for all groups. */
  method MakeGroups(len: seq<seq<nat>>, alphaSize: nat) returns (groups: seq<Group>)
    requires 0 < alphaSize <= MAX_SYMBOLS && forall t :: 0 <= t < |len| ==> |len[t]| == alphaSize && Lengths(len[t])
    ensures |groups| == |len| && forall t :: 0 <= t < |len| ==> GroupOk(groups[t], len[t])
  {
    hide Decodes, MinLen, MaxLen;
    groups := [];
    for t := 0 to |len|
      invariant |groups| == t && forall u :: 0 <= u < t ==> GroupOk(groups[u], len[u])
    {
      var minLen, maxLen := FindRange(len[t], alphaSize);
      var limit, base := new int[MAX_CODE_LEN], new int[MAX_CODE_LEN];
      var perm := new int[MAX_SYMBOLS](_ => 0);
      CreateDecodeTables(limit, base, perm, len[t], minLen, maxLen, alphaSize);
      groups := groups + [Group(limit[..], base[..], perm[..], minLen)];
    }
  }

  /** makeMaps_d: the symbols in use, in ascending order. */
  method MakeMapsD(inUse: seq<bool>) returns (seqToUnseq: seq<byte>)
    requires |inUse| == 256
    ensures seqToUnseq == Used(inUse, 256)
  {
    seqToUnseq := [];
    for i := 0 to 256
      invariant seqToUnseq == Used(inUse, i)
    {
      if inUse[i] { seqToUnseq := seqToUnseq + [i]; }
    }
  }

  /** The entry at place `v` moves to the front of the list. */
  method ToFront(pos: array<nat>, v: nat) returns (tmp: nat)
    requires v < pos.Length
    modifies pos
    ensures tmp == old(pos[v]) && pos[..] == Mtf.MoveToFront(old(pos[..]), v)
  {
    ghost var p0 := pos[..];
    tmp := pos[v];
    var k := v;
    while k > 0
      invariant 0 <= k <= v
      invariant forall i :: 0 <= i < k ==> pos[i] == p0[i]
      invariant forall i :: k < i <= v ==> pos[i] == p0[i - 1]
      invariant forall i :: v < i < pos.Length ==> pos[i] == p0[i]
    {
      pos[k] := pos[k - 1];
      k := k - 1;
    }
    pos[0] := tmp;
    forall i | 0 <= i < pos.Length ensures pos[i] == Mtf.MoveToFront(p0, v)[i] { }
  }

  /** The move-to-front coding of the selectors is undone. */
  method UndoSelectorMtf(selectorMtf: seq<nat>, nGroups: nat) returns (selector: seq<nat>)
    requires nGroups > 0 && Bounded(selectorMtf, nGroups)
    ensures selector == UndoSelectors(selectorMtf, Iota(nGroups))
  {
    var pos := new nat[nGroups];
    for v := 0 to nGroups
      invariant forall k :: 0 <= k < v ==> pos[k] == k
    {
      pos[v] := v;
    }
    assert pos[..] == Iota(nGroups);
    selector := [];
    assert selectorMtf[0..] == selectorMtf;
    for i := 0 to |selectorMtf|
      invariant selector + UndoSelectors(selectorMtf[i..], pos[..]) == UndoSelectors(selectorMtf, Iota(nGroups))
    {
      ghost var p0, before := pos[..], selector;
      assert selectorMtf[i..][1..] == selectorMtf[i + 1..];
      var tmp := ToFront(pos, selectorMtf[i]);
      selector := selector + [tmp];
      assert before + ([tmp] + UndoSelectors(selectorMtf[i + 1..], pos[..])) ==
        selector + UndoSelectors(selectorMtf[i + 1..], pos[..]);
    }
  }

  /** Looks up a code of `zn` bits: either it needs more bits, or its symbol is found, or there is
      none, which is reported as -1. */
  method Look(g: Group, zn: nat, zvec: nat, ghost len: seq<nat>) returns (more: bool, sym: int)
    requires GroupOk(g, len) && MinLen(len) <= zn <= 20 && |len| > 0
    ensures more <==> zvec > Limit(len, zn)
    ensures !more ==> var k := zvec - Base(len, zn); if k < 0 || k >= 258 then sym == -1
      else sym == Perm(len, k) && 0 <= sym < |len|
  {
    hide Limit, Base, Perm, MinLen, MaxLen;
    if zvec > g.limit[zn] { return true, -1; }
    var k := zvec - g.base[zn];
    if k < 0 || k >= MAX_SYMBOLS { return false, -1; }
    PermInAlphabet(len, k);
    return false, g.perm[k];
  }

  class Reader {
    /** The control variables; the list and the block are kept below. */
    var st: DState
    const groups: seq<Group>
    const list: MtfDecode.BlockedList
    const tt: array<byte>
    const seqToUnseq: seq<byte>
    const unzftab: array<int>
    var nblock: nat

    ghost predicate Valid()
      reads this, list, list.mtfa, list.mtfbase, tt, unzftab
    {
      && Parts() && WellFormed(View()) && (st.point.Failed? || Counted())
    }

    /** The parts fit together, whatever the control variables say. */
    ghost predicate Parts()
      reads this, list, list.mtfa, list.mtfbase, tt
    {
      && list.Valid() && nblock <= tt.Length && st.list == [] && st.tt == []
      && SizeKnown(st) && tt.Length == 100000 * st.blockSize100k
      && seqToUnseq == UsedOf(st.inUse)
      && |groups| == |st.len| && forall t :: 0 <= t < |groups| ==> GroupOk(groups[t], st.len[t])
    }

    /** The state that the abstract machine is in: list and block belong to it while they are
        needed. */
    ghost function View(): DState
      requires list.Valid() && nblock <= tt.Length
      reads this, list, list.mtfa, list.mtfbase, tt
    {
      if st.point.Failed? then st
        else st.(list := if st.point == OutputReady then [] else list.list, tt := tt[..nblock])
    }

    /** Values are being read. */
    predicate Live()
      reads `st
    {
      !st.point.Failed? && st.point != OutputReady
    }

    /** The counts are those of the block. */
    ghost predicate Counted()
      requires nblock <= tt.Length
      reads this, tt, unzftab
    {
      unzftab.Length == 256 && forall c :: 0 <= c < 256 ==> unzftab[c] == Count(tt[..nblock], c)
    }

    /** The decoder once the tables of a block have been read. */
    constructor (s: DState, groups: seq<Group>, seqToUnseq: seq<byte>)
      requires seqToUnseq == UsedOf(s.inUse)
      requires |groups| == |s.len| && forall t :: 0 <= t < |groups| ==> GroupOk(groups[t], s.len[t])
      requires WellFormed(s) && s.point == MtfFirst(AtStart) && s.list == Iota(256) && s.tt == []
      ensures Valid() && View() == s
      ensures fresh(list) && fresh(list.mtfa) && fresh(list.mtfbase) && fresh(tt) && fresh(unzftab)
    {
      hide GroupOk, Used, MinLen;
      st := s.(list := [], tt := []);
      this.seqToUnseq := seqToUnseq;
      this.groups := groups;
      list := new MtfDecode.BlockedList();
      tt := new byte[100000 * s.blockSize100k];
      unzftab := new int[256](_ => 0);
      nblock := 0;
      new;
      assert tt[..0] == [];
      assert list.list == Iota(256);
      forall c: nat | c < 256 ensures Count([], c) == 0 { }
    }

    // -------------------------------------------------------------- values

    /** GET_MTF_VAL up to its first request. */
    method StartNext(site: Site)
      requires Parts() && Live() && TablesSoFar(st) && |st.len| == st.nGroups
        && (InGroup(st) || (st.groupNo == -1 && st.groupPos == 0))
      modifies `st
      ensures Parts() && View() == StartMtf(old(View()), site)
    {
      hide Used, Decodes, MinLen;
      var groupNo, groupPos := st.groupNo, st.groupPos;
      if groupPos == 0 {
        groupNo := groupNo + 1;
        if groupNo >= st.nSelectors {
          st := Fail(st, DataError);
          return;
        }
        groupPos := GROUP_SIZE;
      }
      var gSel := st.selector[groupNo];
      assert GroupOk(groups[gSel], st.len[gSel]);
      st := st.(groupNo := groupNo, groupPos := groupPos - 1, point := MtfFirst(site), zn := groups[gSel].minLen);
    }

    /** One symbol into the block. */
    method Store(uc: byte)
      requires Parts() && Counted() && nblock < tt.Length
      modifies this`nblock, tt, unzftab
      ensures Parts() && Counted() && nblock == old(nblock) + 1 && tt[..nblock] == old(tt[..nblock]) + [uc]
    {
      hide Count;
      ghost var before := tt[..nblock];
      tt[nblock] := uc;
      unzftab[uc] := unzftab[uc] + 1;
      nblock := nblock + 1;
      assert tt[..nblock] == before + [uc];
      forall c | 0 <= c < 256
        ensures Count(before + [uc], c) == Count(before, c) + if uc == c then 1 else 0 { CountOneMore(before, uc, c); }
    }

    /** A run of the front symbol is written out, unless the block overflows. */
    method EndOfRun() returns (ok: bool)
      requires Parts() && Counted() && st.es >= 0 && Live()
      modifies this`st, this`nblock, tt, unzftab
      ensures Parts() && st == old(st).(point := st.point, es := st.es, n := st.n)
      ensures ok ==> Counted() && View() == EndRun(old(View())) && st.point == old(st.point)
      ensures !ok ==> st.point.Failed? && View() == EndRun(old(View()))
    {
      hide Count, Used;
      var es := st.es + 1;
      ghost var es0, before := es, tt[..nblock];
      var front := list.Front();
      var uc := Nth(seqToUnseq, front, 0);
      assert Rep(uc, 0) == [] && before + [] == before;
      while es > 0
        invariant 0 <= es <= es0 && Parts() && Counted() && st == old(st) && nblock == old(nblock) + (es0 - es)
        invariant tt[..nblock] == before + Rep(uc, es0 - es)
        decreases es
      {
        if nblock >= tt.Length {
          st := Fail(st, DataError);
          return false;
        }
        Store(uc);
        assert Rep(uc, es0 - es) + [uc] == Rep(uc, es0 - es + 1);
        es := es - 1;
      }
      st := st.(es := 0, n := 0);
      ok := true;
    }

    /** One more digit of a run. */
    method Digit(sym: nat)
      requires Parts() && Live() && TablesSoFar(st) && |st.len| == st.nGroups && InGroup(st)
      modifies `st
      ensures Parts() && View() == RunDigit(old(View()), sym)
    {
      hide StartMtf, Used, Decodes;
      if st.n >= RUN_WEIGHT_LIMIT {
        st := Fail(st, DataError);
        return;
      }
      st := st.(es := st.es + (sym + 1) * st.n, n := 2 * st.n);
      StartNext(InRun);
    }

    /** A value outside a run. */
    method Outside(sym: nat)
      requires Parts() && Live() && Counted() && Reading(View()) && InGroup(st) && sym < AlphaSize(st)
      modifies this`st, this`nblock, list, list.mtfa, list.mtfbase, tt, unzftab
      ensures Parts() && Counted() && View() == NotInRun(old(View()), sym)
    {
      hide StartMtf, Used, Decodes, Count;
      if sym == |seqToUnseq| + 1 {
        if st.origPtr >= nblock { st := Fail(st, DataError); } else { st := st.(point := OutputReady); }
      } else if sym <= Mtf.RUNB {
        st := st.(es := -1, n := 1);
        Digit(sym);
      } else if nblock >= tt.Length {
        st := Fail(st, DataError);
      } else {
        ghost var l := list.list;
        var uc := list.Move(sym - 1);
        Store(Nth(seqToUnseq, uc, 0));
        StartNext(AfterSymbol);
      }
    }

    /** A value. */
    method Take(site: Site, sym: nat)
      requires Parts() && Counted() && Reading(View()) && InGroup(st) && RunOk(st, site) && sym < AlphaSize(st)
        && Live()
      modifies this`st, this`nblock, list, list.mtfa, list.mtfbase, tt, unzftab
      ensures Parts() && (st.point.Failed? || Counted()) && View() == Value(old(View()), site, sym)
    {
      hide StartMtf, Used, Decodes, Count, NotInRun;
      if site == InRun {
        if sym <= Mtf.RUNB {
          Digit(sym);
        } else {
          var ok := EndOfRun();
          if ok { Outside(sym); }
        }
      } else {
        Outside(sym);
      }
    }

    method GiveUp()
      requires Parts() && Live()
      modifies `st
      ensures Parts() && st.point.Failed? && View() == Fail(old(View()), DataError)
    {
      st := Fail(st, DataError);
    }

    /** One more bit is asked for. */
    method AskMore(site: Site)
      requires Parts() && Live()
      modifies `st
      ensures Parts() && !st.point.Failed?
        && View() == (var s := old(View()); s.(point := MtfNext(site), zn := s.zn + 1))
    {
      st := st.(point := MtfNext(site), zn := st.zn + 1);
    }

    /** The code is complete. */
    method CodeEnds(site: Site)
      requires Parts() && Live() && Reading(View()) && InGroup(st) && RunOk(st, site)
      modifies `st
      ensures Parts() && Live() && Reading(View()) && InGroup(st) && RunOk(st, site)
        && AlphaSize(st) == old(AlphaSize(st))
      ensures View() == old(View()).(point := MtfFirst(site), zn := 0, zvec := 0)
    {
      hide Used;
      st := st.(point := MtfFirst(site), zn := 0, zvec := 0);
    }

    /** Whether enough bits have been read, by the tables. */
    method Check(site: Site)
      requires Parts() && Counted() && Reading(View()) && InGroup(st) && RunOk(st, site) && Live()
      requires MinLen(Lens(st)) <= st.zn <= 21
      modifies this`st, this`nblock, list, list.mtfa, list.mtfbase, tt, unzftab
      ensures Parts() && (st.point.Failed? || Counted()) && View() == CheckCode(old(View()), site)
    {
      hide Used, Count, Value, Limit, Base, Perm, MinLen, CheckCode, Decodes, Reading, RunOk, Fail, AlphaSize, View;
      ghost var s := View();
      TableInForce();
      if st.zn > 20 {
        TooManyBits(s, site);
        GiveUp();
        return;
      }
      CheckIs(s, site);
      var gSel := st.selector[st.groupNo];
      var more, sym := Look(groups[gSel], st.zn, st.zvec, st.len[gSel]);
      if more {
        AskMore(site);
      } else if sym < 0 {
        GiveUp();
      } else {
        CodeEnds(site);
        Take(site, sym);
      }
    }

    /** The group's table belongs to the lengths in force. */
    lemma TableInForce()
      requires Parts() && Reading(View()) && InGroup(st) && Live()
      ensures st.groupNo < |st.selector| && st.selector[st.groupNo] < |groups| == |st.len|
      ensures var gSel := st.selector[st.groupNo];
        GroupOk(groups[gSel], st.len[gSel]) && Lens(st) == Lens(View()) == st.len[gSel]
          && |st.len[gSel]| == AlphaSize(st) > 0
      ensures st.zn == View().zn && st.zvec == View().zvec
    {
      hide Used, Decodes, MinLen;
      LensKnown(View());
    }

    /** The bits asked for have arrived. */
    method Answer(v: nat)
      requires Valid() && (st.point.MtfFirst? || st.point.MtfNext?) && v < Pow2(Need(View()))
      modifies this`st, this`nblock, list, list.mtfa, list.mtfbase, tt, unzftab
      ensures Valid() && View() == After(old(View()), v)
    {
      hide Used, Count, CheckCode, MinLen, Pow2, After;
      AfterKeeps(View(), v);
      AfterIs(View(), v);
      LensKnown(View());
      var site := st.point.site;
      if st.point.MtfFirst? {
        st := st.(zvec := v);
      } else {
        st := st.(zvec := 2 * st.zvec + v);
      }
      Check(site);
    }
  }

  /** The tables are made, and reading of values begins. */
  method Begin(s: DState) returns (r: Reader)
    requires WellFormed(s) && s.point == MtfFirst(AtStart) && s.list == Iota(256) && s.tt == []
    ensures r.Valid() && r.View() == s
    ensures fresh(r) && fresh(r.list) && fresh(r.list.mtfa) && fresh(r.list.mtfbase) && fresh(r.tt) && fresh(r.unzftab)
  {
    hide GroupOk, MinLen, MaxLen;
    assert AlphaSize(s) <= MAX_SYMBOLS;
    var groups := MakeGroups(s.len, AlphaSize(s));
    var seqToUnseq := MakeMapsD(s.inUse);
    r := new Reader(s, groups, seqToUnseq);
  }

  lemma TooManyBits(s: DState, site: Site)
    requires s.zn > 20
    ensures CheckCode(s, site) == Fail(s, DataError)
  {
  }

  lemma CheckIs(s: DState, site: Site)
    requires s.zn <= 20
    ensures var k := s.zvec - Base(Lens(s), s.zn);
      CheckCode(s, site) ==
      if s.zvec > Limit(Lens(s), s.zn) then s.(point := MtfNext(site), zn := s.zn + 1)
      else if k < 0 || k >= 258 then Fail(s, DataError)
      else Value(s.(point := MtfFirst(site), zn := 0, zvec := 0), site, Perm(Lens(s), k))
  {
    hide Value, Limit, Base, Perm, Lens;
  }

  lemma AfterIs(st: DState, v: nat)
    ensures st.point.MtfFirst? ==> After(st, v) == CheckCode(st.(zvec := v), st.point.site)
    ensures st.point.MtfNext? ==> After(st, v) == CheckCode(st.(zvec := 2 * st.zvec + v), st.point.site)
  {
    hide CheckCode;
  }

  lemma PermInAlphabet(len: seq<nat>, k: int)
    requires |len| > 0
    ensures Perm(len, k) < |len|
  {
    PermBelow(len, k, 0);
  }

  lemma CountOneMore(s: seq<nat>, x: nat, c: nat)
    ensures Count(s + [x], c) == Count(s, c) + if x == c then 1 else 0
  {
    assert (s + [x])[..|s|] == s;
  }
}

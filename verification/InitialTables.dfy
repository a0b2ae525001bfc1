/**
 What the tables of the first pass are: the alphabet is cut into stretches of about equal
 frequency, and every symbol is preferred by exactly one table.
 */
module InitialTables {
  import opened Counting
  import opened HuffmanForest
  import opened CodeTables

  /** The frequencies from `gs` up to, but not including, `to`. */
  ghost function Within(freq: seq<nat>, gs: nat, to: nat): int
    requires gs <= |freq| && to <= |freq|
  {
    Total(freq, to) - Total(freq, gs)
  }

  /** Each symbol but the last is needed to reach the frequency asked for. */
  lemma {:induction false} ReachShare(freq: seq<nat>, gs: nat, ge: int, aFreq: int, tFreq: int)
    requires gs - 1 <= ge < |freq| && aFreq == Within(freq, gs, ge + 1)
    requires tFreq <= Within(freq, gs, |freq|) && (ge >= gs ==> aFreq - freq[ge] < tFreq)
    ensures var (e, a) := Reach(freq, ge, aFreq, tFreq);
      gs - 1 <= e < |freq| && a == Within(freq, gs, e + 1) >= tFreq && (e >= gs ==> a - freq[e] < tFreq)
    decreases |freq| - ge
  {
    if aFreq < tFreq && ge < |freq| - 1 {
      ReachShare(freq, gs, ge + 1, aFreq + freq[ge + 1], tFreq);
    }
  }

  /** The share of a part of what is left. */
  lemma ShareFits(remF: nat, nPart: nat)
    requires nPart > 0
    ensures Quotient(remF, nPart) == remF / nPart <= remF && Quotient(remF, 1) == remF
  {
    Bits.MulMonotone(1, nPart, remF / nPart);
    assert remF == nPart * (remF / nPart) + remF % nPart;
  }

  lemma {:induction false} TotalGrows(freq: seq<nat>, a: nat, b: nat)
    requires a <= b <= |freq|
    ensures Total(freq, a) <= Total(freq, b)
    decreases b
  {
    if a < b { TotalGrows(freq, a, b - 1); }
  }

  /** A stretch reaches its share of what is left with its last symbol and not before; every second
      part, but for the first and the last, leaves that symbol to the next. */
  lemma StretchShare(freq: seq<nat>, nGroups: nat, nPart: nat, gs: nat)
    requires 0 < nPart <= nGroups && gs <= |freq|
    ensures var remF := Within(freq, gs, |freq|);
      var (ge, aFreq) := Stretch(freq, nGroups, nPart, gs, remF);
      && gs - 1 <= ge < |freq| && aFreq == Within(freq, gs, ge + 1)
      && (ge >= gs ==> aFreq - freq[ge] < remF / nPart)
      && (aFreq < remF / nPart ==>
            gs <= ge < |freq| - 1 && aFreq + freq[ge + 1] >= remF / nPart && 1 < nPart < nGroups
            && (nGroups - nPart) % 2 == 1)
  {
    hide Reach, Quotient;
    TotalGrows(freq, gs, |freq|);
    var remF := Within(freq, gs, |freq|);
    ShareFits(remF, nPart);
    ReachShare(freq, gs, gs - 1, 0, remF / nPart);
  }

  /** The last part takes all that is left. */
  lemma LastTakesAll(freq: seq<nat>, nGroups: nat, gs: nat)
    requires gs <= |freq| && |freq| > 0 && freq[|freq| - 1] > 0 && nGroups > 0
    ensures Stretch(freq, nGroups, 1, gs, Within(freq, gs, |freq|)).0 == |freq| - 1
  {
    hide Stretch;
    StretchShare(freq, nGroups, 1, gs);
    var ge := Stretch(freq, nGroups, 1, gs, Within(freq, gs, |freq|)).0;
    if ge < |freq| - 1 { TotalGrows(freq, ge + 1, |freq| - 1); }
  }

  /** Table `t` alone prefers symbol `v`. */
  ghost predicate PreferredBy(len: seq<seq<nat>>, v: nat, t: nat) {
    && t < |len|
    && forall u :: 0 <= u < |len| ==> v < |len[u]| && len[u][v] == if u == t then 0 else 15
  }

  /** Where the first of the stretches from `gs` on ends. */
  ghost function EndOf(freq: seq<nat>, nGroups: nat, nPart: nat, gs: nat): (ge: int)
    requires 0 < nPart && gs <= |freq|
    ensures gs - 1 <= ge < |freq|
  {
    Stretch(freq, nGroups, nPart, gs, Within(freq, gs, |freq|)).0
  }

  /** The tables for all that is left from `gs` on. */
  ghost function TablesFrom(freq: seq<nat>, nGroups: nat, nPart: nat, gs: nat): (len: seq<seq<nat>>)
    requires gs <= |freq|
    ensures |len| == nPart
  {
    Stretches(freq, nGroups, nPart, gs, Within(freq, gs, |freq|))
  }

  lemma FirstTable(freq: seq<nat>, nGroups: nat, nPart: nat, gs: nat)
    requires 0 < nPart <= nGroups && gs <= |freq|
    ensures var ge := EndOf(freq, nGroups, nPart, gs);
      TablesFrom(freq, nGroups, nPart, gs) ==
      TablesFrom(freq, nGroups, nPart - 1, ge + 1) + [Preferring(gs, ge, |freq|)]
  {
    hide Stretch;
    StretchShare(freq, nGroups, nPart, gs);
  }

  lemma {:induction false} BehindStretch(freq: seq<nat>, nGroups: nat, nPart: nat, gs: nat, v: nat)
    requires gs <= |freq| && v < gs && nPart <= nGroups
    ensures forall row :: row in TablesFrom(freq, nGroups, nPart, gs) ==> |row| == |freq| && row[v] == 15
    decreases nPart
  {
    hide TablesFrom, EndOf;
    if nPart > 0 {
      FirstTable(freq, nGroups, nPart, gs);
      BehindStretch(freq, nGroups, nPart - 1, EndOf(freq, nGroups, nPart, gs) + 1, v);
    }
  }

  /** Every symbol from `gs` on is preferred by exactly one table. */
  lemma {:induction false} OneOwner(freq: seq<nat>, nGroups: nat, nPart: nat, gs: nat, v: nat) returns (t: nat)
    requires 0 < nPart <= nGroups && gs <= v < |freq| && freq[|freq| - 1] > 0
    ensures PreferredBy(TablesFrom(freq, nGroups, nPart, gs), v, t)
    decreases nPart
  {
    if nPart == 1 { LastTakesAll(freq, nGroups, gs); }
    hide TablesFrom, EndOf;
    FirstTable(freq, nGroups, nPart, gs);
    var ge := EndOf(freq, nGroups, nPart, gs);
    if v <= ge {
      t := nPart - 1;
      BehindStretch(freq, nGroups, nPart - 1, ge + 1, v);
    } else {
      t := OneOwner(freq, nGroups, nPart - 1, ge + 1, v);
    }
  }

  lemma {:induction false} TotalIsCountBelow(freq: seq<nat>, v: seq<nat>, n: nat)
    requires n <= |freq| && forall c :: 0 <= c < |freq| ==> freq[c] == Count(v, c)
    ensures Total(freq, n) == CountBelow(v, n)
  {
    if n > 0 {
      TotalIsCountBelow(freq, v, n - 1);
    }
  }

  /** For the values of a block, which end with the end-of-block symbol: before the first pass every
      symbol is preferred by exactly one table. */
  lemma EachPreferredOnce(v: seq<nat>, mtfFreq: seq<nat>, x: nat) returns (t: nat)
    requires |v| > 0 && Below(v, |mtfFreq|) && v[|v| - 1] == |mtfFreq| - 1 && x < |mtfFreq|
    requires forall c :: 0 <= c < |mtfFreq| ==> mtfFreq[c] == Count(v, c)
    ensures PreferredBy(Passes(v, mtfFreq, 0).len, x, t)
  {
    hide Stretches, GroupsFor;
    TotalIsCountBelow(mtfFreq, v, |mtfFreq|);
    CountBelowAll(v, |mtfFreq|);
    assert Within(mtfFreq, 0, |mtfFreq|) == |v|;
    t := OneOwner(mtfFreq, GroupsFor(|v|), GroupsFor(|v|), 0, x);
  }
}

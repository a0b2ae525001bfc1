/**
 Canonical prefix codes: codes assigned by length and then by symbol, and the
 limit/base/perm tables with which the decoder inverts them.
 */
module CanonicalCode {
  import opened Counting
  import opened BwtSpec
  import opened Bits

  const MAX_CODE_LEN := 23

  /** The first code of length `n`. */
  function First(len: seq<nat>, n: nat): nat {
    if n == 0 then 0 else 2 * (First(len, n - 1) + Count(len, n - 1))
  }

  /** The code of symbol `i`: the first of its length, plus its rank among equals. */
  function Code(len: seq<nat>, i: int): nat
    requires 0 <= i < |len|
  {
    First(len, len[i]) + Count(len[..i], len[i])
  }

  /** The sum of 2^(m - length) over symbols of length at most `n`. */
  function Kraft(len: seq<nat>, n: nat, m: nat): nat {
    if |len| == 0 then 0
    else
      var t := len[|len| - 1];
      Kraft(len[..|len| - 1], n, m) + if t <= n && t <= m then Pow2(m - t) else 0
  }

  /** The lengths can be those of a prefix code: the Kraft sum is at most one. */
  ghost predicate Prefixable(len: seq<nat>, m: nat) {
    && (forall i :: 0 <= i < |len| ==> 1 <= len[i] <= m)
    && Kraft(len, m, m) <= Pow2(m)
  }

  lemma {:induction false} KraftStep(len: seq<nat>, n: nat, m: nat)
    requires 0 < n <= m
    ensures Kraft(len, n, m) == Kraft(len, n - 1, m) + Count(len, n) * Pow2(m - n)
  {
    if |len| > 0 {
      KraftStep(len[..|len| - 1], n, m);
      assert (Count(len[..|len| - 1], n) + 1) * Pow2(m - n) == Count(len[..|len| - 1], n) * Pow2(m - n) + Pow2(m - n);
    } else {
      assert 0 * Pow2(m - n) == 0;
    }
  }

  lemma {:induction false} KraftMono(len: seq<nat>, n: nat, n': nat, m: nat)
    requires n <= n'
    ensures Kraft(len, n, m) <= Kraft(len, n', m)
  {
    if |len| > 0 { KraftMono(len[..|len| - 1], n, n', m); }
  }

  lemma {:induction false} KraftNone(len: seq<nat>, m: nat)
    requires forall i :: 0 <= i < |len| ==> 1 <= len[i]
    ensures Kraft(len, 0, m) == 0 && Count(len, 0) == 0
  {
    if |len| > 0 { KraftNone(len[..|len| - 1], m); }
  }

  /** The codes used up to length `n` take up exactly their Kraft share. */
  lemma {:induction false} FirstIsKraft(len: seq<nat>, n: nat, m: nat)
    requires n <= m && forall i :: 0 <= i < |len| ==> 1 <= len[i]
    ensures (First(len, n) + Count(len, n)) * Pow2(m - n) == Kraft(len, n, m)
  {
    if n == 0 {
      KraftNone(len, m);
      assert (0 + 0) * Pow2(m) == 0;
    } else {
      FirstIsKraft(len, n - 1, m);
      KraftStep(len, n, m);
      assert Pow2(m - (n - 1)) == 2 * Pow2(m - n);
      DoubleAndAdd(First(len, n - 1) + Count(len, n - 1), Count(len, n), Pow2(m - n));
    }
  }

  lemma Twice(x: nat, p: nat)
    ensures x * (2 * p) == 2 * (x * p)
  {
  }

  lemma DoubleAndAdd(x: nat, c: nat, p: nat)
    ensures (2 * x + c) * p == x * (2 * p) + c * p
  {
  }

  /** All codes of a length fit in that many bits. */
  lemma {:induction false} CodesFit(len: seq<nat>, n: nat, m: nat)
    requires Prefixable(len, m) && n <= m
    ensures First(len, n) + Count(len, n) <= Pow2(n)
  {
    FirstIsKraft(len, n, m);
    KraftMono(len, n, m, m);
    var x, p := First(len, n) + Count(len, n), Pow2(m - n);
    Pow2Add(n, m - n);
    FactorOrder(x, Pow2(n), p);
  }

  lemma {:induction false} CodeRange(len: seq<nat>, i: int)
    requires 0 <= i < |len|
    ensures First(len, len[i]) <= Code(len, i) < First(len, len[i]) + Count(len, len[i])
  {
    CountPrefixStep(len, i, len[i]);
    CountMono(len, i + 1, |len|, len[i]);
  }

  /** Each symbol's code fits in its length. */
  lemma {:induction false} CodeFits(len: seq<nat>, i: int, m: nat)
    requires Prefixable(len, m) && 0 <= i < |len|
    ensures Code(len, i) < Pow2(len[i])
  {
    CodeRange(len, i);
    CodesFit(len, len[i], m);
  }

  /** Longer codes lie beyond all shorter ones, at every shorter length. */
  lemma {:induction false} FirstBeyond(len: seq<nat>, n: nat, n': nat)
    requires n < n'
    ensures First(len, n') >= (First(len, n) + Count(len, n)) * Pow2(n' - n)
    decreases n'
  {
    var x := First(len, n) + Count(len, n);
    if n + 1 == n' {
      assert Pow2(1) == 2;
    } else {
      FirstBeyond(len, n, n' - 1);
      assert Pow2(n' - n) == 2 * Pow2(n' - 1 - n);
      assert First(len, n') >= 2 * First(len, n' - 1);
      Twice(x, Pow2(n' - 1 - n));
    }
  }

  /** Read to a shorter length, a code exceeds every code of that length. */
  lemma {:induction false} LongerExceeds(len: seq<nat>, i: int, n: nat)
    requires 0 <= i < |len| && n < len[i]
    ensures Code(len, i) / Pow2(len[i] - n) >= First(len, n) + Count(len, n)
  {
    FirstBeyond(len, n, len[i]);
    DivAtLeast(Code(len, i), First(len, n) + Count(len, n), Pow2(len[i] - n));
  }

  /** No code is the beginning of another. */
  lemma {:induction false} PrefixFree(len: seq<nat>, i: int, j: int)
    requires 0 <= i < |len| && 0 <= j < |len| && i != j && len[i] <= len[j]
    ensures Code(len, j) / Pow2(len[j] - len[i]) != Code(len, i)
  {
    CodeRange(len, i);
    if len[i] < len[j] {
      LongerExceeds(len, j, len[i]);
    } else {
      assert Code(len, j) / Pow2(0) == Code(len, j);
      var a, b := if i < j then i else j, if i < j then j else i;
      CountPrefixStep(len, a, len[i]);
      CountMono(len, a + 1, b, len[i]);
    }
  }

  // ---------------------------------------------------------------- the decoder's tables

  function MinLen(len: seq<nat>): nat {
    if |len| == 0 then 32 else
      var m := MinLen(len[..|len| - 1]);
      if len[|len| - 1] < m then len[|len| - 1] else m
  }

  function MaxLen(len: seq<nat>): nat {
    if |len| == 0 then 0 else
      var m := MaxLen(len[..|len| - 1]);
      if len[|len| - 1] > m then len[|len| - 1] else m
  }

  /** The decoding tables, as functions of the lengths. */
  function Limit(len: seq<nat>, n: nat): int {
    if MinLen(len) <= n <= MaxLen(len) then First(len, n) + Count(len, n) - 1 else 0
  }

  function Base(len: seq<nat>, n: nat): int {
    if n <= MaxLen(len) then First(len, n) - CountBelow(len, n) else CountBelow(len, n)
  }

  function Perm(len: seq<nat>, k: int): nat {
    SymbolFrom(len, k, 0)
  }

  /** The first symbol from `i` on whose place in the listing is `k`. */
  function SymbolFrom(len: seq<nat>, k: int, i: nat): nat
    requires i <= |len|
    decreases |len| - i
  {
    if i == |len| then 0 else if LF(len, i) == k then i else SymbolFrom(len, k, i + 1)
  }

  lemma {:induction false} MinMaxLen(len: seq<nat>, i: int)
    requires 0 <= i < |len|
    ensures MinLen(len) <= len[i] <= MaxLen(len)
    decreases |len|
  {
    if i < |len| - 1 { MinMaxLen(len[..|len| - 1], i); }
  }

  lemma PermIs(len: seq<nat>, i: int)
    requires 0 <= i < |len|
    ensures 0 <= LF(len, i) < |len| && Perm(len, LF(len, i)) == i
  {
    LFRange(len, i);
    FoundFrom(len, i, 0);
  }

  lemma {:induction false} FoundFrom(len: seq<nat>, i: int, j: nat)
    requires j <= i < |len|
    ensures SymbolFrom(len, LF(len, i), j) == i
    decreases i - j
  {
    hide LF;
    if j < i {
      LFMonotone(len, i, j);
      FoundFrom(len, i, j + 1);
    }
  }
}

/**
 Building the code table of the encoder and the limit/base/perm tables of the decoder.
 */
module HuffmanTables {
  import opened Counting
  import opened BwtSpec
  import opened Bits
  import opened CanonicalCode

  const MAX_SYMBOLS := 258

  ghost predicate LengthsIn(len: seq<nat>, minLen: nat, maxLen: nat) {
    1 <= minLen && forall i :: 0 <= i < |len| ==> minLen <= len[i] <= maxLen
  }

  lemma {:induction false} NoneShorter(len: seq<nat>, minLen: nat, maxLen: nat, n: nat)
    requires LengthsIn(len, minLen, maxLen) && n <= minLen
    ensures First(len, n) == 0 && CountBelow(len, n) == 0
  {
    if n > 0 {
      NoneShorter(len, minLen, maxLen, n - 1);
      CountAbsent(len, n - 1);
    }
  }

  lemma {:induction false} CountAbsent(s: seq<nat>, c: nat)
    requires forall i :: 0 <= i < |s| ==> s[i] != c
    ensures Count(s, c) == 0
  {
    if |s| > 0 { CountAbsent(s[..|s| - 1], c); }
  }

  /** BZ2_hbAssignCodes: each symbol gets its canonical code. */
  method AssignCodes(code: array<int>, length: seq<nat>, minLen: nat, maxLen: nat, alphaSize: nat)
    requires alphaSize == |length| <= code.Length && minLen <= maxLen && LengthsIn(length, minLen, maxLen)
    modifies code
    ensures forall i :: 0 <= i < alphaSize ==> code[i] == Code(length, i)
  {
    hide Count;
    NoneShorter(length, minLen, maxLen, minLen);
    var vec := 0;
    for n := minLen to maxLen + 1
      invariant vec == First(length, n)
      invariant forall i :: 0 <= i < alphaSize && length[i] < n ==> code[i] == Code(length, i)
    {
      CountStart(length, n);
      for i := 0 to alphaSize
        invariant vec == First(length, n) + Count(length[..i], n)
        invariant forall k :: 0 <= k < alphaSize && (length[k] < n || (length[k] == n && k < i)) ==>
          code[k] == Code(length, k)
      {
        CountPrefixStep(length, i, n);
        if length[i] == n {
          code[i] := vec;
          vec := vec + 1;
        }
      }
      vec := vec * 2;
    }
  }

  lemma CountStart(s: seq<nat>, c: nat)
    ensures Count(s[..0], c) == 0 && s[..|s|] == s
  {
  }

  /** Symbols listed by length, and by number within a length. */
  method ListByLength(perm: array<int>, length: seq<nat>, minLen: nat, maxLen: nat, alphaSize: nat)
    requires alphaSize == |length| <= perm.Length && minLen <= maxLen && LengthsIn(length, minLen, maxLen)
    modifies perm
    ensures forall i :: 0 <= i < alphaSize ==> 0 <= LF(length, i) < alphaSize && perm[LF(length, i)] == i
    ensures forall k :: alphaSize <= k < perm.Length ==> perm[k] == old(perm[k])
  {
    hide Count, LF;
    NoneShorter(length, minLen, maxLen, minLen);
    var pp := 0;
    for i := minLen to maxLen + 1
      invariant pp == CountBelow(length, i)
      invariant forall k :: alphaSize <= k < perm.Length ==> perm[k] == old(perm[k])
      invariant forall k :: 0 <= k < alphaSize && length[k] < i ==>
        0 <= LF(length, k) < alphaSize && perm[LF(length, k)] == k
    {
      CountStart(length, i);
      for j := 0 to alphaSize
        invariant pp == CountBelow(length, i) + Count(length[..j], i)
        invariant forall k :: alphaSize <= k < perm.Length ==> perm[k] == old(perm[k])
        invariant forall k :: 0 <= k < alphaSize && (length[k] < i || (length[k] == i && k < j)) ==>
          0 <= LF(length, k) < alphaSize && perm[LF(length, k)] == k
      {
        CountPrefixStep(length, j, i);
        if length[j] == i {
          LFIs(length, j);
          forall k | 0 <= k < alphaSize && k != j ensures LF(length, k) != LF(length, j) { LFMonotone(length, k, j); }
          perm[pp] := j;
          pp := pp + 1;
        }
      }
    }
  }

  lemma LFIs(l: seq<nat>, i: int)
    requires 0 <= i < |l|
    ensures LF(l, i) == CountBelow(l, l[i]) + Count(l[..i], l[i]) && 0 <= LF(l, i) < |l|
  {
    LFRange(l, i);
  }

  /** How many lengths are one less than `c`. */
  method CountLengths(base: array<int>, length: seq<nat>, alphaSize: nat)
    requires alphaSize == |length| && base.Length >= MAX_CODE_LEN
    requires forall i :: 0 <= i < |length| ==> length[i] <= 20
    modifies base
    ensures forall c :: 0 <= c < MAX_CODE_LEN ==> base[c] == CountBelow(length, c)
  {
    hide Count;
    for i := 0 to MAX_CODE_LEN
      invariant forall c :: 0 <= c < i ==> base[c] == 0
    {
      base[i] := 0;
    }
    forall c: nat | c < MAX_CODE_LEN ensures Count(length[..0], c) == 0 { CountStart(length, c); }
    for i := 0 to alphaSize
      invariant base[0] == 0
      invariant forall c :: 1 <= c < MAX_CODE_LEN ==> base[c] == Count(length[..i], c - 1)
    {
      base[length[i] + 1] := base[length[i] + 1] + 1;
      forall d | 0 <= d < MAX_CODE_LEN
        ensures Count(length[..i + 1], d) == Count(length[..i], d) + if length[i] == d then 1 else 0
      {
        CountPrefixStep(length, i, d);
      }
    }
    assert length[..alphaSize] == length;
    for i := 1 to MAX_CODE_LEN
      invariant forall c :: 0 <= c < i ==> base[c] == CountBelow(length, c)
      invariant forall c :: i <= c < MAX_CODE_LEN ==> base[c] == Count(length, c - 1)
    {
      base[i] := base[i] + base[i - 1];
    }
  }

  /** The decoder's tables for a set of lengths, wherever the decoder looks. */
  ghost predicate Decodes(limit: seq<int>, base: seq<int>, perm: seq<int>, len: seq<nat>) {
    && |limit| >= MAX_CODE_LEN && |base| >= MAX_CODE_LEN && |perm| >= MAX_SYMBOLS
    && (forall n: nat :: MinLen(len) <= n < MAX_CODE_LEN ==> limit[n] == Limit(len, n) && base[n] == Base(len, n))
    && forall k :: 0 <= k < MAX_SYMBOLS ==> perm[k] == Perm(len, k)
  }

  /** The last code of each length. */
  method FillLimit(limit: array<int>, base: array<int>, length: seq<nat>, minLen: nat, maxLen: nat)
    requires limit.Length >= MAX_CODE_LEN && base.Length >= MAX_CODE_LEN && limit != base
    requires minLen <= maxLen <= 20 && LengthsIn(length, minLen, maxLen)
    requires forall c :: 0 <= c < MAX_CODE_LEN ==> base[c] == CountBelow(length, c)
    modifies limit
    ensures forall n: nat :: minLen <= n <= maxLen ==> limit[n] == First(length, n) + Count(length, n) - 1
    ensures forall n: nat :: maxLen < n < MAX_CODE_LEN ==> limit[n] == 0
  {
    hide Count;
    for i := 0 to MAX_CODE_LEN
      invariant forall c :: 0 <= c < i ==> limit[c] == 0
    {
      limit[i] := 0;
    }
    NoneShorter(length, minLen, maxLen, minLen);
    var vec := 0;
    for i := minLen to maxLen + 1
      invariant vec == First(length, i)
      invariant forall n: nat :: maxLen < n < MAX_CODE_LEN ==> limit[n] == 0
      invariant forall n: nat :: minLen <= n < i ==> limit[n] == First(length, n) + Count(length, n) - 1
    {
      vec := vec + (base[i + 1] - base[i]);
      limit[i] := vec - 1;
      vec := vec * 2;
    }
  }

  /** What must be subtracted from a code to find its symbol in the listing. */
  method FillBase(limit: array<int>, base: array<int>, length: seq<nat>, minLen: nat, maxLen: nat)
    requires limit.Length >= MAX_CODE_LEN && base.Length >= MAX_CODE_LEN && limit != base
    requires minLen <= maxLen <= 20 && LengthsIn(length, minLen, maxLen)
    requires forall c :: 0 <= c < MAX_CODE_LEN ==> base[c] == CountBelow(length, c)
    requires forall n: nat :: minLen <= n <= maxLen ==> limit[n] == First(length, n) + Count(length, n) - 1
    modifies base
    ensures forall n: nat :: minLen <= n <= maxLen ==> base[n] == First(length, n) - CountBelow(length, n)
    ensures forall n: nat :: maxLen < n < MAX_CODE_LEN ==> base[n] == CountBelow(length, n)
  {
    hide Count, CountBelow;
    NoneShorter(length, minLen, maxLen, minLen);
    for i := minLen + 1 to maxLen + 1
      invariant forall n: nat :: minLen <= n < i ==> base[n] == First(length, n) - CountBelow(length, n)
      invariant forall n: nat :: i <= n < MAX_CODE_LEN ==> base[n] == CountBelow(length, n)
    {
      base[i] := (limit[i - 1] + 1) * 2 - base[i];
    }
  }

  /** The shortest and the longest length. */
  method FindRange(length: seq<nat>, alphaSize: nat) returns (minLen: nat, maxLen: nat)
    requires alphaSize == |length|
    ensures minLen == MinLen(length) && maxLen == MaxLen(length)
  {
    minLen, maxLen := 32, 0;
    for i := 0 to alphaSize
      invariant minLen == MinLen(length[..i]) && maxLen == MaxLen(length[..i])
    {
      assert length[..i + 1][..i] == length[..i];
      if length[i] > maxLen { maxLen := length[i]; }
      if length[i] < minLen { minLen := length[i]; }
    }
    assert length[..alphaSize] == length;
  }

  lemma {:induction false} RangeOf(len: seq<nat>)
    requires |len| > 0
    ensures MinLen(len) <= MaxLen(len) && forall i :: 0 <= i < |len| ==> MinLen(len) <= len[i] <= MaxLen(len)
  {
    hide MinLen, MaxLen;
    forall i | 0 <= i < |len| ensures MinLen(len) <= len[i] <= MaxLen(len) { MinMaxLen(len, i); }
    assert MinLen(len) <= len[0] <= MaxLen(len);
  }

  /** BZ2_hbCreateDecodeTables. */
  method CreateDecodeTables(limit: array<int>, base: array<int>, perm: array<int>, length: seq<nat>, minLen: nat,
    maxLen: nat, alphaSize: nat)
    requires 0 < alphaSize == |length| <= MAX_SYMBOLS == perm.Length && limit.Length == MAX_CODE_LEN == base.Length
    requires limit != base && limit != perm && base != perm
    requires minLen == MinLen(length) && maxLen == MaxLen(length)
    requires forall i :: 0 <= i < |length| ==> 1 <= length[i] <= 20
    requires forall k :: alphaSize <= k < MAX_SYMBOLS ==> perm[k] == 0
    modifies limit, base, perm
    ensures Decodes(limit[..], base[..], perm[..], length)
  {
    hide Count, CountBelow, First, LF, MinLen, MaxLen, Perm;
    RangeOf(length);
    LastInRange(length);
    ListByLength(perm, length, minLen, maxLen, alphaSize);
    CountLengths(base, length, alphaSize);
    FillLimit(limit, base, length, minLen, maxLen);
    FillBase(limit, base, length, minLen, maxLen);
    forall k | 0 <= k < MAX_SYMBOLS ensures perm[k] == Perm(length, k) { PermAt(perm[..], length, k); }
  }

  lemma {:induction false} LastInRange(len: seq<nat>)
    requires |len| > 0 && forall i :: 0 <= i < |len| ==> 1 <= len[i] <= 20
    ensures 1 <= MinLen(len) && MaxLen(len) <= 20
  {
    if |len| > 1 { LastInRange(len[..|len| - 1]); }
  }

  /** The listing read as a table: places beyond the alphabet hold nothing. */
  lemma PermAt(perm: seq<int>, len: seq<nat>, k: int)
    requires |len| <= MAX_SYMBOLS == |perm| && 0 <= k < MAX_SYMBOLS
    requires forall i :: 0 <= i < |len| ==> 0 <= LF(len, i) < |len| && perm[LF(len, i)] == i
    requires forall j :: |len| <= j < MAX_SYMBOLS ==> perm[j] == 0
    ensures perm[k] == Perm(len, k)
  {
    hide LF;
    if k < |len| {
      LFOnto(len, k);
      var i :| 0 <= i < |len| && LF(len, i) == k;
      PermIs(len, i);
    } else {
      NothingThere(len, k, 0);
    }
  }

  lemma {:induction false} NothingThere(len: seq<nat>, k: int, i: nat)
    requires i <= |len| && k >= |len| && forall j :: 0 <= j < |len| ==> LF(len, j) < |len|
    ensures SymbolFrom(len, k, i) == 0
    decreases |len| - i
  {
    hide LF;
    if i < |len| { NothingThere(len, k, i + 1); }
  }
}

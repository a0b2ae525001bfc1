/**
 The initial run-length code: what a block's bytes stand for, and how a run is added
 to a block.
 */
module RunLength {
  import opened Rotations

  datatype Option<+T> = None | Some(value: T)
  {
    function GetOr(default: T): T {
      if Some? then value else default
    }
  }

  function Rep(c: byte, k: nat): (s: seq<byte>)
    ensures |s| == k
    ensures forall i :: 0 <= i < k ==> s[i] == c
  {
    seq(k, _ => c)
  }

  /** The bytes of one coded run: up to three copies stand for themselves, four copies are
      followed by a count of further ones. */
  function RunCode(c: byte, len: nat): (s: seq<byte>)
    requires 1 <= len <= 255
  {
    if len < 4 then Rep(c, len) else Rep(c, 4) + [len - 4]
  }

  /** The length of the coded run that `s` starts with. */
  function FirstCodeLength(s: seq<byte>): (k: nat)
    requires |s| > 0
    ensures 1 <= k <= 5
  {
    if |s| < 2 || s[1] != s[0] then 1
    else if |s| < 3 || s[2] != s[0] then 2
    else if |s| < 4 || s[3] != s[0] then 3
    else 5
  }

  function FirstRun(s: seq<byte>): (r: seq<byte>)
    requires |s| > 0 && FirstCodeLength(s) <= |s|
  {
    var k := FirstCodeLength(s);
    Rep(s[0], if k == 5 then 4 + s[4] else k)
  }

  /** What a block decodes to; nothing when it ends in four equal bytes without a count. */
  function UnRle(s: seq<byte>): Option<seq<byte>>
    decreases |s|
  {
    if s == [] then Some([])
    else
      var k := FirstCodeLength(s);
      if k > |s| then None
      else match UnRle(s[k..])
        case None => None
        case Some(rest) => Some(FirstRun(s) + rest)
  }

  /** The symbol of the last run when that run is short enough to be lengthened by another
      copy; such a block must not be followed by that symbol. */
  function OpenSymbol(s: seq<byte>): Option<byte>
    decreases |s|
  {
    if s == [] then None
    else
      var k := FirstCodeLength(s);
      if k > |s| then None
      else if k == |s| then if k == 5 then None else Some(s[0])
      else OpenSymbol(s[k..])
  }

  lemma {:induction false} UnRleOneRun(c: byte, len: nat)
    requires 1 <= len <= 255
    ensures UnRle(RunCode(c, len)) == Some(Rep(c, len))
    ensures OpenSymbol(RunCode(c, len)) == if len < 4 then Some(c) else None
  {
    var t := RunCode(c, len);
    assert FirstCodeLength(t) == |t|;
    assert t[|t|..] == [] && UnRle([]) == Some([]);
    assert FirstRun(t) + [] == FirstRun(t) == Rep(c, len);
  }

  /** Text after a run that it does not lengthen leaves the run as it is. */
  lemma {:induction false} FirstRunStays(s: seq<byte>, u: seq<byte>)
    requires |s| > 0 && FirstCodeLength(s) <= |s|
    requires FirstCodeLength(s) < |s| || FirstCodeLength(s) == 5 || u == [] || u[0] != s[0]
    ensures FirstCodeLength(s + u) == FirstCodeLength(s)
    ensures FirstRun(s + u) == FirstRun(s)
    ensures (s + u)[FirstCodeLength(s)..] == s[FirstCodeLength(s)..] + u
  {
  }

  /** Appending one coded run appends its expansion. */
  lemma {:induction false} UnRleAppendRun(s: seq<byte>, c: byte, len: nat)
    requires 1 <= len <= 255 && UnRle(s).Some? && OpenSymbol(s) != Some(c)
    ensures UnRle(s + RunCode(c, len)) == Some(UnRle(s).value + Rep(c, len))
    ensures OpenSymbol(s + RunCode(c, len)) == if len < 4 then Some(c) else None
    decreases |s|
  {
    hide FirstRun;
    var u := RunCode(c, len);
    assert u[0] == c;
    if s == [] {
      assert s + u == u;
      UnRleOneRun(c, len);
      assert [] + Rep(c, len) == Rep(c, len);
    } else {
      var k := FirstCodeLength(s);
      var tail := s[k..];
      FirstRunStays(s, u);
      UnRleAppendRun(tail, c, len);
      assert FirstRun(s) + (UnRle(tail).value + Rep(c, len)) == (FirstRun(s) + UnRle(tail).value) + Rep(c, len);
    }
  }
}

/**
 How the input is cut into blocks: as a function of the bytes alone.
 */
module Cutting {
  import opened Rotations
  import opened RunLength
  import opened Collect

  const START: Gathering := Gathering([], 256, 0)

  function BlockMax(blockSize100k: nat): int {
    100000 * blockSize100k - 19
  }

  /** The finished blocks, and what has been gathered since. */
  datatype Cut = Cut(done: seq<seq<byte>>, run: Gathering)

  /** A full block is cut off at once; its pending run opens the next block. */
  function Next(blockSize100k: nat, s: Cut, c: byte): (r: Cut)
    requires Proper(s.run)
    ensures Proper(r.run) && r.run.ch == c
  {
    var g := AddByte(s.run, c);
    if |g.block| >= BlockMax(blockSize100k) then Cut(s.done + [g.block], g.(block := [])) else Cut(s.done, g)
  }

  function CutAll(blockSize100k: nat, x: seq<byte>): (r: Cut)
    ensures Proper(r.run)
  {
    if x == [] then Cut([], START) else Next(blockSize100k, CutAll(blockSize100k, x[..|x| - 1]), x[|x| - 1])
  }

  /** The last block takes the pending run as well; an empty one is not sent. */
  function Finished(s: Cut): seq<seq<byte>>
    requires Proper(s.run)
  {
    var last := WithRun(s.run);
    if last == [] then s.done else s.done + [last]
  }

  /** The blocks when all input was given before the stream is finished. */
  function RunThenFinish(blockSize100k: nat, x: seq<byte>): seq<seq<byte>> {
    Finished(CutAll(blockSize100k, x))
  }

  /** The blocks when the end is announced along with the input: after the last byte the
      end is seen before a full block is. */
  function FinishAtOnce(blockSize100k: nat, x: seq<byte>): seq<seq<byte>> {
    if x == [] then []
    else
      var s := CutAll(blockSize100k, x[..|x| - 1]);
      Finished(Cut(s.done, AddByte(s.run, x[|x| - 1])))
  }

  /** The last byte fills a block. */
  predicate LastByteFills(blockSize100k: nat, x: seq<byte>) {
    x != [] && |AddByte(CutAll(blockSize100k, x[..|x| - 1]).run, x[|x| - 1]).block| >= BlockMax(blockSize100k)
  }

  /** A block that was cut off because it was full. */
  predicate FullSize(blockSize100k: nat, b: seq<byte>) {
    100000 * blockSize100k - 19 <= |b| <= 100000 * blockSize100k - 15
  }

  /** Finished blocks are full, and what has been gathered since is not. */
  lemma {:induction false} DoneAreFull(blockSize100k: nat, x: seq<byte>)
    requires 1 <= blockSize100k
    ensures forall k :: 0 <= k < |CutAll(blockSize100k, x).done| ==>
      FullSize(blockSize100k, CutAll(blockSize100k, x).done[k])
    ensures |CutAll(blockSize100k, x).run.block| < 100000 * blockSize100k - 19
    decreases |x|
  {
    hide AddByte;
    if x != [] { DoneAreFull(blockSize100k, x[..|x| - 1]); }
  }

  /** All blocks but the last are full, however the stream is ended, and the last is not longer
      than a block may be. */
  lemma BlocksAreFull(blockSize100k: nat, x: seq<byte>)
    requires 1 <= blockSize100k
    ensures var cuts := RunThenFinish(blockSize100k, x);
      && (forall k :: 0 <= k < |cuts| - 1 ==> 100000 * blockSize100k - 19 <= |cuts[k]| <= 100000 * blockSize100k - 15)
      && (forall k :: 0 <= k < |cuts| ==> 0 < |cuts[k]| <= 100000 * blockSize100k - 10)
    ensures var cuts := FinishAtOnce(blockSize100k, x);
      && (forall k :: 0 <= k < |cuts| - 1 ==> 100000 * blockSize100k - 19 <= |cuts[k]| <= 100000 * blockSize100k - 15)
      && (forall k :: 0 <= k < |cuts| ==> 0 < |cuts[k]| <= 100000 * blockSize100k - 10)
  {
    hide AddByte, WithRun, CutAll;
    DoneAreFull(blockSize100k, x);
    if x != [] { DoneAreFull(blockSize100k, x[..|x| - 1]); }
  }

  /** The two ways of ending a stream cut it differently exactly when the last byte fills a
      block. */
  lemma EndsAlike(blockSize100k: nat, x: seq<byte>)
    ensures FinishAtOnce(blockSize100k, x) == RunThenFinish(blockSize100k, x) <==> !LastByteFills(blockSize100k, x)
    ensures LastByteFills(blockSize100k, x) ==> |FinishAtOnce(blockSize100k, x)| < |RunThenFinish(blockSize100k, x)|
  {
    if LastByteFills(blockSize100k, x) {
      var s := CutAll(blockSize100k, x[..|x| - 1]);
      var g := AddByte(s.run, x[|x| - 1]);
      assert |RunThenFinish(blockSize100k, x)| == |s.done| + 2;
      assert |FinishAtOnce(blockSize100k, x)| <= |s.done| + 1;
    }
  }

  /** Finished blocks stay as they are when more input comes. */
  lemma {:induction false} CutGrows(blockSize100k: nat, x: seq<byte>, y: seq<byte>)
    ensures CutAll(blockSize100k, x).done <= CutAll(blockSize100k, x + y).done
    decreases |y|
  {
    hide AddByte;
    if y == [] {
      assert x + y == x;
    } else {
      CutGrows(blockSize100k, x, y[..|y| - 1]);
      assert (x + y)[..|x + y| - 1] == x + y[..|y| - 1];
    }
  }

  /** The blocks finished so far begin the blocks of the whole input. */
  lemma FinishedFirst(blockSize100k: nat, x: seq<byte>, y: seq<byte>)
    ensures CutAll(blockSize100k, x).done <= RunThenFinish(blockSize100k, x + y)
    ensures y != [] ==> CutAll(blockSize100k, x).done <= FinishAtOnce(blockSize100k, x + y)
  {
    hide AddByte, CutAll, WithRun;
    CutGrows(blockSize100k, x, y);
    if y != [] {
      CutGrows(blockSize100k, x, y[..|y| - 1]);
      assert (x + y)[..|x + y| - 1] == x + y[..|y| - 1];
    }
  }
}

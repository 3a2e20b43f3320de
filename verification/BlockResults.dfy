/**
  What a complete run of the block reverser (Lab4/archunix5a.c) makes of its file, reversal by reversal
  and byte by byte, from the file's length, the arguments and the random numbers alone.
 */
module BlockResults {
  import opened Bytes
  import opened BlockGeometry
  import opened BlockPipeline

  /** `after` is `before` with the block of s bytes at t replaced by the one at b of `seen`, backwards. */
  predicate ReversesBlock(seen: seq<Byte>, before: seq<Byte>, after: seq<Byte>, b: nat, t: nat, s: nat)
  {
    && |seen| == |before| == |after| && b + s <= |after| && t + s <= |after|
    && forall x :: 0 <= x < |after| ==> after[x] == if t <= x < t + s then seen[b + s - 1 - (x - t)] else before[x]
  }

  lemma OverwriteReverses(seen: seq<Byte>, before: seq<Byte>, b: nat, t: nat, s: nat)
    requires |seen| == |before| && b + s <= |seen| && t + s <= |seen|
    ensures ReversesBlock(seen, before, Overwrite(before, t, Reversed(Block(seen, b, s))), b, t, s)
  {
    var data := Reversed(Block(seen, b, s));
    assert forall i :: 0 <= i < s ==> data[i] == Block(seen, b, s)[s - 1 - i];
  }

  lemma NextReversal(file: seq<Byte>, size: nat, sch: Schedule, m: nat)
    requires InBounds(sch, size, |file|) && m < |sch.sources|
    ensures ReversesBlock(if m == 0 then file else FileAfter(file, size, sch, m - 1), FileAfter(file, size, sch, m),
                          FileAfter(file, size, sch, m + 1), sch.sources[m], sch.targets[m], size)
  {
    var seen := if m == 0 then file else FileAfter(file, size, sch, m - 1);
    OneMoreWrite(file, size, sch, m);
    assert DataRead(file, size, sch, m) == Block(seen, sch.sources[m], size);
    OverwriteReverses(seen, FileAfter(file, size, sch, m), sch.sources[m], sch.targets[m], size);
  }

  /** The block that reversal m reads: the first random number's, later the second of the pair drawn
      in turn m - 1, which counts past the first. */
  function DrawnSource(draws: nat -> nat, n: nat, m: nat): (b: nat)
    requires 2 <= n
  {
    if m == 0 then draws(0) % n
    else
      var skipped, d := draws(2 * m - 1) % n, draws(2 * m) % (n - 1);
      if d < skipped then d else d + 1
  }

  /** The block that reversal m writes. */
  function DrawnTarget(draws: nat -> nat, n: nat, k: nat, m: nat): (b: nat)
    requires 2 <= n
  {
    if k == 1 then draws(1) % n else draws(2 * m + 3) % n
  }

  /** Reversals(k) reversals of the drawn blocks, whose size s is the largest for which n blocks leave a
      byte over.  Reversal m fills its target block with its source block backwards, as that was after
      m - 1 writes, and changes no other byte. */
  lemma EachReversal(content: seq<Byte>, n: nat, k: nat, draws: nat -> nat, m: nat, s: nat, b: nat, t: nat)
    requires 2 <= n && 1 <= k && 0 < s && n * s <= |content| - 1 < n * (s + 1) && m < Reversals(k)
    requires b == DrawnSource(draws, n, m) * s && t == DrawnTarget(draws, n, k, m) * s
    ensures !DoesNothing(|content|, n, k)
    ensures ReversesBlock(if m == 0 then content else ResultAfter(content, n, k, draws, m - 1),
                          ResultAfter(content, n, k, draws, m), ResultAfter(content, n, k, draws, m + 1),
                          b, t, s)
  {
    BlockSizeIsUnique(|content|, n, s);
    DrawnBlocks(draws, n, s, k, m);
    NextReversal(content, s, ScheduleOf(|content|, n, k, draws), m);
  }

  lemma DrawnBlocks(draws: nat -> nat, n: nat, s: nat, k: nat, m: nat)
    requires 2 <= n && 1 <= k && m < Reversals(k)
    ensures Drawn(draws, n, s, k).sources[m] == DrawnSource(draws, n, m) * s
    ensures Drawn(draws, n, s, k).targets[m] == DrawnTarget(draws, n, k, m) * s
  {
    if m + 1 == Reversals(k) && k > 1 {
      assert 2 * k - 1 == 2 * m + 3;
    }
  }

  /** A run begins with the file as it is and ends after k - 1 reversals, but at least one. */
  lemma ReversalsFromStartToEnd(content: seq<Byte>, n: nat, k: nat, draws: nat -> nat)
    requires !DoesNothing(|content|, n, k)
    ensures 1 <= Reversals(k) && ResultAfter(content, n, k, draws, 0) == content
    ensures CompleteResult(content, n, k, draws)
         == ResultAfter(content, n, k, draws, if k == 1 then 1 else k - 1)
  {
  }

  /** With k = 1 one drawn block is written backwards over another, and that is all. */
  lemma SingleReversal(content: seq<Byte>, n: nat, draws: nat -> nat, s: nat, b: nat, t: nat)
    requires 2 <= n && 0 < s && n * s <= |content| - 1 < n * (s + 1)
    requires b == draws(0) % n * s && t == draws(1) % n * s
    ensures ReversesBlock(content, content, CompleteResult(content, n, 1, draws), b, t, s)
  {
    EachReversal(content, n, 1, draws, 0, s, b, t);
    ReversalsFromStartToEnd(content, n, 1, draws);
  }

  /** Fewer than two blocks, no reversal, or a file of at most n bytes: nothing changes. */
  lemma NothingToReverse(content: seq<Byte>, n: int, k: int, draws: nat -> nat)
    requires n < 2 || k < 1 || |content| <= n
    ensures CompleteResult(content, n, k, draws) == content
  {
    if 2 <= n && 0 < |content| <= n {
      BlockSizeIsUnique(|content|, n, 0);
    }
  }

  /** Eleven bytes in two blocks of five: with all random numbers 0, and with the second one 1. */
  lemma SingleReversalExamples(draws: nat -> nat)
    ensures var content := [1, 2, 3, 4, 5, 6, 7, 8, 9, 10, 11];
            && (draws(0) == 0 && draws(1) == 0 ==>
                  CompleteResult(content, 2, 1, draws) == [5, 4, 3, 2, 1, 6, 7, 8, 9, 10, 11])
            && (draws(0) == 0 && draws(1) == 1 ==>
                  CompleteResult(content, 2, 1, draws) == [1, 2, 3, 4, 5, 5, 4, 3, 2, 1, 11])
  {
    var content := [1, 2, 3, 4, 5, 6, 7, 8, 9, 10, 11];
    var r := CompleteResult(content, 2, 1, draws);
    if draws(0) == 0 && draws(1) == 0 {
      SingleReversal(content, 2, draws, 5, 0, 0);
      FirstFiveReversed(content, r);
    } else if draws(0) == 0 && draws(1) == 1 {
      SingleReversal(content, 2, draws, 5, 0, 5);
      FirstFiveCopiedBack(content, r);
    }
  }

  lemma FirstFiveReversed(content: seq<Byte>, r: seq<Byte>)
    requires content == [1, 2, 3, 4, 5, 6, 7, 8, 9, 10, 11] && ReversesBlock(content, content, r, 0, 0, 5)
    ensures r == [5, 4, 3, 2, 1, 6, 7, 8, 9, 10, 11]
  {
  }

  lemma FirstFiveCopiedBack(content: seq<Byte>, r: seq<Byte>)
    requires content == [1, 2, 3, 4, 5, 6, 7, 8, 9, 10, 11] && ReversesBlock(content, content, r, 0, 5, 5)
    ensures r == [1, 2, 3, 4, 5, 5, 4, 3, 2, 1, 11]
  {
  }
}

/**
  The triple-buffered asynchronous block reverser (Lab4/archunix5a.c).  While one buffer is being
  written and another is being read, the third is reversed in place.  An outstanding operation moves
  its bytes one by one, in any order, at any moments between its issue and its completion, and the
  interrupt that clears `work` may come at any moment.
 */
module BlockPipeline {
  import opened Bytes
  import opened BlockGeometry

  const BLOCKS := 3

  /** The program's SHIFT macro on positions 0, 1, 2. */
  function Shift(counter: nat, x: nat): (r: nat)
    requires counter < BLOCKS && x < BLOCKS
    ensures r < BLOCKS
  {
    if counter + x < BLOCKS then counter + x else counter + x - BLOCKS
  }

  lemma ShiftIsRemainder(counter: nat, x: nat)
    requires counter < BLOCKS && x < BLOCKS
    ensures Shift(counter, x) == (counter + x) % 3
  {
  }

  /** `curpos` after `j` turns of the loop. */
  function Position(j: nat): (r: nat)
    ensures r < BLOCKS
  {
    if j == 0 then 0 else Shift(Position(j - 1), 1)
  }

  /** The state of one control block; `moved` are the byte positions already transferred. */
  datatype Op = Idle | Reading(off: nat, moved: set<nat>) | Writing(off: nat, moved: set<nat>) | Syncing

  predicate Transfers(op: Op)
  {
    op.Reading? || op.Writing?
  }

  datatype Write = Write(off: nat, data: seq<Byte>)

  function Reversed(s: seq<Byte>): (r: seq<Byte>)
    ensures |r| == |s|
  {
    seq(|s|, i requires 0 <= i < |s| => s[|s| - 1 - i])
  }

  function Block(file: seq<Byte>, off: nat, size: nat): (b: seq<Byte>)
    requires off + size <= |file|
    ensures |b| == size
  {
    file[off..off + size]
  }

  function Overwrite(file: seq<Byte>, off: nat, data: seq<Byte>): (r: seq<Byte>)
    requires off + |data| <= |file|
    ensures |r| == |file|
  {
    file[..off] + data + file[off + |data|..]
  }

  // ---------------------------------------------------------------------------------------------
  // The sequential meaning of a schedule of block numbers.

  /** Which blocks are read and written: `sources[r]` and `targets[r]` for the r-th reversal. */
  datatype Schedule = Schedule(sources: seq<nat>, targets: seq<nat>)

  predicate InBounds(sch: Schedule, size: nat, len: nat)
  {
    && |sch.sources| == |sch.targets|
    && (forall r :: 0 <= r < |sch.sources| ==> sch.sources[r] + size <= len && sch.targets[r] + size <= len)
  }

  /** The file after the first `m` reversals when each block is read one reversal ahead: read r is
      done before write r-1, the only order the three buffers impose. */
  function FileAfter(file: seq<Byte>, size: nat, sch: Schedule, m: nat): (f: seq<Byte>)
    requires InBounds(sch, size, |file|) && m <= |sch.sources|
    ensures |f| == |file|
    decreases m, 1
  {
    if m == 0 then file
    else Overwrite(FileAfter(file, size, sch, m - 1), sch.targets[m - 1], Reversed(DataRead(file, size, sch, m - 1)))
  }

  /** What the r-th read returns. */
  function DataRead(file: seq<Byte>, size: nat, sch: Schedule, r: nat): (d: seq<Byte>)
    requires InBounds(sch, size, |file|) && r < |sch.sources|
    ensures |d| == size
    decreases r, 0
  {
    if r == 0 then Block(file, sch.sources[0], size)
    else Block(FileAfter(file, size, sch, r - 1), sch.sources[r], size)
  }

  /** The writes of the first `m` reversals. */
  function WritesOf(file: seq<Byte>, size: nat, sch: Schedule, m: nat): (ws: seq<Write>)
    requires InBounds(sch, size, |file|) && m <= |sch.sources|
    ensures |ws| == m
  {
    seq(m, r requires 0 <= r < m => Write(sch.targets[r], Reversed(DataRead(file, size, sch, r))))
  }

  lemma OneMoreWrite(file: seq<Byte>, size: nat, sch: Schedule, m: nat)
    requires InBounds(sch, size, |file|) && m < |sch.sources|
    ensures var data := Reversed(DataRead(file, size, sch, m));
            && WritesOf(file, size, sch, m + 1) == WritesOf(file, size, sch, m) + [Write(sch.targets[m], data)]
            && FileAfter(file, size, sch, m + 1) == Overwrite(FileAfter(file, size, sch, m), sch.targets[m], data)
  {
  }

  /** The block numbers the program draws: iteration j uses draws 2j+1 and 2j+2, the first read uses
      draw 0 and the last write the draw after the last iteration's. */
  function SourceBlock(draws: nat -> nat, n: nat, r: nat): (b: nat)
    requires 2 <= n
    ensures b < n
  {
    if r == 0 then draws(0) % n else Indexes(draws(2 * r - 1), draws(2 * r), n).1
  }

  function TargetBlock(draws: nat -> nat, n: nat, count: nat, iterations: nat, r: nat): (b: nat)
    requires 2 <= n && 1 <= iterations
    ensures b < n
  {
    if r + 1 == count then draws(2 * iterations - 1) % n
    else Indexes(draws(2 * r + 3), draws(2 * r + 4), n).0
  }

  function Reversals(iterations: nat): (count: nat)
  {
    if iterations <= 1 then 1 else iterations - 1
  }

  function Drawn(draws: nat -> nat, n: nat, size: nat, iterations: nat): (sch: Schedule)
    requires 2 <= n && 1 <= iterations
    ensures |sch.sources| == |sch.targets| == Reversals(iterations)
  {
    var count := Reversals(iterations);
    Schedule(seq(count, r requires 0 <= r < count => Offset(SourceBlock(draws, n, r), size)),
             seq(count, r requires 0 <= r < count => Offset(TargetBlock(draws, n, count, iterations, r), size)))
  }

  /** The offsets of the blocks drawn in iteration j: (to write, to read). */
  function OffsetsDrawn(draws: nat -> nat, n: nat, size: nat): (at: nat -> (nat, nat))
    requires 2 <= n
  {
    (j: nat) =>
      var ix := Indexes(draws(2 * j + 1), draws(2 * j + 2), n);
      (Offset(ix.0, size), Offset(ix.1, size))
  }

  /** The loop of `it` iterations working at the offsets `at` carries out the schedule. */
  ghost predicate CarriesOut(sch: Schedule, size: nat, it: nat, at: nat -> (nat, nat))
  {
    && |sch.sources| == |sch.targets| == (if it == 0 then 1 else it)
    && forall j: nat {:trigger at(j)} :: j < it ==>
         && (0 < j ==> at(j).0 == sch.targets[j - 1])
         && (j + 1 < it ==> at(j).1 == sch.sources[j + 1])
         && (0 < j && j + 1 < it ==> !Overlap(sch.targets[j - 1], sch.sources[j + 1], size))
  }

  lemma ScheduleEnds(draws: nat -> nat, n: nat, size: nat, it: nat, sch: Schedule)
    requires 2 <= n && sch == Drawn(draws, n, size, it + 1)
    ensures sch.sources[0] == draws(0) % n * size
    ensures sch.targets[|sch.targets| - 1] == draws(2 * it + 1) % n * size
  {
    assert 2 * (it + 1) - 1 == 2 * it + 1;
  }

  /** A drawn schedule stays inside the first n blocks. */
  lemma DrawnFits(draws: nat -> nat, n: nat, size: nat, iterations: nat, len: nat)
    requires 2 <= n && 1 <= iterations && n * size <= len
    ensures InBounds(Drawn(draws, n, size, iterations), size, len)
  {
    var sch := Drawn(draws, n, size, iterations);
    forall r | 0 <= r < |sch.sources|
      ensures sch.sources[r] + size <= len && sch.targets[r] + size <= len
    {
      OffsetsInOrder(SourceBlock(draws, n, r), n, size);
      OffsetsInOrder(TargetBlock(draws, n, |sch.sources|, iterations, r), n, size);
    }
  }

  /** The block written in an iteration is not the one read in it. */
  lemma ConcurrentBlocksDisjoint(draws: nat -> nat, n: nat, size: nat, iterations: nat, j: nat)
    requires 2 <= n && 0 < j && j + 2 < iterations
    ensures var sch := Drawn(draws, n, size, iterations);
            !Overlap(sch.targets[j - 1], sch.sources[j + 1], size)
  {
    var ix := Indexes(draws(2 * j + 1), draws(2 * j + 2), n);
    if ix.0 < ix.1 {
      OffsetsInOrder(ix.0, ix.1, size);
    } else {
      OffsetsInOrder(ix.1, ix.0, size);
    }
  }

  lemma DrawnIsCarriedOut(draws: nat -> nat, n: nat, size: nat, it: nat, sch: Schedule)
    requires 2 <= n && sch == Drawn(draws, n, size, it + 1)
    ensures CarriesOut(sch, size, it, OffsetsDrawn(draws, n, size))
  {
    var at := OffsetsDrawn(draws, n, size);
    forall j: nat | 0 < j < it ensures at(j).0 == sch.targets[j - 1] {
      WriteInTurn(draws, n, size, it, sch, j);
    }
    forall j: nat | j + 1 < it
      ensures at(j).1 == sch.sources[j + 1]
      ensures 0 < j ==> !Overlap(sch.targets[j - 1], sch.sources[j + 1], size)
    {
      ReadInTurn(draws, n, size, it, sch, j);
      if 0 < j {
        ConcurrentBlocksDisjoint(draws, n, size, it + 1, j);
      }
    }
  }

  lemma WriteInTurn(draws: nat -> nat, n: nat, size: nat, it: nat, sch: Schedule, j: nat)
    requires 2 <= n && sch == Drawn(draws, n, size, it + 1) && 0 < j < it
    ensures OffsetsDrawn(draws, n, size)(j).0 == sch.targets[j - 1]
  {
    assert 2 * (j - 1) + 3 == 2 * j + 1 && 2 * (j - 1) + 4 == 2 * j + 2;
  }

  lemma ReadInTurn(draws: nat -> nat, n: nat, size: nat, it: nat, sch: Schedule, j: nat)
    requires 2 <= n && sch == Drawn(draws, n, size, it + 1) && j + 1 < it
    ensures OffsetsDrawn(draws, n, size)(j).1 == sch.sources[j + 1]
  {
    assert 2 * (j + 1) - 1 == 2 * j + 1 && 2 * (j + 1) == 2 * j + 2;
  }

  // ---------------------------------------------------------------------------------------------

  /** A control block together with the contents of its buffer. */
  datatype Slot = Slot(op: Op, bytes: seq<Byte>)

  /** What may have become of a slot by itself, when `target` is the file once all writes are done:
      operations complete but do not start, only a read changes a buffer, and a completed read has
      filled it. */
  predicate Moved(target: seq<Byte>, size: nat, a: Slot, b: Slot)
  {
    && (Transfers(b.op) ==> Transfers(a.op) && b.op.Reading? == a.op.Reading? && b.op.off == a.op.off)
    && (b.op.Syncing? ==> a.op.Syncing?)
    && (!a.op.Reading? ==> b.bytes == a.bytes)
    && (a.op.Reading? && b.op.Idle? ==>
          a.op.off + size <= |target| && b.bytes == Block(target, a.op.off, size))
  }

  predicate Elapsed(target: seq<Byte>, size: nat, a: seq<Slot>, b: seq<Slot>)
  {
    |a| == |b| && forall p :: 0 <= p < |a| ==> Moved(target, size, a[p], b[p])
  }

  lemma ElapsedTwice(target: seq<Byte>, size: nat, a: seq<Slot>, b: seq<Slot>, c: seq<Slot>)
    requires Elapsed(target, size, a, b) && Elapsed(target, size, b, c)
    ensures Elapsed(target, size, a, c)
  {
    forall p | 0 <= p < |a| ensures Moved(target, size, a[p], c[p]) {
      assert Moved(target, size, a[p], b[p]) && Moved(target, size, b[p], c[p]);
    }
  }

  /** A slot the program itself changed meanwhile does not matter to the others. */
  lemma ElapsedElsewhere(target: seq<Byte>, size: nat, a: seq<Slot>, b: seq<Slot>, p: nat, x: Slot)
    requires p < |a| && |a| == |b| && x.op.Idle?
    requires Elapsed(target, size, a[p := b[p]], b)
    ensures Elapsed(target, size, a[p := x], b[p := x])
  {
    var u, v, w := a[p := x], b[p := x], a[p := b[p]];
    forall q | 0 <= q < |a| ensures Moved(target, size, u[q], v[q]) {
      assert Moved(target, size, w[q], b[q]);
    }
  }

  /** The program changed slot p, and then time passed. */
  lemma ChangedThenElapsed(target: seq<Byte>, size: nat, start: seq<Slot>, here: seq<Slot>, mid: seq<Slot>,
                           end: seq<Slot>, p: nat)
    requires p < |start| == |here| == |mid| && mid == here[p := mid[p]] && mid[p].op.Idle?
    requires Elapsed(target, size, start[p := here[p]], here) && Elapsed(target, size, mid, end)
    ensures end[p] == mid[p] && Elapsed(target, size, start[p := end[p]], end)
  {
    ElapsedElsewhere(target, size, start, here, p, mid[p]);
    assert Moved(target, size, mid[p], end[p]);
    ElapsedTwice(target, size, start[p := mid[p]], mid, end);
  }

  /** A block of which the outermost `k` pairs of bytes have been exchanged. */
  function PartlyReversed(s: seq<Byte>, k: nat): (r: seq<Byte>)
    ensures |r| == |s|
  {
    seq(|s|, i requires 0 <= i < |s| => if i < k || i >= |s| - k then s[|s| - 1 - i] else s[i])
  }

  lemma ReversalSteps(s: seq<Byte>, k: nat)
    requires k <= |s| / 2
    ensures k == 0 ==> PartlyReversed(s, k) == s
    ensures k == |s| / 2 ==> PartlyReversed(s, k) == Reversed(s)
    ensures k < |s| / 2 ==>
              var r := PartlyReversed(s, k);
              r[k := r[|s| - k - 1]][|s| - k - 1 := r[k]] == PartlyReversed(s, k + 1)
  {
  }

  ghost predicate AllIdle(v: seq<Slot>)
  {
    forall p :: 0 <= p < |v| ==> v[p].op.Idle?
  }

  /** Between iterations, uninterrupted: nothing is under way, slot `ready` holds the reversal to
      write next and the slot after it the block to reverse next. */
  ghost predicate AtRest(first: seq<Byte>, size: nat, sch: Schedule, j: nat, ready: nat, v: seq<Slot>)
    requires InBounds(sch, size, |first|)
  {
    && |v| == BLOCKS && ready < BLOCKS && j <= |sch.sources|
    && AllIdle(v)
    && (j < |sch.sources| ==> v[Shift(ready, 1)].bytes == DataRead(first, size, sch, j))
    && (0 < j ==> v[ready].bytes == Reversed(DataRead(first, size, sch, j - 1)))
  }

  /** The transfers of iteration `j` have been started: write j-1 may still be under way, block j
      waits to be reversed, and read j+1 is under way or done. */
  ghost predicate Started(first: seq<Byte>, size: nat, sch: Schedule, j: nat, curpos: nat,
                          v: seq<Slot>, target: seq<Byte>)
    requires InBounds(sch, size, |first|)
  {
    && |v| == BLOCKS && curpos < BLOCKS && j < |sch.sources|
    && (v[curpos].op.Idle? || (0 < j && v[curpos].op.Writing?))
    && v[Shift(curpos, 1)] == Slot(Idle, DataRead(first, size, sch, j))
    && var c := v[Shift(curpos, 2)].op;
       if j + 1 < |sch.sources| then
         || (c.Idle? && v[Shift(curpos, 2)].bytes == DataRead(first, size, sch, j + 1))
         || (c.Reading? && c.off + size <= |target| && Block(target, c.off, size) == DataRead(first, size, sch, j + 1))
       else c.Idle?
  }

  /** Time may pass once the transfers have been started. */
  lemma StaysStarted(first: seq<Byte>, size: nat, sch: Schedule, j: nat, curpos: nat, target: seq<Byte>,
                     v0: seq<Slot>, v1: seq<Slot>)
    requires InBounds(sch, size, |first|) && Started(first, size, sch, j, curpos, v0, target)
    requires Elapsed(target, size, v0, v1)
    ensures Started(first, size, sch, j, curpos, v1, target)
  {
    var a, b, c := curpos, Shift(curpos, 1), Shift(curpos, 2);
    assert Moved(target, size, v0[a], v1[a]) && Moved(target, size, v0[b], v1[b]) && Moved(target, size, v0[c], v1[c]);
  }

  lemma ThreeSlots(curpos: nat, p: nat)
    requires curpos < BLOCKS && p < BLOCKS
    ensures p == curpos || p == Shift(curpos, 1) || p == Shift(curpos, 2)
    ensures curpos != Shift(curpos, 1) && curpos != Shift(curpos, 2) && Shift(curpos, 1) != Shift(curpos, 2)
    ensures Shift(Shift(curpos, 1), 1) == Shift(curpos, 2)
  {
  }

  /** Once write j-1 has been started nothing but that write is under way. */
  lemma OnlyTheWriteUnderWay(first: seq<Byte>, size: nat, sch: Schedule, j: nat, curpos: nat, target: seq<Byte>,
                             v0: seq<Slot>, v1: seq<Slot>, v2: seq<Slot>)
    requires InBounds(sch, size, |first|) && AtRest(first, size, sch, j, curpos, v0) && j < |sch.sources|
    requires v1 == if j > 0 then v0[curpos := Slot(Writing(sch.targets[j - 1], {}), v0[curpos].bytes)] else v0
    requires Elapsed(target, size, v1, v2)
    ensures v2[curpos].op.Idle? || (0 < j && v2[curpos].op.Writing? && v2[curpos].op.off == sch.targets[j - 1])
    ensures v2[Shift(curpos, 1)] == Slot(Idle, DataRead(first, size, sch, j))
    ensures v2[Shift(curpos, 2)].op.Idle?
  {
    var a, b, c := curpos, Shift(curpos, 1), Shift(curpos, 2);
    ThreeSlots(curpos, 0);
    assert Moved(target, size, v1[a], v2[a]) && Moved(target, size, v1[b], v2[b]) && Moved(target, size, v1[c], v2[c]);
  }

  /** From the reversal (v0 to v1) over the waits for the write and the read (to v2) an iteration comes
      to rest with the buffers' roles rotated. */
  lemma IterationComesToRest(first: seq<Byte>, size: nat, sch: Schedule, j: nat, curpos: nat, target: seq<Byte>,
                             v0: seq<Slot>, v1: seq<Slot>, v2: seq<Slot>)
    requires InBounds(sch, size, |first|) && Started(first, size, sch, j, curpos, v0, target)
    requires |v1| == |v2| == BLOCKS
    requires v1[Shift(curpos, 1)] == Slot(Idle, Reversed(v0[Shift(curpos, 1)].bytes))
    requires Elapsed(target, size, v0[Shift(curpos, 1) := v1[Shift(curpos, 1)]], v1)
    requires Elapsed(target, size, v1, v2) && (j > 0 ==> v2[curpos].op.Idle?)
    requires j + 1 < |sch.sources| ==> v2[Shift(curpos, 2)].op.Idle?
    ensures AtRest(first, size, sch, j + 1, Shift(curpos, 1), v2)
  {
    var a, b, c := curpos, Shift(curpos, 1), Shift(curpos, 2);
    var w := v0[b := v1[b]];
    ThreeSlots(curpos, 0);
    ThreeSlots(curpos, 1);
    ThreeSlots(curpos, 2);
    assert Moved(target, size, w[a], v1[a]) && Moved(target, size, w[c], v1[c]);
    assert Moved(target, size, v1[a], v2[a]) && Moved(target, size, v1[b], v2[b]) && Moved(target, size, v1[c], v2[c]);
  }

  lemma FirstReadDone(first: seq<Byte>, size: nat, sch: Schedule, target: seq<Byte>,
                      v0: seq<Slot>, v1: seq<Slot>, v2: seq<Slot>)
    requires InBounds(sch, size, |first|) && 0 < |sch.sources| && target == first
    requires |v0| == BLOCKS && AllIdle(v0)
    requires v1 == v0[1 := Slot(Reading(sch.sources[0], {}), v0[1].bytes)]
    requires Elapsed(target, size, v1, v2) && v2[1].op.Idle?
    ensures AtRest(first, size, sch, 0, 0, v2)
  {
    assert Moved(target, size, v1[0], v2[0]) && Moved(target, size, v1[1], v2[1]) && Moved(target, size, v1[2], v2[2]);
  }

  lemma ReadyForLastWrite(first: seq<Byte>, size: nat, sch: Schedule, it: nat, curpos: nat, target: seq<Byte>,
                          v0: seq<Slot>, v1: seq<Slot>)
    requires InBounds(sch, size, |first|) && |sch.sources| == (if it == 0 then 1 else it)
    requires AtRest(first, size, sch, it, Position(it), v0) && |v1| == BLOCKS
    requires curpos == if it == 0 then 1 else Position(it)
    requires if it == 0 then
               && v1[1] == Slot(Idle, Reversed(v0[1].bytes))
               && Elapsed(target, size, v0[1 := v1[1]], v1)
             else v1 == v0
    ensures AllIdle(v1)
    ensures v1[curpos].bytes == Reversed(DataRead(first, size, sch, |sch.sources| - 1))
  {
    if it == 0 {
      var w := v0[1 := v1[1]];
      assert Moved(target, size, w[0], v1[0]) && Moved(target, size, w[2], v1[2]);
    }
  }

  lemma OnlyOneWasBusy(target: seq<Byte>, size: nat, p: nat, v1: seq<Slot>, v2: seq<Slot>, v3: seq<Slot>)
    requires |v1| == BLOCKS && p < BLOCKS && AllIdle(v1)
    requires |v2| == BLOCKS && v2 == v1[p := v2[p]]
    requires Elapsed(target, size, v2, v3) && v3[p].op.Idle?
    ensures AllIdle(v3)
  {
    forall q | 0 <= q < BLOCKS ensures v3[q].op.Idle? {
      assert Moved(target, size, v2[q], v3[q]);
    }
  }

  /** The writes issued, the file once they are done and the file before the last of them are those of
      the first `m` reversals of the schedule. */
  ghost predicate WritesFollow(first: seq<Byte>, size: nat, sch: Schedule, m: nat, issued: seq<Write>,
                               target: seq<Byte>, prior: seq<Byte>)
    requires InBounds(sch, size, |first|)
  {
    && m <= |sch.sources|
    && issued == WritesOf(first, size, sch, m)
    && target == FileAfter(first, size, sch, m)
    && prior == FileAfter(first, size, sch, Before(m))
  }

  function Before(m: nat): (b: nat)
  {
    if m == 0 then 0 else m - 1
  }

  lemma NextWriteFollows(first: seq<Byte>, size: nat, sch: Schedule, m: nat, issued: seq<Write>,
                         target: seq<Byte>, prior: seq<Byte>, data: seq<Byte>)
    requires InBounds(sch, size, |first|) && WritesFollow(first, size, sch, m, issued, target, prior)
    requires m < |sch.sources| && data == Reversed(DataRead(first, size, sch, m))
    ensures WritesFollow(first, size, sch, m + 1, issued + [Write(sch.targets[m], data)],
                         Overwrite(target, sch.targets[m], data), target)
  {
    OneMoreWrite(first, size, sch, m);
  }

  /** Starting read j+1 beside write j-1. */
  lemma ReadStarted(first: seq<Byte>, size: nat, sch: Schedule, j: nat, curpos: nat, target: seq<Byte>,
                    v0: seq<Slot>, v1: seq<Slot>)
    requires InBounds(sch, size, |first|) && j + 1 < |sch.sources| && |v0| == BLOCKS && curpos < BLOCKS
    requires v0[curpos].op.Idle? || (0 < j && v0[curpos].op.Writing?)
    requires v0[Shift(curpos, 1)] == Slot(Idle, DataRead(first, size, sch, j))
    requires v1 == v0[Shift(curpos, 2) := Slot(Reading(sch.sources[j + 1], {}), v0[Shift(curpos, 2)].bytes)]
    requires target == FileAfter(first, size, sch, j)
    ensures Started(first, size, sch, j, curpos, v1, target)
  {
    ThreeSlots(curpos, 0);
    assert DataRead(first, size, sch, j + 1) == Block(target, sch.sources[j + 1], size);
  }

  /** In the last iteration there is no block left to read. */
  lemma NothingToRead(first: seq<Byte>, size: nat, sch: Schedule, j: nat, curpos: nat, target: seq<Byte>, v: seq<Slot>)
    requires InBounds(sch, size, |first|) && j + 1 == |sch.sources| && |v| == BLOCKS && curpos < BLOCKS
    requires v[curpos].op.Idle? || (0 < j && v[curpos].op.Writing?)
    requires v[Shift(curpos, 1)] == Slot(Idle, DataRead(first, size, sch, j)) && v[Shift(curpos, 2)].op.Idle?
    ensures Started(first, size, sch, j, curpos, v, target)
  {
  }

  lemma FlushedAsBefore(target: seq<Byte>, size: nat, p: nat, v0: seq<Slot>, v1: seq<Slot>, v2: seq<Slot>)
    requires p < |v0| && v0[p].op.Idle? && v1 == v0[p := Slot(Syncing, v0[p].bytes)] && Elapsed(target, size, v1, v2)
    ensures v2[p].op.Idle? ==> Elapsed(target, size, v0, v2)
  {
    forall q | 0 <= q < |v0| && v2[p].op.Idle? ensures Moved(target, size, v0[q], v2[q]) {
      assert Moved(target, size, v1[q], v2[q]);
    }
  }

  class Pipeline {
    const buffer: seq<array<Byte>>
    const size: nat
    var file: seq<Byte>
    var ops: seq<Op>
    var work: bool
    /** The file once the operations under way are done. */
    ghost var target: seq<Byte>
    /** The file before the last write was started. */
    ghost var prior: seq<Byte>
    /** Everything handed to aio_write and aio_read so far. */
    ghost var issued: seq<Write>
    ghost var requested: seq<nat>

    ghost predicate Buffers()
    {
      && |buffer| == BLOCKS
      && (forall p :: 0 <= p < BLOCKS ==> buffer[p].Length == size)
      && (forall p, q :: 0 <= p < q < BLOCKS ==> buffer[p] != buffer[q])
    }

    ghost function At(p: nat): (s: Slot)
      requires |ops| == BLOCKS && |buffer| == BLOCKS && p < BLOCKS
      reads this, buffer
    {
      Slot(ops[p], buffer[p][..])
    }

    ghost function View(): (v: seq<Slot>)
      requires |ops| == BLOCKS && |buffer| == BLOCKS
      reads this, buffer
      ensures |v| == BLOCKS && forall p :: 0 <= p < BLOCKS ==> v[p] == At(p)
    {
      [At(0), At(1), At(2)]
    }

    /** A write under way still has to bring byte `x` of the file up to date. */
    predicate Covers(op: Op, x: nat)
    {
      op.Writing? && op.off <= x < op.off + size && x - op.off !in op.moved
    }

    ghost predicate Settled(x: nat)
      reads this
    {
      forall p :: 0 <= p < |ops| ==> !Covers(ops[p], x)
    }

    /** A read delivers, and a write puts in place, the bytes of `target`. */
    ghost predicate OpValid(p: nat)
      requires Buffers() && p < BLOCKS && |ops| == BLOCKS
      reads this, buffer[p]
    {
      Transfers(ops[p]) ==>
        && ops[p].off + size <= |target|
        && forall i {:trigger buffer[p][i]} :: 0 <= i < size && (ops[p].Writing? || i in ops[p].moved) ==>
             buffer[p][i] == target[ops[p].off + i]
    }

    predicate Compatible(a: Op, b: Op)
    {
      !Transfers(a) || !Transfers(b) || (a.Reading? && b.Reading?) || !Overlap(a.off, b.off, size)
    }

    /** At any moment every byte of the file is as before or as after the last write. */
    ghost predicate Torn()
      reads this
    {
      |prior| == |target| == |file| &&
      forall x {:trigger prior[x]} :: 0 <= x < |file| ==> file[x] == target[x] || file[x] == prior[x]
    }

    ghost predicate Valid()
      reads this, buffer
    {
      && Buffers()
      && |ops| == BLOCKS
      && Torn()
      && (forall p :: 0 <= p < BLOCKS ==> OpValid(p))
      && (forall p, q :: 0 <= p < q < BLOCKS ==> Compatible(ops[p], ops[q]))
      && (forall x {:trigger Settled(x)} :: 0 <= x < |file| && Settled(x) ==> file[x] == target[x])
    }

    /** The file as opened, with three zeroed buffers and nothing under way. */
    constructor (content: seq<Byte>, blockSize: nat)
      ensures Valid() && AllIdle(View()) && work && size == blockSize
      ensures file == target == prior == content && issued == [] && requested == []
      ensures forall p :: 0 <= p < BLOCKS ==> fresh(buffer[p])
    {
      var b0, b1, b2 := new Byte[blockSize](_ => NUL), new Byte[blockSize](_ => NUL), new Byte[blockSize](_ => NUL);
      buffer, size := [b0, b1, b2], blockSize;
      file, target, prior, ops, work := content, content, content, [Idle, Idle, Idle], true;
      issued, requested := [], [];
    }

    // ---- the environment --------------------------------------------------------------------

    /** One byte of one outstanding read moves. */
    method TransferRead(p: nat, i: nat)
      requires Valid() && p < BLOCKS && i < size && ops[p].Reading?
      modifies this`ops, buffer[p]
      ensures Valid()
      ensures ops[p] == Reading(old(ops[p]).off, old(ops[p]).moved + {i})
      ensures forall q :: 0 <= q < BLOCKS && q != p ==> At(q) == old(At(q))
    {
      assert OpValid(p);
      var x := ops[p].off + i;
      forall q | 0 <= q < BLOCKS ensures !Covers(ops[q], x) {
        assert q < p ==> Compatible(ops[q], ops[p]);
        assert p < q ==> Compatible(ops[p], ops[q]);
      }
      assert Settled(x);
      buffer[p][i] := file[x];
      ops := ops[p := Reading(ops[p].off, ops[p].moved + {i})];
      forall q | 0 <= q < BLOCKS ensures OpValid(q) {
        assert old(OpValid(q));
      }
      forall y | 0 <= y < |file| && Settled(y) ensures file[y] == target[y] {
        assert forall q :: 0 <= q < BLOCKS ==> !Covers(ops[q], y) && !old(Covers(ops[q], y));
        assert old(Settled(y));
      }
    }

    /** One byte of one outstanding write moves. */
    method TransferWrite(p: nat, i: nat)
      requires Valid() && p < BLOCKS && i < size && ops[p].Writing?
      modifies this`ops, this`file
      ensures Valid()
      ensures ops == old(ops)[p := Writing(old(ops[p]).off, old(ops[p]).moved + {i})]
    {
      assert OpValid(p);
      file := file[ops[p].off + i := buffer[p][i]];
      ops := ops[p := Writing(ops[p].off, ops[p].moved + {i})];
      forall q | 0 <= q < BLOCKS ensures OpValid(q) {
        assert old(OpValid(q));
      }
      forall y | 0 <= y < |file| && Settled(y) ensures file[y] == target[y] {
        if y != ops[p].off + i {
          assert forall q :: 0 <= q < BLOCKS ==> !Covers(ops[q], y) && !old(Covers(ops[q], y));
          assert old(Settled(y));
        }
      }
    }

    /** An operation all of whose bytes moved is done. */
    method Complete(p: nat)
      requires Valid() && p < BLOCKS && !ops[p].Idle?
      requires Transfers(ops[p]) ==> forall i :: 0 <= i < size ==> i in ops[p].moved
      modifies this`ops
      ensures Valid() && ops == old(ops)[p := Idle]
      ensures Elapsed(target, size, old(View()), View())
    {
      assert OpValid(p);
      assert ops[p].Reading? ==> buffer[p][..] == Block(target, ops[p].off, size);
      ops := ops[p := Idle];
      forall q | 0 <= q < BLOCKS ensures OpValid(q) {
        assert old(OpValid(q));
      }
      forall y | 0 <= y < |file| && Settled(y) ensures file[y] == target[y] {
        assert forall q :: 0 <= q < BLOCKS ==> !Covers(ops[q], y) && !old(Covers(ops[q], y));
        assert old(Settled(y));
      }
    }

    /** The interrupt handler. */
    method Interrupt()
      requires Valid()
      modifies this`work
      ensures Valid() && !work
    {
      work := false;
      assert forall q :: 0 <= q < BLOCKS ==> old(OpValid(q)) ==> OpValid(q);
      assert forall y :: old(Settled(y)) == Settled(y);
    }

    /** Time passes: one of the things that can happen by themselves happens, or nothing. */
    method Happen()
      requires Valid()
      modifies this`file, this`ops, this`work, buffer
      ensures Valid() && Elapsed(target, size, old(View()), View())
      ensures work ==> old(work)
    {
      var p, i :| 0 <= p && 0 <= i;
      if p < BLOCKS && i < size && ops[p].Reading? {
        TransferRead(p, i);
      } else if p < BLOCKS && i < size && ops[p].Writing? {
        TransferWrite(p, i);
      } else if p < BLOCKS && Transfers(ops[p]) && forall k :: 0 <= k < size ==> k in ops[p].moved {
        Complete(p);
      } else if p < BLOCKS && ops[p].Syncing? {
        Complete(p);
      } else if * {
        Interrupt();
      }
    }

    /** Any number of such events, between any two statements of the program. */
    method Settle()
      requires Valid()
      modifies this`file, this`ops, this`work, buffer
      ensures Valid() && Elapsed(target, size, old(View()), View())
      ensures work ==> old(work)
    {
      var events :| 0 <= events;
      for k := 0 to events
        invariant Valid() && Elapsed(target, size, old(View()), View())
        invariant work ==> old(work)
      {
        ghost var before := View();
        Happen();
        ElapsedTwice(target, size, old(View()), before, View());
      }
    }

    /** The rest of an operation's bytes move and it is done. */
    method Finish(p: nat)
      requires Valid() && p < BLOCKS && !ops[p].Idle?
      modifies this`file, this`ops, buffer
      ensures Valid() && ops[p].Idle?
      ensures Elapsed(target, size, old(View()), View())
    {
      if Transfers(ops[p]) {
        MoveAll(p);
      }
      ghost var before := View();
      Complete(p);
      ElapsedTwice(target, size, old(View()), before, View());
    }

    method MoveAll(p: nat)
      requires Valid() && p < BLOCKS && Transfers(ops[p])
      modifies this`file, this`ops, buffer
      ensures Valid() && Transfers(ops[p]) && forall k :: 0 <= k < size ==> k in ops[p].moved
      ensures Elapsed(target, size, old(View()), View())
    {
      for i := 0 to size
        invariant Valid() && Elapsed(target, size, old(View()), View())
        invariant Transfers(ops[p])
        invariant forall k :: 0 <= k < i ==> k in ops[p].moved
      {
        ghost var before := View();
        if ops[p].Reading? {
          TransferRead(p, i);
        } else {
          TransferWrite(p, i);
        }
        ElapsedTwice(target, size, old(View()), before, View());
      }
    }

    // ---- the program ------------------------------------------------------------------------

    /** Waits for control block `p`; gives up only when interrupted. */
    method Suspend(p: nat)
      requires Valid() && p < BLOCKS
      modifies this`file, this`ops, this`work, buffer
      ensures Valid() && Elapsed(target, size, old(View()), View())
      ensures work ==> old(work) && ops[p].Idle?
    {
      if !work {
        return;
      }
      Settle();
      if work {
        AwaitCompletion(p);
      }
    }

    /** aio_suspend returns 0: the operation is complete, and something may happen before the next test. */
    method AwaitCompletion(p: nat)
      requires Valid() && p < BLOCKS && work
      modifies this`file, this`ops, this`work, buffer
      ensures Valid() && Elapsed(target, size, old(View()), View())
      ensures ops[p].Idle?
    {
      if !ops[p].Idle? {
        Finish(p);
      }
      ghost var done := View();
      assert done[p].op.Idle?;
      Settle();
      assert Moved(target, size, done[p], View()[p]);
      ElapsedTwice(target, size, old(View()), done, View());
    }

    /** Starts reading a block into buffer `p`, unless interrupted. */
    method ReadData(p: nat, off: nat)
      requires Valid() && p < BLOCKS
      requires work ==> ops[p].Idle? && off + size <= |target|
      requires work ==> forall q :: 0 <= q < BLOCKS ==> Compatible(ops[q], Reading(off, {}))
      modifies this`ops, this`requested
      ensures Valid()
      ensures View() == if work then old(View())[p := Slot(Reading(off, {}), old(At(p)).bytes)] else old(View())
      ensures requested == if work then old(requested) + [off] else old(requested)
    {
      if !work {
        return;
      }
      ops := ops[p := Reading(off, {})];
      requested := requested + [off];
      forall q | 0 <= q < BLOCKS ensures OpValid(q) {
        assert old(OpValid(q));
      }
      forall y | 0 <= y < |file| && Settled(y) ensures file[y] == target[y] {
        assert forall q :: 0 <= q < BLOCKS ==> !Covers(ops[q], y) && !old(Covers(ops[q], y));
        assert old(Settled(y));
      }
    }

    lemma NoWriteUnderWay()
      requires Valid() && forall q :: 0 <= q < BLOCKS ==> !ops[q].Writing?
      ensures file == target
    {
      forall x | 0 <= x < |file| ensures file[x] == target[x] {
        assert Settled(x);
      }
    }

    /** Starts writing buffer `p` to a block, unless interrupted. */
    method WriteData(p: nat, off: nat)
      requires Valid() && p < BLOCKS
      requires work ==> ops[p].Idle? && off + size <= |target|
      requires work ==> forall q :: 0 <= q < BLOCKS ==> !ops[q].Writing? && Compatible(ops[q], Writing(off, {}))
      modifies this`ops, this`target, this`prior, this`issued
      ensures Valid() && |target| == |old(target)|
      ensures prior == if work then old(target) else old(prior)
      ensures View() == if work then old(View())[p := Slot(Writing(off, {}), old(At(p)).bytes)] else old(View())
      ensures target == if work then Overwrite(old(target), off, old(At(p)).bytes) else old(target)
      ensures issued == if work then old(issued) + [Write(off, old(At(p)).bytes)] else old(issued)
    {
      if !work {
        return;
      }
      NoWriteUnderWay();
      prior := target;
      ops := ops[p := Writing(off, {})];
      issued := issued + [Write(off, buffer[p][..])];
      target := Overwrite(target, off, buffer[p][..]);
      forall q | 0 <= q < BLOCKS ensures OpValid(q) {
        assert old(OpValid(q));
        assert old(Compatible(ops[q], Writing(off, {})));
      }
      forall y | 0 <= y < |file| && Settled(y) ensures file[y] == target[y] {
        assert !Covers(ops[p], y);
        assert forall q :: 0 <= q < BLOCKS ==> !Covers(ops[q], y) && !old(Covers(ops[q], y));
        assert old(Settled(y));
      }
    }

    /** Waits for a write, then asks for the file to be flushed and waits for that. */
    method SyncData(p: nat)
      requires Valid() && p < BLOCKS
      modifies this`file, this`ops, this`work, buffer
      ensures Valid()
      ensures work ==> old(work) && ops[p].Idle? && Elapsed(target, size, old(View()), View())
    {
      if !work {
        return;
      }
      Suspend(p);
      if work {
        Flush(p);
      }
    }

    /** The request to flush keeps its control block busy but moves no data. */
    method Flush(p: nat)
      requires Valid() && p < BLOCKS && work && ops[p].Idle?
      modifies this`file, this`ops, this`work, buffer
      ensures Valid()
      ensures work ==> ops[p].Idle? && Elapsed(target, size, old(View()), View())
    {
      ghost var v0 := View();
      ops := ops[p := Syncing];
      forall q | 0 <= q < BLOCKS ensures OpValid(q) {
        assert old(OpValid(q));
      }
      forall y | 0 <= y < |file| && Settled(y) ensures file[y] == target[y] {
        assert forall q :: 0 <= q < BLOCKS ==> !Covers(ops[q], y) && !old(Covers(ops[q], y));
        assert old(Settled(y));
      }
      ghost var v1 := View();
      Suspend(p);
      FlushedAsBefore(target, size, p, v0, v1, View());
    }

    /** Reverses buffer `p` in place while the other buffers are in use; an interrupt stops it half
        way, but then `work` is false. */
    method ReverseBuffer(p: nat)
      requires Valid() && p < BLOCKS
      requires work ==> ops[p].Idle?
      modifies this`file, this`ops, this`work, buffer
      ensures Valid() && Elapsed(target, size, old(View())[p := At(p)], View())
      ensures work ==> old(work) && At(p) == Slot(Idle, Reversed(old(At(p)).bytes))
    {
      ghost var before := At(p).bytes;
      var k := 0;
      ReversalSteps(before, 0);
      while work && k < size / 2
        invariant Valid() && 0 <= k <= size / 2
        invariant Elapsed(target, size, old(View())[p := At(p)], View())
        invariant work ==> old(work) && At(p) == Slot(Idle, PartlyReversed(before, k))
        decreases size / 2 - k
      {
        SwapAndSettle(p, k, before, old(View()));
        k := k + 1;
      }
      ReversalSteps(before, k);
    }

    /** One turn of the reversal, the environment included; `before` is the block and `start` the view
        before the loop. */
    method SwapAndSettle(p: nat, k: nat, ghost before: seq<Byte>, ghost start: seq<Slot>)
      requires Valid() && p < BLOCKS && k < size / 2
      requires |before| == size && At(p) == Slot(Idle, PartlyReversed(before, k))
      requires |start| == BLOCKS && Elapsed(target, size, start[p := At(p)], View())
      modifies this`file, this`ops, this`work, buffer
      ensures Valid() && Elapsed(target, size, start[p := At(p)], View())
      ensures work ==> old(work)
      ensures At(p) == Slot(Idle, PartlyReversed(before, k + 1))
    {
      ghost var here := View();
      SwapStep(p, k, before);
      ghost var mid := View();
      assert mid == here[p := mid[p]];
      Settle();
      ChangedThenElapsed(target, size, start, here, mid, View(), p);
    }

    /** The next pair of bytes is exchanged. */
    method SwapStep(p: nat, k: nat, ghost before: seq<Byte>)
      requires Valid() && p < BLOCKS && k < size / 2
      requires |before| == size && At(p) == Slot(Idle, PartlyReversed(before, k))
      modifies buffer[p]
      ensures Valid() && At(p) == Slot(Idle, PartlyReversed(before, k + 1))
      ensures forall q :: 0 <= q < BLOCKS && q != p ==> At(q) == old(At(q))
    {
      ReversalSteps(before, k);
      SwapMirrored(p, k);
    }

    method SwapMirrored(p: nat, k: nat)
      requires Valid() && p < BLOCKS && ops[p].Idle? && k < size / 2
      modifies buffer[p]
      ensures Valid()
      ensures var b := old(At(p)).bytes;
              At(p) == Slot(Idle, b[k := b[size - k - 1]][size - k - 1 := b[k]])
      ensures forall q :: 0 <= q < BLOCKS && q != p ==> At(q) == old(At(q))
    {
      var tmp := buffer[p][k];
      buffer[p][k] := buffer[p][size - k - 1];
      buffer[p][size - k - 1] := tmp;
      forall q | 0 <= q < BLOCKS ensures OpValid(q) {
        assert old(OpValid(q));
      }
      assert forall y :: old(Settled(y)) == Settled(y);
    }

    /** Everything the issued operations amount to: the first |issued| writes of the schedule, each
        with the complete reversal of a completely read block. */
    ghost predicate Follows(first: seq<Byte>, sch: Schedule)
      requires InBounds(sch, size, |first|)
      reads this
    {
      WritesFollow(first, size, sch, |issued|, issued, target, prior) && requested <= sch.sources
    }

    /** What the loop body relies on about its own turn; `at` are the offsets of the drawn blocks. */
    ghost predicate Turn(first: seq<Byte>, sch: Schedule, j: nat, curpos: nat, at: (nat, nat))
      reads this
    {
      && curpos < BLOCKS && InBounds(sch, size, |first|) && |file| == |first| && j < |sch.sources|
      && (0 < j ==> at.0 == sch.targets[j - 1])
      && (j + 1 < |sch.sources| ==> at.1 == sch.sources[j + 1])
      && (0 < j < |sch.sources| - 1 ==> !Overlap(sch.targets[j - 1], sch.sources[j + 1], size))
    }

    lemma OpsAreIdle()
      requires Valid() && AllIdle(View())
      ensures forall q :: 0 <= q < BLOCKS ==> ops[q].Idle?
    {
      assert forall q :: 0 <= q < BLOCKS ==> View()[q].op == ops[q];
    }

    method StartWrite(ghost first: seq<Byte>, ghost sch: Schedule, j: nat, curpos: nat, at: (nat, nat))
      requires Valid() && Turn(first, sch, j, curpos, at) && Follows(first, sch)
      requires work ==> AtRest(first, size, sch, j, curpos, View()) && |issued| == if j == 0 then 0 else j - 1
      modifies this`ops, this`target, this`prior, this`issued
      ensures Valid() && |file| == |first| && Follows(first, sch)
      ensures work ==> |issued| == j
      ensures View() == if work && j > 0 then
                          old(View())[curpos := Slot(Writing(sch.targets[j - 1], {}), old(At(curpos)).bytes)]
                        else old(View())
    {
      if j > 0 {
        ghost var data := At(curpos).bytes;
        assert View()[curpos].bytes == data;
        if work {
          NextWriteFollows(first, size, sch, j - 1, issued, target, prior, data);
          OpsAreIdle();
        }
        WriteData(curpos, at.0);
      }
    }

    method StartTransfers(ghost first: seq<Byte>, ghost sch: Schedule, j: nat, curpos: nat, last: nat, at: (nat, nat))
      requires Valid() && Turn(first, sch, j, curpos, at) && Follows(first, sch)
      requires work ==> AtRest(first, size, sch, j, curpos, View()) && |issued| == if j == 0 then 0 else j - 1
      requires work ==> |requested| == if j < last then j + 1 else j
      requires last == |sch.sources|
      modifies this, buffer
      ensures Valid() && |file| == |first| && Follows(first, sch)
      ensures work ==> old(work) && Started(first, size, sch, j, curpos, View(), target)
      ensures work ==> |issued| == j && |requested| == if j + 1 < last then j + 2 else j + 1
    {
      WriteAndSettle(first, sch, j, curpos, at);
      if j < last - 1 {
        StartRead(first, sch, j, curpos, at);
      } else if work {
        NothingToRead(first, size, sch, j, curpos, target, View());
      }
      SettleStarted(first, sch, j, curpos);
    }

    method SettleStarted(ghost first: seq<Byte>, ghost sch: Schedule, j: nat, curpos: nat)
      requires Valid() && InBounds(sch, size, |first|)
      requires work ==> Started(first, size, sch, j, curpos, View(), target)
      modifies this`file, this`ops, this`work, buffer
      ensures Valid() && |file| == |old(file)|
      ensures work ==> old(work) && Started(first, size, sch, j, curpos, View(), target)
    {
      ghost var v := View();
      Settle();
      if work {
        StaysStarted(first, size, sch, j, curpos, target, v, View());
      }
    }

    /** The write of the previous reversal has been started, and some time has passed. */
    ghost predicate WriteStarted(first: seq<Byte>, sch: Schedule, j: nat, curpos: nat)
      requires InBounds(sch, size, |first|) && |ops| == BLOCKS && |buffer| == BLOCKS && curpos < BLOCKS
      reads this, buffer
    {
      && j < |sch.sources|
      && |issued| == j && |requested| == j + 1
      && (ops[curpos].Idle? || (0 < j && ops[curpos].Writing? && ops[curpos].off == sch.targets[j - 1]))
      && At(Shift(curpos, 1)) == Slot(Idle, DataRead(first, size, sch, j))
      && ops[Shift(curpos, 2)].Idle?
    }

    method WriteAndSettle(ghost first: seq<Byte>, ghost sch: Schedule, j: nat, curpos: nat, at: (nat, nat))
      requires Valid() && Turn(first, sch, j, curpos, at) && Follows(first, sch)
      requires work ==> AtRest(first, size, sch, j, curpos, View()) && |issued| == if j == 0 then 0 else j - 1
      requires work ==> |requested| == j + 1
      modifies this`file, this`ops, this`work, this`target, this`prior, this`issued, buffer
      ensures Valid() && |file| == |first| && Follows(first, sch)
      ensures work ==> old(work) && WriteStarted(first, sch, j, curpos)
    {
      ghost var v0 := View();
      StartWrite(first, sch, j, curpos, at);
      ghost var v1 := View();
      Settle();
      if work {
        OnlyTheWriteUnderWay(first, size, sch, j, curpos, target, v0, v1, View());
      }
    }

    /** The drawn block may be read while the write is under way. */
    lemma ReadBesideWrite(first: seq<Byte>, sch: Schedule, j: nat, curpos: nat, at: (nat, nat))
      requires Valid() && Turn(first, sch, j, curpos, at) && j + 1 < |sch.sources|
      requires WriteStarted(first, sch, j, curpos)
      ensures forall p :: 0 <= p < BLOCKS ==> Compatible(ops[p], Reading(at.1, {}))
    {
      forall p | 0 <= p < BLOCKS ensures Compatible(ops[p], Reading(at.1, {})) {
        ThreeSlots(curpos, p);
        assert At(Shift(curpos, 1)).op.Idle?;
      }
    }

    method StartRead(ghost first: seq<Byte>, ghost sch: Schedule, j: nat, curpos: nat, at: (nat, nat))
      requires Valid() && Turn(first, sch, j, curpos, at) && Follows(first, sch) && j + 1 < |sch.sources|
      requires work ==> WriteStarted(first, sch, j, curpos)
      modifies this`ops, this`requested
      ensures Valid() && Follows(first, sch)
      ensures work ==> Started(first, size, sch, j, curpos, View(), target) && |requested| == j + 2
    {
      ghost var v := View();
      if work {
        ReadBesideWrite(first, sch, j, curpos, at);
      }
      ReadData(Shift(curpos, 2), at.1);
      if work {
        ReadStarted(first, size, sch, j, curpos, target, v, View());
      }
    }

    /** One iteration of the rotating loop. */
    method Iteration(ghost first: seq<Byte>, ghost sch: Schedule, j: nat, curpos: nat, last: nat, at: (nat, nat))
      requires Valid() && Turn(first, sch, j, curpos, at) && Follows(first, sch)
      requires work ==> AtRest(first, size, sch, j, curpos, View()) && |issued| == if j == 0 then 0 else j - 1
      requires work ==> |requested| == if j < last then j + 1 else j
      requires last == |sch.sources|
      modifies this, buffer
      ensures Valid() && |file| == |first| && Follows(first, sch)
      ensures work ==> old(work) && AtRest(first, size, sch, j + 1, Shift(curpos, 1), View())
      ensures work ==> |issued| == j && |requested| == if j + 1 < last then j + 2 else j + 1
    {
      StartTransfers(first, sch, j, curpos, last, at);
      FinishIteration(first, sch, j, curpos, last);
    }

    /** The reversal and the two waits. */
    method FinishIteration(ghost first: seq<Byte>, ghost sch: Schedule, j: nat, curpos: nat, last: nat)
      requires Valid() && curpos < BLOCKS && InBounds(sch, size, |first|) && last == |sch.sources|
      requires work ==> Started(first, size, sch, j, curpos, View(), target)
      modifies this`file, this`ops, this`work, buffer
      ensures Valid() && |file| == |old(file)|
      ensures work ==> old(work) && AtRest(first, size, sch, j + 1, Shift(curpos, 1), View())
    {
      ghost var v0 := View();
      ReverseBuffer(Shift(curpos, 1));
      ghost var v1 := View();
      AwaitBoth(j, curpos, last);
      if work {
        IterationComesToRest(first, size, sch, j, curpos, target, v0, v1, View());
      }
    }

    /** The waits for the write and for the read, where there are any. */
    method AwaitBoth(j: nat, curpos: nat, last: nat)
      requires Valid() && curpos < BLOCKS
      modifies this`file, this`ops, this`work, buffer
      ensures Valid() && |file| == |old(file)|
      ensures work ==> old(work) && Elapsed(target, size, old(View()), View())
      ensures work ==> (j > 0 ==> ops[curpos].Idle?) && (j < last - 1 ==> ops[Shift(curpos, 2)].Idle?)
    {
      ghost var v0 := View();
      if j > 0 {
        SyncData(curpos);
      }
      ghost var v1 := View();
      if j < last - 1 {
        Suspend(Shift(curpos, 2));
        if work {
          ElapsedTwice(target, size, v0, v1, View());
          assert Moved(target, size, v1[curpos], View()[curpos]);
        }
      }
    }

    /** The whole run, `draws` being the random numbers in the order they are drawn.  Uninterrupted,
        the file ends up as after all scheduled reversals.  Interrupted at any moment, what was
        handed to aio_write is a prefix of the uninterrupted run's writes, each a complete reversal
        of a completely read block, and the file differs from the state after those writes only
        where a write is still under way. */
    method ProcessBlocks(draws: nat -> nat, bcount: nat, iterations: nat)
      requires Valid() && AllIdle(View())
      requires 2 <= bcount && 1 <= iterations && bcount * size <= |file|
      requires issued == [] && requested == [] && prior == file
      modifies this, buffer
      ensures Valid() && |file| == |old(file)|
      ensures var sch := Drawn(draws, bcount, size, iterations);
              InBounds(sch, size, |old(file)|) && Follows(old(file), sch)
      ensures var sch := Drawn(draws, bcount, size, iterations);
              work ==>
                && InBounds(sch, size, |old(file)|)
                && |issued| == Reversals(iterations) && requested == sch.sources
                && file == FileAfter(old(file), size, sch, Reversals(iterations))
    {
      ghost var first, sch := file, Drawn(draws, bcount, size, iterations);
      DrawnFits(draws, bcount, size, iterations, |file|);
      AllSettled();
      var it := iterations - 1;
      var curpos := if it == 0 then 1 else 0;
      ScheduleEnds(draws, bcount, size, it, sch);
      DrawnIsCarriedOut(draws, bcount, size, it, sch);
      FirstRead(first, sch, it, draws(0) % bcount * size);
      curpos := Rotate(first, sch, draws, bcount, it, curpos);
      LastReversal(first, sch, it, curpos, draws(2 * it + 1) % bcount * size);
    }

    /** What holds between any two statements of the run, interrupted or not. */
    ghost predicate Running(first: seq<Byte>, sch: Schedule, it: nat)
      reads this, buffer
    {
      && Valid() && InBounds(sch, size, |first|) && |file| == |first| && Follows(first, sch)
      && |sch.sources| == (if it == 0 then 1 else it)
    }

    /** The state at the head of the loop, not interrupted. */
    ghost predicate LoopHead(first: seq<Byte>, sch: Schedule, it: nat, j: nat)
      requires Running(first, sch, it)
      reads this, buffer
    {
      && j <= it
      && AtRest(first, size, sch, j, Position(j), View())
      && |issued| == (if j == 0 then 0 else j - 1)
      && |requested| == if j < |sch.sources| then j + 1 else j
    }

    method DrawAndIterate(ghost first: seq<Byte>, ghost sch: Schedule, draws: nat -> nat, bcount: nat, it: nat, j: nat)
      requires 2 <= bcount && CarriesOut(sch, size, it, OffsetsDrawn(draws, bcount, size))
      requires Running(first, sch, it) && (work ==> LoopHead(first, sch, it, j)) && j < it
      modifies this, buffer
      ensures Running(first, sch, it) && (work ==> LoopHead(first, sch, it, j + 1))
    {
      var at := DrawOffsets(draws, bcount, j);
      Iteration(first, sch, j, Position(j), it, at);
      assert Position(j + 1) == Shift(Position(j), 1);
    }

    method DrawOffsets(draws: nat -> nat, bcount: nat, j: nat) returns (at: (nat, nat))
      requires 2 <= bcount
      ensures at == OffsetsDrawn(draws, bcount, size)(j)
    {
      var index := GetIndexes(draws(2 * j + 1), draws(2 * j + 2), bcount);
      at := (index[0] * size, index[1] * size);
    }

    /** The loop: all iterations, or as many as there are before an interrupt. */
    method Rotate(ghost first: seq<Byte>, ghost sch: Schedule, draws: nat -> nat, bcount: nat, it: nat, start: nat)
        returns (curpos: nat)
      requires 2 <= bcount && CarriesOut(sch, size, it, OffsetsDrawn(draws, bcount, size))
      requires Running(first, sch, it) && (work ==> LoopHead(first, sch, it, 0))
      requires start == if it == 0 then 1 else 0
      modifies this, buffer
      ensures Running(first, sch, it) && (work ==> LoopHead(first, sch, it, it))
      ensures curpos < BLOCKS && (work ==> curpos == if it == 0 then 1 else Position(it))
    {
      curpos := start;
      var j := 0;
      while work && j < it
        invariant 0 <= j <= it
        invariant Running(first, sch, it) && (work ==> LoopHead(first, sch, it, j))
        invariant curpos == if it == 0 then 1 else Position(j)
      {
        DrawAndIterate(first, sch, draws, bcount, it, j);
        curpos := Shift(curpos, 1);
        j := j + 1;
      }
    }

    method FirstRead(ghost first: seq<Byte>, ghost sch: Schedule, ghost it: nat, off: nat)
      requires Valid() && InBounds(sch, size, |first|) && file == target == prior == first && 0 < |sch.sources|
      requires AllIdle(View())
      requires off == sch.sources[0] && issued == [] && requested == []
      requires |sch.sources| == if it == 0 then 1 else it
      modifies this`file, this`ops, this`work, this`requested, buffer
      ensures Running(first, sch, it) && (work ==> LoopHead(first, sch, it, 0))
    {
      ghost var v0 := View();
      ReadData(1, off);
      ghost var v1 := View();
      Suspend(1);
      if work {
        FirstReadDone(first, size, sch, target, v0, v1, View());
      }
    }

    lemma AllSettled()
      requires Valid() && AllIdle(View())
      ensures file == target
    {
      forall x | 0 <= x < |file| ensures file[x] == target[x] {
        assert forall p :: 0 <= p < BLOCKS ==> View()[p].op.Idle?;
        assert Settled(x);
      }
    }

    /** What follows the loop: the last write (and, in a run of one reversal, the reversal). */
    method LastReversal(ghost first: seq<Byte>, ghost sch: Schedule, it: nat, curpos: nat, off: nat)
      requires Running(first, sch, it) && (work ==> LoopHead(first, sch, it, it))
      requires off == sch.targets[|sch.targets| - 1]
      requires curpos < BLOCKS && (work ==> curpos == if it == 0 then 1 else Position(it))
      modifies this, buffer
      ensures Valid() && |file| == |first| && Follows(first, sch)
      ensures work ==> |issued| == |sch.sources| && requested == sch.sources
                       && file == FileAfter(first, size, sch, |sch.sources|)
    {
      ghost var v0 := View();
      if it == 0 {
        ReverseBuffer(curpos);
      }
      if work {
        ReadyForLastWrite(first, size, sch, it, curpos, target, v0, View());
      }
      LastWrite(first, sch, curpos, off);
    }

    method LastWrite(ghost first: seq<Byte>, ghost sch: Schedule, curpos: nat, off: nat)
      requires Valid() && InBounds(sch, size, |first|) && |file| == |first| && Follows(first, sch)
      requires 0 < |sch.sources| && off == sch.targets[|sch.targets| - 1] && curpos < BLOCKS
      requires work ==> AllIdle(View())
      requires work ==> View()[curpos].bytes == Reversed(DataRead(first, size, sch, |sch.sources| - 1))
      requires work ==> |issued| == |sch.sources| - 1 && |requested| == |sch.sources|
      modifies this, buffer
      ensures Valid() && |file| == |first| && Follows(first, sch)
      ensures work ==> |issued| == |sch.sources| && requested == sch.sources
                       && file == FileAfter(first, size, sch, |sch.sources|)
    {
      ghost var m, data := |issued|, At(curpos).bytes;
      assert View()[curpos].bytes == data;
      if work {
        NextWriteFollows(first, size, sch, m, issued, target, prior, data);
      }
      WriteAlone(curpos, off);
    }

    /** Writes buffer `p` when nothing else is under way, and waits for it. */
    method WriteAlone(p: nat, off: nat)
      requires Valid() && p < BLOCKS && off + size <= |target| && (work ==> AllIdle(View()))
      modifies this, buffer
      ensures Valid() && |file| == |old(file)| && |target| == |old(target)| && requested == old(requested)
      ensures target == if old(work) then Overwrite(old(target), off, old(At(p)).bytes) else old(target)
      ensures issued == if old(work) then old(issued) + [Write(off, old(At(p)).bytes)] else old(issued)
      ensures prior == if old(work) then old(target) else old(prior)
      ensures work ==> old(work) && file == target
    {
      ghost var v1 := View();
      if work {
        OpsAreIdle();
      }
      WriteData(p, off);
      ghost var v2 := View();
      Suspend(p);
      if work {
        OnlyOneWasBusy(target, size, p, v1, v2, View());
        AllSettled();
      }
    }
  }

  /** A run leaves a file of `len` bytes alone: with less than two blocks, no reversal asked for, or
      blocks of no bytes. */
  predicate DoesNothing(len: nat, n: int, k: int)
  {
    n < 2 || k < 1 || BlockSize(len, n) == 0
  }

  function ScheduleOf(len: nat, n: int, k: int, draws: nat -> nat): (sch: Schedule)
    requires !DoesNothing(len, n, k)
    ensures |sch.sources| == Reversals(k) && InBounds(sch, BlockSize(len, n), len)
  {
    OffsetsFit(len, n);
    DrawnFits(draws, n, BlockSize(len, n), k, len);
    Drawn(draws, n, BlockSize(len, n), k)
  }

  /** The file after the first `m` writes of a run. */
  function ResultAfter(content: seq<Byte>, n: int, k: int, draws: nat -> nat, m: nat): (f: seq<Byte>)
    requires !DoesNothing(|content|, n, k) && m <= Reversals(k)
    ensures |f| == |content|
  {
    FileAfter(content, BlockSize(|content|, n), ScheduleOf(|content|, n, k, draws), m)
  }

  /** What a complete run makes of a file. */
  function CompleteResult(content: seq<Byte>, n: int, k: int, draws: nat -> nat): (f: seq<Byte>)
    ensures |f| == |content|
  {
    if DoesNothing(|content|, n, k) then content else ResultAfter(content, n, k, draws, Reversals(k))
  }

  /** The whole program on a file: what becomes of it, whether the run was not interrupted, and how
      many writes were begun.  After an interrupt every byte of the file is as before or as after the
      last write begun, whatever of it had been carried out. */
  method ReverseBlocks(content: seq<Byte>, n: int, k: int, draws: nat -> nat)
      returns (result: seq<Byte>, completed: bool, ghost writes: nat)
    ensures |result| == |content|
    ensures completed ==> result == CompleteResult(content, n, k, draws)
    ensures DoesNothing(|content|, n, k) ==> completed
    ensures !DoesNothing(|content|, n, k) ==>
              && writes <= Reversals(k)
              && (completed ==> writes == Reversals(k))
              && (forall x :: 0 <= x < |result| ==>
                    || result[x] == ResultAfter(content, n, k, draws, writes)[x]
                    || result[x] == ResultAfter(content, n, k, draws, Before(writes))[x])
    ensures 0 < |content| ==> result[|content| - 1] == content[|content| - 1]
  {
    if n < 2 || k < 1 {
      return content, true, 0;
    }
    var size := if |content| == 0 then 0 else (|content| - 1) / n;
    OffsetsFit(|content|, n);
    if size == 0 {
      return content, true, 0;
    }
    var pipeline := new Pipeline(content, size);
    pipeline.ProcessBlocks(draws, n, k);
    writes := |pipeline.issued|;
    LastByteStays(content, n, k, draws, writes);
    LastByteStays(content, n, k, draws, Before(writes));
    return pipeline.file, pipeline.work, writes;
  }

  lemma OffsetsFit(len: nat, n: nat)
    requires 2 <= n
    ensures n * BlockSize(len, n) <= len
    ensures 0 < BlockSize(len, n) ==> n * BlockSize(len, n) < len
  {
  }

  /** Bytes beyond all writes stay. */
  lemma {:induction false} UntouchedFrom(file: seq<Byte>, size: nat, sch: Schedule, m: nat, end: nat)
    requires InBounds(sch, size, |file|) && m <= |sch.sources| && end <= |file|
    requires forall w :: w in WritesOf(file, size, sch, m) ==> w.off + |w.data| <= end
    ensures FileAfter(file, size, sch, m)[end..] == file[end..]
  {
    if m > 0 {
      var last := Write(sch.targets[m - 1], Reversed(DataRead(file, size, sch, m - 1)));
      OneMoreWrite(file, size, sch, m - 1);
      assert last in WritesOf(file, size, sch, m);
      UntouchedFrom(file, size, sch, m - 1, end);
    }
  }

  /** No write of any run, complete or interrupted, reaches the file's last byte. */
  lemma LastByteIsNeverWritten(content: seq<Byte>, n: int, k: int, draws: nat -> nat, m: nat)
    requires !DoesNothing(|content|, n, k) && m <= Reversals(k)
    ensures forall w :: w in WritesOf(content, BlockSize(|content|, n), ScheduleOf(|content|, n, k, draws), m) ==>
              w.off + |w.data| <= |content| - 1
  {
    OffsetsFit(|content|, n);
    DrawnFits(draws, n, BlockSize(|content|, n), k, |content| - 1);
  }

  /** So it stays as it was. */
  lemma LastByteStays(content: seq<Byte>, n: int, k: int, draws: nat -> nat, m: nat)
    requires !DoesNothing(|content|, n, k) && m <= Reversals(k)
    ensures ResultAfter(content, n, k, draws, m)[|content| - 1] == content[|content| - 1]
  {
    var end := |content| - 1;
    LastByteIsNeverWritten(content, n, k, draws, m);
    UntouchedFrom(content, BlockSize(|content|, n), ScheduleOf(|content|, n, k, draws), m, end);
    assert ResultAfter(content, n, k, draws, m)[end..][0] == content[end..][0];
  }
}

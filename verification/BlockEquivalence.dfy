/**
  How the pipelined order compares with the plain program that reads a block, reverses it and writes
  it before reading the next (same block numbers).  The pipeline reads one block ahead, so the two
  agree unless a block is read right after having been chosen as the target of the reversal before.
 */
module BlockEquivalence {
  import opened Bytes
  import opened BlockGeometry
  import opened BlockPipeline

  /** The file after `m` turns of read, reverse, write. */
  function PlainAfter(file: seq<Byte>, size: nat, sch: Schedule, m: nat): (f: seq<Byte>)
    requires InBounds(sch, size, |file|) && m <= |sch.sources|
    ensures |f| == |file|
  {
    if m == 0 then file
    else
      var g := PlainAfter(file, size, sch, m - 1);
      Overwrite(g, sch.targets[m - 1], Reversed(Block(g, sch.sources[m - 1], size)))
  }

  lemma BlockBesideOverwrite(f: seq<Byte>, off: nat, data: seq<Byte>, other: nat, size: nat)
    requires off + |data| <= |f| && other + size <= |f| && |data| == size && !Overlap(off, other, size)
    ensures Block(Overwrite(f, off, data), other, size) == Block(f, other, size)
  {
  }

  /** No read ever follows directly on a write to the same place. */
  ghost predicate NoHazard(sch: Schedule, size: nat)
  {
    |sch.sources| == |sch.targets| &&
    forall r :: 0 < r < |sch.sources| ==> !Overlap(sch.targets[r - 1], sch.sources[r], size)
  }

  /** Without that hazard the pipeline computes what the plain program computes, on every file. */
  lemma {:induction false} PipelineIsPlainWithoutHazard(file: seq<Byte>, size: nat, sch: Schedule, m: nat)
    requires InBounds(sch, size, |file|) && m <= |sch.sources| && NoHazard(sch, size)
    ensures FileAfter(file, size, sch, m) == PlainAfter(file, size, sch, m)
  {
    if m > 0 {
      PipelineIsPlainWithoutHazard(file, size, sch, m - 1);
      if m > 1 {
        assert !Overlap(sch.targets[m - 1 - 1], sch.sources[m - 1], size);
        BlockBesideOverwrite(FileAfter(file, size, sch, m - 2), sch.targets[m - 2],
                             Reversed(DataRead(file, size, sch, m - 2)), sch.sources[m - 1], size);
      }
    }
  }

  /** With it the two can differ: two one-byte blocks, block 0 copied to 1 while 1 is copied to 0. */
  lemma HazardousSchedule()
    ensures var sch := Schedule([0, 1], [1, 0]);
            var file := [1, 2, 9];
            && InBounds(sch, 1, |file|)
            && FileAfter(file, 1, sch, 2) == [2, 1, 9]
            && PlainAfter(file, 1, sch, 2) == [1, 1, 9]
  {
    var sch := Schedule([0, 1], [1, 0]);
    var file: seq<Byte> := [1, 2, 9];
    FirstTurn(file, sch);
    assert DataRead(file, 1, sch, 1) == [2] && Reversed([2]) == [2];
    assert FileAfter(file, 1, sch, 2) == Overwrite([1, 1, 9], 0, [2]);
    assert Block([1, 1, 9], 1, 1) == [1];
    assert PlainAfter(file, 1, sch, 2) == Overwrite([1, 1, 9], 0, Reversed([1]));
  }

  lemma FirstTurn(file: seq<Byte>, sch: Schedule)
    requires file == [1, 2, 9] && sch == Schedule([0, 1], [1, 0])
    ensures FileAfter(file, 1, sch, 1) == PlainAfter(file, 1, sch, 1) == [1, 1, 9]
    ensures Reversed([1]) == [1]
  {
    assert DataRead(file, 1, sch, 0) == Block(file, 0, 1) == [1] && Reversed([1]) == [1];
    assert FileAfter(file, 1, sch, 0) == PlainAfter(file, 1, sch, 0) == file;
  }

  /** What the plain program makes of a file with the same arguments and random numbers. */
  function PlainResult(content: seq<Byte>, n: int, k: int, draws: nat -> nat): (f: seq<Byte>)
    ensures |f| == |content|
  {
    if DoesNothing(|content|, n, k) then content
    else PlainAfter(content, BlockSize(|content|, n), ScheduleOf(|content|, n, k, draws), Reversals(k))
  }

  /** The program does run into the hazard: on a file of three bytes with two blocks and three
      iterations, when the fourth random number is 1 and the others are 0. */
  lemma HazardExample()
    ensures var draws := (i: nat) => if i == 3 then 1 else 0;
            && CompleteResult([1, 2, 9], 2, 3, draws) == [2, 1, 9]
            && PlainResult([1, 2, 9], 2, 3, draws) == [1, 1, 9]
  {
    var draws := (i: nat) => if i == 3 then 1 else 0;
    assert BlockSize(3, 2) == 1 && Reversals(3) == 2;
    assert SourceBlock(draws, 2, 0) == 0 && SourceBlock(draws, 2, 1) == 1;
    assert TargetBlock(draws, 2, 2, 3, 0) == 1 && TargetBlock(draws, 2, 2, 3, 1) == 0;
    assert ScheduleOf(3, 2, 3, draws) == Schedule([0, 1], [1, 0]);
    HazardousSchedule();
  }

  // ---------------------------------------------------------------------------------------------
  // Exactly when they agree: follow where each block's contents come from.

  /** A block's contents: those of an original block, possibly reversed. */
  datatype Tag = Tag(source: nat, flipped: bool)

  /** Reversals given by block numbers. */
  datatype Moves = Moves(sources: seq<nat>, targets: seq<nat>)

  predicate WithinBlocks(mv: Moves, n: nat)
  {
    && |mv.sources| == |mv.targets|
    && (forall r :: 0 <= r < |mv.sources| ==> mv.sources[r] < n && mv.targets[r] < n)
  }

  function Flip(t: Tag): (r: Tag)
  {
    Tag(t.source, !t.flipped)
  }

  function Untouched(n: nat): (ts: seq<Tag>)
    ensures |ts| == n
  {
    seq(n, b requires 0 <= b < n => Tag(b, false))
  }

  /** Where the contents of the n blocks come from after `m` reversals of the pipeline. */
  function TagsAfter(n: nat, mv: Moves, m: nat): (ts: seq<Tag>)
    requires WithinBlocks(mv, n) && m <= |mv.sources|
    ensures |ts| == n
    decreases m, 1
  {
    if m == 0 then Untouched(n)
    else TagsAfter(n, mv, m - 1)[mv.targets[m - 1] := Flip(TagRead(n, mv, m - 1))]
  }

  function TagRead(n: nat, mv: Moves, r: nat): (t: Tag)
    requires WithinBlocks(mv, n) && r < |mv.sources|
    decreases r, 0
  {
    if r == 0 then Tag(mv.sources[0], false) else TagsAfter(n, mv, r - 1)[mv.sources[r]]
  }

  /** The same for the plain program. */
  function PlainTags(n: nat, mv: Moves, m: nat): (ts: seq<Tag>)
    requires WithinBlocks(mv, n) && m <= |mv.sources|
    ensures |ts| == n
  {
    if m == 0 then Untouched(n)
    else
      var ts := PlainTags(n, mv, m - 1);
      ts[mv.targets[m - 1] := Flip(ts[mv.sources[m - 1]])]
  }

  function Offsets(mv: Moves, size: nat): (sch: Schedule)
    requires |mv.sources| == |mv.targets|
    ensures |sch.sources| == |sch.targets| == |mv.sources|
  {
    Schedule(seq(|mv.sources|, r requires 0 <= r < |mv.sources| => Offset(mv.sources[r], size)),
             seq(|mv.targets|, r requires 0 <= r < |mv.targets| => Offset(mv.targets[r], size)))
  }

  lemma OffsetsFit(mv: Moves, n: nat, size: nat, len: nat)
    requires WithinBlocks(mv, n) && n * size <= len
    ensures InBounds(Offsets(mv, size), size, len)
  {
    forall r | 0 <= r < |mv.sources|
      ensures Offset(mv.sources[r], size) + size <= len && Offset(mv.targets[r], size) + size <= len
    {
      OffsetsInOrder(mv.sources[r], n, size);
      OffsetsInOrder(mv.targets[r], n, size);
    }
  }

  lemma BlockInside(b: nat, n: nat, size: nat, len: nat)
    requires b < n && n * size <= len
    ensures Offset(b, size) + size <= len
  {
    OffsetsInOrder(b, n, size);
  }

  /** What a tag stands for in a given original file. */
  function Content(file: seq<Byte>, size: nat, n: nat, t: Tag): (d: seq<Byte>)
    requires t.source < n && n * size <= |file|
  {
    BlockInside(t.source, n, size, |file|);
    var d := Block(file, Offset(t.source, size), size);
    if t.flipped then Reversed(d) else d
  }

  lemma FlipReverses(file: seq<Byte>, size: nat, n: nat, t: Tag)
    requires t.source < n && n * size <= |file|
    ensures Content(file, size, n, Flip(t)) == Reversed(Content(file, size, n, t))
  {
  }

  ghost predicate ShowsBlock(f: seq<Byte>, file: seq<Byte>, size: nat, n: nat, b: nat, t: Tag)
    requires b < n && n * size <= |file| == |f|
  {
    BlockInside(b, n, size, |f|);
    t.source < n && Block(f, Offset(b, size), size) == Content(file, size, n, t)
  }

  /** `f` holds block by block what the tags say, and is otherwise the original file. */
  ghost predicate Shows(f: seq<Byte>, file: seq<Byte>, size: nat, n: nat, ts: seq<Tag>)
  {
    && n * size <= |file| == |f| && |ts| == n
    && f[n * size..] == file[n * size..]
    && forall b :: 0 <= b < n ==> ShowsBlock(f, file, size, n, b, ts[b])
  }

  lemma ShowsInitially(file: seq<Byte>, size: nat, n: nat)
    requires n * size <= |file|
    ensures Shows(file, file, size, n, Untouched(n))
  {
  }

  lemma BlockAfterWrite(f: seq<Byte>, file: seq<Byte>, size: nat, n: nat, b: nat, was: Tag,
                        w: nat, t: Tag, data: seq<Byte>)
    requires b < n && w < n && t.source < n && n * size <= |file| == |f|
    requires Offset(w, size) + size <= |f|
    requires data == Content(file, size, n, t) && |data| == size && ShowsBlock(f, file, size, n, b, was)
    ensures ShowsBlock(Overwrite(f, Offset(w, size), data), file, size, n, b, if b == w then t else was)
  {
    BlockInside(b, n, size, |f|);
    if b == w {
      assert Block(Overwrite(f, Offset(w, size), data), Offset(w, size), size) == data;
    } else {
      DistinctBlocks(b, w, size);
      BlockBesideOverwrite(f, Offset(w, size), data, Offset(b, size), size);
    }
  }

  lemma TailAfterWrite(f: seq<Byte>, off: nat, data: seq<Byte>, end: nat)
    requires off + |data| <= end <= |f|
    ensures Overwrite(f, off, data)[end..] == f[end..]
  {
  }

  lemma ShowsAfterWrite(f: seq<Byte>, file: seq<Byte>, size: nat, n: nat, ts: seq<Tag>, w: nat, t: Tag, data: seq<Byte>)
    requires Shows(f, file, size, n, ts) && w < n && t.source < n
    requires Offset(w, size) + size <= |f| && data == Content(file, size, n, t) && |data| == size
    ensures Shows(Overwrite(f, Offset(w, size), data), file, size, n, ts[w := t])
  {
    OffsetsInOrder(w, n, size);
    TailAfterWrite(f, Offset(w, size), data, n * size);
    var g, us := Overwrite(f, Offset(w, size), data), ts[w := t];
    forall b | 0 <= b < n ensures ShowsBlock(g, file, size, n, b, us[b]) {
      assert ShowsBlock(f, file, size, n, b, ts[b]);
      BlockAfterWrite(f, file, size, n, b, ts[b], w, t, data);
    }
  }

  lemma DistinctBlocks(b: nat, w: nat, size: nat)
    requires b != w
    ensures !Overlap(Offset(w, size), Offset(b, size), size)
  {
    if b < w {
      OffsetsInOrder(b, w, size);
    } else {
      OffsetsInOrder(w, b, size);
    }
  }

  /** The m-th read and the m-th write of the pipeline, by tags. */
  lemma ReadFollowsTag(file: seq<Byte>, size: nat, n: nat, mv: Moves, m: nat)
    requires WithinBlocks(mv, n) && 0 < m <= |mv.sources| && n * size <= |file|
    requires InBounds(Offsets(mv, size), size, |file|)
    requires 1 < m ==> Shows(FileAfter(file, size, Offsets(mv, size), m - 2), file, size, n, TagsAfter(n, mv, m - 2))
    ensures TagRead(n, mv, m - 1).source < n
    ensures DataRead(file, size, Offsets(mv, size), m - 1) == Content(file, size, n, TagRead(n, mv, m - 1))
  {
    assert Offsets(mv, size).sources[m - 1] == Offset(mv.sources[m - 1], size);
    if 1 < m {
      assert ShowsBlock(FileAfter(file, size, Offsets(mv, size), m - 2), file, size, n, mv.sources[m - 1],
                        TagsAfter(n, mv, m - 2)[mv.sources[m - 1]]);
    }
  }

  lemma WriteFollowsTag(file: seq<Byte>, size: nat, n: nat, mv: Moves, m: nat)
    requires WithinBlocks(mv, n) && 0 < m <= |mv.sources| && n * size <= |file|
    requires InBounds(Offsets(mv, size), size, |file|)
    requires Shows(FileAfter(file, size, Offsets(mv, size), m - 1), file, size, n, TagsAfter(n, mv, m - 1))
    requires TagRead(n, mv, m - 1).source < n
    requires DataRead(file, size, Offsets(mv, size), m - 1) == Content(file, size, n, TagRead(n, mv, m - 1))
    ensures Shows(FileAfter(file, size, Offsets(mv, size), m), file, size, n, TagsAfter(n, mv, m))
  {
    var t := TagRead(n, mv, m - 1);
    FlipReverses(file, size, n, t);
    assert Offsets(mv, size).targets[m - 1] == Offset(mv.targets[m - 1], size);
    ShowsAfterWrite(FileAfter(file, size, Offsets(mv, size), m - 1), file, size, n,
                    TagsAfter(n, mv, m - 1), mv.targets[m - 1], Flip(t), Reversed(Content(file, size, n, t)));
  }

  lemma {:induction false} PipelineFollowsTags(file: seq<Byte>, size: nat, n: nat, mv: Moves, m: nat)
    requires WithinBlocks(mv, n) && m <= |mv.sources| && n * size <= |file|
    requires InBounds(Offsets(mv, size), size, |file|)
    ensures Shows(FileAfter(file, size, Offsets(mv, size), m), file, size, n, TagsAfter(n, mv, m))
    decreases m
  {
    if m == 0 {
      ShowsInitially(file, size, n);
    } else {
      PipelineFollowsTags(file, size, n, mv, m - 1);
      if 1 < m {
        PipelineFollowsTags(file, size, n, mv, m - 2);
      }
      ReadFollowsTag(file, size, n, mv, m);
      WriteFollowsTag(file, size, n, mv, m);
    }
  }

  lemma PlainTurnFollowsTags(f: seq<Byte>, file: seq<Byte>, size: nat, n: nat, ts: seq<Tag>, source: nat, target: nat)
    requires Shows(f, file, size, n, ts) && source < n && target < n
    requires Offset(source, size) + size <= |f| && Offset(target, size) + size <= |f|
    ensures Shows(Overwrite(f, Offset(target, size), Reversed(Block(f, Offset(source, size), size))),
                  file, size, n, ts[target := Flip(ts[source])])
  {
    assert ShowsBlock(f, file, size, n, source, ts[source]);
    FlipReverses(file, size, n, ts[source]);
    ShowsAfterWrite(f, file, size, n, ts, target, Flip(ts[source]), Reversed(Block(f, Offset(source, size), size)));
  }

  lemma {:induction false} PlainFollowsTags(file: seq<Byte>, size: nat, n: nat, mv: Moves, m: nat)
    requires WithinBlocks(mv, n) && m <= |mv.sources| && n * size <= |file|
    requires InBounds(Offsets(mv, size), size, |file|)
    ensures Shows(PlainAfter(file, size, Offsets(mv, size), m), file, size, n, PlainTags(n, mv, m))
    decreases m
  {
    if m == 0 {
      ShowsInitially(file, size, n);
    } else {
      PlainFollowsTags(file, size, n, mv, m - 1);
      var sch := Offsets(mv, size);
      assert sch.sources[m - 1] == Offset(mv.sources[m - 1], size);
      assert sch.targets[m - 1] == Offset(mv.targets[m - 1], size);
      PlainTurnFollowsTags(PlainAfter(file, size, sch, m - 1), file, size, n, PlainTags(n, mv, m - 1),
                           mv.sources[m - 1], mv.targets[m - 1]);
    }
  }

  /** Two tags that stand for the same bytes in every file (a one-byte block is its own reverse). */
  predicate SameBytes(size: nat, t: Tag, u: Tag)
  {
    t.source == u.source && (t.flipped == u.flipped || size == 1)
  }

  lemma SameBytesSameContent(file: seq<Byte>, size: nat, n: nat, t: Tag, u: Tag)
    requires t.source < n && n * size <= |file| && SameBytes(size, t, u)
    ensures Content(file, size, n, t) == Content(file, size, n, u)
  {
  }

  lemma FirstOfContent(file: seq<Byte>, size: nat, n: nat, t: Tag)
    requires t.source < n && n * size <= |file| && 0 < size
    ensures Offset(t.source, size) + size <= |file| && 0 < |Content(file, size, n, t)|
    ensures var off := Offset(t.source, size);
            Content(file, size, n, t)[0] == file[if t.flipped then off + size - 1 else off]
  {
    BlockInside(t.source, n, size, |file|);
    assert Block(file, Offset(t.source, size), size)[0] == file[Offset(t.source, size)];
  }

  /** A file in which two tags that are not the same show different bytes. */
  lemma Distinguish(len: nat, size: nat, n: nat, t: Tag, u: Tag) returns (file: seq<Byte>)
    requires t.source < n && u.source < n && n * size <= len && 0 < size && !SameBytes(size, t, u)
    ensures |file| == len && Content(file, size, n, t) != Content(file, size, n, u)
  {
    var lo := Offset(t.source, size);
    if t.source != u.source {
      file := seq(len, i => if lo <= i < lo + size then 1 else 0);
      DistinctBlocks(u.source, t.source, size);
    } else {
      file := seq(len, i => if i == lo then 1 else 0);
    }
    FirstOfContent(file, size, n, t);
    FirstOfContent(file, size, n, u);
  }

  lemma {:induction false} SameBlocksSameFile(f: seq<Byte>, g: seq<Byte>, size: nat, n: nat)
    requires n * size <= |f| == |g| && f[n * size..] == g[n * size..]
    requires forall b :: 0 <= b < n ==>
               Offset(b, size) + size <= |f| && Block(f, Offset(b, size), size) == Block(g, Offset(b, size), size)
    ensures f == g
  {
    if n == 0 {
      assert f == f[0..] && g == g[0..];
    } else {
      var lo := Offset(n - 1, size);
      assert n * size == (n - 1) * size + size;
      assert f[lo..] == Block(f, lo, size) + f[n * size..];
      assert g[lo..] == Block(g, lo, size) + g[n * size..];
      SameBlocksSameFile(f, g, size, n - 1);
    }
  }

  ghost predicate SameOn(file: seq<Byte>, n: nat, size: nat, mv: Moves)
    requires WithinBlocks(mv, n) && n * size <= |file|
  {
    OffsetsFit(mv, n, size, |file|);
    FileAfter(file, size, Offsets(mv, size), |mv.sources|) == PlainAfter(file, size, Offsets(mv, size), |mv.sources|)
  }

  ghost predicate SameOnEveryFile(n: nat, size: nat, mv: Moves, len: nat)
    requires WithinBlocks(mv, n) && n * size <= len
  {
    forall file: seq<Byte> :: |file| == len ==> SameOn(file, n, size, mv)
  }

  /** Every block has the same provenance after a run of the pipeline as after one of the plain program. */
  ghost predicate SameOrigins(n: nat, size: nat, mv: Moves)
    requires WithinBlocks(mv, n)
  {
    forall b :: 0 <= b < n ==> SameBytes(size, TagsAfter(n, mv, |mv.sources|)[b], PlainTags(n, mv, |mv.sources|)[b])
  }

  /** The pipeline agrees with the plain program on every file if and only if every block ends up
      with the same provenance under both orders, which depends on the drawn block numbers alone. */
  lemma PipelineIsPlainExactly(n: nat, size: nat, mv: Moves, len: nat)
    requires WithinBlocks(mv, n) && 0 < size && n * size <= len
    ensures SameOnEveryFile(n, size, mv, len) <==> SameOrigins(n, size, mv)
  {
    OffsetsFit(mv, n, size, len);
    var m := |mv.sources|;
    if SameOrigins(n, size, mv) {
      forall file: seq<Byte> | |file| == len ensures SameOn(file, n, size, mv) {
        SameTagsSameFile(file, size, n, mv);
      }
    } else {
      var b :| 0 <= b < n && !SameBytes(size, TagsAfter(n, mv, m)[b], PlainTags(n, mv, m)[b]);
      var file := DifferentTagsDifferentFile(len, size, n, mv, b);
      assert !SameOn(file, n, size, mv);
    }
  }

  lemma {:induction false} TagsStayInside(n: nat, mv: Moves, m: nat)
    requires WithinBlocks(mv, n) && m <= |mv.sources|
    ensures forall b :: 0 <= b < n ==> TagsAfter(n, mv, m)[b].source < n
    ensures m < |mv.sources| ==> TagRead(n, mv, m).source < n
  {
    if m > 0 {
      TagsStayInside(n, mv, m - 1);
    }
  }

  lemma {:induction false} PlainTagsStayInside(n: nat, mv: Moves, m: nat)
    requires WithinBlocks(mv, n) && m <= |mv.sources|
    ensures forall b :: 0 <= b < n ==> PlainTags(n, mv, m)[b].source < n
  {
    if m > 0 {
      PlainTagsStayInside(n, mv, m - 1);
    }
  }

  lemma DifferentTagsDifferentFile(len: nat, size: nat, n: nat, mv: Moves, b: nat) returns (file: seq<Byte>)
    requires WithinBlocks(mv, n) && 0 < size && n * size <= len && b < n
    requires InBounds(Offsets(mv, size), size, len)
    requires !SameBytes(size, TagsAfter(n, mv, |mv.sources|)[b], PlainTags(n, mv, |mv.sources|)[b])
    ensures |file| == len
    ensures FileAfter(file, size, Offsets(mv, size), |mv.sources|)
         != PlainAfter(file, size, Offsets(mv, size), |mv.sources|)
  {
    var m := |mv.sources|;
    TagsStayInside(n, mv, m);
    PlainTagsStayInside(n, mv, m);
    file := Distinguish(len, size, n, TagsAfter(n, mv, m)[b], PlainTags(n, mv, m)[b]);
    PipelineFollowsTags(file, size, n, mv, m);
    PlainFollowsTags(file, size, n, mv, m);
    var f, g := FileAfter(file, size, Offsets(mv, size), m), PlainAfter(file, size, Offsets(mv, size), m);
    assert ShowsBlock(f, file, size, n, b, TagsAfter(n, mv, m)[b]);
    assert ShowsBlock(g, file, size, n, b, PlainTags(n, mv, m)[b]);
  }

  lemma SameTagsSameFile(file: seq<Byte>, size: nat, n: nat, mv: Moves)
    requires WithinBlocks(mv, n) && n * size <= |file| && InBounds(Offsets(mv, size), size, |file|)
    requires forall b :: 0 <= b < n ==>
               SameBytes(size, TagsAfter(n, mv, |mv.sources|)[b], PlainTags(n, mv, |mv.sources|)[b])
    ensures FileAfter(file, size, Offsets(mv, size), |mv.sources|)
         == PlainAfter(file, size, Offsets(mv, size), |mv.sources|)
  {
    var m := |mv.sources|;
    PipelineFollowsTags(file, size, n, mv, m);
    PlainFollowsTags(file, size, n, mv, m);
    var f, g := FileAfter(file, size, Offsets(mv, size), m), PlainAfter(file, size, Offsets(mv, size), m);
    forall b | 0 <= b < n
      ensures Offset(b, size) + size <= |f| && Block(f, Offset(b, size), size) == Block(g, Offset(b, size), size)
    {
      BlockInside(b, n, size, |f|);
      assert ShowsBlock(f, file, size, n, b, TagsAfter(n, mv, m)[b]);
      assert ShowsBlock(g, file, size, n, b, PlainTags(n, mv, m)[b]);
      SameBytesSameContent(file, size, n, TagsAfter(n, mv, m)[b], PlainTags(n, mv, m)[b]);
    }
    SameBlocksSameFile(f, g, size, n);
  }

  /** The block numbers of a run and the offsets it works at are the same schedule. */
  function MovesDrawn(draws: nat -> nat, n: nat, iterations: nat): (mv: Moves)
    requires 2 <= n && 1 <= iterations
    ensures WithinBlocks(mv, n) && |mv.sources| == Reversals(iterations)
  {
    var count := Reversals(iterations);
    Moves(seq(count, r requires 0 <= r < count => SourceBlock(draws, n, r)),
          seq(count, r requires 0 <= r < count => TargetBlock(draws, n, count, iterations, r)))
  }

  lemma MovesAreTheSchedule(draws: nat -> nat, n: nat, size: nat, iterations: nat)
    requires 2 <= n && 1 <= iterations
    ensures Offsets(MovesDrawn(draws, n, iterations), size) == Drawn(draws, n, size, iterations)
  {
    var sch := Drawn(draws, n, size, iterations);
    var mv := MovesDrawn(draws, n, iterations);
    assert forall r :: 0 <= r < |mv.sources| ==> Offsets(mv, size).sources[r] == sch.sources[r];
    assert forall r :: 0 <= r < |mv.targets| ==> Offsets(mv, size).targets[r] == sch.targets[r];
  }

  lemma ScheduleByMoves(len: nat, n: int, k: int, draws: nat -> nat)
    requires !DoesNothing(len, n, k)
    ensures ScheduleOf(len, n, k, draws) == Offsets(MovesDrawn(draws, n, k), BlockSize(len, n))
    ensures |MovesDrawn(draws, n, k).sources| == Reversals(k)
  {
    MovesAreTheSchedule(draws, n, BlockSize(len, n), k);
  }

  lemma ResultsByMoves(content: seq<Byte>, n: int, k: int, draws: nat -> nat)
    requires !DoesNothing(|content|, n, k)
    ensures var size, mv := BlockSize(|content|, n), MovesDrawn(draws, n, k);
            && InBounds(Offsets(mv, size), size, |content|)
            && CompleteResult(content, n, k, draws) == FileAfter(content, size, Offsets(mv, size), |mv.sources|)
            && PlainResult(content, n, k, draws) == PlainAfter(content, size, Offsets(mv, size), |mv.sources|)
  {
    ScheduleByMoves(|content|, n, k, draws);
  }

  /** On every file of a length the program does what the plain program does. */
  ghost predicate AgreesWithPlain(len: nat, n: int, k: int, draws: nat -> nat)
  {
    forall content: seq<Byte> :: |content| == len ==>
      CompleteResult(content, n, k, draws) == PlainResult(content, n, k, draws)
  }

  lemma AgreesByMoves(len: nat, n: int, k: int, draws: nat -> nat)
    requires !DoesNothing(len, n, k) && n * BlockSize(len, n) <= len
    ensures AgreesWithPlain(len, n, k, draws) <==> SameOnEveryFile(n, BlockSize(len, n), MovesDrawn(draws, n, k), len)
  {
    forall content: seq<Byte> | |content| == len
      ensures CompleteResult(content, n, k, draws) == PlainResult(content, n, k, draws) <==>
              SameOn(content, n, BlockSize(len, n), MovesDrawn(draws, n, k))
    {
      ResultsByMoves(content, n, k, draws);
    }
  }

  /** With given arguments and random numbers the program does what the plain program does, on every
      file of a length, if and only if it does nothing at all or the drawn block numbers lead to the
      same provenance of every block. */
  lemma ProgramIsPlainExactly(len: nat, n: int, k: int, draws: nat -> nat)
    ensures AgreesWithPlain(len, n, k, draws) <==>
            DoesNothing(len, n, k) || SameOrigins(n, BlockSize(len, n), MovesDrawn(draws, n, k))
  {
    if !DoesNothing(len, n, k) {
      BlockPipeline.OffsetsFit(len, n);
      AgreesByMoves(len, n, k, draws);
      PipelineIsPlainExactly(n, BlockSize(len, n), MovesDrawn(draws, n, k), len);
    }
  }

  /** In particular it does so when no drawn block is read just after having been drawn as a target. */
  lemma ProgramIsPlainWithoutHazard(content: seq<Byte>, n: int, k: int, draws: nat -> nat)
    requires !DoesNothing(|content|, n, k) ==> NoHazard(ScheduleOf(|content|, n, k, draws), BlockSize(|content|, n))
    ensures CompleteResult(content, n, k, draws) == PlainResult(content, n, k, draws)
  {
    if !DoesNothing(|content|, n, k) {
      PipelineIsPlainWithoutHazard(content, BlockSize(|content|, n), ScheduleOf(|content|, n, k, draws), Reversals(k));
    }
  }
}

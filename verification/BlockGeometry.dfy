/**
  Where the blocks of the asynchronous reverser lie in its file, and how the two random draws of an
  iteration become a pair of distinct block numbers (Lab4/archunix5a.c).
 */
module BlockGeometry {
  import opened Division

  /** (length - 1) / n in C, which truncates toward zero: an empty file gives 0. */
  function BlockSize(len: nat, n: nat): (bs: nat)
    requires 2 <= n
  {
    if len == 0 then 0 else (len - 1) / n
  }

  /** The block size is the one number of bytes of which n blocks leave over at least one byte of the
      file, and n blocks of one byte more would not; an empty file has blocks of no bytes. */
  lemma BlockSizeIsUnique(len: nat, n: nat, s: nat)
    requires 2 <= n
    ensures BlockSize(0, n) == 0
    ensures 0 < len ==> (s == BlockSize(len, n) <==> n * s <= len - 1 < n * (s + 1))
  {
    if 0 < len {
      var q := BlockSize(len, n);
      assert n * q <= len - 1 < n * q + n;
      assert n * (q + 1) == n * q + n;
      if n * s <= len - 1 < n * (s + 1) {
        QuotientIsUnique(len - 1, n, s, len - 1 - n * s);
      }
    }
  }

  /** Where block `b` begins. */
  function Offset(b: nat, size: nat): (off: nat)
  {
    b * size
  }

  predicate Overlap(a: nat, b: nat, size: nat)
  {
    a < b + size && b < a + size
  }

  lemma OffsetsInOrder(i: nat, j: nat, size: nat)
    requires i < j
    ensures i * size + size <= j * size
  {
    var d := j - i - 1;
    assert j == i + 1 + d;
    assert j * size == i * size + size + d * size;
  }

  /** The n blocks are pairwise disjoint and end before the file's last byte. */
  lemma BlocksFit(len: nat, n: nat, i: nat, j: nat)
    requires 2 <= n && i < n && j < n && 0 < BlockSize(len, n)
    ensures i * BlockSize(len, n) + BlockSize(len, n) <= len - 1
    ensures i != j ==> !Overlap(i * BlockSize(len, n), j * BlockSize(len, n), BlockSize(len, n))
  {
    var size := BlockSize(len, n);
    OffsetsInOrder(i, n, size);
    if i < j {
      OffsetsInOrder(i, j, size);
    } else if j < i {
      OffsetsInOrder(j, i, size);
    }
  }

  /** The pair (block to write, block to read) made from two draws. */
  function Indexes(d0: nat, d1: nat, max: nat): (ix: (nat, nat))
    requires 2 <= max
  {
    var i0, i1 := d0 % max, d1 % (max - 1);
    (i0, if i1 >= i0 then i1 + 1 else i1)
  }

  method GetIndexes(d0: nat, d1: nat, max: nat) returns (index: array<nat>)
    requires 2 <= max
    ensures fresh(index) && index.Length == 2
    ensures (index[0], index[1]) == Indexes(d0, d1, max)
  {
    index := new nat[2];
    index[0] := d0 % max;
    index[1] := d1 % (max - 1);
    if index[1] >= index[0] {
      index[1] := index[1] + 1;
    }
  }

  /** The first draw is the first block number, the second counts through the other numbers in order;
      draws beyond the range start again. */
  lemma IndexesByDraw(max: nat, d0: nat, d1: nat)
    requires 2 <= max
    ensures d0 < max && d1 < max - 1 ==> Indexes(d0, d1, max) == (d0, if d1 < d0 then d1 else d1 + 1)
    ensures Indexes(d0 + max, d1, max) == Indexes(d0, d1, max)
    ensures Indexes(d0, d1 + (max - 1), max) == Indexes(d0, d1, max)
  {
    DivisionStep(d0 + max, max);
    DivisionStep(d1 + (max - 1), max - 1);
    if d0 < max && d1 < max - 1 {
      QuotientIsUnique(d0, max, 0, d0);
      QuotientIsUnique(d1, max - 1, 0, d1);
    }
  }

  /** The draws that give a pair. */
  function DrawsFor(i0: nat, i1: nat): (d: (nat, nat))
  {
    (i0, if i1 > i0 then i1 - 1 else i1)
  }

  /** Reduced draws [0,max) x [0,max-1) and ordered pairs of distinct block numbers correspond one
      to one, so an iteration never reads the block it writes and every pair can come up. */
  lemma IndexDrawIsBijection(max: nat, d0: nat, d1: nat, i0: nat, i1: nat)
    requires 2 <= max
    ensures var ix := Indexes(d0, d1, max);
            && ix.0 < max && ix.1 < max && ix.0 != ix.1
            && (d0 < max && d1 < max - 1 ==> DrawsFor(ix.0, ix.1) == (d0, d1))
    ensures i0 < max && i1 < max && i0 != i1 ==>
              && DrawsFor(i0, i1).0 < max && DrawsFor(i0, i1).1 < max - 1
              && Indexes(DrawsFor(i0, i1).0, DrawsFor(i0, i1).1, max) == (i0, i1)
  {
    if d0 < max {
      QuotientIsUnique(d0, max, 0, d0);
    }
    if d1 < max - 1 {
      QuotientIsUnique(d1, max - 1, 0, d1);
    }
    if i0 < max && i1 < max && i0 != i1 {
      var d := DrawsFor(i0, i1);
      QuotientIsUnique(d.0, max, 0, d.0);
      QuotientIsUnique(d.1, max - 1, 0, d.1);
    }
  }
}

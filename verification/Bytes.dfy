/** Bytes as the C programs see them. */
module Bytes {
  type Byte = b: int | 0 <= b < 256

  const NUL: Byte := 0

  /** A run of zero bytes. */
  function Zeros(n: nat): (z: seq<Byte>)
  {
    seq(n, _ => NUL)
  }
}

/** Facts about division by a variable. */
module Division {
  lemma MultipleBound(d: int, size: nat)
    ensures d >= 1 ==> d * size >= size
    ensures d <= -1 ==> d * size <= 0 - size
  {
    if d >= 1 {
      assert d * size == size + (d - 1) * size;
    } else if d <= -1 {
      assert d * size == (0 - size) + (d + 1) * size;
    }
  }

  lemma QuotientIsUnique(a: nat, size: nat, q: int, r: nat)
    requires 0 < size && r < size && a == q * size + r
    ensures a / size == q && a % size == r
  {
    var d := a / size - q;
    assert d * size == r - a % size;
    MultipleBound(d, size);
  }

  lemma DivisionStep(a: nat, size: nat)
    requires 0 < size <= a
    ensures a / size == (a - size) / size + 1
    ensures a % size == (a - size) % size
  {
    var q, r := a / size, a % size;
    assert a - size == (q - 1) * size + r;
    QuotientIsUnique(a - size, size, q - 1, r);
  }
}

/**
  The length-prefixed decimal messages of the process ring (Lab2_1/test2.c): printing and parsing
  integers, one message as bytes in a pipe, and the change a process makes to a message value.
 */
module RingCodec {
  import opened Bytes
  import opened Division

  const ZERO: Byte := 48
  const MINUS: Byte := 45
  const PLUS: Byte := 43

  const INT_MIN := -0x8000_0000
  const INT_MAX := 0x7fff_ffff

  const SAFETY_BOUND := 1000000

  // ---------------------------------------------------------------------------------------------
  // Printing and parsing.

  function Digits(n: nat): (text: seq<Byte>)
    ensures 0 < |text| && forall i :: 0 <= i < |text| ==> IsDigit(text[i])
  {
    if n < 10 then [ZERO + n] else Digits(n / 10) + [ZERO + n % 10]
  }

  /** sprintf("%d"). */
  function Decimal(v: int): (text: seq<Byte>)
    ensures 0 < |text| && NUL !in text
  {
    if v < 0 then [MINUS] + Digits(0 - v) else Digits(v)
  }

  predicate IsDigit(b: Byte)
  {
    ZERO <= b <= ZERO + 9
  }

  predicate IsSpace(b: Byte)
  {
    b == 32 || 9 <= b <= 13
  }

  function ParseDigits(text: seq<Byte>, acc: nat): (n: nat)
  {
    if text == [] || !IsDigit(text[0]) then acc
    else ParseDigits(text[1..], 10 * acc + (text[0] - ZERO))
  }

  /** atoi on a NUL-terminated buffer: white space, a sign, digits; it stops at anything else. */
  function Atoi(text: seq<Byte>): (v: int)
  {
    if text == [] then 0
    else if IsSpace(text[0]) then Atoi(text[1..])
    else if text[0] == MINUS then 0 - ParseDigits(text[1..], 0)
    else if text[0] == PLUS then ParseDigits(text[1..], 0)
    else ParseDigits(text, 0)
  }

  function Pow10(k: nat): (p: nat)
    ensures 0 < p
  {
    if k == 0 then 1 else 10 * Pow10(k - 1)
  }

  lemma {:induction false} ParseDigitsAfter(text: seq<Byte>, rest: seq<Byte>, acc: nat)
    requires forall i :: 0 <= i < |text| ==> IsDigit(text[i])
    ensures ParseDigits(text + rest, acc) == ParseDigits(rest, ParseDigits(text, acc))
  {
    if text == [] {
      assert text + rest == rest;
    } else {
      assert (text + rest)[1..] == text[1..] + rest;
      ParseDigitsAfter(text[1..], rest, 10 * acc + (text[0] - ZERO));
    }
  }

  lemma {:induction false} ParseOfDigits(n: nat, rest: seq<Byte>)
    requires rest == [] || !IsDigit(rest[0])
    ensures ParseDigits(Digits(n) + rest, 0) == n
  {
    if n < 10 {
      ParseDigitsAfter(Digits(n), rest, 0);
      assert ParseDigits([], n) == n;
      assert Digits(n)[1..] == [];
    } else {
      var last := [ZERO + n % 10];
      ParseDigitsAfter(Digits(n), rest, 0);
      ParseDigitsAfter(Digits(n / 10), last, 0);
      ParseOfDigits(n / 10, []);
      assert Digits(n / 10) + [] == Digits(n / 10);
      assert last[1..] == [];
    }
  }

  lemma AtoiUnsigned(text: seq<Byte>)
    requires text != [] && IsDigit(text[0])
    ensures Atoi(text) == ParseDigits(text, 0)
  {
  }

  lemma AtoiSigned(tail: seq<Byte>)
    ensures Atoi([MINUS] + tail) == 0 - ParseDigits(tail, 0)
  {
    assert ([MINUS] + tail)[1..] == tail;
  }

  lemma Associate(a: seq<Byte>, b: seq<Byte>, c: seq<Byte>)
    ensures (a + b) + c == a + (b + c)
  {
  }

  lemma AtoiOfNegative(n: nat, rest: seq<Byte>)
    requires rest == [] || !IsDigit(rest[0])
    ensures Atoi(([MINUS] + Digits(n)) + rest) == 0 - n
  {
    ParseOfDigits(n, rest);
    AtoiSigned(Digits(n) + rest);
    Associate([MINUS], Digits(n), rest);
  }

  lemma AtoiOfNatural(n: nat, rest: seq<Byte>)
    requires rest == [] || !IsDigit(rest[0])
    ensures Atoi(Digits(n) + rest) == n
  {
    ParseOfDigits(n, rest);
    var text := Digits(n) + rest;
    assert text[0] == Digits(n)[0];
    AtoiUnsigned(text);
  }

  /** What is printed is parsed back, whatever non-digits follow it in the buffer. */
  lemma AtoiOfDecimal(v: int, rest: seq<Byte>)
    requires rest == [] || !IsDigit(rest[0])
    ensures Atoi(Decimal(v) + rest) == v
  {
    if v < 0 {
      var n: nat := 0 - v;
      assert Decimal(v) == [MINUS] + Digits(n);
      AtoiOfNegative(n, rest);
    } else {
      AtoiOfNatural(v, rest);
    }
  }

  lemma {:induction false} DigitsLength(n: nat, k: nat)
    requires n < Pow10(k) && 0 < k
    ensures |Digits(n)| <= k
  {
    if 10 <= n {
      DigitsLength(n / 10, k - 1);
    }
  }

  /** The text of a C int has at most 11 characters, so its length fits the length byte. */
  lemma DecimalFits(v: int)
    requires INT_MIN <= v <= INT_MAX
    ensures |Decimal(v)| <= 11
  {
    assert Pow10(10) == 100_0000_0000 by {
      assert Pow10(4) == 10000 && Pow10(8) == 10000_0000;
    }
    DigitsLength(if v < 0 then 0 - v else v, 10);
  }

  // ---------------------------------------------------------------------------------------------
  // Messages in a pipe.

  /** One message as bytes. */
  function Frame(v: int): (bytes: seq<Byte>)
    requires INT_MIN <= v <= INT_MAX
  {
    DecimalFits(v);
    [|Decimal(v)|] + Decimal(v)
  }

  ghost predicate AllInts(vs: seq<int>)
  {
    forall i :: 0 <= i < |vs| ==> INT_MIN <= vs[i] <= INT_MAX
  }

  function Frames(vs: seq<int>): (bytes: seq<Byte>)
    requires forall i :: 0 <= i < |vs| ==> INT_MIN <= vs[i] <= INT_MAX
  {
    if vs == [] then [] else Frame(vs[0]) + Frames(vs[1..])
  }

  /** What one read_from_pipe takes off a pipe that holds `bytes`: value and remaining bytes. */
  function Unframe(bytes: seq<Byte>): (r: (int, seq<Byte>))
    requires bytes != []
    ensures |r.1| < |bytes|
  {
    var rest := bytes[1..];
    var c := if bytes[0] <= |rest| then bytes[0] else |rest|;
    (Atoi(rest[..c]), rest[c..])
  }

  /** The values read until the pipe is empty. */
  function ReadAll(bytes: seq<Byte>): (vs: seq<int>)
  {
    if bytes == [] then [] else
      var r := Unframe(bytes);
      [r.0] + ReadAll(r.1)
  }

  lemma UnframeOfFrame(v: int, rest: seq<Byte>)
    requires INT_MIN <= v <= INT_MAX
    ensures Unframe(Frame(v) + rest) == (v, rest)
  {
    DecimalFits(v);
    var bytes := Frame(v) + rest;
    assert bytes[1..] == Decimal(v) + rest;
    AtoiOfDecimal(v, []);
    assert Decimal(v) + [] == Decimal(v);
  }

  /** Any sequence of ints written as messages is read back as that sequence, nothing left over. */
  lemma {:induction false} FramingRoundTrip(vs: seq<int>)
    requires AllInts(vs)
    ensures ReadAll(Frames(vs)) == vs
  {
    if vs != [] {
      UnframeOfFrame(vs[0], Frames(vs[1..]));
      FramingRoundTrip(vs[1..]);
    }
  }

  /** A pipe that holds the messages `vs` as bytes: writing appends one, reading takes the first. */
  lemma {:induction false} WritingAppends(vs: seq<int>, v: int)
    requires AllInts(vs) && INT_MIN <= v <= INT_MAX
    ensures Frames(vs + [v]) == Frames(vs) + Frame(v)
  {
    var all := vs + [v];
    if vs == [] {
      assert all == [v] && all[1..] == [];
    } else {
      var f, g, h := Frame(vs[0]), Frames(vs[1..]), Frame(v);
      WritingAppends(vs[1..], v);
      assert all[1..] == vs[1..] + [v];
      assert Frames(all) == f + (g + h) == (f + g) + h;
    }
  }

  lemma ReadingTakesFirst(vs: seq<int>)
    requires AllInts(vs) && vs != []
    ensures Unframe(Frames(vs)) == (vs[0], Frames(vs[1..])) && Frames(vs)[0] <= 11
  {
    DecimalFits(vs[0]);
    UnframeOfFrame(vs[0], Frames(vs[1..]));
  }

  /** A pipe; `closed` when no process holds its write end, `orphaned` when none holds its read end. */
  class Pipe {
    var bytes: seq<Byte>
    var closed: bool
    var orphaned: bool

    constructor ()
      ensures bytes == [] && !closed && !orphaned
    {
      bytes, closed, orphaned := [], false, false;
    }
  }

  method ClearBuffer(buffer: array<Byte>)
    modifies buffer
    ensures buffer[..] == Zeros(buffer.Length)
  {
    for i := 0 to buffer.Length
      invariant buffer[..i] == Zeros(i)
    {
      buffer[i] := NUL;
    }
  }

  /** strlen of what starts at `from`. */
  method StrLen(buffer: array<Byte>, from: nat) returns (len: nat)
    requires from < buffer.Length && NUL in buffer[from..]
    ensures from + len < buffer.Length && buffer[from + len] == NUL && NUL !in buffer[from..from + len]
  {
    len := 0;
    ghost var end :| 0 <= end < |buffer[from..]| && buffer[from..][end] == NUL;
    while buffer[from + len] != NUL
      invariant len <= end && NUL !in buffer[from..from + len]
      decreases end - len
    {
      len := len + 1;
    }
  }

  /** 1 at the end of file; otherwise takes one message off the pipe. */
  method ReadFromPipe(pipe: Pipe, buffer: array<Byte>, stale: int) returns (status: int, value: int)
    requires pipe.bytes != [] || pipe.closed
    requires pipe.bytes != [] ==> pipe.bytes[0] < buffer.Length
    modifies pipe`bytes, buffer
    ensures old(pipe.bytes) == [] ==> status == 1 && value == stale && pipe.bytes == []
    ensures old(pipe.bytes) != [] ==> status == 0 && (value, pipe.bytes) == Unframe(old(pipe.bytes))
  {
    ClearBuffer(buffer);
    if pipe.bytes == [] {
      return 1, stale;
    }
    var c := pipe.bytes[0];
    pipe.bytes := pipe.bytes[1..];
    var got := if c <= |pipe.bytes| then c else |pipe.bytes|;
    ghost var text := pipe.bytes[..got];
    for i := 0 to got
      modifies buffer
      invariant buffer[..i] == text[..i]
      invariant buffer[i..] == Zeros(buffer.Length - i)
    {
      buffer[i] := pipe.bytes[i];
    }
    pipe.bytes := pipe.bytes[got..];
    assert buffer[..] == text + Zeros(buffer.Length - got);
    AtoiStopsAtNul(text, buffer.Length - got);
    value := Atoi(buffer[..]);
    status := 0;
  }

  lemma {:induction false} ParseStopsAtNul(text: seq<Byte>, n: nat, acc: nat)
    ensures ParseDigits(text + Zeros(n), acc) == ParseDigits(text, acc)
  {
    if text == [] {
      assert text + Zeros(n) == Zeros(n);
    } else {
      assert (text + Zeros(n))[1..] == text[1..] + Zeros(n);
      if IsDigit(text[0]) {
        ParseStopsAtNul(text[1..], n, 10 * acc + (text[0] - ZERO));
      }
    }
  }

  lemma {:induction false} AtoiStopsAtNul(text: seq<Byte>, n: nat)
    ensures Atoi(text + Zeros(n)) == Atoi(text)
  {
    if text == [] {
      assert text + Zeros(n) == Zeros(n);
    } else {
      assert (text + Zeros(n))[1..] == text[1..] + Zeros(n);
      AtoiStopsAtNul(text[1..], n);
      ParseStopsAtNul(text[1..], n, 0);
      ParseStopsAtNul(text, n, 0);
    }
  }

  /** sprintf("%d") into a cleared buffer behind its first byte, and the length of the text. */
  method PrintMessage(buffer: array<Byte>, message: int) returns (c: nat)
    requires INT_MIN <= message <= INT_MAX && 13 <= buffer.Length
    requires buffer[..] == Zeros(buffer.Length)
    modifies buffer
    ensures c == |Decimal(message)| <= 11 && buffer[1..][..c] == Decimal(message)
  {
    DecimalFits(message);
    var text := Decimal(message);
    forall i | 0 <= i < |text| {
      buffer[1 + i] := text[i];
    }
    ghost var tail := buffer[1..];
    assert tail[..|text|] == text && tail[|text|] == NUL;
    c := StrLen(buffer, 1);
    assert buffer[1..1 + c] == tail[..c];
    TextLength(tail, text, c);
  }

  /** Puts one message into the pipe; 1 if nobody can ever read it. */
  method WriteToPipe(pipe: Pipe, buffer: array<Byte>, message: int) returns (status: int)
    requires INT_MIN <= message <= INT_MAX && 13 <= buffer.Length
    modifies pipe`bytes, buffer
    ensures pipe.orphaned ==> status == 1 && pipe.bytes == old(pipe.bytes)
    ensures !pipe.orphaned ==> status == 0 && pipe.bytes == old(pipe.bytes) + Frame(message)
  {
    ClearBuffer(buffer);
    var c := PrintMessage(buffer, message);
    buffer[0] := c;
    if pipe.orphaned {
      return 1;
    }
    assert buffer[..c + 1] == [c] + buffer[1..][..c];
    pipe.bytes := pipe.bytes + buffer[..c + 1];
    status := 0;
  }

  lemma TextLength(bytes: seq<Byte>, text: seq<Byte>, len: nat)
    requires text < bytes && NUL !in text && bytes[|text|] == NUL
    requires len < |bytes| && bytes[len] == NUL && NUL !in bytes[..len]
    ensures len == |text|
  {
    assert forall k :: 0 <= k < |text| ==> bytes[k] == text[k] && text[k] in text;
    assert forall k :: 0 <= k < len ==> bytes[k] in bytes[..len];
  }

  // ---------------------------------------------------------------------------------------------
  // Changing a message.

  /** vary_int: adds a number drawn from the interval, and starts again at 1 beyond the bound. */
  function Vary(value: int, lower: int, upper: int, draw: nat): (v: int)
    requires lower <= upper
    ensures -SAFETY_BOUND <= v <= SAFETY_BOUND
    ensures v == 1 || lower <= v - value <= upper
  {
    var v := value + lower + draw % (upper - lower + 1);
    if v > SAFETY_BOUND || v < -SAFETY_BOUND then 1 else v
  }

  /** The values a process may send on: those at a distance in the interval and within the bound, and
      1 exactly if the interval reaches beyond the bound. */
  lemma VaryExactly(value: int, lower: int, upper: int, v: int)
    requires lower <= upper
    ensures (exists draw: nat :: Vary(value, lower, upper, draw) == v) <==>
              || (-SAFETY_BOUND <= v <= SAFETY_BOUND && lower <= v - value <= upper)
              || (v == 1 && (value + lower < -SAFETY_BOUND || SAFETY_BOUND < value + upper))
  {
    if -SAFETY_BOUND <= v <= SAFETY_BOUND && lower <= v - value <= upper {
      SmallRemainder(v - value - lower, upper - lower + 1);
      assert Vary(value, lower, upper, v - value - lower) == v;
    } else if v == 1 && value + lower < -SAFETY_BOUND {
      SmallRemainder(0, upper - lower + 1);
      assert Vary(value, lower, upper, 0) == 1;
    } else if v == 1 && SAFETY_BOUND < value + upper {
      SmallRemainder(upper - lower, upper - lower + 1);
      assert Vary(value, lower, upper, upper - lower) == 1;
    }
  }

  lemma SmallRemainder(a: nat, m: nat)
    requires a < m
    ensures a % m == a
  {
  }

  lemma SameRemainder(a: nat, m: nat)
    requires 0 < m
    ensures (a + m) % m == a % m
  {
    DivisionStep(a + m, m);
  }

  /** Random number 0 adds `lower`, each further one adds one more until `upper` has been added, and
      then they start again; a result beyond a million either way is replaced by 1. */
  lemma VaryCountsUp(value: int, lower: int, upper: int, draw: nat)
    requires lower <= upper
    ensures -1000000 <= value + lower <= 1000000 ==> Vary(value, lower, upper, 0) == value + lower
    ensures draw < upper - lower && -1000000 <= value + lower + draw < 1000000 ==>
              Vary(value, lower, upper, draw + 1) == Vary(value, lower, upper, draw) + 1
    ensures draw <= upper - lower && !(-1000000 <= value + lower + draw <= 1000000) ==>
              Vary(value, lower, upper, draw) == 1
    ensures Vary(value, lower, upper, draw + (upper - lower + 1)) == Vary(value, lower, upper, draw)
  {
    var m := upper - lower + 1;
    SmallRemainder(0, m);
    SameRemainder(draw, m);
    if draw < m {
      SmallRemainder(draw, m);
    }
    if draw + 1 < m {
      SmallRemainder(draw + 1, m);
    }
  }

  /** The text of -5, 0 and 120 behind its length. */
  lemma FrameExamples()
    ensures Frame(-5) == [2, 45, 53] && Frame(0) == [1, 48] && Frame(120) == [3, 49, 50, 48]
  {
    assert Digits(12) == [49, 50];
    assert Digits(120) == [49, 50, 48];
  }

  lemma TwoDigits(a: Byte, b: Byte, rest: seq<Byte>)
    requires IsDigit(a) && IsDigit(b) && (rest == [] || !IsDigit(rest[0]))
    ensures ParseDigits([a, b] + rest, 0) == 10 * (a - ZERO) + (b - ZERO)
  {
    ParseDigitsAfter([a, b], rest, 0);
    assert [a, b][1..] == [b] && [b][1..] == [];
    assert ParseDigits([b], a - ZERO) == ParseDigits([], 10 * (a - ZERO) + (b - ZERO));
    assert ParseDigits(rest, 10 * (a - ZERO) + (b - ZERO)) == 10 * (a - ZERO) + (b - ZERO);
  }

  /** Parsing goes past white space and one sign up to the first byte that is no digit. */
  lemma AtoiExamples()
    ensures Atoi([32, 9, 43, 49, 50, 120, 51]) == 12
    ensures Atoi([45, 49, 50]) == -12 && Atoi([49, 50]) == 12
    ensures Atoi([120]) == 0 && Atoi([45, 45, 55]) == 0
  {
    var text := [43, 49, 50, 120, 51];
    TwoDigits(49, 50, [120, 51]);
    assert text[1..] == [49, 50] + [120, 51];
    assert ([9] + text)[1..] == text && ([32] + ([9] + text))[1..] == [9] + text;
    assert Atoi([9] + text) == Atoi(text) == 12;
    assert [32] + ([9] + text) == [32, 9, 43, 49, 50, 120, 51];
    TwoDigits(49, 50, []);
    assert [49, 50] + [] == [49, 50];
    AtoiUnsigned([49, 50]);
    AtoiSigned([49, 50]);
    assert [45] + [49, 50] == [45, 49, 50];
    AtoiSigned([45, 55]);
    assert [45] + [45, 55] == [45, 45, 55];
  }

  /** A read takes the announced number of bytes, or what is left before the end of the file. */
  lemma UnframeExamples()
    ensures Unframe([2, 49, 50, 51]) == (12, [51]) && Unframe([5, 49, 50]) == (12, [])
  {
    AtoiExamples();
    assert [2, 49, 50, 51][1..][..2] == [49, 50] && [5, 49, 50][1..][..2] == [49, 50];
  }
}

/**
  How the UDP client cuts a file into numbered packets, and why the payloads the server
  prints are the file again.  The payload size (568 bytes in the program) is a parameter.
 */
module Chunking {
  import opened Bytes
  import opened Division

  /** One datagram: the chunk number, the "last" flag and the fixed-size payload field. */
  datatype Packet = Packet(no: int, last: bool, payload: seq<Byte>)

  /** The packets that carry `rest`, numbered from `no`.  A full chunk is never the last one. */
  function PacketsFrom(rest: seq<Byte>, size: nat, no: int): (ps: seq<Packet>)
    requires 0 < size
    ensures 0 < |ps|
  {
    if |rest| < size then
      [Packet(no, true, rest + Zeros(size - |rest|))]
    else
      [Packet(no, false, rest[..size])] + PacketsFrom(rest[size..], size, no + 1)
  }

  function Packets(file: seq<Byte>, size: nat): (ps: seq<Packet>)
    requires 0 < size
  {
    PacketsFrom(file, size, 1)
  }

  /** What every packet list the client can produce looks like to the two protocol machines. */
  ghost predicate Numbered(ps: seq<Packet>)
  {
    && 0 < |ps|
    && (forall i :: 0 <= i < |ps| ==> ps[i].no == i + 1)
    && (forall i :: 0 <= i < |ps| ==> (ps[i].last <==> i == |ps| - 1))
  }

  function Payloads(ps: seq<Packet>): (bytes: seq<Byte>)
  {
    if ps == [] then [] else ps[0].payload + Payloads(ps[1..])
  }

  /** What `printf("%s")` shows of a byte string: everything before the first NUL. */
  function UpToNul(bytes: seq<Byte>): (text: seq<Byte>)
  {
    if bytes == [] || bytes[0] == NUL then [] else [bytes[0]] + UpToNul(bytes[1..])
  }

  lemma {:induction false} PacketsFromShape(rest: seq<Byte>, size: nat, no: int)
    requires 0 < size
    ensures var ps := PacketsFrom(rest, size, no);
            && |ps| == |rest| / size + 1
            && (forall i :: 0 <= i < |ps| ==> ps[i].no == no + i)
            && (forall i :: 0 <= i < |ps| ==> (ps[i].last <==> i == |ps| - 1))
            && (forall i :: 0 <= i < |ps| ==> |ps[i].payload| == size)
  {
    if |rest| < size {
      QuotientIsUnique(|rest|, size, 0, |rest|);
    } else {
      PacketsFromShape(rest[size..], size, no + 1);
      DivisionStep(|rest|, size);
    }
  }

  /** A file of any length becomes |file| / size + 1 packets numbered 1, 2, ..., only the final
      one flagged last, every payload field exactly full. */
  lemma PacketCount(file: seq<Byte>, size: nat)
    requires 0 < size
    ensures |Packets(file, size)| == |file| / size + 1
    ensures Numbered(Packets(file, size))
    ensures forall i :: 0 <= i < |Packets(file, size)| ==> |Packets(file, size)[i].payload| == size
  {
    PacketsFromShape(file, size, 1);
  }

  lemma PaddedSplit(rest: seq<Byte>, n: nat, pad: seq<Byte>)
    requires n <= |rest|
    ensures rest[..n] + (rest[n..] + pad) == rest + pad
  {
  }

  /** How many zeros fill up the last payload field. */
  function Padding(len: nat, size: nat): (pad: nat)
    requires 0 < size
  {
    if len < size then size - len else Padding(len - size, size)
  }

  lemma {:induction false} PaddingIsRemainder(len: nat, size: nat)
    requires 0 < size
    ensures Padding(len, size) == size - len % size
  {
    if len < size {
      QuotientIsUnique(len, size, 0, len);
    } else {
      PaddingIsRemainder(len - size, size);
      DivisionStep(len, size);
    }
  }

  lemma {:induction false} PayloadsFromAreThePaddedRest(rest: seq<Byte>, size: nat, no: int)
    requires 0 < size
    ensures Payloads(PacketsFrom(rest, size, no)) == rest + Zeros(Padding(|rest|, size))
  {
    var ps := PacketsFrom(rest, size, no);
    if |rest| < size {
      assert ps[1..] == [];
    } else {
      PayloadsFromAreThePaddedRest(rest[size..], size, no + 1);
      assert ps[1..] == PacketsFrom(rest[size..], size, no + 1);
      PaddedSplit(rest, size, Zeros(Padding(|rest| - size, size)));
    }
  }

  lemma {:induction false} UpToNulOfPadded(text: seq<Byte>, pad: nat)
    requires NUL !in text
    ensures UpToNul(text + Zeros(pad)) == text
  {
    if text == [] {
      assert text + Zeros(pad) == Zeros(pad);
    } else {
      UpToNulOfPadded(text[1..], pad);
      assert (text + Zeros(pad))[1..] == text[1..] + Zeros(pad);
    }
  }

  /** The payloads in order are the file followed by 1..size zero bytes, so a file without NUL
      bytes is exactly what precedes the first NUL of the delivered payloads. */
  lemma Reassembly(file: seq<Byte>, size: nat)
    requires 0 < size
    ensures Payloads(Packets(file, size)) == file + Zeros(size - |file| % size)
    ensures NUL !in file ==> UpToNul(Payloads(Packets(file, size))) == file
  {
    PayloadsFromAreThePaddedRest(file, size, 1);
    PaddingIsRemainder(|file|, size);
    if NUL !in file {
      UpToNulOfPadded(file, size - |file| % size);
    }
  }

  lemma {:induction false} PayloadsConcat(a: seq<Packet>, b: seq<Packet>)
    ensures Payloads(a + b) == Payloads(a) + Payloads(b)
  {
    if a == [] {
      assert a + b == b;
    } else {
      var p, x, y := a[0].payload, Payloads(a[1..]), Payloads(b);
      PayloadsConcat(a[1..], b);
      assert (a + b)[1..] == a[1..] + b;
      assert Payloads(a + b) == p + (x + y) == (p + x) + y;
    }
  }

  lemma {:induction false} UpToNulStops(text: seq<Byte>, rest: seq<Byte>)
    requires NUL !in text && rest != [] && rest[0] == NUL
    ensures UpToNul(text + rest) == text
  {
    if text == [] {
      assert text + rest == rest;
    } else {
      UpToNulStops(text[1..], rest);
      assert (text + rest)[1..] == text[1..] + rest;
    }
  }

  /** Packets printed after the whole file do not matter: its padding ends the text. */
  lemma ReassemblyOfMore(file: seq<Byte>, size: nat, more: seq<Packet>)
    requires 0 < size && NUL !in file
    ensures UpToNul(Payloads(Packets(file, size) + more)) == file
  {
    Reassembly(file, size);
    PayloadsConcat(Packets(file, size), more);
    var pad := Zeros(size - |file| % size);
    assert (file + pad) + Payloads(more) == file + (pad + Payloads(more));
    UpToNulStops(file, pad + Payloads(more));
  }
}

/**
  Several writers and one reader over a FIFO (Lab2_1/prog21_c.c with Lab2_1/prog21b_s.c).  A writer
  cuts its file into packets of exactly PIPE_BUF bytes, the process identifier first and zeros after
  the last bytes of the file; writes of that size are atomic.  The reader prints the letters and
  digits of every packet under its identifier.  PIPE_BUF is the parameter `size`.
 */
module FifoDemux {
  import opened Options
  import opened Bytes

  /** sizeof(pid_t) */
  const PID_SIZE: nat := 4

  /** A process identifier. */
  type Pid = p: int | 0 <= p < 0x8000_0000

  /** Identifiers in memory, on a little-endian machine. */
  function PidBytes(p: Pid): (b: seq<Byte>)
    ensures |b| == PID_SIZE
  {
    [p % 256, p / 256 % 256, p / 256 / 256 % 256, p / 256 / 256 / 256]
  }

  function PidOf(b: seq<Byte>): (p: int)
    requires |b| >= PID_SIZE
  {
    var b0: int, b1: int, b2: int, b3: int := b[0], b[1], b[2], b[3];
    b0 + 256 * (b1 + 256 * (b2 + 256 * b3))
  }

  lemma PidRoundTrip(p: Pid, rest: seq<Byte>)
    ensures PidOf(PidBytes(p) + rest) == p
  {
    var q := p / 256;
    var r := q / 256;
    assert p == q * 256 + p % 256 && q == r * 256 + q % 256 && r == r / 256 * 256 + r % 256;
  }

  /** isalnum in the C locale. */
  predicate IsAlnum(b: Byte)
  {
    48 <= b <= 57 || 65 <= b <= 90 || 97 <= b <= 122
  }

  function Alnum(s: seq<Byte>): (r: seq<Byte>)
  {
    if s == [] then [] else Alnum(s[..|s| - 1]) + (if IsAlnum(s[|s| - 1]) then [s[|s| - 1]] else [])
  }

  /** Of a single byte its character is shown if it is a letter or a digit, and nothing otherwise. */
  lemma AlnumOfByte(b: Byte)
    ensures var c := b as char;
            Alnum([b]) == if '0' <= c <= '9' || 'A' <= c <= 'Z' || 'a' <= c <= 'z' then [b] else []
  {
    assert [b][..0] == [];
  }

  lemma {:induction false} AlnumConcat(a: seq<Byte>, b: seq<Byte>)
    ensures Alnum(a + b) == Alnum(a) + Alnum(b)
  {
    if b == [] {
      assert a + b == a;
    } else {
      var n := |b| - 1;
      assert (a + b)[..|a + b| - 1] == a + b[..n];
      AlnumConcat(a, b[..n]);
    }
  }

  lemma {:induction false} AlnumOfZeros(n: nat)
    ensures Alnum(Zeros(n)) == []
  {
    if n > 0 {
      assert Zeros(n)[..n - 1] == Zeros(n - 1);
      AlnumOfZeros(n - 1);
    }
  }

  // ---------------------------------------------------------------------------------------------
  // The writer.

  function Packet(p: Pid, chunk: seq<Byte>, size: nat): (b: seq<Byte>)
    requires PID_SIZE + |chunk| <= size
    ensures |b| == size
  {
    PidBytes(p) + chunk + Zeros(size - PID_SIZE - |chunk|)
  }

  /** The bytes the program sets aside for a packet, one more than the part after the identifier. */
  function Declared(size: nat): (bytes: int)
  {
    size - PID_SIZE + 1
  }

  /** The i-th byte of the packet is stored by the read of `count` bytes or by the zero fill. */
  predicate Stored(size: nat, count: nat, i: nat)
  {
    PID_SIZE <= i < PID_SIZE + count || PID_SIZE + count <= i < size
  }

  /** Every pass of the writer's loop, whatever its read returns, stores exactly the packet's bytes
      after the identifier, up to the last, which lies beyond those set aside: they are three short. */
  lemma EveryPassOverruns(size: nat, count: nat)
    requires PID_SIZE < size && PID_SIZE + count <= size
    ensures forall i: nat :: Stored(size, count, i) <==> PID_SIZE <= i < size
    ensures Stored(size, count, size - 1) && Declared(size) + 3 == size
  {
  }

  /** The packets of a file: full ones as long as they last, a padded one if anything remains. */
  function PacketsOf(p: Pid, file: seq<Byte>, size: nat): (packets: seq<seq<Byte>>)
    requires PID_SIZE < size
    ensures forall k :: 0 <= k < |packets| ==> |packets[k]| == size
    decreases |file|
  {
    var n := size - PID_SIZE;
    if file == [] then []
    else if |file| < n then [Packet(p, file, size)]
    else [Packet(p, file[..n], size)] + PacketsOf(p, file[n..], size)
  }

  /** What remains of a file at an offset, as packets after those already written. */
  lemma NextPacket(p: Pid, file: seq<Byte>, at: nat, size: nat, written: seq<seq<Byte>>)
    requires PID_SIZE < size && at <= |file|
    ensures var end := at + size - PID_SIZE;
            end <= |file| ==>
              written + PacketsOf(p, file[at..], size) ==
              written + [Packet(p, file[at..end], size)] + PacketsOf(p, file[end..], size)
    ensures at < |file| < at + size - PID_SIZE ==>
              written + PacketsOf(p, file[at..], size) == written + [Packet(p, file[at..|file|], size)]
    ensures at == |file| ==> written + PacketsOf(p, file[at..], size) == written
  {
    var n := size - PID_SIZE;
    if at + n <= |file| {
      assert file[at..][..n] == file[at..at + n] && file[at..][n..] == file[at + n..];
    } else {
      assert file[at..|file|] == file[at..];
    }
  }

  /** A packet byte by byte: the identifier from its lowest byte up, the chunk, zeros. */
  lemma PacketBytes(p: Pid, chunk: seq<Byte>, size: nat, i: nat)
    requires PID_SIZE + |chunk| <= size && i < size
    ensures Packet(p, chunk, size)[i] == if i == 0 then p % 256 else if i == 1 then p / 256 % 256
                                         else if i == 2 then p / 65536 % 256 else if i == 3 then p / 16777216
                                         else if i < 4 + |chunk| then chunk[i - 4] else 0
  {
    HighBytes(p);
  }

  lemma HighBytes(p: Pid)
    ensures p / 256 / 256 == p / 65536 && p / 256 / 256 / 256 == p / 16777216
  {
  }

  /** The packets of a file byte by byte: behind the identifier the k-th one has the k-th stretch of
      size - 4 bytes, the one from `start`, with zeros behind the end of the file; a packet that would
      hold nothing of the file is not written. */
  lemma {:induction false} PacketsBytes(p: Pid, file: seq<Byte>, size: nat, k: nat, j: nat, start: nat)
    requires PID_SIZE < size && j < size - 4 && start == k * (size - 4)
    ensures k < |PacketsOf(p, file, size)| <==> start < |file|
    ensures k < |PacketsOf(p, file, size)| ==>
              PacketsOf(p, file, size)[k][4 + j] == if start + j < |file| then file[start + j] else 0
    decreases k
  {
    var n := size - PID_SIZE;
    if k == 0 {
      if file != [] {
        PacketBytes(p, if |file| < n then file else file[..n], size, 4 + j);
      }
    } else {
      StretchBefore(k, n, start);
      if n <= |file| {
        PacketsBytes(p, file[n..], size, k - 1, j, start - n);
      }
    }
  }

  lemma StretchBefore(k: nat, n: nat, start: nat)
    requires 0 < k && start == k * n
    ensures n <= start && start - n == (k - 1) * n
  {
    assert k * n == (k - 1) * n + n;
    assert 0 <= (k - 1) * n;
  }

  /** One writer, from opening its file to the end of it; `written` are its writes. */
  method WriteToFifo(p: Pid, file: seq<Byte>, size: nat) returns (written: seq<seq<Byte>>)
    requires PID_SIZE < size
    ensures written == PacketsOf(p, file, size)
  {
    var n := size - PID_SIZE;
    var buffer := new Byte[size](_ => NUL);
    var pid := PidBytes(p);
    buffer[0], buffer[1], buffer[2], buffer[3] := pid[0], pid[1], pid[2], pid[3];
    written := [];
    var at := 0;
    var count := n;
    while count == n
      invariant at <= |file| && count <= n && buffer[..PID_SIZE] == pid
      invariant count == n ==> PacketsOf(p, file, size) == written + PacketsOf(p, file[at..], size)
      invariant count < n ==> PacketsOf(p, file, size) == written
      decreases |file| - at, count
    {
      count := if |file| - at < n then |file| - at else n;
      var chunk := file[at..at + count];
      forall k | 0 <= k < count {
        buffer[PID_SIZE + k] := chunk[k];
      }
      forall k | count <= k < n {
        buffer[PID_SIZE + k] := NUL;
      }
      assert buffer[..] == Packet(p, chunk, size);
      NextPacket(p, file, at, size, written);
      if count > 0 {
        written := written + [buffer[..]];
      }
      at := at + count;
    }
  }

  // ---------------------------------------------------------------------------------------------
  // The reader.

  /** What stands under one "PID" heading. */
  datatype Section = Section(pid: int, text: seq<Byte>)

  function SectionOf(packet: seq<Byte>): (x: Section)
    requires |packet| >= PID_SIZE
  {
    Section(PidOf(packet), Alnum(packet[PID_SIZE..]))
  }

  function Shown(packets: seq<seq<Byte>>): (out: seq<Section>)
    requires forall k :: 0 <= k < |packets| ==> |packets[k]| >= PID_SIZE
  {
    if packets == [] then []
    else
      var last := |packets| - 1;
      Shown(packets[..last]) + [SectionOf(packets[last])]
  }

  function Flatten(packets: seq<seq<Byte>>): (bytes: seq<Byte>)
  {
    if packets == [] then [] else packets[0] + Flatten(packets[1..])
  }

  /** The letters and digits in the whole buffer after the identifier. */
  method PrintAlnum(buffer: array<Byte>) returns (text: seq<Byte>)
    requires buffer.Length >= PID_SIZE
    ensures text == Alnum(buffer[..][PID_SIZE..])
  {
    text := [];
    for i := PID_SIZE to buffer.Length
      invariant text == Alnum(buffer[PID_SIZE..i])
    {
      assert buffer[PID_SIZE..i + 1][..i - PID_SIZE] == buffer[PID_SIZE..i];
      if IsAlnum(buffer[i]) {
        text := text + [buffer[i]];
      }
    }
    assert buffer[..][PID_SIZE..] == buffer[PID_SIZE..buffer.Length];
  }

  /** The buffer after each read of what is in the FIFO, when it holds `stale` before: a short read
      leaves the rest of the buffer as it was. */
  function BuffersRead(stale: seq<Byte>, bytes: seq<Byte>): (buffers: seq<seq<Byte>>)
    requires PID_SIZE < |stale|
    ensures forall k :: 0 <= k < |buffers| ==> |buffers[k]| == |stale|
    decreases |bytes|
  {
    if bytes == [] then []
    else
      var count := if |bytes| < |stale| then |bytes| else |stale|;
      var buffer := bytes[..count] + stale[count..];
      [buffer] + BuffersRead(buffer, bytes[count..])
  }

  /** A short read comes last and leaves the rest of the buffer as it was; any other fills it. */
  lemma BufferAfterRead(stale: seq<Byte>, bytes: seq<Byte>)
    requires PID_SIZE < |stale|
    ensures 0 < |bytes| < |stale| ==> BuffersRead(stale, bytes) == [bytes + stale[|bytes|..]]
    ensures |stale| <= |bytes| ==>
              var first := bytes[..|stale|];
              BuffersRead(stale, bytes) == [first] + BuffersRead(first, bytes[|stale|..])
  {
    if 0 < |bytes| < |stale| {
      assert bytes[..|bytes|] == bytes && bytes[|bytes|..] == [];
    } else if |stale| <= |bytes| {
      assert bytes[..|stale|] + stale[|stale|..] == bytes[..|stale|];
    }
  }

  /** One read: as many bytes as the buffer holds, or all that are left. */
  method ReadInto(buffer: array<Byte>, bytes: seq<Byte>, at: nat) returns (count: nat)
    requires at <= |bytes|
    modifies buffer
    ensures count == if |bytes| - at < buffer.Length then |bytes| - at else buffer.Length
    ensures buffer[..] == bytes[at..][..count] + old(buffer[..])[count..]
  {
    count := if |bytes| - at < buffer.Length then |bytes| - at else buffer.Length;
    forall k | 0 <= k < count {
      buffer[k] := bytes[at + k];
    }
  }

  lemma NextBuffer(seen: seq<seq<Byte>>, before: seq<Byte>, rest: seq<Byte>, now: seq<Byte>, count: nat)
    requires PID_SIZE < |before| && 0 < count == if |rest| < |before| then |rest| else |before|
    requires now == rest[..count] + before[count..]
    ensures seen + BuffersRead(before, rest) == (seen + [now]) + BuffersRead(now, rest[count..])
  {
    assert BuffersRead(before, rest) == [now] + BuffersRead(now, rest[count..]);
  }

  lemma ShownOneMore(packets: seq<seq<Byte>>, packet: seq<Byte>)
    requires |packet| >= PID_SIZE && forall k :: 0 <= k < |packets| ==> |packets[k]| >= PID_SIZE
    ensures Shown(packets + [packet]) == Shown(packets) + [SectionOf(packet)]
  {
    assert (packets + [packet])[..|packets|] == packets;
  }

  ghost predicate AllOfLength(buffers: seq<seq<Byte>>, size: nat)
  {
    forall k :: 0 <= k < |buffers| ==> |buffers[k]| == size
  }

  /** One turn of the reader: it reads, and prints the whole buffer if it read anything; `seen` are the
      buffers printed before. */
  method ReadAndPrint(buffer: array<Byte>, bytes: seq<Byte>, at: nat, out: seq<Section>, ghost seen: seq<seq<Byte>>)
      returns (count: nat, more: seq<Section>, ghost now: seq<seq<Byte>>)
    requires PID_SIZE < buffer.Length && at <= |bytes| && AllOfLength(seen, buffer.Length) && out == Shown(seen)
    modifies buffer
    ensures count == if |bytes| - at < buffer.Length then |bytes| - at else buffer.Length
    ensures AllOfLength(now, buffer.Length) && more == Shown(now)
    ensures now + BuffersRead(buffer[..], bytes[at + count..]) == seen + BuffersRead(old(buffer[..]), bytes[at..])
  {
    ghost var before := buffer[..];
    count := ReadInto(buffer, bytes, at);
    assert bytes[at..][count..] == bytes[at + count..];
    more, now := out, seen;
    if count > 0 {
      var text := PrintAlnum(buffer);
      NextBuffer(seen, before, bytes[at..], buffer[..], count);
      ShownOneMore(seen, buffer[..]);
      more := out + [Section(PidOf(buffer[..]), text)];
      now := seen + [buffer[..]];
    }
  }

  /** The reader, until the end of what the writers have put into the FIFO: after every read that
      returns anything it prints the whole buffer. */
  method ReadFromFifo(bytes: seq<Byte>, stale: seq<Byte>) returns (out: seq<Section>)
    requires PID_SIZE < |stale|
    ensures out == Shown(BuffersRead(stale, bytes))
  {
    var buffer := new Byte[|stale|](i requires 0 <= i < |stale| => stale[i]);
    assert buffer[..] == stale && bytes[0..] == bytes;
    out := [];
    var at, count := 0, 1;
    ghost var seen: seq<seq<Byte>> := [];
    while count > 0
      invariant 0 <= count && at <= |bytes| && buffer.Length == |stale|
      invariant AllOfLength(seen, buffer.Length) && out == Shown(seen)
      invariant seen + BuffersRead(buffer[..], bytes[at..]) == BuffersRead(stale, bytes)
      invariant count == 0 ==> at == |bytes|
      decreases |bytes| - at, count
    {
      count, out, seen := ReadAndPrint(buffer, bytes, at, out, seen);
      at := at + count;
    }
    assert seen + [] == seen;
  }

  /** With whole packets in the FIFO no read is short: each read yields a packet and nothing stale. */
  lemma {:induction false} WholePacketsAreRead(stale: seq<Byte>, packets: seq<seq<Byte>>)
    requires PID_SIZE < |stale| && forall k :: 0 <= k < |packets| ==> |packets[k]| == |stale|
    ensures BuffersRead(stale, Flatten(packets)) == packets
    decreases |packets|
  {
    if packets != [] {
      var bytes, first, rest := Flatten(packets), packets[0], packets[1..];
      assert bytes[..|stale|] == first && bytes[|stale|..] == Flatten(rest);
      assert bytes[..|stale|] + stale[|stale|..] == first;
      WholePacketsAreRead(first, rest);
    }
  }

  // ---------------------------------------------------------------------------------------------
  // Several writers.

  datatype Writer = Writer(pid: Pid, file: seq<Byte>)

  /** The FIFO's history and the packets each writer still has to write. */
  datatype Line = Line(fifo: seq<seq<Byte>>, left: seq<seq<seq<Byte>>>)

  ghost predicate DistinctPids(writers: seq<Writer>)
  {
    forall i, j :: 0 <= i < j < |writers| ==> writers[i].pid != writers[j].pid
  }

  /** The history after writers have written in the given order, if they have as many packets. */
  function AfterWrites(writers: seq<Writer>, size: nat, picks: seq<nat>): (l: Option<Line>)
    requires PID_SIZE < size
  {
    if picks == [] then
      Some(Line([], seq(|writers|, i requires 0 <= i < |writers| => PacketsOf(writers[i].pid, writers[i].file, size))))
    else
      var w := picks[|picks| - 1];
      match AfterWrites(writers, size, picks[..|picks| - 1])
      case None => None
      case Some(l) =>
        if w < |l.left| && l.left[w] != [] then Some(Line(l.fifo + [l.left[w][0]], l.left[w := l.left[w][1..]]))
        else None
  }

  /** Everything printed under one identifier. */
  function TextUnder(out: seq<Section>, pid: int): (text: seq<Byte>)
  {
    if out == [] then []
    else TextUnder(out[..|out| - 1], pid) + (if out[|out| - 1].pid == pid then out[|out| - 1].text else [])
  }

  lemma TextOneMore(packets: seq<seq<Byte>>, packet: seq<Byte>, pid: int)
    requires |packet| >= PID_SIZE && forall k :: 0 <= k < |packets| ==> |packets[k]| >= PID_SIZE
    ensures TextUnder(Shown(packets + [packet]), pid) ==
              TextUnder(Shown(packets), pid) + (if PidOf(packet) == pid then Alnum(packet[PID_SIZE..]) else [])
  {
    ShownOneMore(packets, packet);
    assert (Shown(packets) + [SectionOf(packet)])[..|Shown(packets)|] == Shown(packets);
  }

  /** The letters and digits a writer has yet to send. */
  function TextLeft(packets: seq<seq<Byte>>): (text: seq<Byte>)
    requires forall k :: 0 <= k < |packets| ==> |packets[k]| >= PID_SIZE
  {
    if packets == [] then [] else Alnum(packets[0][PID_SIZE..]) + TextLeft(packets[1..])
  }

  lemma PacketParts(head: seq<Byte>, chunk: seq<Byte>, pad: seq<Byte>)
    ensures head + chunk + pad == head + (chunk + pad)
    ensures (head + chunk + pad)[|head|..] == chunk + pad
  {
  }

  lemma PacketPid(p: Pid, chunk: seq<Byte>, size: nat)
    requires PID_SIZE + |chunk| <= size
    ensures PidOf(Packet(p, chunk, size)) == p
  {
    var pad := Zeros(size - PID_SIZE - |chunk|);
    PacketParts(PidBytes(p), chunk, pad);
    PidRoundTrip(p, chunk + pad);
  }

  lemma PaddedText(head: seq<Byte>, chunk: seq<Byte>, n: nat)
    ensures Alnum((head + chunk + Zeros(n))[|head|..]) == Alnum(chunk)
  {
    PacketParts(head, chunk, Zeros(n));
    AlnumConcat(chunk, Zeros(n));
    AlnumOfZeros(n);
    assert Alnum(chunk) + [] == Alnum(chunk);
  }

  lemma PacketText(p: Pid, chunk: seq<Byte>, size: nat)
    requires PID_SIZE + |chunk| <= size
    ensures Alnum(Packet(p, chunk, size)[PID_SIZE..]) == Alnum(chunk)
  {
    PaddedText(PidBytes(p), chunk, size - PID_SIZE - |chunk|);
  }

  /** Cutting and padding neither add nor lose letters or digits, whatever the file's length, and all
      packets carry the writer's identifier. */
  lemma {:induction false} PacketsKeepText(p: Pid, file: seq<Byte>, size: nat)
    requires PID_SIZE < size
    ensures TextLeft(PacketsOf(p, file, size)) == Alnum(file)
    ensures forall k :: 0 <= k < |PacketsOf(p, file, size)| ==> PidOf(PacketsOf(p, file, size)[k]) == p
    decreases |file|
  {
    var n := size - PID_SIZE;
    if file == [] {
    } else if |file| < n {
      PacketPid(p, file, size);
      PacketText(p, file, size);
      assert TextLeft([Packet(p, file, size)]) == Alnum(file) + TextLeft([Packet(p, file, size)][1..]);
    } else {
      PacketPid(p, file[..n], size);
      PacketText(p, file[..n], size);
      PacketsKeepText(p, file[n..], size);
      AlnumConcat(file[..n], file[n..]);
      assert file[..n] + file[n..] == file;
      assert PacketsOf(p, file, size)[1..] == PacketsOf(p, file[n..], size);
    }
  }

  /** The packets are whole and each writer's remaining ones carry its identifier. */
  ghost predicate LineRight(writers: seq<Writer>, size: nat, l: Line)
  {
    && |l.left| == |writers|
    && (forall k :: 0 <= k < |l.fifo| ==> |l.fifo[k]| == size)
    && (forall w, k :: 0 <= w < |l.left| && 0 <= k < |l.left[w]| ==> |l.left[w][k]| == size)
    && (forall w, k :: 0 <= w < |l.left| && 0 <= k < |l.left[w]| ==>
          size >= PID_SIZE && PidOf(l.left[w][k]) == writers[w].pid)
  }

  lemma {:induction false} AnyMergeIsRight(writers: seq<Writer>, size: nat, picks: seq<nat>, l: Line)
    requires PID_SIZE < size && AfterWrites(writers, size, picks) == Some(l)
    ensures LineRight(writers, size, l)
  {
    if picks == [] {
      forall w | 0 <= w < |writers|
        ensures forall k :: 0 <= k < |l.left[w]| ==> |l.left[w][k]| == size && PidOf(l.left[w][k]) == writers[w].pid
      {
        PacketsKeepText(writers[w].pid, writers[w].file, size);
      }
    } else {
      AnyMergeIsRight(writers, size, picks[..|picks| - 1], AfterWrites(writers, size, picks[..|picks| - 1]).value);
    }
  }

  /** Writer v writes its next packet; what writer w has shown and has left stays the same text. */
  lemma OneMoreWrite(writers: seq<Writer>, size: nat, p: Line, v: nat, l: Line, w: nat)
    requires PID_SIZE < size && LineRight(writers, size, p) && DistinctPids(writers)
    requires v < |writers| && w < |writers| && p.left[v] != []
    requires l == Line(p.fifo + [p.left[v][0]], p.left[v := p.left[v][1..]]) && LineRight(writers, size, l)
    ensures TextUnder(Shown(l.fifo), writers[w].pid) + TextLeft(l.left[w])
         == TextUnder(Shown(p.fifo), writers[w].pid) + TextLeft(p.left[w])
  {
    var packet := p.left[v][0];
    TextOneMore(p.fifo, packet, writers[w].pid);
    var sofar := TextUnder(Shown(p.fifo), writers[w].pid);
    if v == w {
      var coming, later := Alnum(packet[PID_SIZE..]), TextLeft(l.left[w]);
      assert (sofar + coming) + later == sofar + (coming + later);
    } else {
      assert PidOf(packet) == writers[v].pid != writers[w].pid;
      assert sofar + [] == sofar;
    }
  }

  /** At any moment, in any interleaving of any number of writers with distinct identifiers: what is
      printed under a writer's identifier, followed by what it has yet to send, is exactly the
      letters and digits of its file, in order. */
  lemma {:induction false} DemultiplexedSoFar(writers: seq<Writer>, size: nat, picks: seq<nat>, l: Line, w: nat)
    requires PID_SIZE < size && AfterWrites(writers, size, picks) == Some(l)
    requires DistinctPids(writers) && w < |writers|
    ensures LineRight(writers, size, l)
    ensures TextUnder(Shown(l.fifo), writers[w].pid) + TextLeft(l.left[w]) == Alnum(writers[w].file)
  {
    AnyMergeIsRight(writers, size, picks, l);
    if picks == [] {
      PacketsKeepText(writers[w].pid, writers[w].file, size);
    } else {
      var p := AfterWrites(writers, size, picks[..|picks| - 1]).value;
      DemultiplexedSoFar(writers, size, picks[..|picks| - 1], p, w);
      OneMoreWrite(writers, size, p, picks[|picks| - 1], l, w);
    }
  }

  /** Once a writer is done, what the reader prints of the bytes in the FIFO has its file's letters and
      digits under its identifier, whatever its buffer held at first. */
  lemma Demultiplexed(writers: seq<Writer>, size: nat, picks: seq<nat>, l: Line, w: nat, stale: seq<Byte>)
    requires PID_SIZE < size == |stale| && AfterWrites(writers, size, picks) == Some(l)
    requires DistinctPids(writers) && w < |writers| == |l.left| && l.left[w] == []
    ensures TextUnder(Shown(BuffersRead(stale, Flatten(l.fifo))), writers[w].pid) == Alnum(writers[w].file)
  {
    DemultiplexedSoFar(writers, size, picks, l, w);
    WholePacketsAreRead(stale, l.fifo);
  }

  /** Nothing is printed under an identifier no writer has. */
  lemma {:induction false} NothingInvented(writers: seq<Writer>, size: nat, picks: seq<nat>, l: Line, pid: int)
    requires PID_SIZE < size && AfterWrites(writers, size, picks) == Some(l)
    requires forall w :: 0 <= w < |writers| ==> writers[w].pid != pid
    ensures LineRight(writers, size, l) && TextUnder(Shown(l.fifo), pid) == []
  {
    AnyMergeIsRight(writers, size, picks, l);
    if picks != [] {
      var v := picks[|picks| - 1];
      var p := AfterWrites(writers, size, picks[..|picks| - 1]).value;
      NothingInvented(writers, size, picks[..|picks| - 1], p, pid);
      TextOneMore(p.fifo, p.left[v][0], pid);
    }
  }
}

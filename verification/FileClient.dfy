/**
  The UDP file client as it runs (L2_3/file_client_udp.c): reading whole chunks through a read call
  that may return less than asked, filling the packet buffer in place, and the send-and-confirm
  loops.  The methods are proved to follow the client machine of module StopAndWait step by step.
 */
module FileClient {
  import opened Bytes
  import opened Chunking
  import opened Options
  import opened StopAndWait

  /** An open file.  A read returns any positive number of the bytes left, or fails with -1. */
  class InputFile {
    const data: seq<Byte>
    var pos: nat
    /** Some read has failed. */
    var failed: bool

    ghost predicate Valid()
      reads this
    {
      pos <= |data|
    }

    constructor (data: seq<Byte>)
      ensures this.data == data && pos == 0 && !failed
    {
      this.data, pos, failed := data, 0, false;
    }

    method Read(buf: array<Byte>, at: nat, count: nat) returns (c: int)
      requires Valid() && at + count <= buf.Length
      modifies this`pos, this`failed, buf
      ensures Valid() && -1 <= c <= count && (failed <==> old(failed) || c == -1)
      ensures c == -1 ==> pos == old(pos) && buf[..] == old(buf[..])
      ensures c >= 0 ==> pos == old(pos) + c && (c == 0 <==> count == 0 || old(pos) == |data|)
      ensures buf[..at] == old(buf[..at])
      ensures c >= 0 ==> buf[at..at + c] == data[old(pos)..pos] && buf[at + c..] == old(buf[at + c..])
    {
      if * {
        c, failed := -1, true;
      } else {
        var most := if count < |data| - pos then count else |data| - pos;
        var n: nat :| n <= most && (most > 0 ==> n > 0);
        forall i | 0 <= i < n {
          buf[at + i] := data[pos + i];
        }
        pos := pos + n;
        c := n;
      }
    }
  }

  /** bulk_read: for every pattern of short reads the next `count` bytes, or all that are left. */
  method BulkRead(file: InputFile, buf: array<Byte>, at: nat, count: nat) returns (r: int)
    requires file.Valid() && at + count <= buf.Length
    modifies file`pos, file`failed, buf
    ensures file.Valid() && -1 <= r <= count && (file.failed <==> old(file.failed) || r == -1)
    ensures r >= 0 ==>
              && r == (if count < |file.data| - old(file.pos) then count else |file.data| - old(file.pos))
              && file.pos == old(file.pos) + r
              && buf[at..at + r] == file.data[old(file.pos)..file.pos]
              && buf[at + r..] == old(buf[at + r..])
    ensures buf[..at] == old(buf[..at])
  {
    var len, left := 0, count;
    var more := true;
    while more
      invariant file.Valid() && 0 <= len && 0 <= left && len + left == count
      invariant file.pos == old(file.pos) + len && file.failed == old(file.failed)
      invariant buf[..at] == old(buf[..at])
      invariant buf[at..at + len] == file.data[old(file.pos)..file.pos]
      invariant buf[at + len..] == old(buf[at + len..])
      invariant !more ==> left == 0
      decreases more, left
    {
      ghost var before, from := buf[..], file.pos;
      var c := file.Read(buf, at + len, left);
      assert buf[..at] == buf[..at + len][..at] == before[..at + len][..at] == before[..at];
      if c < 0 {
        return c;
      }
      assert buf[at..at + len] == buf[..at + len][at..] == before[..at + len][at..] == before[at..at + len];
      assert buf[at..at + len + c] == buf[at..at + len] + buf[at + len..at + len + c];
      assert file.data[old(file.pos)..file.pos] == file.data[old(file.pos)..from] + file.data[from..file.pos];
      assert before[at + len..][c..] == old(buf[at + len..])[c..];
      if c == 0 {
        return len;
      }
      len, left := len + c, left - c;
      more := left > 0;
    }
    return len;
  }

  // ---------------------------------------------------------------------------------------------

  /** What passes between the client and its socket. */
  datatype Event = Sent(p: Packet) | Echoed(no: int) | TimedOut

  /** One event seen by the client machine; None if the client would not do that now. */
  function Follow(ps: seq<Packet>, maxTries: nat, c: Client, ev: Event): (r: Option<Client>)
  {
    if !InRange(ps, c) then None
    else
      match ev
      case Sent(p) =>
        if c.phase == Ready && c.tries < maxTries && p == ps[c.next - 1]
        then Some(c.(tries := c.tries + 1, phase := Waiting)) else None
      case Echoed(no) => if c.phase == Waiting then Some(Decide(ps, maxTries, c.(echoed := no))) else None
      case TimedOut => if c.phase == Waiting then Some(Decide(ps, maxTries, c)) else None
  }

  function FollowAll(ps: seq<Packet>, maxTries: nat, events: seq<Event>): (r: Option<Client>)
  {
    if events == [] then Some(START)
    else
      match FollowAll(ps, maxTries, events[..|events| - 1])
      case None => None
      case Some(c) => Follow(ps, maxTries, c, events[|events| - 1])
  }

  lemma FollowOneMore(ps: seq<Packet>, maxTries: nat, events: seq<Event>, ev: Event)
    ensures FollowAll(ps, maxTries, events + [ev]) ==
            match FollowAll(ps, maxTries, events)
            case None => None
            case Some(c) => Follow(ps, maxTries, c, ev)
  {
    assert (events + [ev])[..|events|] == events;
  }

  /** The client of a lane and the client followed through its socket events are one machine. */
  lemma LaneClientFollowsEvents(ps: seq<Packet>, maxTries: nat, net: Network, l: Lane, act: LaneAction)
    requires LaneEnabled(ps, maxTries, net, l, act) && (act.Send? || act.Hear? || act.TimeOut?)
    ensures var ev := if act.Send? then Sent(ps[l.client.next - 1])
                      else if act.Hear? then Echoed(l.echoes[act.j].no) else TimedOut;
            Follow(ps, maxTries, l.client, ev) == Some(LaneApply(ps, maxTries, net, l, act).client)
  {
  }

  /** And the other way round: whatever the followed client may do, the lane's client may do as well,
      sending just the packet seen and hearing just an echo of that number. */
  lemma EventsAreLaneSteps(ps: seq<Packet>, maxTries: nat, net: Network, l: Lane, ev: Event) returns (act: LaneAction)
    requires Follow(ps, maxTries, l.client, ev).Some?
    requires ev.Echoed? ==> exists j :: 0 <= j < |l.echoes| && l.echoes[j].no == ev.no
    ensures LaneEnabled(ps, maxTries, net, l, act)
    ensures Follow(ps, maxTries, l.client, ev) == Some(LaneApply(ps, maxTries, net, l, act).client)
    ensures LaneApply(ps, maxTries, net, l, act).sent == l.sent + if ev.Sent? then [ev.p] else []
    ensures ev.Sent? <==> act.Send?
    ensures ev.Echoed? ==> act.Hear? && l.echoes[act.j].no == ev.no
  {
    match ev
    case Sent(_) => act := Send;
    case TimedOut => act := TimeOut;
    case Echoed(no) =>
      var j :| 0 <= j < |l.echoes| && l.echoes[j].no == no;
      act := Hear(j);
  }

  /** The socket, with the record of what went through it. */
  class Socket {
    var trace: seq<Event>

    constructor ()
      ensures trace == []
    {
      trace := [];
    }

    method SendTo(p: Packet)
      modifies this
      ensures trace == old(trace) + [Sent(p)]
    {
      trace := trace + [Sent(p)];
    }

    /** Waits until a datagram comes (its chunk number is returned) or the alarm rings. */
    method Receive() returns (no: Option<int>)
      modifies this
      ensures trace == old(trace) + [if no == None then TimedOut else Echoed(no.value)]
    {
      if * {
        no := None;
        trace := trace + [TimedOut];
      } else {
        var n: int := *;
        no := Some(n);
        trace := trace + [Echoed(n)];
      }
    }
  }

  /** One send and the wait for an answer.  `stale` is the number in the reply buffer, which a
      time-out leaves as it was. */
  method SendAndConfirm(sock: Socket, p: Packet, stale: int) returns (echoed: int, ghost answer: Event)
    modifies sock
    ensures sock.trace == old(sock.trace) + [Sent(p)] + [answer]
    ensures (answer == TimedOut && echoed == stale) || answer == Echoed(echoed)
  {
    sock.SendTo(p);
    echoed := stale;
    answer := TimedOut;
    var got := sock.Receive();
    if got != None {
      echoed := got.value;
      answer := Echoed(echoed);
    }
  }

  /** The sends for one chunk: until it is echoed, or until `maxTries` sends went unanswered. */
  method SendUntilEchoed(sock: Socket, ghost ps: seq<Packet>, maxTries: nat, p: Packet)
      returns (echoed: int, ghost c: Client)
    requires 0 < maxTries && 1 <= p.no <= |ps| && ps[p.no - 1] == p
    requires FollowAll(ps, maxTries, sock.trace) == Some(Client(p.no, 0, 0, Ready))
    modifies sock
    ensures FollowAll(ps, maxTries, sock.trace) == Some(c)
    ensures echoed != p.no ==> c == Client(p.no, maxTries, echoed, GaveUp)
    ensures echoed == p.no && p.last ==> c.next == p.no && c.phase == Finished
    ensures echoed == p.no && !p.last ==> c == Client(p.no + 1, 0, 0, Ready)
  {
    echoed := 0;
    c := Client(p.no, 0, 0, Ready);
    var counter := 0;
    var again := true;
    while again
      invariant 0 <= counter <= maxTries
      invariant FollowAll(ps, maxTries, sock.trace) == Some(c)
      invariant again ==> counter < maxTries && echoed != p.no && c == Client(p.no, counter, echoed, Ready)
      invariant !again ==> c == Decide(ps, maxTries, Client(p.no, counter, echoed, Waiting))
      invariant !again ==> echoed == p.no || counter == maxTries
      decreases again, maxTries - counter
    {
      counter := counter + 1;
      ghost var before := sock.trace;
      ghost var answer;
      echoed, answer := SendAndConfirm(sock, p, echoed);
      FollowOneMore(ps, maxTries, before, Sent(p));
      FollowOneMore(ps, maxTries, before + [Sent(p)], answer);
      c := Decide(ps, maxTries, Client(p.no, counter, echoed, Waiting));
      again := echoed != p.no && counter < maxTries;
    }
  }

  /** Reads the next chunk into the payload buffer, zero-fills what is left of it and makes the
      packet; `n` is the number of file bytes read, or -1. */
  method NextPacket(file: InputFile, buf: array<Byte>, chunkNo: int) returns (n: int, p: Packet)
    requires file.Valid() && 0 < buf.Length
    modifies file`pos, file`failed, buf
    ensures file.Valid() && -1 <= n <= buf.Length && (file.failed <==> old(file.failed) || n == -1)
    ensures n >= 0 ==>
              && p == PacketsFrom(file.data[old(file.pos)..], buf.Length, chunkNo)[0]
              && file.pos == old(file.pos) + n
              && (n == buf.Length <==> !p.last)
  {
    ghost var rest, size := file.data[file.pos..], buf.Length;
    var last := false;
    n := BulkRead(file, buf, 0, buf.Length);
    if n >= 0 {
      assert buf[..n] == rest[..n];
      if n < buf.Length {
        last := true;
        forall i | n <= i < buf.Length {
          buf[i] := NUL;
        }
        assert buf[..] == rest + Zeros(size - n);
      } else {
        assert buf[..] == rest[..size];
      }
    }
    p := Packet(chunkNo, last, buf[..]);
  }

  /** `ps` from index `k` on are the packets of `rest`. */
  ghost predicate Continues(ps: seq<Packet>, k: int, rest: seq<Byte>, size: nat)
  {
    0 < size && 0 <= k < |ps| && ps[k..] == PacketsFrom(rest, size, k + 1)
  }

  lemma ContinueAfterFull(ps: seq<Packet>, k: int, rest: seq<Byte>, size: nat)
    requires Continues(ps, k, rest, size) && size <= |rest|
    ensures Continues(ps, k + 1, rest[size..], size)
  {
    assert ps[k + 1..] == ps[k..][1..];
  }

  /** The whole client.  What it sent and received follows the client machine for the packets of
      its file, from the start to an end: everything acknowledged, given up, or (with `failed`) a
      read error just before chunk `c.next`. */
  method DoClient(file: InputFile, sock: Socket, size: nat, maxTries: nat) returns (failed: bool, ghost c: Client)
    requires file.Valid() && file.pos == 0 && !file.failed && sock.trace == [] && 0 < size && 0 < maxTries
    modifies file, sock
    ensures failed <==> file.failed
    ensures FollowAll(Packets(file.data, size), maxTries, sock.trace) == Some(c)
    ensures failed ==> c == Client(c.next, 0, 0, Ready)
    ensures !failed ==> c.phase in {Finished, GaveUp}
  {
    ghost var ps := Packets(file.data, size);
    var buf := new Byte[size](_ => NUL);
    var chunkNo := 0;
    c := START;
    assert file.data[0..] == file.data;
    while true
      invariant file.Valid() && !file.failed && fresh(buf) && buf.Length == size
      invariant Continues(ps, chunkNo, file.data[file.pos..], size)
      invariant c == Client(chunkNo + 1, 0, 0, Ready)
      invariant FollowAll(ps, maxTries, sock.trace) == Some(c)
      decreases |file.data| - file.pos
    {
      ghost var rest := file.data[file.pos..];
      var n, p := NextPacket(file, buf, chunkNo + 1);
      if n < 0 {
        return true, c;
      }
      assert p == ps[chunkNo..][0] && p.no == chunkNo + 1;
      chunkNo := chunkNo + 1;
      var echoed;
      echoed, c := SendUntilEchoed(sock, ps, maxTries, p);
      if echoed != chunkNo {
        return false, c;
      }
      if n != size {
        return false, c;
      }
      ContinueAfterFull(ps, chunkNo - 1, rest, size);
      assert file.data[file.pos..] == rest[size..];
    }
  }
}

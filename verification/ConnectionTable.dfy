/**
  The file server's fixed table of client slots (L2_3/file_server.c): slot lookup and
  allocation, the in-order delivery decision for one datagram, and the receive loop.
  The number of slots (5 in the program) is the length of the table.
 */
module ConnectionTable {
  import opened Chunking
  import opened Options

  /** A client's socket address; only equality of addresses matters. */
  type Addr = nat

  datatype Connection = Connection(free: bool, chunkNo: int, addr: Addr)

  datatype Datagram = Datagram(from: Addr, packet: Packet)

  predicate Holds(c: Connection, a: Addr)
  {
    !c.free && c.addr == a
  }

  /** No two occupied slots belong to the same address. */
  ghost predicate Distinct(t: seq<Connection>)
  {
    forall i, j :: 0 <= i < j < |t| && !t[i].free && !t[j].free ==> t[i].addr != t[j].addr
  }

  /** Index of the slot `a` occupies, or -1. */
  function Holder(t: seq<Connection>, a: Addr): (pos: int)
    ensures -1 <= pos < |t|
    ensures 0 <= pos ==> Holds(t[pos], a)
    ensures pos == -1 <==> forall i :: 0 <= i < |t| ==> !Holds(t[i], a)
  {
    if t == [] then -1
    else
      var p := Holder(t[..|t| - 1], a);
      if p >= 0 then p else if Holds(t[|t| - 1], a) then |t| - 1 else -1
  }

  /** Index of the last free slot, or -1. */
  function LastFree(t: seq<Connection>): (pos: int)
    ensures -1 <= pos < |t|
    ensures 0 <= pos ==> t[pos].free
    ensures forall i :: pos < i < |t| ==> !t[i].free
  {
    if t == [] then -1
    else if t[|t| - 1].free then |t| - 1
    else LastFree(t[..|t| - 1])
  }

  datatype Found = Found(table: seq<Connection>, pos: int)

  /** What one call of findIndex does to a table. */
  function Find(t: seq<Connection>, a: Addr): (f: Found)
    ensures |f.table| == |t|
    ensures -1 <= f.pos < |t|
    ensures f.pos >= 0 ==> Holds(f.table[f.pos], a)
  {
    var h := Holder(t, a);
    if h >= 0 then Found(t, h)
    else
      var e := LastFree(t);
      if e >= 0 then Found(t[e := Connection(false, 0, a)], e) else Found(t, -1)
  }

  /** The table after a datagram, whether its payload was printed, whether it was sent back. */
  datatype Served = Served(table: seq<Connection>, delivered: bool, echoed: bool)

  /** One turn of the receive loop. */
  function Serve(t: seq<Connection>, d: Datagram): (s: Served)
    ensures |s.table| == |t|
  {
    var Found(t1, i) := Find(t, d.from);
    if i < 0 then Served(t1, false, false)
    else if d.packet.no > t1[i].chunkNo + 1 then Served(t1, false, false)
    else if d.packet.no == t1[i].chunkNo + 1 then
      Served(t1[i := t1[i].(free := d.packet.last, chunkNo := t1[i].chunkNo + 1)], true, true)
    else Served(t1, false, true)
  }

  /** The server's count for an address: None without a slot. */
  function CountOf(t: seq<Connection>, a: Addr): (c: Option<int>)
  {
    var h := Holder(t, a);
    if h >= 0 then Some(t[h].chunkNo) else None
  }

  /** findIndex returns -1 exactly when every slot is held by some other address; otherwise the
      address holds the returned slot and no other slot has changed.  That slot is new, and then the
      last free one, only if the address held none. */
  lemma FindAllocatesAtMostOneFreeSlot(t: seq<Connection>, a: Addr)
    ensures var f := Find(t, a);
            && (f.pos == -1 <==> forall i :: 0 <= i < |t| ==> !t[i].free && t[i].addr != a)
            && (f.pos == -1 ==> f.table == t)
            && (forall i :: 0 <= i < |t| && i != f.pos ==> f.table[i] == t[i])
            && (CountOf(t, a) != None ==> f.table == t)
            && (f.pos >= 0 && CountOf(t, a) == None ==>
                  && t[f.pos].free && f.table[f.pos] == Connection(false, 0, a)
                  && forall i :: f.pos < i < |t| ==> !t[i].free)
  {
    var f := Find(t, a);
    if f.pos == -1 {
      forall i | 0 <= i < |t| ensures !t[i].free && t[i].addr != a {
        assert !Holds(t[i], a);
      }
    } else if Holder(t, a) < 0 {
      assert t[f.pos].free;
    } else {
      assert Holds(t[f.pos], a);
    }
  }

  /** In a table without duplicates a slot that holds `a` determines the count of `a`. */
  lemma CountAt(t: seq<Connection>, i: nat, a: Addr)
    requires Distinct(t) && i < |t| && Holds(t[i], a)
    ensures Holder(t, a) == i && CountOf(t, a) == Some(t[i].chunkNo)
  {
    var h := Holder(t, a);
    assert h >= 0;
    assert Holds(t[h], a);
  }

  lemma Absent(t: seq<Connection>, a: Addr)
    requires forall i :: 0 <= i < |t| ==> !Holds(t[i], a)
    ensures CountOf(t, a) == None
  {
  }

  /** Tables that agree on who holds what agree on the count of `a`. */
  lemma SameCount(t: seq<Connection>, u: seq<Connection>, k: nat, a: Addr)
    requires Distinct(t) && Distinct(u) && |t| == |u| && k < |t|
    requires forall i :: 0 <= i < |t| && i != k ==> u[i] == t[i]
    requires !Holds(t[k], a) && !Holds(u[k], a)
    ensures CountOf(u, a) == CountOf(t, a)
  {
    var h := Holder(t, a);
    if h >= 0 {
      assert Holds(u[h], a);
      CountAt(t, h, a);
      CountAt(u, h, a);
    } else {
      forall i | 0 <= i < |u| ensures !Holds(u[i], a) {
        if i != k {
          assert !Holds(t[i], a);
        }
      }
      Absent(u, a);
    }
  }

  lemma FindKeepsDistinct(t: seq<Connection>, a: Addr)
    requires Distinct(t)
    ensures Distinct(Find(t, a).table)
  {
    var h := Holder(t, a);
    if h < 0 && LastFree(t) >= 0 {
      var u := Find(t, a).table;
      forall i, j | 0 <= i < j < |u| && !u[i].free && !u[j].free ensures u[i].addr != u[j].addr {
        assert i != LastFree(t) ==> !Holds(t[i], a);
        assert j != LastFree(t) ==> !Holds(t[j], a);
      }
    }
  }

  lemma FindKeepsOtherCounts(t: seq<Connection>, a: Addr, b: Addr)
    requires Distinct(t) && a != b
    ensures CountOf(Find(t, a).table, b) == CountOf(t, b)
  {
    FindKeepsDistinct(t, a);
    if Holder(t, a) < 0 && LastFree(t) >= 0 {
      SameCount(t, Find(t, a).table, LastFree(t), b);
    }
  }

  /** Client isolation: serving a datagram keeps occupied slots pairwise distinct and leaves the
      count of every other address alone. */
  lemma ServeIsolatesClients(t: seq<Connection>, d: Datagram, b: Addr)
    requires Distinct(t)
    ensures Distinct(Serve(t, d).table)
    ensures b != d.from ==> CountOf(Serve(t, d).table, b) == CountOf(t, b)
  {
    FindKeepsDistinct(t, d.from);
    var Found(t1, i) := Find(t, d.from);
    if b != d.from {
      FindKeepsOtherCounts(t, d.from, b);
      if i >= 0 && Serve(t, d).table != t1 {
        SameCount(t1, Serve(t, d).table, i, b);
      }
    }
  }

  /** Slots change hands only to the sender, and a full table's slots only by being given back. */
  lemma ServeHolders(t: seq<Connection>, d: Datagram)
    ensures var u := Serve(t, d).table;
            forall i :: 0 <= i < |u| && !u[i].free ==> u[i].addr == d.from || (!t[i].free && u[i].addr == t[i].addr)
    ensures var s := Serve(t, d);
            (forall i :: 0 <= i < |t| ==> !t[i].free) && !(s.delivered && d.packet.last) ==>
              forall i :: 0 <= i < |t| ==> !s.table[i].free && s.table[i].addr == t[i].addr
  {
    if forall i :: 0 <= i < |t| ==> !t[i].free {
      assert LastFree(t) == -1;
    }
  }

  /** What the sender of a datagram sees: without a slot in a full table the datagram is ignored;
      otherwise its count (0 for a new slot) decides, and the last packet gives the slot back. */
  lemma ServeOwnAddress(t: seq<Connection>, d: Datagram)
    requires Distinct(t)
    ensures var s := Serve(t, d);
            var full := forall i :: 0 <= i < |t| ==> !t[i].free;
            var c := if CountOf(t, d.from) == None then 0 else CountOf(t, d.from).value;
            && (CountOf(t, d.from) == None && full ==> s == Served(t, false, false))
            && (CountOf(t, d.from) != None || !full ==>
                  && s.delivered == (d.packet.no == c + 1)
                  && s.echoed == (d.packet.no <= c + 1)
                  && CountOf(s.table, d.from) ==
                     (if d.packet.no != c + 1 then Some(c)
                      else if d.packet.last then None
                      else Some(c + 1))
                  && (d.packet.no == c + 1 && d.packet.last ==> LastFree(s.table) >= 0))
  {
    var a := d.from;
    FindKeepsDistinct(t, a);
    ServeIsolatesClients(t, d, a);
    var Found(t1, i) := Find(t, a);
    if i >= 0 {
      CountAt(t1, i, a);
      var u := Serve(t, d).table;
      if !u[i].free {
        CountAt(u, i, a);
      } else {
        forall j | 0 <= j < |u| ensures !Holds(u[j], a) {
          assert j != i ==> u[j] == t1[j] && (i < j || j < i);
        }
        Absent(u, a);
      }
    }
  }

  /** The server after a whole list of datagrams: its table, the payloads it printed and the
      datagrams it sent back, each with the client's address. */
  datatype History = History(table: seq<Connection>, printed: seq<Datagram>, echoes: seq<Datagram>)

  function ServeAll(h: History, inbox: seq<Datagram>): (r: History)
  {
    if inbox == [] then h
    else
      var g := ServeAll(h, inbox[..|inbox| - 1]);
      var d := inbox[|inbox| - 1];
      var s := Serve(g.table, d);
      History(s.table,
              if s.delivered then g.printed + [d] else g.printed,
              if s.echoed then g.echoes + [d] else g.echoes)
  }

  /** One datagram.  With a slot, or a free slot to get, it is printed exactly if it is the next one of
      its sender and sent back exactly if it is the next or an earlier one; without, nothing happens. */
  lemma OneDatagram(h: History, d: Datagram)
    requires Distinct(h.table)
    ensures var r := ServeAll(h, [d]);
            var c := CountOf(h.table, d.from);
            var next := if c == None then 1 else c.value + 1;
            var room := c != None || exists i :: 0 <= i < |h.table| && h.table[i].free;
            && r.printed == (if room && d.packet.no == next then h.printed + [d] else h.printed)
            && r.echoes == (if room && d.packet.no <= next then h.echoes + [d] else h.echoes)
  {
    assert [d][..0] == [] && ServeAll(h, []) == h;
    ServeOwnAddress(h.table, d);
  }

  /** And it moves only its sender's count: by one if it is printed, and to none if it is the last. */
  lemma OneDatagramsCounts(h: History, d: Datagram, b: Addr)
    requires Distinct(h.table)
    ensures var r := ServeAll(h, [d]);
            var c := CountOf(h.table, b);
            var next := if c == None then 1 else c.value + 1;
            && Distinct(r.table)
            && (b != d.from ==> CountOf(r.table, b) == c)
            && (b == d.from && r.printed != h.printed ==>
                  CountOf(r.table, b) == if d.packet.last then None else Some(next))
            && (b == d.from && r.printed == h.printed ==>
                  CountOf(r.table, b) == c || CountOf(r.table, b) == Some(next - 1))
  {
    assert [d][..0] == [] && ServeAll(h, []) == h;
    ServeOwnAddress(h.table, d);
    ServeIsolatesClients(h.table, d, b);
  }

  /** A retransmission is answered again, but printed once. */
  lemma RetransmissionExample(stale: Connection)
    ensures var d := Datagram(7, Packet(1, false, []));
            var r := ServeAll(History([stale.(free := true)], [], []), [d, d]);
            r.printed == [d] && r.echoes == [d, d] && r.table == [Connection(false, 1, 7)]
  {
    var d := Datagram(7, Packet(1, false, []));
    var h := History([stale.(free := true)], [], []);
    var g := ServeAll(h, [d]);
    assert [d, d][..1] == [d];
    assert h.table[0].free;
    OneDatagram(h, d);
    OneDatagram(g, d);
    assert [d][..0] == [] && ServeAll(g, []) == g;
    assert ServeAll(h, [d, d]) == ServeAll(g, [d]);
  }

  /** The server process: its slot array `con[]` and what it has printed and sent so far. */
  class FileServer {
    const con: array<Connection>
    var printed: seq<Datagram>
    var echoes: seq<Datagram>

    ghost function View(): (h: History)
      reads this, con
    {
      History(con[..], printed, echoes)
    }

    /** Only the `free` flags are initialised; the rest of the table is whatever was there. */
    constructor (garbage: array<Connection>)
      ensures fresh(con) && con.Length == garbage.Length
      ensures printed == [] && echoes == []
      ensures forall i :: 0 <= i < con.Length ==> con[i] == garbage[i].(free := true)
    {
      con := new Connection[garbage.Length](i requires 0 <= i < garbage.Length reads garbage => garbage[i]);
      printed, echoes := [], [];
      new;
      for i := 0 to con.Length
        modifies con
        invariant forall j :: 0 <= j < i ==> con[j] == garbage[j].(free := true)
        invariant forall j :: i <= j < con.Length ==> con[j] == garbage[j]
      {
        con[i] := con[i].(free := true);
      }
    }

    method FindIndex(addr: Addr) returns (pos: int)
      modifies con
      ensures Found(con[..], pos) == Find(old(con[..]), addr)
    {
      var i, empty := 0, -1;
      pos := -1;
      while i < con.Length
        invariant 0 <= i <= con.Length
        invariant empty == LastFree(con[..i])
        invariant pos == Holder(con[..i], addr) == -1
      {
        assert con[..i + 1][..i] == con[..i];
        if con[i].free {
          empty := i;
        } else if con[i].addr == addr {
          pos := i;
          break;
        }
        i := i + 1;
      }
      if pos == -1 {
        assert con[..i] == con[..];
        if empty != -1 {
          con[empty] := con[empty].(free := false);
          con[empty] := con[empty].(chunkNo := 0);
          con[empty] := con[empty].(addr := addr);
          pos := empty;
        }
      } else {
        HolderOfPrefix(con[..], addr, i + 1);
      }
    }

    /** The body of the receive loop for one datagram. */
    method HandleDatagram(d: Datagram)
      modifies this, con
      ensures View() == ServeAll(old(View()), [d])
    {
      ghost var before := View();
      assert [d][..0] == [] && ServeAll(before, []) == before;
      var i := FindIndex(d.from);
      if i >= 0 {
        var chunkNo := d.packet.no;
        var last := d.packet.last;
        if chunkNo > con[i].chunkNo + 1 {
          return;
        } else if chunkNo == con[i].chunkNo + 1 {
          printed := printed + [d];
          if last {
            con[i] := con[i].(free := true);
          }
          con[i] := con[i].(chunkNo := con[i].chunkNo + 1);
        }
        echoes := echoes + [d];
      }
    }

    /** The receive loop over any finite sequence of arriving datagrams. */
    method DoServer(inbox: seq<Datagram>)
      modifies this, con
      ensures View() == ServeAll(old(View()), inbox)
    {
      ghost var start := View();
      for k := 0 to |inbox|
        invariant View() == ServeAll(start, inbox[..k])
      {
        ghost var here := View();
        HandleDatagram(inbox[k]);
        assert inbox[..k + 1][..k] == inbox[..k];
        assert [inbox[k]][..0] == [] && ServeAll(here, []) == here;
      }
      assert inbox[..|inbox|] == inbox;
    }
  }

  lemma {:induction false} HolderOfPrefix(t: seq<Connection>, a: Addr, n: nat)
    requires n <= |t| && Holder(t[..n], a) >= 0
    ensures Holder(t, a) == Holder(t[..n], a)
    decreases |t| - n
  {
    if n == |t| {
      assert t[..n] == t;
    } else {
      assert t[..n + 1][..n] == t[..n];
      HolderOfPrefix(t, a, n + 1);
    }
  }
}

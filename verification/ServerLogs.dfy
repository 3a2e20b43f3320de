/**
  What the receive loop of the file server (L2_3/file_server.c) prints and sends back over a whole list
  of datagrams, client by client, and that this is what the runs of the transfer record.
 */
module ServerLogs {
  import opened Chunking
  import opened ConnectionTable
  import opened StopAndWait
  import opened FileTransfer
  import opened Options

  /** The packets of one client among datagrams, in order. */
  function From(ds: seq<Datagram>, a: Addr): (ps: seq<Packet>)
  {
    if ds == [] then []
    else
      var d := ds[|ds| - 1];
      if d.from == a then From(ds[..|ds| - 1], a) + [d.packet] else From(ds[..|ds| - 1], a)
  }

  lemma OneMoreFrom(ds: seq<Datagram>, d: Datagram, a: Addr)
    ensures From(ds + [d], a) == if d.from == a then From(ds, a) + [d.packet] else From(ds, a)
  {
    assert (ds + [d])[..|ds|] == ds;
  }

  lemma ServeOneMore(h: History, inbox: seq<Datagram>)
    requires inbox != []
    ensures ServeAll(h, inbox) == ServeAll(ServeAll(h, inbox[..|inbox| - 1]), [inbox[|inbox| - 1]])
  {
    var d := inbox[|inbox| - 1];
    var g := ServeAll(h, inbox[..|inbox| - 1]);
    assert [d][..0] == [] && ServeAll(g, []) == g;
  }

  /** Every datagram of `a` in the inbox is one of the packets `ps`, in any order, any number of times. */
  ghost predicate SendsOnly(inbox: seq<Datagram>, a: Addr, ps: seq<Packet>)
  {
    forall i :: 0 <= i < |inbox| && inbox[i].from == a ==> inbox[i].packet in ps
  }

  /** What was printed for `a`: n copies of its packets and the first few up to its present count. */
  ghost predicate PrintedCopies(h: History, a: Addr, ps: seq<Packet>, n: nat)
  {
    && 0 <= CountIn(CountOf(h.table, a)) < |ps|
    && From(h.printed, a) == Copies(ps, n) + ps[..CountIn(CountOf(h.table, a))]
  }

  lemma DatagramKeepsCopies(h: History, d: Datagram, a: Addr, ps: seq<Packet>, n: nat) returns (m: nat)
    requires Distinct(h.table) && Numbered(ps) && PrintedCopies(h, a, ps, n)
    requires d.from == a ==> d.packet in ps
    ensures Distinct(ServeAll(h, [d]).table) && PrintedCopies(ServeAll(h, [d]), a, ps, m)
  {
    var r := ServeAll(h, [d]);
    OneDatagram(h, d);
    OneDatagramsCounts(h, d, a);
    OneMoreFrom(h.printed, d, a);
    m := n;
    if d.from == a && r.printed != h.printed {
      m := NextPrinted(ps, d.packet, CountOf(h.table, a), CountOf(r.table, a), From(h.printed, a), n);
    }
  }

  lemma NextPrinted(ps: seq<Packet>, p: Packet, slot: Option<int>, next: Option<int>, log: seq<Packet>, n: nat)
      returns (m: nat)
    requires Numbered(ps) && p in ps && 0 <= CountIn(slot) < |ps| && p.no == CountIn(slot) + 1
    requires next == if p.last then None else Some(p.no)
    requires log == Copies(ps, n) + ps[..CountIn(slot)]
    ensures 0 <= CountIn(next) < |ps| && log + [p] == Copies(ps, m) + ps[..CountIn(next)]
  {
    m := if p.last then n + 1 else n;
    DeliveryExtendsLog(ps, FRESH.(slot := slot, log := log, completed := n),
                       FRESH.(slot := next, log := log + [p], completed := m));
  }

  /** Whatever arrives from whomever, in whatever order and however often: if a client's datagrams are
      packets of its file, what the server prints for it is whole copies of the file, one packet after
      the other, and then the packets up to its present count. */
  lemma {:induction false} PrintsInOrder(t: seq<Connection>, inbox: seq<Datagram>, a: Addr, ps: seq<Packet>)
      returns (n: nat)
    requires forall i :: 0 <= i < |t| ==> t[i].free
    requires Numbered(ps) && SendsOnly(inbox, a, ps)
    ensures var r := ServeAll(History(t, [], []), inbox);
            Distinct(r.table) && PrintedCopies(r, a, ps, n)
  {
    var h := History(t, [], []);
    if inbox == [] {
      n := 0;
      Absent(t, a);
    } else {
      var last := |inbox| - 1;
      n := PrintsInOrder(t, inbox[..last], a, ps);
      n := DatagramKeepsCopies(ServeAll(h, inbox[..last]), inbox[last], a, ps, n);
      ServeOneMore(h, inbox);
    }
  }

  // ---------------------------------------------------------------------------------------------

  /** The datagram that step `act` hands to the server in state `p`. */
  function ArrivalBy(p: Option<System>, act: Action): (ds: seq<Datagram>)
  {
    if p.Some? && act.Receive? && act.a in p.value.ends && act.i < |p.value.ends[act.a].sent|
    then [Datagram(act.a, p.value.ends[act.a].sent[act.i])] else []
  }

  /** All datagrams the server receives along a run. */
  function Arrivals(cfg: Config, o: System, acts: seq<Action>): (ds: seq<Datagram>)
  {
    if acts == [] then []
    else
      var last := |acts| - 1;
      Arrivals(cfg, o, acts[..last]) + ArrivalBy(Then(cfg, None, o, acts[..last]), acts[last])
  }

  /** The server's history agrees with what the system records. */
  ghost predicate Records(h: History, s: System)
  {
    && h.table == s.table
    && forall a :: a in s.ends ==> From(h.printed, a) == s.ends[a].log && From(h.echoes, a) == s.ends[a].echoes
  }

  lemma ArrivalIsRecorded(cfg: Config, h: History, s: System, act: Action)
    requires Records(h, s) && Enabled(cfg, s, act) && act.Receive?
    ensures Records(ServeAll(h, ArrivalBy(Some(s), act)), Apply(cfg, s, act))
  {
    var d := Datagram(act.a, s.ends[act.a].sent[act.i]);
    var g, r := ServeAll(h, [d]), Apply(cfg, s, act);
    assert [d][..0] == [] && ServeAll(h, []) == h;
    forall a | a in r.ends ensures From(g.printed, a) == r.ends[a].log && From(g.echoes, a) == r.ends[a].echoes {
      OneMoreFrom(h.printed, d, a);
      OneMoreFrom(h.echoes, d, a);
    }
  }

  /** The receive loop, fed what arrives along a run of clients, network and server, ends with the slot
      table of that run, and has printed and sent back for each client just what the run records. */
  lemma {:induction false} LoopCarriesOutRun(cfg: Config, o: System, acts: seq<Action>, r: System)
    requires Init(cfg, o) && Then(cfg, None, o, acts) == Some(r)
    ensures Records(ServeAll(History(o.table, [], []), Arrivals(cfg, o, acts)), r)
  {
    var h := History(o.table, [], []);
    if acts != [] {
      var last := |acts| - 1;
      var p := Then(cfg, None, o, acts[..last]).value;
      var before, more := Arrivals(cfg, o, acts[..last]), ArrivalBy(Some(p), acts[last]);
      LoopCarriesOutRun(cfg, o, acts[..last], p);
      if acts[last].Receive? {
        ArrivalIsRecorded(cfg, ServeAll(h, before), p, acts[last]);
        assert (before + more)[..|before|] == before;
        ServeOneMore(h, before + more);
      } else {
        assert before + more == before;
      }
    }
  }
}

/**
  Any number of clients sending files to one server.  A system state holds the server's slot table
  and, per client address, the client, its datagrams under way and the server's log of the parts it
  printed for that address.  Every claim ranges over all reachable states, that is over all
  interleavings, all losses, delays and duplications, and (where stated) all reorderings.
 */
module FileTransfer {
  import opened Bytes
  import opened Division
  import opened Chunking
  import opened ConnectionTable
  import opened Options
  import opened Progress
  import opened StopAndWait

  /** The files to send, one per client address, and the sizes the program fixes. */
  datatype Config = Config(files: map<Addr, seq<Byte>>, slots: nat, chunk: nat, maxTries: nat, net: Network)

  datatype Endpoint = Endpoint(client: Client, sent: seq<Packet>, cursor: nat,
                               echoes: seq<Packet>, log: seq<Packet>, completed: nat)

  datatype System = System(table: seq<Connection>, ends: map<Addr, Endpoint>)

  datatype Action =
    | SendChunk(a: Addr)
    | HearEcho(a: Addr, j: nat)
    | Expire(a: Addr)
    | Receive(a: Addr, i: nat)

  function PacketsOf(cfg: Config, a: Addr): (ps: seq<Packet>)
    requires a in cfg.files && 0 < cfg.chunk
  {
    Packets(cfg.files[a], cfg.chunk)
  }

  function EndOf(l: Lane): (e: Endpoint)
  {
    Endpoint(l.client, l.sent, l.cursor, l.echoes, l.log, l.completed)
  }

  /** The part of the system one client's transfer can see. */
  function LaneOf(s: System, a: Addr): (l: Lane)
    requires a in s.ends
  {
    var e := s.ends[a];
    Lane(e.client, e.sent, e.cursor, CountOf(s.table, a), e.echoes, e.log, e.completed)
  }

  /** The client's own steps. */
  function ClientAction(act: Action): (la: LaneAction)
    requires !act.Receive?
  {
    match act
    case SendChunk(_) => Send
    case HearEcho(_, j) => Hear(j)
    case Expire(_) => TimeOut
  }

  predicate Enabled(cfg: Config, s: System, act: Action)
  {
    && 0 < cfg.chunk && act.a in cfg.files && act.a in s.ends
    && if act.Receive? then
         && act.i < |s.ends[act.a].sent|
         && (cfg.net == InOrder ==> s.ends[act.a].cursor <= act.i)
       else
         LaneEnabled(PacketsOf(cfg, act.a), cfg.maxTries, cfg.net, LaneOf(s, act.a), ClientAction(act))
  }

  function Apply(cfg: Config, s: System, act: Action): (r: System)
    requires Enabled(cfg, s, act)
  {
    if act.Receive? then
      var e := s.ends[act.a];
      var p := e.sent[act.i];
      var served := Serve(s.table, Datagram(act.a, p));
      var e' := e.(cursor := act.i,
                   log := if served.delivered then e.log + [p] else e.log,
                   echoes := if served.echoed then e.echoes + [p] else e.echoes,
                   completed := if served.delivered && p.last then e.completed + 1 else e.completed);
      System(served.table, s.ends[act.a := e'])
    else
      var l := LaneApply(PacketsOf(cfg, act.a), cfg.maxTries, cfg.net, LaneOf(s, act.a), ClientAction(act));
      s.(ends := s.ends[act.a := EndOf(l)])
  }

  /** Only the free flags of the slot table are initialised. */
  ghost predicate Init(cfg: Config, s: System)
  {
    && 0 < cfg.chunk
    && |s.table| == cfg.slots
    && (forall i :: 0 <= i < |s.table| ==> s.table[i].free)
    && s.ends == map a | a in cfg.files :: EndOf(FRESH)
  }

  /** The action does not use a datagram that was under way in a state all of whose datagrams are lost;
      with `gone` None everything ever sent may still arrive. */
  predicate Allowed(gone: Option<System>, act: Action)
  {
    gone.Some? && act.a in gone.value.ends ==>
      && (act.Receive? ==> |gone.value.ends[act.a].sent| <= act.i)
      && (act.HearEcho? ==> |gone.value.ends[act.a].echoes| <= act.j)
  }

  /** The state after the given actions, if they can be taken. */
  function Then(cfg: Config, gone: Option<System>, s: System, acts: seq<Action>): (r: Option<System>)
  {
    if acts == [] then Some(s)
    else
      var act := acts[|acts| - 1];
      match Then(cfg, gone, s, acts[..|acts| - 1])
      case None => None
      case Some(p) => if Enabled(cfg, p, act) && Allowed(gone, act) then Some(Apply(cfg, p, act)) else None
  }

  /** Some run goes from s to r. */
  ghost predicate Path(cfg: Config, gone: Option<System>, s: System, r: System)
  {
    exists acts :: Then(cfg, gone, s, acts) == Some(r)
  }

  ghost predicate Reachable(cfg: Config, s: System)
  {
    exists o :: Init(cfg, o) && Path(cfg, None, o, s)
  }

  lemma StaysPut(cfg: Config, gone: Option<System>, s: System)
    ensures Path(cfg, gone, s, s)
  {
    assert Then(cfg, gone, s, []) == Some(s);
  }

  lemma PathExtends(cfg: Config, gone: Option<System>, o: System, s: System, act: Action)
    requires Path(cfg, gone, o, s) && Enabled(cfg, s, act) && Allowed(gone, act)
    ensures Path(cfg, gone, o, Apply(cfg, s, act))
  {
    var acts :| Then(cfg, gone, o, acts) == Some(s);
    assert (acts + [act])[..|acts + [act]| - 1] == acts;
    assert Then(cfg, gone, o, acts + [act]) == Some(Apply(cfg, s, act));
  }

  // ---------------------------------------------------------------------------------------------
  // The system refines one independent lane per address.

  predicate Full(t: seq<Connection>)
  {
    forall i :: 0 <= i < |t| ==> !t[i].free
  }

  /** Other clients' steps are invisible in the lane of `b`: the slot table isolates clients. */
  lemma OtherLanesUnchanged(cfg: Config, s: System, act: Action, b: Addr)
    requires Enabled(cfg, s, act) && Distinct(s.table) && b in s.ends && b != act.a
    ensures LaneOf(Apply(cfg, s, act), b) == LaneOf(s, b)
  {
    if act.Receive? {
      ServeIsolatesClients(s.table, Datagram(act.a, s.ends[act.a].sent[act.i]), b);
    }
  }

  function LaneActionOf(s: System, act: Action): (la: LaneAction)
    requires act.a in s.ends
  {
    if !act.Receive? then ClientAction(act)
    else if CountOf(s.table, act.a) == None && Full(s.table) then Ignored(act.i)
    else Arrive(act.i)
  }

  /** Every system step is a step of the acting client's lane. */
  lemma StepRefinesLane(cfg: Config, s: System, act: Action)
    requires Enabled(cfg, s, act) && Distinct(s.table)
    ensures var la := LaneActionOf(s, act);
            var ps := PacketsOf(cfg, act.a);
            && LaneEnabled(ps, cfg.maxTries, cfg.net, LaneOf(s, act.a), la)
            && LaneOf(Apply(cfg, s, act), act.a) == LaneApply(ps, cfg.maxTries, cfg.net, LaneOf(s, act.a), la)
    ensures Distinct(Apply(cfg, s, act).table)
  {
    if act.Receive? {
      var d := Datagram(act.a, s.ends[act.a].sent[act.i]);
      ServeIsolatesClients(s.table, d, act.a);
      ServeOwnAddress(s.table, d);
    }
  }

  ghost predicate LaneGood(cfg: Config, ps: seq<Packet>, l: Lane)
  {
    Consistent(ps, cfg.maxTries, cfg.net, l) && SendsBounded(cfg.maxTries, l)
  }

  ghost predicate Good(cfg: Config, s: System)
  {
    && 0 < cfg.chunk
    && Distinct(s.table)
    && |s.table| == cfg.slots
    && s.ends.Keys == cfg.files.Keys
    && HoldersAreClients(cfg, s.table)
    && (forall a :: a in cfg.files ==> AddressGood(cfg, s, a))
  }

  ghost predicate AddressGood(cfg: Config, s: System, a: Addr)
    requires 0 < cfg.chunk && a in cfg.files && a in s.ends
  {
    LaneGood(cfg, PacketsOf(cfg, a), LaneOf(s, a))
  }

  lemma FreshIsGood(cfg: Config, s: System)
    requires Init(cfg, s)
    ensures Good(cfg, s)
  {
    forall a | a in cfg.files ensures AddressGood(cfg, s, a) {
      var ps := PacketsOf(cfg, a);
      PacketCount(cfg.files[a], cfg.chunk);
      Absent(s.table, a);
      assert LaneOf(s, a) == FRESH;
    }
  }

  lemma OwnLaneStaysGood(cfg: Config, s: System, act: Action)
    requires Good(cfg, s) && Enabled(cfg, s, act)
    ensures AddressGood(cfg, Apply(cfg, s, act), act.a)
  {
    var ps := PacketsOf(cfg, act.a);
    var l, la := LaneOf(s, act.a), LaneActionOf(s, act);
    assert AddressGood(cfg, s, act.a);
    StepRefinesLane(cfg, s, act);
    StepKeepsConsistent(ps, cfg.maxTries, cfg.net, l, la);
    StepKeepsBound(ps, cfg.maxTries, cfg.net, l, la);
  }

  lemma OtherLaneStaysGood(cfg: Config, s: System, act: Action, b: Addr)
    requires Good(cfg, s) && Enabled(cfg, s, act) && b in cfg.files && b != act.a
    ensures AddressGood(cfg, Apply(cfg, s, act), b)
  {
    OtherLanesUnchanged(cfg, s, act, b);
    assert AddressGood(cfg, s, b);
  }

  ghost predicate HoldersAreClients(cfg: Config, t: seq<Connection>)
  {
    forall i :: 0 <= i < |t| && !t[i].free ==> t[i].addr in cfg.files
  }

  lemma StepKeepsHolders(cfg: Config, s: System, act: Action)
    requires HoldersAreClients(cfg, s.table) && Enabled(cfg, s, act)
    ensures HoldersAreClients(cfg, Apply(cfg, s, act).table)
  {
    if act.Receive? {
      ServeHolders(s.table, Datagram(act.a, s.ends[act.a].sent[act.i]));
    }
  }

  lemma StepKeepsShape(cfg: Config, s: System, act: Action)
    requires Distinct(s.table) && |s.table| == cfg.slots && s.ends.Keys == cfg.files.Keys && Enabled(cfg, s, act)
    ensures var r := Apply(cfg, s, act);
            Distinct(r.table) && |r.table| == cfg.slots && r.ends.Keys == cfg.files.Keys
  {
    if act.Receive? {
      ServeIsolatesClients(s.table, Datagram(act.a, s.ends[act.a].sent[act.i]), act.a);
    }
  }

  lemma StepKeepsGood(cfg: Config, s: System, act: Action)
    requires Good(cfg, s) && Enabled(cfg, s, act)
    ensures Good(cfg, Apply(cfg, s, act))
  {
    var r := Apply(cfg, s, act);
    StepKeepsShape(cfg, s, act);
    StepKeepsHolders(cfg, s, act);
    forall a | a in cfg.files ensures AddressGood(cfg, r, a) {
      if a == act.a {
        OwnLaneStaysGood(cfg, s, act);
      } else {
        OtherLaneStaysGood(cfg, s, act, a);
      }
    }
  }

  lemma {:induction false} ThenKeepsGood(cfg: Config, gone: Option<System>, s: System, acts: seq<Action>, r: System)
    requires Good(cfg, s) && Then(cfg, gone, s, acts) == Some(r)
    ensures Good(cfg, r)
  {
    if acts != [] {
      var p := Then(cfg, gone, s, acts[..|acts| - 1]).value;
      ThenKeepsGood(cfg, gone, s, acts[..|acts| - 1], p);
      StepKeepsGood(cfg, p, acts[|acts| - 1]);
    }
  }

  lemma ReachableIsGood(cfg: Config, s: System)
    requires Reachable(cfg, s)
    ensures Good(cfg, s)
  {
    var o :| Init(cfg, o) && Path(cfg, None, o, s);
    var acts :| Then(cfg, None, o, acts) == Some(s);
    FreshIsGood(cfg, o);
    ThenKeepsGood(cfg, None, o, acts, s);
  }

  /** The lane of one address in a reachable state. */
  lemma AddressIsGood(cfg: Config, s: System, a: Addr)
    requires Reachable(cfg, s) && a in cfg.files
    ensures 0 < cfg.chunk && a in s.ends && Distinct(s.table)
    ensures LaneGood(cfg, PacketsOf(cfg, a), LaneOf(s, a))
  {
    ReachableIsGood(cfg, s);
    assert AddressGood(cfg, s, a);
  }

  lemma Extend(cfg: Config, s: System, act: Action)
    requires Reachable(cfg, s) && Enabled(cfg, s, act)
    ensures Reachable(cfg, Apply(cfg, s, act))
  {
    var o :| Init(cfg, o) && Path(cfg, None, o, s);
    PathExtends(cfg, None, o, s, act);
  }

  // ---------------------------------------------------------------------------------------------
  // The stop-and-wait invariant, sessions, outcomes.

  lemma LogStartsWithFile(ps: seq<Packet>, l: Lane)
    requires Numbered(ps) && Sound(ps, l)
    ensures l.completed == 0 ==> l.log == ps[..CountIn(l.slot)]
    ensures 0 < l.completed ==> ps <= l.log
    ensures l.completed == 1 && CountIn(l.slot) == 0 ==> l.log == ps
  {
    if 0 < l.completed {
      assert Copies(ps, l.completed) == ps + Copies(ps, l.completed - 1);
    }
  }

  /** Until the last chunk is first delivered, the server's count for a client is the client's
      current chunk number or one less, and its log is exactly the first `count` chunks.  Echo c
      exists only if chunks 1..c were delivered. */
  lemma StopAndWaitInvariant(cfg: Config, s: System, a: Addr)
    requires Reachable(cfg, s) && a in cfg.files
    ensures 0 < cfg.chunk && a in s.ends
    ensures var l := LaneOf(s, a);
            var ps := PacketsOf(cfg, a);
            && (|l.log| < |ps| ==>
                  && l.client.next - 1 <= CountIn(l.slot) <= l.client.next
                  && 0 <= CountIn(l.slot) < |ps|
                  && l.log == ps[..CountIn(l.slot)])
            && (forall j :: 0 <= j < |l.echoes| ==>
                  1 <= l.echoes[j].no <= |ps| && ps[..l.echoes[j].no] <= l.log)
  {
    AddressIsGood(cfg, s, a);
    var l := LaneOf(s, a);
    var ps := PacketsOf(cfg, a);
    LogStartsWithFile(ps, l);
    forall j | 0 <= j < |l.echoes| ensures ps[..l.echoes[j].no] <= l.log {
      assert DeliveredUpTo(l, l.echoes[j].no);
    }
  }

  /** A session, from slot allocation to slot release, delivers a prefix of that client's own file,
      and only a complete file ends it: each address's log is whole copies of its file followed by
      the prefix the open session has reached.  Occupied slots belong to distinct addresses. */
  lemma SessionsDeliverPrefixes(cfg: Config, s: System, a: Addr)
    requires Reachable(cfg, s) && a in cfg.files
    ensures 0 < cfg.chunk && a in s.ends
    ensures Distinct(s.table)
    ensures var l := LaneOf(s, a);
            var ps := PacketsOf(cfg, a);
            && 0 <= CountIn(l.slot) < |ps|
            && l.log == Copies(ps, l.completed) + ps[..CountIn(l.slot)]
  {
    AddressIsGood(cfg, s, a);
  }

  /** The client tells the truth.  Having the last chunk acknowledged means every chunk was
      delivered; giving up at chunk k means exactly k-1 or k chunks were, except that on a network
      that reorders, or with a one-chunk file, more may be when k is the last.
      No chunk is sent more than `maxTries` times, and one given up on was sent that often. */
  lemma ClientOutcomeIsTruthful(cfg: Config, s: System, a: Addr)
    requires Reachable(cfg, s) && a in cfg.files
    ensures 0 < cfg.chunk && a in s.ends
    ensures var l := LaneOf(s, a);
            var ps := PacketsOf(cfg, a);
            && (l.client.phase == Finished ==> l.client.next == |ps| && ps <= l.log)
            && (l.client.phase == GaveUp ==>
                  && l.client.next - 1 <= |l.log|
                  && (l.client.next < |ps| || (cfg.net == InOrder && 2 <= |ps|) ==>
                        |l.log| <= l.client.next && l.log <= ps))
            && (forall k :: Sends(l.sent, k) <= cfg.maxTries)
            && (l.client.phase == GaveUp ==> Sends(l.sent, l.client.next) == cfg.maxTries)
  {
    AddressIsGood(cfg, s, a);
    LogStartsWithFile(PacketsOf(cfg, a), LaneOf(s, a));
  }

  /** Once the client has finished, what the server printed for it is its file, up to the first NUL. */
  lemma FinishedMeansFileIsThere(cfg: Config, s: System, a: Addr)
    requires Reachable(cfg, s) && a in cfg.files && NUL !in cfg.files[a]
    requires a in s.ends && LaneOf(s, a).client.phase == Finished
    ensures UpToNul(Payloads(LaneOf(s, a).log)) == cfg.files[a]
  {
    ClientOutcomeIsTruthful(cfg, s, a);
    var ps, log := PacketsOf(cfg, a), LaneOf(s, a).log;
    assert log == ps + log[|ps|..];
    ReassemblyOfMore(cfg.files[a], cfg.chunk, log[|ps|..]);
  }

  // ---------------------------------------------------------------------------------------------
  // Runs of one client's transfer.

  /** The server has, or can get, a slot for the client. */
  predicate Room(s: System, a: Addr)
    requires a in s.ends
  {
    LaneOf(s, a).slot != None || !Full(s.table)
  }

  /** A run from `o` has come to s, and the transfer of `a` can go on there. */
  ghost predicate Going(cfg: Config, gone: Option<System>, o: System, s: System, a: Addr)
  {
    && Path(cfg, gone, o, s) && Reachable(cfg, s) && a in cfg.files && a in s.ends && Room(s, a) && 0 < cfg.chunk
    && (gone.Some? && a in gone.value.ends ==>
          |gone.value.ends[a].sent| <= |s.ends[a].sent| && |gone.value.ends[a].echoes| <= |s.ends[a].echoes|)
  }

  ghost predicate OthersAsBefore(s: System, r: System, a: Addr)
  {
    r.ends.Keys == s.ends.Keys && forall b :: b in s.ends && b != a ==> LaneOf(r, b) == LaneOf(s, b)
  }

  lemma OthersStillAsBefore(s: System, p: System, r: System, a: Addr)
    requires OthersAsBefore(s, p, a) && OthersAsBefore(p, r, a)
    ensures OthersAsBefore(s, r, a)
  {
    forall b | b in s.ends && b != a ensures LaneOf(r, b) == LaneOf(s, b) {
      assert LaneOf(p, b) == LaneOf(s, b);
    }
  }

  function SystemAction(a: Addr, la: LaneAction): (act: Action)
    requires !la.Ignored?
  {
    match la
    case Send => SendChunk(a)
    case Hear(j) => HearEcho(a, j)
    case TimeOut => Expire(a)
    case Arrive(i) => Receive(a, i)
  }

  /** A step of a lane can be taken in the system. */
  lemma StepAs(cfg: Config, gone: Option<System>, o: System, s: System, a: Addr, la: LaneAction) returns (r: System)
    requires Going(cfg, gone, o, s, a) && !la.Ignored?
    requires LaneEnabled(PacketsOf(cfg, a), cfg.maxTries, cfg.net, LaneOf(s, a), la)
    requires Allowed(gone, SystemAction(a, la))
    ensures Going(cfg, gone, o, r, a) && OthersAsBefore(s, r, a)
    ensures LaneOf(r, a) == LaneApply(PacketsOf(cfg, a), cfg.maxTries, cfg.net, LaneOf(s, a), la)
  {
    var act := SystemAction(a, la);
    AddressIsGood(cfg, s, a);
    assert Enabled(cfg, s, act) && LaneActionOf(s, act) == la;
    r := Apply(cfg, s, act);
    StepRefinesLane(cfg, s, act);
    Extend(cfg, s, act);
    PathExtends(cfg, gone, o, s, act);
    StepLeavesOthers(cfg, s, act);
    RoomStays(cfg, s, act);
  }

  lemma StepLeavesOthers(cfg: Config, s: System, act: Action)
    requires Enabled(cfg, s, act) && Distinct(s.table)
    ensures OthersAsBefore(s, Apply(cfg, s, act), act.a)
  {
    forall b | b in s.ends && b != act.a ensures LaneOf(Apply(cfg, s, act), b) == LaneOf(s, b) {
      OtherLanesUnchanged(cfg, s, act, b);
    }
  }

  /** Only giving its slot back leaves a client without one, and then there is a free one. */
  lemma RoomStays(cfg: Config, s: System, act: Action)
    requires Enabled(cfg, s, act) && Distinct(s.table) && Room(s, act.a)
    ensures act.a in Apply(cfg, s, act).ends && Room(Apply(cfg, s, act), act.a)
  {
    if act.Receive? {
      ServeOwnAddress(s.table, Datagram(act.a, s.ends[act.a].sent[act.i]));
    }
  }

  /** A ready client's chunk is sent and answered. */
  lemma AnswerFrom(cfg: Config, gone: Option<System>, o: System, s: System, a: Addr, sent: Lane, served: Lane)
      returns (r: System)
    requires Going(cfg, gone, o, s, a)
    requires var ps, l := PacketsOf(cfg, a), LaneOf(s, a);
             && LaneEnabled(ps, cfg.maxTries, cfg.net, l, Send) && sent == LaneApply(ps, cfg.maxTries, cfg.net, l, Send)
             && LaneEnabled(ps, cfg.maxTries, cfg.net, sent, Arrive(|l.sent|))
             && served == LaneApply(ps, cfg.maxTries, cfg.net, sent, Arrive(|l.sent|))
    ensures Going(cfg, gone, o, r, a) && OthersAsBefore(s, r, a) && LaneOf(r, a) == served
  {
    var p := StepAs(cfg, gone, o, s, a, Send);
    r := StepAs(cfg, gone, o, p, a, Arrive(|LaneOf(s, a).sent|));
    OthersStillAsBefore(s, p, r, a);
  }

  /** A ready client gets one chunk further. */
  lemma RoundFrom(cfg: Config, gone: Option<System>, o: System, s: System, a: Addr) returns (r: System)
    requires Going(cfg, gone, o, s, a) && 0 < cfg.maxTries
    requires LaneOf(s, a).client.phase == Ready && Answerable(LaneOf(s, a))
    ensures Going(cfg, gone, o, r, a) && OthersAsBefore(s, r, a) && LaneOf(s, a).sent <= LaneOf(r, a).sent
    ensures LaneOf(s, a).client.next < |PacketsOf(cfg, a)| ==>
              && LaneOf(r, a).client == Client(LaneOf(s, a).client.next + 1, 0, 0, Ready)
              && Answerable(LaneOf(r, a)) && LaneOf(r, a).completed == LaneOf(s, a).completed
    ensures LaneOf(s, a).client.next >= |PacketsOf(cfg, a)| ==>
              && LaneOf(r, a).client.phase == Finished && LaneOf(r, a).slot == None
              && LaneOf(r, a).completed == LaneOf(s, a).completed + 1
  {
    AddressIsGood(cfg, s, a);
    var sent, served, done := Round(PacketsOf(cfg, a), cfg.maxTries, cfg.net, LaneOf(s, a));
    var p := AnswerFrom(cfg, gone, o, s, a, sent, served);
    r := StepAs(cfg, gone, o, p, a, Hear(|LaneOf(s, a).echoes|));
    OthersStillAsBefore(s, p, r, a);
  }

  /** A ready client whose chunk would be answered can get to its last chunk. */
  lemma {:induction false} ToLastChunk(cfg: Config, gone: Option<System>, o: System, s: System, a: Addr, left: nat)
      returns (r: System)
    requires Going(cfg, gone, o, s, a) && 0 < cfg.maxTries
    requires LaneOf(s, a).client.phase == Ready && Answerable(LaneOf(s, a))
    requires left == |PacketsOf(cfg, a)| - LaneOf(s, a).client.next
    ensures Going(cfg, gone, o, r, a) && OthersAsBefore(s, r, a) && LaneOf(s, a).sent <= LaneOf(r, a).sent
    ensures LaneOf(r, a).client.next == |PacketsOf(cfg, a)| && LaneOf(r, a).client.phase == Ready
    ensures Answerable(LaneOf(r, a)) && LaneOf(r, a).completed == LaneOf(s, a).completed
    ensures left > 0 || LaneOf(s, a).client.tries == 0 ==> LaneOf(r, a).client.tries == 0
    decreases left
  {
    if left == 0 {
      r := s;
    } else {
      var p := RoundFrom(cfg, gone, o, s, a);
      r := ToLastChunk(cfg, gone, o, p, a, left - 1);
      OthersStillAsBefore(s, p, r, a);
    }
  }

  /** And from there to the end. */
  lemma FinishFrom(cfg: Config, gone: Option<System>, o: System, s: System, a: Addr) returns (r: System)
    requires Going(cfg, gone, o, s, a) && 0 < cfg.maxTries
    requires LaneOf(s, a).client.phase == Ready && Answerable(LaneOf(s, a))
    ensures Going(cfg, gone, o, r, a) && OthersAsBefore(s, r, a) && LaneOf(s, a).sent <= LaneOf(r, a).sent
    ensures LaneOf(r, a).client.phase == Finished && LaneOf(r, a).slot == None
    ensures LaneOf(r, a).completed == LaneOf(s, a).completed + 1
  {
    AddressIsGood(cfg, s, a);
    var p := ToLastChunk(cfg, gone, o, s, a, |PacketsOf(cfg, a)| - LaneOf(s, a).client.next);
    r := RoundFrom(cfg, gone, o, p, a);
    OthersStillAsBefore(s, p, r, a);
  }

  /** Before its first chunk. */
  lemma AtStart(cfg: Config) returns (o: System)
    requires 0 < cfg.chunk
    ensures Init(cfg, o) && Reachable(cfg, o) && o.ends.Keys == cfg.files.Keys
    ensures forall a :: a in cfg.files ==> LaneOf(o, a) == FRESH
    ensures 0 < cfg.slots ==> !Full(o.table)
  {
    o := System(seq(cfg.slots, _ => Connection(true, 0, 0)), map a | a in cfg.files :: EndOf(FRESH));
    StaysPut(cfg, None, o);
    forall a | a in cfg.files ensures LaneOf(o, a) == FRESH {
      Absent(o.table, a);
    }
    if 0 < cfg.slots {
      assert o.table[0].free;
    }
  }

  lemma StartGoing(cfg: Config, a: Addr) returns (o: System)
    requires 0 < cfg.chunk && a in cfg.files && 0 < cfg.slots
    ensures Going(cfg, None, o, o, a) && LaneOf(o, a) == FRESH
  {
    o := AtStart(cfg);
    StaysPut(cfg, None, o);
  }

  /** A run without faults ends with the file delivered and the client satisfied: the claims above
      are not about an empty set of runs. */
  lemma FaultFreeRunDelivers(cfg: Config, a: Addr) returns (s: System)
    requires 0 < cfg.chunk && a in cfg.files && 0 < cfg.maxTries && 0 < cfg.slots
    ensures Reachable(cfg, s) && a in s.ends && !Full(s.table)
    ensures var l := LaneOf(s, a);
            l.client.phase == Finished && l.log == PacketsOf(cfg, a) && l.slot == None
  {
    var o := StartGoing(cfg, a);
    s := FinishFrom(cfg, None, o, o, a);
    AddressIsGood(cfg, s, a);
    LogStartsWithFile(PacketsOf(cfg, a), LaneOf(s, a));
  }

  // ---------------------------------------------------------------------------------------------
  // At-most-once delivery, exactly.

  ghost predicate NoChunkTwice(log: seq<Packet>)
  {
    forall i, j :: 0 <= i < j < |log| ==> log[i].no != log[j].no
  }

  /** In order, a file of at least one full payload is never delivered twice, not even in part: the
      log is always a prefix of the file.  Late copies of the last chunk find a fresh slot whose
      count is 0 and are dropped. */
  lemma InOrderDeliversOnce(cfg: Config, s: System, a: Addr)
    requires Reachable(cfg, s) && a in cfg.files
    requires cfg.net == InOrder && 0 < cfg.chunk <= |cfg.files[a]|
    ensures a in s.ends && LaneOf(s, a).log <= PacketsOf(cfg, a)
    ensures NoChunkTwice(LaneOf(s, a).log)
  {
    AddressIsGood(cfg, s, a);
    LongFile(cfg, a);
    LogStartsWithFile(PacketsOf(cfg, a), LaneOf(s, a));
    PrefixHasNoChunkTwice(PacketsOf(cfg, a), LaneOf(s, a).log);
  }

  lemma LongFile(cfg: Config, a: Addr)
    requires a in cfg.files && 0 < cfg.chunk <= |cfg.files[a]|
    ensures Numbered(PacketsOf(cfg, a)) && 2 <= |PacketsOf(cfg, a)|
  {
    PacketCount(cfg.files[a], cfg.chunk);
    DivisionStep(|cfg.files[a]|, cfg.chunk);
  }

  lemma PrefixHasNoChunkTwice(ps: seq<Packet>, log: seq<Packet>)
    requires Numbered(ps) && log <= ps
    ensures NoChunkTwice(log)
  {
  }

  /** One more copy of the first chunk, after the file was delivered and its slot given back. */
  lemma FirstChunkAgain(cfg: Config, o: System, s: System, a: Addr, i: nat) returns (r: System)
    requires Going(cfg, None, o, s, a) && LaneOf(s, a).log == PacketsOf(cfg, a) && LaneOf(s, a).slot == None
    requires i < |LaneOf(s, a).sent| && LaneOf(s, a).sent[i] == PacketsOf(cfg, a)[0] && cfg.net == AnyOrder
    ensures Reachable(cfg, r) && a in r.ends && !NoChunkTwice(LaneOf(r, a).log)
  {
    AddressIsGood(cfg, s, a);
    r := StepAs(cfg, None, o, s, a, Arrive(i));
    var log := LaneOf(r, a).log;
    assert log == LaneOf(s, a).log + [PacketsOf(cfg, a)[0]];
    assert log[0].no == log[|log| - 1].no;
  }

  /** When the network may keep a copy of a datagram, any file can be delivered twice: a duplicate of
      chunk 1 arrives after the slot was given back, gets a fresh slot and is printed again. */
  lemma DuplicationRepeats(cfg: Config, a: Addr) returns (s: System)
    requires 0 < cfg.chunk && a in cfg.files && 0 < cfg.maxTries && 0 < cfg.slots
    requires cfg.net == AnyOrder
    ensures Reachable(cfg, s) && a in s.ends && !NoChunkTwice(LaneOf(s, a).log)
  {
    var o := StartGoing(cfg, a);
    var t := FinishFrom(cfg, None, o, o, a);
    AddressIsGood(cfg, t, a);
    LogStartsWithFile(PacketsOf(cfg, a), LaneOf(t, a));
    assert PacketsOf(cfg, a)[0] in LaneOf(t, a).sent;
    var i :| 0 <= i < |LaneOf(t, a).sent| && LaneOf(t, a).sent[i] == PacketsOf(cfg, a)[0];
    s := FirstChunkAgain(cfg, o, t, a, i);
  }

  /** The first chunk was sent, timed out, and was sent again. */
  lemma TwoCopiesUnderWay(cfg: Config, a: Addr) returns (o: System, s: System)
    requires 0 < cfg.chunk && a in cfg.files && 2 <= cfg.maxTries && 0 < cfg.slots
    ensures Going(cfg, None, o, s, a)
    ensures var p := PacketsOf(cfg, a)[0];
            LaneOf(s, a) == FRESH.(client := Client(1, 2, 0, Waiting), sent := [p, p])
  {
    PacketCount(cfg.files[a], cfg.chunk);
    o := StartGoing(cfg, a);
    FirstChunkTwice(PacketsOf(cfg, a), cfg.maxTries, cfg.net);
    s := StepAs(cfg, None, o, o, a, Send);
    s := StepAs(cfg, None, o, s, a, TimeOut);
    s := StepAs(cfg, None, o, s, a, Send);
  }

  /** Reordering alone is enough: the retransmission of chunk 1 overtakes the original, which arrives
      only after the rest of the file. */
  lemma ReorderingRepeats(cfg: Config, a: Addr) returns (s: System)
    requires 0 < cfg.chunk && a in cfg.files && 2 <= cfg.maxTries && 0 < cfg.slots
    requires cfg.net == AnyOrder
    ensures Reachable(cfg, s) && a in s.ends && !NoChunkTwice(LaneOf(s, a).log)
  {
    PacketCount(cfg.files[a], cfg.chunk);
    var o, t := TwoCopiesUnderWay(cfg, a);
    t := StepAs(cfg, None, o, t, a, Arrive(1));
    t := StepAs(cfg, None, o, t, a, Hear(0));
    if LaneOf(t, a).client.phase != Finished {
      t := FinishFrom(cfg, None, o, t, a);
    }
    AddressIsGood(cfg, t, a);
    LogStartsWithFile(PacketsOf(cfg, a), LaneOf(t, a));
    s := FirstChunkAgain(cfg, o, t, a, 0);
  }

  /** A file shorter than one payload is a single chunk that is first and last at once; one
      retransmission after a time-out is enough to have it delivered twice, even in order. */
  lemma RetransmissionRepeatsShortFile(cfg: Config, a: Addr) returns (s: System)
    requires a in cfg.files && 2 <= cfg.maxTries && 0 < cfg.slots
    requires |cfg.files[a]| < cfg.chunk
    ensures Reachable(cfg, s) && a in s.ends && !NoChunkTwice(LaneOf(s, a).log)
  {
    var p := PacketsOf(cfg, a)[0];
    assert p.no == 1 && p.last;
    var o;
    o, s := TwoCopiesUnderWay(cfg, a);
    s := StepAs(cfg, None, o, s, a, Arrive(0));
    s := StepAs(cfg, None, o, s, a, Arrive(1));
    assert LaneOf(s, a).log[0].no == LaneOf(s, a).log[1].no;
  }

  /** The exact condition for at-most-once delivery over all runs: the network keeps the order and
      the file fills at least one payload. */
  lemma AtMostOnceExactly(cfg: Config, a: Addr)
    requires 0 < cfg.chunk && a in cfg.files && 2 <= cfg.maxTries && 0 < cfg.slots
    ensures (forall s :: Reachable(cfg, s) ==> a in s.ends && NoChunkTwice(LaneOf(s, a).log))
            <==> cfg.net == InOrder && cfg.chunk <= |cfg.files[a]|
  {
    if cfg.net == InOrder && cfg.chunk <= |cfg.files[a]| {
      forall s | Reachable(cfg, s) ensures a in s.ends && NoChunkTwice(LaneOf(s, a).log) {
        InOrderDeliversOnce(cfg, s, a);
      }
    } else if cfg.net == AnyOrder {
      var s := ReorderingRepeats(cfg, a);
    } else {
      var s := RetransmissionRepeatsShortFile(cfg, a);
    }
  }
}

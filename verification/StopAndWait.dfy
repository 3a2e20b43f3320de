/**
  One client's transfer as a state machine: the retrying client (L2_3/file_client_udp.c), the
  datagrams under way in both directions, and what the server keeps for that client's address
  (L2_3/file_server.c).  The network may lose, delay and duplicate; it may also reorder, unless
  it is said to be in order.
 */
module StopAndWait {
  import opened Chunking
  import opened Options

  datatype Phase = Ready | Waiting | Finished | GaveUp

  /** The client's variables: the current chunk number, the sends made for it, the chunk number in
      the last echo received for it (0 if none). */
  datatype Client = Client(next: int, tries: nat, echoed: int, phase: Phase)

  const START := Client(1, 0, 0, Ready)

  predicate InRange(ps: seq<Packet>, c: Client)
  {
    1 <= c.next <= |ps|
  }

  /** The tests after sendAndConfirm returns: send again, give up, finish, or next chunk. */
  function Decide(ps: seq<Packet>, maxTries: nat, c: Client): (r: Client)
    requires InRange(ps, c)
  {
    if c.echoed != c.next then c.(phase := if c.tries < maxTries then Ready else GaveUp)
    else if ps[c.next - 1].last then c.(phase := Finished)
    else Client(c.next + 1, 0, 0, Ready)
  }

  /** `sent`, `echoes` and `log` record everything sent by the client, sent back by the server and
      printed by the server; `completed` counts the last chunks printed. */
  datatype Lane = Lane(client: Client, sent: seq<Packet>, cursor: nat, slot: Option<int>,
                       echoes: seq<Packet>, log: seq<Packet>, completed: nat)

  /** `InOrder`: the i-th datagram sent is never received after a later one. */
  datatype Network = AnyOrder | InOrder

  datatype LaneAction =
    | Send            // the client sends its current chunk
    | Hear(j: nat)    // the client receives the j-th echo ever sent to it
    | TimeOut         // half a second passes without an echo
    | Arrive(i: nat)  // the server receives the i-th datagram ever sent to it
    | Ignored(i: nat) // the same, but the client has no slot and the table is full

  predicate LaneEnabled(ps: seq<Packet>, maxTries: nat, net: Network, l: Lane, act: LaneAction)
  {
    match act
    case Send => l.client.phase == Ready && l.client.tries < maxTries && InRange(ps, l.client)
    case Hear(j) => l.client.phase == Waiting && InRange(ps, l.client) && j < |l.echoes|
    case TimeOut => l.client.phase == Waiting && InRange(ps, l.client)
    case Arrive(i) => i < |l.sent| && (net == InOrder ==> l.cursor <= i)
    case Ignored(i) => i < |l.sent| && (net == InOrder ==> l.cursor <= i) && l.slot == None
  }

  function CountIn(slot: Option<int>): (c: int)
  {
    if slot == None then 0 else slot.value
  }

  function LaneApply(ps: seq<Packet>, maxTries: nat, net: Network, l: Lane, act: LaneAction): (r: Lane)
    requires LaneEnabled(ps, maxTries, net, l, act)
  {
    match act
    case Send =>
      l.(client := l.client.(tries := l.client.tries + 1, phase := Waiting),
         sent := l.sent + [ps[l.client.next - 1]])
    case Hear(j) => l.(client := Decide(ps, maxTries, l.client.(echoed := l.echoes[j].no)))
    case TimeOut => l.(client := Decide(ps, maxTries, l.client))
    case Arrive(i) =>
      var p := l.sent[i];
      var count := CountIn(l.slot);
      if p.no > count + 1 then l.(cursor := i, slot := Some(count))
      else if p.no == count + 1 then
        l.(cursor := i, slot := if p.last then None else Some(count + 1),
           log := l.log + [p], echoes := l.echoes + [p],
           completed := if p.last then l.completed + 1 else l.completed)
      else l.(cursor := i, slot := Some(count), echoes := l.echoes + [p])
    case Ignored(i) => l.(cursor := i)
  }

  const FRESH := Lane(START, [], 0, None, [], [], 0)

  /** How often chunk `k` was sent. */
  function Sends(sent: seq<Packet>, k: int): (n: nat)
  {
    if sent == [] then 0
    else Sends(sent[..|sent| - 1], k) + (if sent[|sent| - 1].no == k then 1 else 0)
  }

  // ---------------------------------------------------------------------------------------------
  // What holds in every state, whatever the network does.

  ghost predicate SentAreOwnChunks(ps: seq<Packet>, l: Lane)
  {
    forall i :: 0 <= i < |l.sent| ==>
      1 <= l.sent[i].no <= l.client.next <= |ps| && l.sent[i] == ps[l.sent[i].no - 1]
  }

  /** `n` copies of a list. */
  function Copies(ps: seq<Packet>, n: nat): (r: seq<Packet>)
  {
    if n == 0 then [] else ps + Copies(ps, n - 1)
  }

  /** The log is whole copies of the file followed by its first `count` chunks. */
  ghost predicate LogIsCopiesAndPrefix(ps: seq<Packet>, l: Lane)
  {
    && 0 <= CountIn(l.slot) < |ps|
    && l.log == Copies(ps, l.completed) + ps[..CountIn(l.slot)]
  }

  /** Chunk `c` was delivered, and with it every chunk before it. */
  ghost predicate DeliveredUpTo(l: Lane, c: int)
  {
    l.completed == 0 ==> c <= CountIn(l.slot)
  }

  ghost predicate EchoesAreTrue(ps: seq<Packet>, l: Lane)
  {
    forall j :: 0 <= j < |l.echoes| ==> 1 <= l.echoes[j].no <= |ps| && DeliveredUpTo(l, l.echoes[j].no)
  }

  ghost predicate ClientInStep(ps: seq<Packet>, l: Lane)
  {
    && InRange(ps, l.client)
    && DeliveredUpTo(l, l.client.next - 1)
    && (l.completed == 0 ==> CountIn(l.slot) <= l.client.next)
    && (l.client.next < |ps| ==> l.completed == 0)
    && (l.client.phase == Finished ==> l.client.next == |ps| && 0 < l.completed)
  }

  /** While the client waits it has not yet heard its current chunk echoed. */
  ghost predicate StaleEcho(l: Lane)
  {
    l.client.phase in {Ready, Waiting} ==> l.client.echoed != l.client.next
  }

  ghost predicate SendsBounded(maxTries: nat, l: Lane)
  {
    && l.client.tries <= maxTries
    && (l.client.phase == GaveUp ==> l.client.tries == maxTries)
    && Sends(l.sent, l.client.next) == l.client.tries
    && (forall k :: Sends(l.sent, k) <= maxTries)
    && (forall k :: k > l.client.next ==> Sends(l.sent, k) == 0)
  }

  ghost predicate Sound(ps: seq<Packet>, l: Lane)
    requires Numbered(ps)
  {
    && SentAreOwnChunks(ps, l)
    && LogIsCopiesAndPrefix(ps, l)
    && EchoesAreTrue(ps, l)
    && ClientInStep(ps, l)
    && StaleEcho(l)
  }

  lemma {:induction false} CopiesPlusOne(ps: seq<Packet>, n: nat)
    ensures Copies(ps, n) + ps == Copies(ps, n + 1)
  {
    if n > 0 {
      CopiesPlusOne(ps, n - 1);
      assert ps + Copies(ps, n - 1) + ps == ps + (Copies(ps, n - 1) + ps);
    }
  }

  lemma DeliveryExtendsLog(ps: seq<Packet>, l: Lane, r: Lane)
    requires Numbered(ps) && LogIsCopiesAndPrefix(ps, l)
    requires var p := ps[CountIn(l.slot)];
             && r.log == l.log + [p]
             && r.slot == (if p.last then None else Some(CountIn(l.slot) + 1))
             && r.completed == (if p.last then l.completed + 1 else l.completed)
    ensures LogIsCopiesAndPrefix(ps, r)
  {
    var c := CountIn(l.slot);
    assert ps[..c + 1] == ps[..c] + [ps[c]];
    if ps[c].last {
      assert ps[..c + 1] == ps;
      CopiesPlusOne(ps, l.completed);
    }
  }

  lemma ArrivalKeepsSound(ps: seq<Packet>, maxTries: nat, net: Network, l: Lane, i: nat)
    requires Numbered(ps) && Sound(ps, l) && LaneEnabled(ps, maxTries, net, l, Arrive(i))
    ensures Sound(ps, LaneApply(ps, maxTries, net, l, Arrive(i)))
  {
    var r := LaneApply(ps, maxTries, net, l, Arrive(i));
    if l.sent[i].no == CountIn(l.slot) + 1 {
      DeliveryExtendsLog(ps, l, r);
    }
  }

  lemma OneMoreSend(sent: seq<Packet>, p: Packet, k: int)
    ensures Sends(sent + [p], k) == Sends(sent, k) + (if p.no == k then 1 else 0)
  {
    assert (sent + [p])[..|sent|] == sent;
  }

  lemma SendKeepsSound(ps: seq<Packet>, maxTries: nat, net: Network, l: Lane)
    requires Numbered(ps) && Sound(ps, l) && LaneEnabled(ps, maxTries, net, l, Send)
    ensures Sound(ps, LaneApply(ps, maxTries, net, l, Send))
  {
    var p := ps[l.client.next - 1];
    var r := l.(client := l.client.(tries := l.client.tries + 1, phase := Waiting), sent := l.sent + [p]);
    assert r == LaneApply(ps, maxTries, net, l, Send);
    assert SentAreOwnChunks(ps, r);
    assert LogIsCopiesAndPrefix(ps, r);
  }

  lemma DecisionKeepsSound(ps: seq<Packet>, maxTries: nat, l: Lane, c: Client)
    requires Numbered(ps) && Sound(ps, l) && l.client.phase == Waiting
    requires c == l.client.(echoed := c.echoed)
    requires c.echoed == c.next ==> DeliveredUpTo(l, c.next)
    ensures Sound(ps, l.(client := Decide(ps, maxTries, c)))
  {
    var r := l.(client := Decide(ps, maxTries, c));
    assert LogIsCopiesAndPrefix(ps, r);
  }

  lemma StepKeepsSound(ps: seq<Packet>, maxTries: nat, net: Network, l: Lane, act: LaneAction)
    requires Numbered(ps) && Sound(ps, l) && LaneEnabled(ps, maxTries, net, l, act)
    ensures Sound(ps, LaneApply(ps, maxTries, net, l, act))
  {
    match act
    case Send => SendKeepsSound(ps, maxTries, net, l);
    case Arrive(i) => ArrivalKeepsSound(ps, maxTries, net, l, i);
    case Hear(j) => DecisionKeepsSound(ps, maxTries, l, l.client.(echoed := l.echoes[j].no));
    case TimeOut =>
      assert StaleEcho(l);
      DecisionKeepsSound(ps, maxTries, l, l.client);
    case Ignored(i) => assert LogIsCopiesAndPrefix(ps, l.(cursor := i));
  }

  lemma SendKeepsBound(maxTries: nat, l: Lane, r: Lane, p: Packet)
    requires SendsBounded(maxTries, l) && p.no == l.client.next && l.client.tries < maxTries
    requires r.sent == l.sent + [p]
    requires r.client == l.client.(tries := l.client.tries + 1, phase := Waiting)
    ensures SendsBounded(maxTries, r)
  {
    forall k ensures Sends(r.sent, k) == Sends(l.sent, k) + (if p.no == k then 1 else 0) {
      OneMoreSend(l.sent, p, k);
    }
  }

  lemma DecisionKeepsBound(ps: seq<Packet>, maxTries: nat, l: Lane, c: Client)
    requires InRange(ps, l.client) && SendsBounded(maxTries, l) && c == l.client.(echoed := c.echoed)
    ensures SendsBounded(maxTries, l.(client := Decide(ps, maxTries, c)))
  {
    assert Sends(l.sent, l.client.next + 1) == 0;
  }

  /** No step makes the client send a chunk more than `maxTries` times. */
  lemma StepKeepsBound(ps: seq<Packet>, maxTries: nat, net: Network, l: Lane, act: LaneAction)
    requires Numbered(ps) && SendsBounded(maxTries, l) && LaneEnabled(ps, maxTries, net, l, act)
    ensures SendsBounded(maxTries, LaneApply(ps, maxTries, net, l, act))
  {
    match act
    case Send => SendKeepsBound(maxTries, l, LaneApply(ps, maxTries, net, l, act), ps[l.client.next - 1]);
    case Hear(j) => DecisionKeepsBound(ps, maxTries, l, l.client.(echoed := l.echoes[j].no));
    case TimeOut => DecisionKeepsBound(ps, maxTries, l, l.client);
    case Arrive(i) =>
    case Ignored(i) =>
  }

  // ---------------------------------------------------------------------------------------------
  // What decides how a transfer can go on.

  /** The client is ready only with attempts left, and everything the server printed was echoed. */
  ghost predicate CanGoOn(maxTries: nat, l: Lane)
  {
    && (l.client.phase == Ready ==> l.client.tries < maxTries)
    && (l.cursor == 0 || l.cursor < |l.sent|)
    && (forall p :: p in l.log ==> p in l.echoes)
  }

  /** Which chunks have been sent: those before the current one, and the current one once the client
      has waited for it; it is then the newest datagram.  A one-chunk file never holds a slot. */
  ghost predicate SentSoFar(ps: seq<Packet>, l: Lane)
    requires InRange(ps, l.client)
  {
    && (forall k :: 0 <= k < l.client.next - 1 ==> ps[k] in l.sent)
    && (l.client.phase != Ready ==> ps[l.client.next - 1] in l.sent)
    && (ps[l.client.next - 1] in l.sent ==> l.sent[|l.sent| - 1] == ps[l.client.next - 1])
    && (0 < l.completed ==> ps[|ps| - 1] in l.sent)
    && (l.slot != None ==> 2 <= |ps|)
  }

  lemma PrintedStaysEchoed(ps: seq<Packet>, maxTries: nat, net: Network, l: Lane, act: LaneAction)
    requires LaneEnabled(ps, maxTries, net, l, act) && forall p :: p in l.log ==> p in l.echoes
    ensures var r := LaneApply(ps, maxTries, net, l, act);
            forall p :: p in r.log ==> p in r.echoes
  {
    var r := LaneApply(ps, maxTries, net, l, act);
    forall p | p in r.log ensures p in r.echoes {
      assert p in l.log || (act.Arrive? && p == l.sent[act.i]);
    }
  }

  lemma DecisionGoesOn(ps: seq<Packet>, maxTries: nat, c: Client)
    requires Numbered(ps) && InRange(ps, c) && 0 < maxTries
    ensures var r := Decide(ps, maxTries, c);
            InRange(ps, r) && r.phase != Waiting && (r.phase == Ready ==> r.tries < maxTries)
  {
  }

  lemma StepKeepsGoingOn(ps: seq<Packet>, maxTries: nat, net: Network, l: Lane, act: LaneAction)
    requires Numbered(ps) && 0 < maxTries && CanGoOn(maxTries, l)
    requires LaneEnabled(ps, maxTries, net, l, act)
    ensures CanGoOn(maxTries, LaneApply(ps, maxTries, net, l, act))
  {
    PrintedStaysEchoed(ps, maxTries, net, l, act);
    match act
    case Hear(j) => DecisionGoesOn(ps, maxTries, l.client.(echoed := l.echoes[j].no));
    case TimeOut => DecisionGoesOn(ps, maxTries, l.client);
    case _ =>
  }

  lemma SendKeepsSentSoFar(ps: seq<Packet>, maxTries: nat, net: Network, l: Lane)
    requires InRange(ps, l.client) && SentSoFar(ps, l) && LaneEnabled(ps, maxTries, net, l, Send)
    ensures SentSoFar(ps, LaneApply(ps, maxTries, net, l, Send))
  {
    var r := LaneApply(ps, maxTries, net, l, Send);
    assert r.sent[|l.sent|] == ps[l.client.next - 1];
    assert forall p :: p in l.sent ==> p in r.sent;
  }

  lemma NotYetSent(ps: seq<Packet>, l: Lane, k: nat)
    requires Numbered(ps) && SentAreOwnChunks(ps, l) && 1 <= k <= |ps| && l.client.next < k
    ensures ps[k - 1] !in l.sent
  {
    forall i | 0 <= i < |l.sent| ensures l.sent[i] != ps[k - 1] {
      assert l.sent[i].no <= l.client.next;
    }
  }

  lemma DecisionKeepsSentSoFar(ps: seq<Packet>, maxTries: nat, l: Lane, c: Client)
    requires Numbered(ps) && InRange(ps, l.client) && SentAreOwnChunks(ps, l) && SentSoFar(ps, l)
    requires l.client.phase == Waiting && c == l.client.(echoed := c.echoed)
    ensures InRange(ps, Decide(ps, maxTries, c)) && SentSoFar(ps, l.(client := Decide(ps, maxTries, c)))
  {
    var next := Decide(ps, maxTries, c).next;
    if next != c.next {
      NotYetSent(ps, l, next);
    }
  }

  lemma ArrivalKeepsSentSoFar(ps: seq<Packet>, maxTries: nat, net: Network, l: Lane, i: nat)
    requires Numbered(ps) && InRange(ps, l.client) && SentAreOwnChunks(ps, l) && SentSoFar(ps, l)
    requires LogIsCopiesAndPrefix(ps, l) && LaneEnabled(ps, maxTries, net, l, Arrive(i))
    ensures SentSoFar(ps, LaneApply(ps, maxTries, net, l, Arrive(i)))
  {
    assert l.sent[i] in l.sent && l.sent[i] == ps[l.sent[i].no - 1];
  }

  lemma StepKeepsSentSoFar(ps: seq<Packet>, maxTries: nat, net: Network, l: Lane, act: LaneAction)
    requires Numbered(ps) && Sound(ps, l) && SentSoFar(ps, l) && LaneEnabled(ps, maxTries, net, l, act)
    ensures InRange(ps, LaneApply(ps, maxTries, net, l, act).client)
    ensures SentSoFar(ps, LaneApply(ps, maxTries, net, l, act))
  {
    match act
    case Send => SendKeepsSentSoFar(ps, maxTries, net, l);
    case Hear(j) => DecisionKeepsSentSoFar(ps, maxTries, l, l.client.(echoed := l.echoes[j].no));
    case TimeOut => DecisionKeepsSentSoFar(ps, maxTries, l, l.client);
    case Arrive(i) => ArrivalKeepsSentSoFar(ps, maxTries, net, l, i);
    case Ignored(_) =>
  }

  // ---------------------------------------------------------------------------------------------
  // What an in-order network adds.

  ghost predicate OnceSoFar(ps: seq<Packet>, l: Lane)
  {
    && (forall i, j :: 0 <= i < j < |l.sent| ==> l.sent[i].no <= l.sent[j].no)
    && (0 < l.completed ==>
          && l.completed == 1
          && CountIn(l.slot) == 0
          && l.cursor < |l.sent| && l.sent[l.cursor].no == |ps|)
  }

  lemma StepKeepsOnce(ps: seq<Packet>, maxTries: nat, l: Lane, act: LaneAction)
    requires Numbered(ps) && 2 <= |ps| && Sound(ps, l) && OnceSoFar(ps, l)
    requires LaneEnabled(ps, maxTries, InOrder, l, act)
    ensures OnceSoFar(ps, LaneApply(ps, maxTries, InOrder, l, act))
  {
    match act
    case Arrive(i) =>
      if 0 < l.completed {
        assert l.sent[i].no >= l.sent[l.cursor].no;
      }
    case Ignored(i) =>
      if 0 < l.completed {
        assert l.sent[i].no >= l.sent[l.cursor].no;
      }
    case Send =>
      assert forall i :: 0 <= i < |l.sent| ==> l.sent[i].no <= l.client.next;
    case Hear(_) =>
    case TimeOut =>
  }
}

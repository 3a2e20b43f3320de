/**
  How one client's transfer can go on from any state it can be in, and when it cannot: with the
  datagrams under way lost, whether the client can still be acknowledged; with them merely late,
  whether its slot can still be given back.
 */
module Progress {
  import opened Chunking
  import opened Options
  import opened StopAndWait

  /** Everything a lane of a reachable state satisfies. */
  ghost predicate Consistent(ps: seq<Packet>, maxTries: nat, net: Network, l: Lane)
  {
    && Numbered(ps) && Sound(ps, l) && SentSoFar(ps, l)
    && (net == InOrder && 2 <= |ps| ==> OnceSoFar(ps, l))
    && (0 < maxTries ==> CanGoOn(maxTries, l))
  }

  lemma StepKeepsConsistent(ps: seq<Packet>, maxTries: nat, net: Network, l: Lane, act: LaneAction)
    requires Consistent(ps, maxTries, net, l) && LaneEnabled(ps, maxTries, net, l, act)
    ensures Consistent(ps, maxTries, net, LaneApply(ps, maxTries, net, l, act))
  {
    StepKeepsSound(ps, maxTries, net, l, act);
    StepKeepsSentSoFar(ps, maxTries, net, l, act);
    if net == InOrder && 2 <= |ps| {
      StepKeepsOnce(ps, maxTries, l, act);
    }
    if 0 < maxTries {
      StepKeepsGoingOn(ps, maxTries, net, l, act);
    }
  }

  /** The client will send, or send again. */
  predicate HasTry(maxTries: nat, l: Lane)
  {
    l.client.phase == Ready || (l.client.phase == Waiting && l.client.tries < maxTries)
  }

  /** The server would answer the client's current chunk. */
  predicate Answerable(l: Lane)
  {
    l.client.next <= CountIn(l.slot) + 1
  }

  predicate Stopped(l: Lane)
  {
    l.client.phase == Finished || l.client.phase == GaveUp
  }

  /** The client and the server disagree only after the last chunk was printed; what is left of the
      count then is that of a slot allocated anew. */
  lemma AnswerableExactly(ps: seq<Packet>, maxTries: nat, net: Network, l: Lane)
    requires Consistent(ps, maxTries, net, l)
    ensures Answerable(l) <==> l.completed == 0 || CountIn(l.slot) + 1 == |ps|
    ensures net == InOrder ==> (Answerable(l) <==> l.completed == 0 || |ps| == 1)
  {
  }

  // ---------------------------------------------------------------------------------------------
  // One chunk further.

  /** A ready client's chunk is sent, received, answered and heard; nothing sent before is used. */
  lemma Round(ps: seq<Packet>, maxTries: nat, net: Network, l: Lane) returns (sent: Lane, served: Lane, r: Lane)
    requires Consistent(ps, maxTries, net, l) && 0 < maxTries && l.client.phase == Ready && Answerable(l)
    ensures LaneEnabled(ps, maxTries, net, l, Send) && sent == LaneApply(ps, maxTries, net, l, Send)
    ensures LaneEnabled(ps, maxTries, net, sent, Arrive(|l.sent|))
    ensures served == LaneApply(ps, maxTries, net, sent, Arrive(|l.sent|))
    ensures LaneEnabled(ps, maxTries, net, served, Hear(|l.echoes|))
    ensures r == LaneApply(ps, maxTries, net, served, Hear(|l.echoes|))
    ensures l.client.next < |ps| ==>
              r.client == Client(l.client.next + 1, 0, 0, Ready) && Answerable(r) && r.completed == l.completed
    ensures l.client.next == |ps| ==>
              r.client.phase == Finished && r.slot == None && r.completed == l.completed + 1
  {
    sent := LaneApply(ps, maxTries, net, l, Send);
    assert sent.sent[|l.sent|] == ps[l.client.next - 1];
    served := LaneApply(ps, maxTries, net, sent, Arrive(|l.sent|));
    assert served.echoes == l.echoes + [ps[l.client.next - 1]];
    r := LaneApply(ps, maxTries, net, served, Hear(|l.echoes|));
  }

  /** The first chunk sent, timed out, and sent again. */
  lemma FirstChunkTwice(ps: seq<Packet>, maxTries: nat, net: Network)
    requires Numbered(ps) && 2 <= maxTries
    ensures var once := FRESH.(client := Client(1, 1, 0, Waiting), sent := [ps[0]]);
            var again := once.(client := Client(1, 1, 0, Ready));
            && LaneEnabled(ps, maxTries, net, FRESH, Send) && LaneApply(ps, maxTries, net, FRESH, Send) == once
            && LaneEnabled(ps, maxTries, net, once, TimeOut) && LaneApply(ps, maxTries, net, once, TimeOut) == again
            && LaneEnabled(ps, maxTries, net, again, Send)
            && LaneApply(ps, maxTries, net, again, Send)
               == FRESH.(client := Client(1, 2, 0, Waiting), sent := [ps[0], ps[0]])
  {
  }

  /** Half a second passes without the echo. */
  lemma TimesOut(ps: seq<Packet>, maxTries: nat, net: Network, l: Lane)
    requires Consistent(ps, maxTries, net, l) && l.client.phase == Waiting
    ensures LaneEnabled(ps, maxTries, net, l, TimeOut)
    ensures LaneApply(ps, maxTries, net, l, TimeOut)
         == l.(client := l.client.(phase := if l.client.tries < maxTries then Ready else GaveUp))
  {
    assert StaleEcho(l);
  }

  predicate CurrentEchoed(ps: seq<Packet>, l: Lane)
  {
    InRange(ps, l.client) && ps[l.client.next - 1] in l.echoes
  }

  lemma FirstChunkPrinted(ps: seq<Packet>, maxTries: nat, net: Network) returns (sent: Lane, served: Lane)
    requires Numbered(ps) && 2 <= |ps| && 1 <= maxTries
    ensures LaneEnabled(ps, maxTries, net, FRESH, Send) && sent == LaneApply(ps, maxTries, net, FRESH, Send)
    ensures LaneEnabled(ps, maxTries, net, sent, Arrive(0)) && served == LaneApply(ps, maxTries, net, sent, Arrive(0))
    ensures served.client == Client(1, 1, 0, Waiting) && served.slot == Some(1)
  {
    sent := LaneApply(ps, maxTries, net, FRESH, Send);
    served := LaneApply(ps, maxTries, net, sent, Arrive(0));
  }

  /** The last chunk is printed and the echo not heard in time. */
  lemma LastEchoLate(ps: seq<Packet>, maxTries: nat, net: Network, l: Lane)
      returns (sent: Lane, served: Lane, late: Lane)
    requires Consistent(ps, maxTries, net, l) && 2 <= maxTries && l.client.phase == Ready && Answerable(l)
    requires l.client.next == |ps| && l.client.tries == 0
    ensures LaneEnabled(ps, maxTries, net, l, Send) && sent == LaneApply(ps, maxTries, net, l, Send)
    ensures LaneEnabled(ps, maxTries, net, sent, Arrive(|l.sent|))
    ensures served == LaneApply(ps, maxTries, net, sent, Arrive(|l.sent|))
    ensures LaneEnabled(ps, maxTries, net, served, TimeOut) && late == LaneApply(ps, maxTries, net, served, TimeOut)
    ensures late.client.next == |ps| && late.client.phase == Ready && late.client.tries == 1
    ensures late.slot == None && late.completed == l.completed + 1
  {
    sent := LaneApply(ps, maxTries, net, l, Send);
    assert sent.sent[|l.sent|] == ps[|ps| - 1];
    served := LaneApply(ps, maxTries, net, sent, Arrive(|l.sent|));
    late := LaneApply(ps, maxTries, net, served, TimeOut);
  }

  /** Then another copy of it is sent and allocated a slot, but not answered. */
  lemma CopyOfLast(ps: seq<Packet>, maxTries: nat, net: Network, l: Lane) returns (sent: Lane, served: Lane)
    requires Consistent(ps, maxTries, net, l) && 2 <= |ps| && 0 < maxTries && l.client.phase == Ready
    requires l.client.next == |ps| && l.slot == None
    ensures LaneEnabled(ps, maxTries, net, l, Send) && sent == LaneApply(ps, maxTries, net, l, Send)
    ensures LaneEnabled(ps, maxTries, net, sent, Arrive(|l.sent|))
    ensures served == LaneApply(ps, maxTries, net, sent, Arrive(|l.sent|))
    ensures served.client == l.client.(tries := l.client.tries + 1, phase := Waiting)
    ensures served.slot == Some(0) && served.completed == l.completed
  {
    sent := LaneApply(ps, maxTries, net, l, Send);
    assert sent.sent[|l.sent|] == ps[|ps| - 1];
    served := LaneApply(ps, maxTries, net, sent, Arrive(|l.sent|));
  }

  /** The lane after the given actions, none of them ignored by a full table, if they can be taken. */
  function LaneThen(ps: seq<Packet>, maxTries: nat, net: Network, l: Lane, las: seq<LaneAction>): (r: Option<Lane>)
    decreases |las|
  {
    if las == [] then Some(l)
    else if LaneEnabled(ps, maxTries, net, l, las[0]) && !las[0].Ignored? then
      LaneThen(ps, maxTries, net, LaneApply(ps, maxTries, net, l, las[0]), las[1..])
    else None
  }

  /** One action first. */
  lemma LaneThenFirst(ps: seq<Packet>, maxTries: nat, net: Network, l: Lane, la: LaneAction, las: seq<LaneAction>)
    requires LaneEnabled(ps, maxTries, net, l, la) && !la.Ignored?
    ensures LaneThen(ps, maxTries, net, l, [la] + las)
         == LaneThen(ps, maxTries, net, LaneApply(ps, maxTries, net, l, la), las)
  {
    assert ([la] + las)[1..] == las;
  }

  lemma FirstThenRest(ps: seq<Packet>, maxTries: nat, net: Network, l: Lane, las: seq<LaneAction>)
    requires LaneThen(ps, maxTries, net, l, las).Some? && las != []
    ensures LaneEnabled(ps, maxTries, net, l, las[0]) && !las[0].Ignored?
    ensures LaneThen(ps, maxTries, net, LaneApply(ps, maxTries, net, l, las[0]), las[1..])
         == LaneThen(ps, maxTries, net, l, las)
  {
  }

  /** The last chunk is sent, timed out, and sent again; the original is printed and heard; the copy
      comes late, is allocated a slot and ignored. */
  lemma LateCopyRun(ps: seq<Packet>, maxTries: nat, net: Network, l: Lane) returns (las: seq<LaneAction>, r: Lane)
    requires Consistent(ps, maxTries, net, l) && 2 <= |ps| && 2 <= maxTries && l.client.phase == Ready
    requires l.client.next == |ps| && l.client.tries == 0 && Answerable(l)
    ensures LaneThen(ps, maxTries, net, l, las) == Some(r)
    ensures r.client.phase == Finished && r.slot == Some(0) && 0 < r.completed
  {
    var n, e, last := |l.sent|, |l.echoes|, ps[|ps| - 1];
    var once := l.(client := l.client.(tries := 1, phase := Waiting), sent := l.sent + [last]);
    var again := once.(client := once.client.(phase := Ready));
    var twice := l.(client := l.client.(tries := 2, phase := Waiting), sent := l.sent + [last] + [last]);
    assert LaneApply(ps, maxTries, net, l, Send) == once;
    assert LaneApply(ps, maxTries, net, once, TimeOut) == again;
    assert LaneApply(ps, maxTries, net, again, Send) == twice;
    var rest;
    rest, r := OriginalThenCopy(ps, maxTries, net, twice, n, e);
    LaneThenFirst(ps, maxTries, net, again, Send, rest);
    LaneThenFirst(ps, maxTries, net, once, TimeOut, [Send] + rest);
    LaneThenFirst(ps, maxTries, net, l, Send, [TimeOut] + ([Send] + rest));
    las := [Send] + ([TimeOut] + ([Send] + rest));
  }

  lemma OriginalThenCopy(ps: seq<Packet>, maxTries: nat, net: Network, l: Lane, n: nat, e: nat)
      returns (las: seq<LaneAction>, r: Lane)
    requires Numbered(ps) && 2 <= |ps| && l.client.phase == Waiting && l.client.next == |ps| && e == |l.echoes|
    requires CountIn(l.slot) + 1 == |ps| && l.cursor <= n && n + 2 == |l.sent|
    requires l.sent[n] == l.sent[n + 1] == ps[|ps| - 1]
    ensures LaneThen(ps, maxTries, net, l, las) == Some(r)
    ensures r.client.phase == Finished && r.slot == Some(0) && 0 < r.completed
  {
    var printed := LaneApply(ps, maxTries, net, l, Arrive(n));
    var heard := LaneApply(ps, maxTries, net, printed, Hear(e));
    r := LaneApply(ps, maxTries, net, heard, Arrive(n + 1));
    LaneThenFirst(ps, maxTries, net, heard, Arrive(n + 1), []);
    LaneThenFirst(ps, maxTries, net, printed, Hear(e), [Arrive(n + 1)] + []);
    LaneThenFirst(ps, maxTries, net, l, Arrive(n), [Hear(e)] + ([Arrive(n + 1)] + []));
    las := [Arrive(n)] + ([Hear(e)] + ([Arrive(n + 1)] + []));
  }

  // ---------------------------------------------------------------------------------------------
  // With everything under way lost.

  /** The action uses only datagrams after the first `n` of the client and the first `e` echoes. */
  predicate After(n: nat, e: nat, act: LaneAction)
  {
    match act
    case Hear(j) => e <= j
    case Arrive(i) => n <= i
    case Ignored(i) => n <= i
    case _ => true
  }

  /** No new echo will come: the client sends no more, or only a last chunk the server is not
      waiting for. */
  ghost predicate Silent(ps: seq<Packet>, maxTries: nat, n: nat, e: nat, l: Lane)
  {
    && |l.echoes| == e && n <= |l.sent|
    && ((!HasTry(maxTries, l) && |l.sent| == n)
        || (l.client.next == |ps| && CountIn(l.slot) + 1 < |ps|
            && forall i :: n <= i < |l.sent| ==> l.sent[i].no == |ps|))
  }

  lemma SilentAtFirst(ps: seq<Packet>, maxTries: nat, net: Network, l: Lane)
    requires Consistent(ps, maxTries, net, l) && !(HasTry(maxTries, l) && Answerable(l))
    ensures Silent(ps, maxTries, |l.sent|, |l.echoes|, l)
  {
  }

  lemma StepKeepsSilent(ps: seq<Packet>, maxTries: nat, net: Network, l: Lane, act: LaneAction, n: nat, e: nat)
    requires Consistent(ps, maxTries, net, l) && Silent(ps, maxTries, n, e, l)
    requires LaneEnabled(ps, maxTries, net, l, act) && After(n, e, act)
    ensures var r := LaneApply(ps, maxTries, net, l, act);
            && Silent(ps, maxTries, n, e, r) && r.completed == l.completed
            && (l.slot != None ==> r.slot != None)
            && (r.client.phase == Finished ==> l.client.phase == Finished)
  {
    assert StaleEcho(l);
  }

  /** Without a slot in a full table the client hears nothing either. */
  predicate ShutOut(e: nat, l: Lane)
  {
    l.slot == None && |l.echoes| == e && l.client.phase != Finished
  }

  lemma StepKeepsShutOut(ps: seq<Packet>, maxTries: nat, net: Network, l: Lane, act: LaneAction, n: nat, e: nat)
    requires Consistent(ps, maxTries, net, l) && ShutOut(e, l) && !act.Arrive?
    requires LaneEnabled(ps, maxTries, net, l, act) && After(n, e, act)
    ensures ShutOut(e, LaneApply(ps, maxTries, net, l, act))
  {
    assert StaleEcho(l);
  }

  // ---------------------------------------------------------------------------------------------
  // With everything under way merely late: giving a slot back.

  /** The slot may still be given back: not after the client stopped without ever having sent its last
      chunk, and in order not once that has been printed. */
  predicate Releasable(ps: seq<Packet>, net: Network, l: Lane)
    requires 0 < |ps|
  {
    (net == InOrder ==> l.completed == 0) && (Stopped(l) ==> ps[|ps| - 1] in l.sent)
  }

  lemma StepKeepsHeld(ps: seq<Packet>, maxTries: nat, net: Network, l: Lane, act: LaneAction)
    requires Consistent(ps, maxTries, net, l) && l.slot != None && !Releasable(ps, net, l)
    requires LaneEnabled(ps, maxTries, net, l, act)
    ensures var r := LaneApply(ps, maxTries, net, l, act);
            r.slot != None && !Releasable(ps, net, r) && r.completed == l.completed
  {
    match act
    case Arrive(i) =>
      assert l.sent[i] in l.sent && l.sent[i] == ps[l.sent[i].no - 1];
      if net == InOrder && 0 < l.completed {
        assert l.sent[l.cursor].no <= l.sent[i].no;
      }
    case _ =>
  }

  /** The chunk the server waits for: sent already and able to arrive, or next to be sent, or one after
      a chunk of which the client has yet to hear the echo. */
  lemma WhatTheServerWaitsFor(ps: seq<Packet>, maxTries: nat, net: Network, l: Lane) returns (at: Option<nat>)
    requires Consistent(ps, maxTries, net, l) && 0 < maxTries && l.slot != None && Releasable(ps, net, l)
    ensures 0 <= CountIn(l.slot) < |ps|
    ensures at.Some? ==>
              && at.value < |l.sent| && l.sent[at.value] == ps[CountIn(l.slot)]
              && (net == InOrder ==> l.cursor <= at.value)
    ensures at == None ==>
              || (l.client.phase == Ready && l.client.next == CountIn(l.slot) + 1)
              || (l.client.phase in {Ready, Waiting} && l.client.next == CountIn(l.slot) && CurrentEchoed(ps, l))
  {
    var c, last := CountIn(l.slot), |l.sent| - 1;
    at := None;
    if l.completed == 0 {
      assert Copies(ps, 0) == [] && l.log == ps[..c];
      if l.client.next == c + 1 {
        if ps[c] in l.sent {
          at := Some(last);
        }
      } else {
        assert l.log[c - 1] == ps[c - 1];
        assert ps[c - 1] in l.log;
        if Stopped(l) {
          assert false;
        }
      }
    } else {
      assert ps[c] in l.sent;
      var i :| 0 <= i < |l.sent| && l.sent[i] == ps[c];
      at := Some(i);
    }
  }

  /** What happens next on the way to giving the slot back. */
  lemma NextToRelease(ps: seq<Packet>, maxTries: nat, net: Network, l: Lane) returns (la: LaneAction)
    requires Consistent(ps, maxTries, net, l) && 0 < maxTries && l.slot != None && Releasable(ps, net, l)
    ensures LaneEnabled(ps, maxTries, net, l, la) && !la.Ignored?
    ensures var r := LaneApply(ps, maxTries, net, l, la);
            r.slot == None || (Releasable(ps, net, r) && 0 <= ToRelease(ps, r) < ToRelease(ps, l))
  {
    var at := WhatTheServerWaitsFor(ps, maxTries, net, l);
    if at.Some? {
      la := Arrive(at.value);
    } else if l.client.phase == Ready {
      la := Send;
    } else {
      var j :| 0 <= j < |l.echoes| && l.echoes[j] == ps[l.client.next - 1];
      la := Hear(j);
    }
  }

  /** Steps to go: four for each chunk the server has yet to print, less those done for the next. */
  function ToRelease(ps: seq<Packet>, l: Lane): (k: int)
  {
    var c := CountIn(l.slot);
    4 * (|ps| - c) + (if l.client.next == c then (if l.client.phase == Ready then 4 else 3)
                      else if l.client.phase == Ready then 2 else 1)
  }

  lemma {:induction false} ReleaseRun(ps: seq<Packet>, maxTries: nat, net: Network, l: Lane)
      returns (las: seq<LaneAction>, r: Lane)
    requires Consistent(ps, maxTries, net, l) && 0 < maxTries && l.slot != None && Releasable(ps, net, l)
    ensures LaneThen(ps, maxTries, net, l, las) == Some(r) && r.slot == None
    decreases ToRelease(ps, l)
  {
    var la := NextToRelease(ps, maxTries, net, l);
    var next := LaneApply(ps, maxTries, net, l, la);
    StepKeepsConsistent(ps, maxTries, net, l, la);
    if next.slot == None {
      las, r := [], next;
    } else {
      las, r := ReleaseRun(ps, maxTries, net, next);
    }
    LaneThenFirst(ps, maxTries, net, l, la, las);
    las := [la] + las;
  }
}

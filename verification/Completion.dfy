/**
  How transfers to the file server can go on from any reachable state.  With all datagrams under way
  lost: exactly which clients can still be acknowledged.  With datagrams merely late: exactly which
  slots can still be given back, how slots are lost for ever, and that they can all be.
 */
module Completion {
  import opened Chunking
  import opened ConnectionTable
  import opened Division
  import opened FileTransfer
  import opened Options
  import opened Progress
  import opened StopAndWait
  import opened Tally

  // ---------------------------------------------------------------------------------------------
  // With everything under way lost.

  /** The client will send again and would be answered. */
  predicate GoesOn(cfg: Config, s: System, a: Addr)
    requires a in s.ends
  {
    HasTry(cfg.maxTries, LaneOf(s, a)) && Answerable(LaneOf(s, a))
  }

  /** So would some client that holds a slot. */
  predicate SomeHolderGoesOn(cfg: Config, s: System)
  {
    exists i :: 0 <= i < |s.table| && !s.table[i].free && s.table[i].addr in s.ends && GoesOn(cfg, s, s.table[i].addr)
  }

  predicate CanFinish(cfg: Config, s: System, a: Addr)
    requires a in s.ends
  {
    GoesOn(cfg, s, a) && (Room(s, a) || SomeHolderGoesOn(cfg, s))
  }

  /** Some run goes from s to r although everything under way in s is lost. */
  ghost predicate AfterLoss(cfg: Config, s: System, r: System)
  {
    Path(cfg, Some(s), s, r)
  }

  ghost predicate HasFinished(s: System, a: Addr)
  {
    a in s.ends && LaneOf(s, a).client.phase == Finished
  }

  /** A holder's lane. */
  lemma HolderHasSlot(cfg: Config, s: System, i: nat)
    requires Good(cfg, s) && i < |s.table| && !s.table[i].free
    ensures var b := s.table[i].addr;
            b in cfg.files && b in s.ends && LaneOf(s, b).slot == Some(s.table[i].chunkNo)
  {
    CountAt(s.table, i, s.table[i].addr);
  }

  lemma SlotHasHolder(s: System, a: Addr) returns (i: nat)
    requires a in s.ends && LaneOf(s, a).slot != None
    ensures i < |s.table| && !s.table[i].free && s.table[i].addr == a
  {
    i := Holder(s.table, a);
  }

  lemma FinishGoing(cfg: Config, gone: Option<System>, o: System, s: System, a: Addr) returns (r: System)
    requires Going(cfg, gone, o, s, a) && 0 < cfg.maxTries && GoesOn(cfg, s, a)
    ensures Going(cfg, gone, o, r, a) && OthersAsBefore(s, r, a)
    ensures HasFinished(r, a) && LaneOf(r, a).slot == None
  {
    if LaneOf(s, a).client.phase == Ready {
      r := FinishFrom(cfg, gone, o, s, a);
    } else {
      AddressIsGood(cfg, s, a);
      TimesOut(PacketsOf(cfg, a), cfg.maxTries, cfg.net, LaneOf(s, a));
      var p := StepAs(cfg, gone, o, s, a, TimeOut);
      r := FinishFrom(cfg, gone, o, p, a);
      OthersStillAsBefore(s, p, r, a);
    }
  }

  lemma MakeRoom(cfg: Config, s: System, a: Addr) returns (r: System)
    requires Reachable(cfg, s) && a in cfg.files && a in s.ends && 0 < cfg.maxTries
    requires SomeHolderGoesOn(cfg, s) && !Room(s, a)
    ensures Going(cfg, Some(s), s, r, a) && LaneOf(r, a) == LaneOf(s, a)
  {
    AddressIsGood(cfg, s, a);
    ReachableIsGood(cfg, s);
    StaysPut(cfg, Some(s), s);
    var i :| 0 <= i < |s.table| && !s.table[i].free && s.table[i].addr in s.ends && GoesOn(cfg, s, s.table[i].addr);
    HolderHasSlot(cfg, s, i);
    r := FinishGoing(cfg, Some(s), s, s, s.table[i].addr);
    assert Room(r, s.table[i].addr) && !Full(r.table) && LaneOf(r, a) == LaneOf(s, a);
  }

  /** If need be, a client that holds a slot finishes first and gives it back. */
  lemma FinishAfterLoss(cfg: Config, s: System, a: Addr) returns (r: System)
    requires Reachable(cfg, s) && a in cfg.files && a in s.ends && 0 < cfg.maxTries && CanFinish(cfg, s, a)
    ensures AfterLoss(cfg, s, r) && HasFinished(r, a)
  {
    AddressIsGood(cfg, s, a);
    StaysPut(cfg, Some(s), s);
    var p := s;
    if !Room(s, a) {
      p := MakeRoom(cfg, s, a);
    }
    r := FinishGoing(cfg, Some(s), s, p, a);
  }

  /** Since o, all of whose datagrams are lost, client b has been answered nothing and will not be. */
  ghost predicate SilentSince(cfg: Config, o: System, s: System, b: Addr)
  {
    && 0 < cfg.chunk && b in cfg.files && b in o.ends && b in s.ends
    && Silent(PacketsOf(cfg, b), cfg.maxTries, |o.ends[b].sent|, |o.ends[b].echoes|, LaneOf(s, b))
  }

  lemma StepKeepsSilentSince(cfg: Config, o: System, s: System, act: Action, b: Addr)
    requires Good(cfg, s) && Enabled(cfg, s, act) && Allowed(Some(o), act) && SilentSince(cfg, o, s, b)
    ensures SilentSince(cfg, o, Apply(cfg, s, act), b)
    ensures HasFinished(Apply(cfg, s, act), b) ==> HasFinished(s, b)
    ensures LaneOf(s, b).slot != None ==> LaneOf(Apply(cfg, s, act), b).slot != None
    ensures b == act.a ==> LaneOf(Apply(cfg, s, act), b).completed == LaneOf(s, b).completed
  {
    if act.a == b {
      assert AddressGood(cfg, s, b);
      StepRefinesLane(cfg, s, act);
      StepKeepsSilent(PacketsOf(cfg, b), cfg.maxTries, cfg.net, LaneOf(s, b), LaneActionOf(s, act),
                      |o.ends[b].sent|, |o.ends[b].echoes|);
    } else {
      OtherLanesUnchanged(cfg, s, act, b);
    }
  }

  lemma {:induction false} SilentAlong(cfg: Config, s: System, acts: seq<Action>, r: System, a: Addr)
    requires Good(cfg, s) && SilentSince(cfg, s, s, a) && Then(cfg, Some(s), s, acts) == Some(r)
    ensures Good(cfg, r) && SilentSince(cfg, s, r, a) && (HasFinished(r, a) ==> HasFinished(s, a))
    ensures LaneOf(s, a).slot != None ==> LaneOf(r, a).slot != None
  {
    if acts != [] {
      var p, act := Then(cfg, Some(s), s, acts[..|acts| - 1]).value, acts[|acts| - 1];
      SilentAlong(cfg, s, acts[..|acts| - 1], p, a);
      StepKeepsGood(cfg, p, act);
      StepKeepsSilentSince(cfg, s, p, act, a);
    }
  }

  /** All slots belong to clients that will not be answered. */
  ghost predicate TableSilent(cfg: Config, o: System, s: System)
  {
    Full(s.table) && forall i :: 0 <= i < |s.table| ==> SilentSince(cfg, o, s, s.table[i].addr)
  }

  /** Nobody's datagram ends a session. */
  lemma HoldersStay(cfg: Config, s: System, act: Action)
    requires Good(cfg, s) && Enabled(cfg, s, act) && Full(s.table)
    requires CountOf(s.table, act.a) != None ==>
               LaneOf(Apply(cfg, s, act), act.a).completed == LaneOf(s, act.a).completed
    ensures var r := Apply(cfg, s, act);
            Full(r.table) && |r.table| == |s.table| &&
            forall i :: 0 <= i < |s.table| ==> r.table[i].addr == s.table[i].addr
  {
    if act.Receive? {
      var d := Datagram(act.a, s.ends[act.a].sent[act.i]);
      ServeOwnAddress(s.table, d);
      ServeHolders(s.table, d);
    }
  }

  lemma StepKeepsTableSilent(cfg: Config, o: System, s: System, act: Action)
    requires Good(cfg, s) && Enabled(cfg, s, act) && Allowed(Some(o), act) && TableSilent(cfg, o, s)
    ensures TableSilent(cfg, o, Apply(cfg, s, act))
  {
    var r := Apply(cfg, s, act);
    if CountOf(s.table, act.a) != None {
      var h := SlotHasHolder(s, act.a);
      assert SilentSince(cfg, o, s, s.table[h].addr);
      StepKeepsSilentSince(cfg, o, s, act, act.a);
    }
    HoldersStay(cfg, s, act);
    forall i | 0 <= i < |r.table| ensures SilentSince(cfg, o, r, r.table[i].addr) {
      StepKeepsSilentSince(cfg, o, s, act, s.table[i].addr);
    }
  }

  /** Client a has no slot and has heard nothing since o. */
  ghost predicate ShutOutSince(cfg: Config, o: System, s: System, a: Addr)
  {
    a in cfg.files && a in o.ends && a in s.ends && ShutOut(|o.ends[a].echoes|, LaneOf(s, a))
  }

  lemma StepKeepsShutOutSince(cfg: Config, o: System, s: System, act: Action, a: Addr)
    requires Good(cfg, s) && Enabled(cfg, s, act) && Allowed(Some(o), act)
    requires Full(s.table) && ShutOutSince(cfg, o, s, a)
    ensures ShutOutSince(cfg, o, Apply(cfg, s, act), a)
  {
    if act.a == a {
      assert AddressGood(cfg, s, a);
      StepRefinesLane(cfg, s, act);
      StepKeepsShutOut(PacketsOf(cfg, a), cfg.maxTries, cfg.net, LaneOf(s, a), LaneActionOf(s, act),
                       |o.ends[a].sent|, |o.ends[a].echoes|);
    } else {
      OtherLanesUnchanged(cfg, s, act, a);
    }
  }

  lemma {:induction false} ShutOutAlong(cfg: Config, s: System, acts: seq<Action>, r: System, a: Addr)
    requires Good(cfg, s) && TableSilent(cfg, s, s) && ShutOutSince(cfg, s, s, a)
    requires Then(cfg, Some(s), s, acts) == Some(r)
    ensures Good(cfg, r) && TableSilent(cfg, s, r) && ShutOutSince(cfg, s, r, a)
  {
    if acts != [] {
      var p, act := Then(cfg, Some(s), s, acts[..|acts| - 1]).value, acts[|acts| - 1];
      ShutOutAlong(cfg, s, acts[..|acts| - 1], p, a);
      StepKeepsGood(cfg, p, act);
      StepKeepsTableSilent(cfg, s, p, act);
      StepKeepsShutOutSince(cfg, s, p, act, a);
    }
  }

  lemma SilentNow(cfg: Config, s: System, b: Addr)
    requires Good(cfg, s) && b in cfg.files && b in s.ends && !GoesOn(cfg, s, b)
    ensures SilentSince(cfg, s, s, b)
  {
    assert AddressGood(cfg, s, b);
    SilentAtFirst(PacketsOf(cfg, b), cfg.maxTries, cfg.net, LaneOf(s, b));
  }

  lemma NeverFinishesAfterLoss(cfg: Config, s: System, r: System, a: Addr)
    requires Reachable(cfg, s) && a in cfg.files && a in s.ends && !HasFinished(s, a) && !CanFinish(cfg, s, a)
    requires AfterLoss(cfg, s, r)
    ensures a in r.ends && !HasFinished(r, a)
  {
    ReachableIsGood(cfg, s);
    var acts :| Then(cfg, Some(s), s, acts) == Some(r);
    if !GoesOn(cfg, s, a) {
      SilentNow(cfg, s, a);
      SilentAlong(cfg, s, acts, r, a);
    } else {
      forall i | 0 <= i < |s.table| ensures SilentSince(cfg, s, s, s.table[i].addr) {
        HolderHasSlot(cfg, s, i);
        SilentNow(cfg, s, s.table[i].addr);
      }
      ShutOutAlong(cfg, s, acts, r, a);
    }
  }

  /** Whatever has happened so far, and if everything under way is lost: a client can still end with its
      last chunk acknowledged if and only if it has, or has an attempt left, the server would answer
      the chunk it is at, and it has a slot, finds one free, or some holder of a slot can finish. */
  lemma CanFinishExactly(cfg: Config, s: System, a: Addr)
    requires Reachable(cfg, s) && a in cfg.files && 0 < cfg.maxTries
    ensures a in s.ends
    ensures (exists r :: AfterLoss(cfg, s, r) && HasFinished(r, a)) <==> HasFinished(s, a) || CanFinish(cfg, s, a)
  {
    AddressIsGood(cfg, s, a);
    if HasFinished(s, a) {
      StaysPut(cfg, Some(s), s);
      assert AfterLoss(cfg, s, s);
    } else if CanFinish(cfg, s, a) {
      var r := FinishAfterLoss(cfg, s, a);
    } else {
      forall r | AfterLoss(cfg, s, r) ensures !HasFinished(r, a) {
        NeverFinishesAfterLoss(cfg, s, r, a);
      }
    }
  }

  /** Likewise a slot can still be given back if and only if its client will send and be answered. */
  lemma SlotIsReleasedAfterLossExactly(cfg: Config, s: System, a: Addr)
    requires Reachable(cfg, s) && a in cfg.files && a in s.ends && 0 < cfg.maxTries && LaneOf(s, a).slot != None
    ensures (exists r :: AfterLoss(cfg, s, r) && a in r.ends && LaneOf(r, a).slot == None) <==> GoesOn(cfg, s, a)
  {
    ReachableIsGood(cfg, s);
    AddressIsGood(cfg, s, a);
    if GoesOn(cfg, s, a) {
      StaysPut(cfg, Some(s), s);
      var r := FinishGoing(cfg, Some(s), s, s, a);
      assert AfterLoss(cfg, s, r);
    } else {
      forall r | AfterLoss(cfg, s, r) && a in r.ends ensures LaneOf(r, a).slot != None {
        var acts :| Then(cfg, Some(s), s, acts) == Some(r);
        SilentNow(cfg, s, a);
        SilentAlong(cfg, s, acts, r, a);
      }
    }
  }

  /** The server would answer the client's chunk until it has printed the last one; after that only
      for a one-chunk file or when copies of earlier chunks have come again, which they cannot in order. */
  lemma AnsweredUntilPrinted(cfg: Config, s: System, a: Addr)
    requires Reachable(cfg, s) && a in cfg.files
    ensures 0 < cfg.chunk && a in s.ends
    ensures var l, ps := LaneOf(s, a), PacketsOf(cfg, a);
            && (Answerable(l) <==> l.completed == 0 || CountIn(l.slot) + 1 == |ps|)
            && (cfg.net == InOrder ==> (Answerable(l) <==> l.completed == 0 || |ps| == 1))
  {
    AddressIsGood(cfg, s, a);
    AnswerableExactly(PacketsOf(cfg, a), cfg.maxTries, cfg.net, LaneOf(s, a));
  }

  // ---------------------------------------------------------------------------------------------
  // The last acknowledgement can be lost for good.

  lemma AtLeastTwoChunks(cfg: Config, a: Addr)
    requires a in cfg.files && 0 < cfg.chunk <= |cfg.files[a]|
    ensures 2 <= |PacketsOf(cfg, a)| && Numbered(PacketsOf(cfg, a))
  {
    PacketCount(cfg.files[a], cfg.chunk);
    DivisionStep(|cfg.files[a]|, cfg.chunk);
  }

  /** The last chunk is sent and printed, its slot given back, and the echo lost. */
  lemma PrintedButNotHeard(cfg: Config, o: System, s: System, a: Addr) returns (r: System)
    requires Going(cfg, None, o, s, a) && 2 <= cfg.maxTries && LaneOf(s, a) == FRESH
    requires cfg.chunk <= |cfg.files[a]|
    ensures Going(cfg, None, o, r, a) && OthersAsBefore(s, r, a)
    ensures var l := LaneOf(r, a);
            && l.client.next == |PacketsOf(cfg, a)| && l.client.phase == Ready && l.client.tries == 1
            && l.completed == 1 && l.slot == None
  {
    AtLeastTwoChunks(cfg, a);
    var ps := PacketsOf(cfg, a);
    var p := ToLastChunk(cfg, None, o, s, a, |ps| - 1);
    AddressIsGood(cfg, p, a);
    var sent, served, late := LastEchoLate(ps, cfg.maxTries, cfg.net, LaneOf(p, a));
    var q := AnswerFrom(cfg, None, o, p, a, sent, served);
    r := StepAs(cfg, None, o, q, a, TimeOut);
    OthersStillAsBefore(s, p, q, a);
    OthersStillAsBefore(s, q, r, a);
  }

  /** It happens to any file of at least one full chunk: the server has printed everything, has room and
      the client will try again, yet once the echo is lost it is never acknowledged. */
  lemma AcknowledgementCanBeLost(cfg: Config, a: Addr) returns (s: System)
    requires a in cfg.files && 0 < cfg.chunk <= |cfg.files[a]| && 2 <= cfg.maxTries && 0 < cfg.slots
    ensures Reachable(cfg, s) && a in s.ends && Room(s, a) && HasTry(cfg.maxTries, LaneOf(s, a))
    ensures PacketsOf(cfg, a) <= LaneOf(s, a).log
    ensures forall r :: AfterLoss(cfg, s, r) ==> a in r.ends && !HasFinished(r, a)
  {
    AtLeastTwoChunks(cfg, a);
    var o := StartGoing(cfg, a);
    s := PrintedButNotHeard(cfg, o, o, a);
    AddressIsGood(cfg, s, a);
    LogStartsWithFile(PacketsOf(cfg, a), LaneOf(s, a));
    forall r | AfterLoss(cfg, s, r) ensures a in r.ends && !HasFinished(r, a) {
      NeverFinishesAfterLoss(cfg, s, r, a);
    }
  }

  // ---------------------------------------------------------------------------------------------
  // Slots that are never given back, with datagrams merely late.

  /** Client a holds a slot that can no longer be given back. */
  ghost predicate Held(cfg: Config, s: System, a: Addr)
  {
    && 0 < cfg.chunk && a in cfg.files && a in s.ends
    && LaneOf(s, a).slot != None && !Releasable(PacketsOf(cfg, a), cfg.net, LaneOf(s, a))
  }

  lemma StepKeepsHeldAt(cfg: Config, s: System, act: Action, a: Addr)
    requires Good(cfg, s) && Enabled(cfg, s, act) && Held(cfg, s, a)
    ensures Held(cfg, Apply(cfg, s, act), a)
    ensures a == act.a ==> LaneOf(Apply(cfg, s, act), a).completed == LaneOf(s, a).completed
  {
    if act.a == a {
      assert AddressGood(cfg, s, a);
      StepRefinesLane(cfg, s, act);
      StepKeepsHeld(PacketsOf(cfg, a), cfg.maxTries, cfg.net, LaneOf(s, a), LaneActionOf(s, act));
    } else {
      OtherLanesUnchanged(cfg, s, act, a);
    }
  }

  lemma {:induction false} HeldAlong(cfg: Config, s: System, acts: seq<Action>, r: System, a: Addr)
    requires Good(cfg, s) && Held(cfg, s, a) && Then(cfg, None, s, acts) == Some(r)
    ensures Good(cfg, r) && Held(cfg, r, a)
  {
    if acts != [] {
      var p, act := Then(cfg, None, s, acts[..|acts| - 1]).value, acts[|acts| - 1];
      HeldAlong(cfg, s, acts[..|acts| - 1], p, a);
      StepKeepsGood(cfg, p, act);
      StepKeepsHeldAt(cfg, p, act, a);
    }
  }

  /** A run of a lane can be taken in the system. */
  lemma {:induction false} Follow(cfg: Config, o: System, s: System, a: Addr, las: seq<LaneAction>, l: Lane)
      returns (r: System)
    requires Going(cfg, None, o, s, a)
    requires LaneThen(PacketsOf(cfg, a), cfg.maxTries, cfg.net, LaneOf(s, a), las) == Some(l)
    ensures Going(cfg, None, o, r, a) && OthersAsBefore(s, r, a) && LaneOf(r, a) == l
    decreases |las|
  {
    if las == [] {
      r := s;
    } else {
      FirstThenRest(PacketsOf(cfg, a), cfg.maxTries, cfg.net, LaneOf(s, a), las);
      var p := StepAs(cfg, None, o, s, a, las[0]);
      r := Follow(cfg, o, p, a, las[1..], l);
      OthersStillAsBefore(s, p, r, a);
    }
  }

  lemma Release(cfg: Config, s: System, a: Addr) returns (r: System)
    requires Reachable(cfg, s) && a in cfg.files && a in s.ends && 0 < cfg.maxTries && 0 < cfg.chunk
    requires LaneOf(s, a).slot != None && Releasable(PacketsOf(cfg, a), cfg.net, LaneOf(s, a))
    ensures Going(cfg, None, s, r, a) && LaneOf(r, a).slot == None
  {
    AddressIsGood(cfg, s, a);
    StaysPut(cfg, None, s);
    var las, l := ReleaseRun(PacketsOf(cfg, a), cfg.maxTries, cfg.net, LaneOf(s, a));
    r := Follow(cfg, s, s, a, las, l);
  }

  /** In a reachable state a client's slot can still be given back, by whatever may still arrive or be
      sent, if and only if the client has not stopped short of sending its last chunk and, in order,
      that chunk has not been printed yet. */
  lemma SlotIsReleasedExactly(cfg: Config, s: System, a: Addr)
    requires Reachable(cfg, s) && a in cfg.files && a in s.ends && 0 < cfg.maxTries && LaneOf(s, a).slot != None
    ensures 0 < cfg.chunk
    ensures (exists r :: Path(cfg, None, s, r) && a in r.ends && LaneOf(r, a).slot == None)
            <==> Releasable(PacketsOf(cfg, a), cfg.net, LaneOf(s, a))
  {
    ReachableIsGood(cfg, s);
    AddressIsGood(cfg, s, a);
    if Releasable(PacketsOf(cfg, a), cfg.net, LaneOf(s, a)) {
      var r := Release(cfg, s, a);
    } else {
      forall r | Path(cfg, None, s, r) && a in r.ends ensures LaneOf(r, a).slot != None {
        var acts :| Then(cfg, None, s, acts) == Some(r);
        HeldAlong(cfg, s, acts, r, a);
      }
    }
  }

  /** No slot of the table can be given back. */
  ghost predicate AllHeld(cfg: Config, s: System)
  {
    forall i :: 0 <= i < |s.table| ==> !s.table[i].free && Held(cfg, s, s.table[i].addr)
  }

  lemma StepKeepsAllHeld(cfg: Config, s: System, act: Action)
    requires Good(cfg, s) && Enabled(cfg, s, act) && AllHeld(cfg, s)
    ensures AllHeld(cfg, Apply(cfg, s, act))
  {
    var r := Apply(cfg, s, act);
    if CountOf(s.table, act.a) != None {
      var h := SlotHasHolder(s, act.a);
      assert Held(cfg, s, s.table[h].addr);
      StepKeepsHeldAt(cfg, s, act, act.a);
    }
    HoldersStay(cfg, s, act);
    forall i | 0 <= i < |r.table| ensures !r.table[i].free && Held(cfg, r, r.table[i].addr) {
      StepKeepsHeldAt(cfg, s, act, s.table[i].addr);
    }
  }

  /** Client b has no slot and its log is `log`. */
  ghost predicate Unserved(s: System, b: Addr, log: seq<Packet>)
  {
    b in s.ends && LaneOf(s, b).slot == None && LaneOf(s, b).log == log
  }

  lemma StepKeepsUnserved(cfg: Config, s: System, act: Action, b: Addr, log: seq<Packet>)
    requires Distinct(s.table) && Full(s.table) && Enabled(cfg, s, act) && Unserved(s, b, log)
    ensures Unserved(Apply(cfg, s, act), b, log)
  {
    if act.a == b {
      StepRefinesLane(cfg, s, act);
    } else {
      OtherLanesUnchanged(cfg, s, act, b);
    }
  }

  lemma {:induction false} AllHeldAlong(cfg: Config, s: System, acts: seq<Action>, r: System)
    requires Good(cfg, s) && AllHeld(cfg, s) && Then(cfg, None, s, acts) == Some(r)
    ensures Good(cfg, r) && AllHeld(cfg, r)
    ensures forall b, log :: Unserved(s, b, log) ==> Unserved(r, b, log)
  {
    if acts != [] {
      var p, act := Then(cfg, None, s, acts[..|acts| - 1]).value, acts[|acts| - 1];
      AllHeldAlong(cfg, s, acts[..|acts| - 1], p);
      StepKeepsGood(cfg, p, act);
      StepKeepsAllHeld(cfg, p, act);
      forall b, log | Unserved(s, b, log) ensures Unserved(r, b, log) {
        StepKeepsUnserved(cfg, p, act, b, log);
      }
    }
  }

  /** Once no slot can be given back the server never again prints anything for a client without one. */
  lemma HeldTableBlocksTheServer(cfg: Config, s: System, r: System, b: Addr)
    requires Reachable(cfg, s) && Path(cfg, None, s, r) && AllHeld(cfg, s)
    requires b in s.ends && LaneOf(s, b).slot == None
    ensures AllHeld(cfg, r) && Unserved(r, b, LaneOf(s, b).log)
  {
    ReachableIsGood(cfg, s);
    var acts :| Then(cfg, None, s, acts) == Some(r);
    AllHeldAlong(cfg, s, acts, r);
    assert Unserved(s, b, LaneOf(s, b).log);
  }

  /** And only then: otherwise some continuation has a free slot. */
  lemma TableOpensExactly(cfg: Config, s: System)
    requires Reachable(cfg, s) && 0 < cfg.maxTries
    ensures (exists r :: Path(cfg, None, s, r) && !Full(r.table)) <==> !AllHeld(cfg, s)
  {
    ReachableIsGood(cfg, s);
    StaysPut(cfg, None, s);
    if AllHeld(cfg, s) {
      forall r | Path(cfg, None, s, r) ensures Full(r.table) {
        var acts :| Then(cfg, None, s, acts) == Some(r);
        AllHeldAlong(cfg, s, acts, r);
      }
    } else {
      var i :| 0 <= i < |s.table| && (s.table[i].free || !Held(cfg, s, s.table[i].addr));
      if s.table[i].free {
        assert !Full(s.table);
      } else {
        var a := s.table[i].addr;
        HolderHasSlot(cfg, s, i);
        var r := Release(cfg, s, a);
        assert Room(r, a) && !Full(r.table);
      }
    }
  }

  // ---------------------------------------------------------------------------------------------
  // How slots are lost.

  /** A client stops before its last chunk; or finishes, and a retransmission of the last chunk comes
      late and is allocated a new slot; or that happens and its acknowledgement never comes. */
  datatype Leak = StopsEarly | FinishesLate | StopsLate

  predicate Possible(cfg: Config, how: Leak)
  {
    if how.StopsEarly? then 1 <= cfg.maxTries else cfg.net == InOrder && 2 <= cfg.maxTries
  }

  lemma {:induction false} GiveUpFrom(cfg: Config, o: System, s: System, a: Addr, left: nat) returns (r: System)
    requires Going(cfg, None, o, s, a) && LaneOf(s, a).client.phase == Waiting
    requires left == if LaneOf(s, a).client.tries < cfg.maxTries then cfg.maxTries - LaneOf(s, a).client.tries else 0
    ensures Going(cfg, None, o, r, a) && OthersAsBefore(s, r, a)
    ensures var l, l' := LaneOf(s, a), LaneOf(r, a);
            && l'.client.phase == GaveUp && l'.client.next == l.client.next
            && l'.slot == l.slot && l'.completed == l.completed
    decreases left
  {
    AddressIsGood(cfg, s, a);
    TimesOut(PacketsOf(cfg, a), cfg.maxTries, cfg.net, LaneOf(s, a));
    r := StepAs(cfg, None, o, s, a, TimeOut);
    if left > 0 {
      var p := StepAs(cfg, None, o, r, a, Send);
      OthersStillAsBefore(s, r, p, a);
      r := GiveUpFrom(cfg, o, p, a, left - 1);
      OthersStillAsBefore(s, p, r, a);
    }
  }

  lemma StopEarly(cfg: Config, o: System, s: System, a: Addr) returns (r: System)
    requires Going(cfg, None, o, s, a) && LaneOf(s, a) == FRESH && cfg.chunk <= |cfg.files[a]| && 1 <= cfg.maxTries
    ensures Going(cfg, None, o, r, a) && OthersAsBefore(s, r, a) && Held(cfg, r, a)
    ensures LaneOf(r, a).client.phase == GaveUp
  {
    AtLeastTwoChunks(cfg, a);
    AddressIsGood(cfg, s, a);
    var sent, served := FirstChunkPrinted(PacketsOf(cfg, a), cfg.maxTries, cfg.net);
    var p := AnswerFrom(cfg, None, o, s, a, sent, served);
    r := GiveUpFrom(cfg, o, p, a, cfg.maxTries - 1);
    OthersStillAsBefore(s, p, r, a);
    StoppedEarlyIsHeld(cfg, r, a);
  }

  lemma StoppedEarlyIsHeld(cfg: Config, s: System, a: Addr)
    requires Reachable(cfg, s) && a in cfg.files && a in s.ends && 0 < cfg.chunk
    requires var l := LaneOf(s, a);
             l.client.phase == GaveUp && l.client.next < |PacketsOf(cfg, a)| && l.slot != None
    ensures Held(cfg, s, a)
  {
    AddressIsGood(cfg, s, a);
    NotYetSent(PacketsOf(cfg, a), LaneOf(s, a), |PacketsOf(cfg, a)|);
  }

  lemma FinishLate(cfg: Config, o: System, s: System, a: Addr) returns (r: System)
    requires Going(cfg, None, o, s, a) && LaneOf(s, a) == FRESH && cfg.chunk <= |cfg.files[a]|
    requires cfg.net == InOrder && 2 <= cfg.maxTries
    ensures Going(cfg, None, o, r, a) && OthersAsBefore(s, r, a) && Held(cfg, r, a)
    ensures LaneOf(r, a).client.phase == Finished && LaneOf(r, a).slot == Some(0)
  {
    AtLeastTwoChunks(cfg, a);
    var p := ToLastChunk(cfg, None, o, s, a, |PacketsOf(cfg, a)| - 1);
    AddressIsGood(cfg, p, a);
    var las, l := LateCopyRun(PacketsOf(cfg, a), cfg.maxTries, cfg.net, LaneOf(p, a));
    r := Follow(cfg, o, p, a, las, l);
    OthersStillAsBefore(s, p, r, a);
  }

  lemma StopLate(cfg: Config, o: System, s: System, a: Addr) returns (r: System)
    requires Going(cfg, None, o, s, a) && LaneOf(s, a) == FRESH && cfg.chunk <= |cfg.files[a]|
    requires cfg.net == InOrder && 2 <= cfg.maxTries
    ensures Going(cfg, None, o, r, a) && OthersAsBefore(s, r, a) && Held(cfg, r, a)
    ensures LaneOf(r, a).client.phase == GaveUp && 0 < LaneOf(r, a).completed
  {
    AtLeastTwoChunks(cfg, a);
    var p := PrintedButNotHeard(cfg, o, s, a);
    AddressIsGood(cfg, p, a);
    var sent, served := CopyOfLast(PacketsOf(cfg, a), cfg.maxTries, cfg.net, LaneOf(p, a));
    var q := AnswerFrom(cfg, None, o, p, a, sent, served);
    OthersStillAsBefore(s, p, q, a);
    r := GiveUpFrom(cfg, o, q, a, cfg.maxTries - 2);
    OthersStillAsBefore(s, q, r, a);
  }

  /** Each way of losing a slot can befall any client with a file of at least one full chunk that has not
      begun, whenever the server has room for it. */
  lemma SlotCanBeLost(cfg: Config, o: System, s: System, a: Addr, how: Leak) returns (r: System)
    requires Going(cfg, None, o, s, a) && LaneOf(s, a) == FRESH && cfg.chunk <= |cfg.files[a]| && Possible(cfg, how)
    ensures Going(cfg, None, o, r, a) && OthersAsBefore(s, r, a) && Held(cfg, r, a)
    ensures var l := LaneOf(r, a);
            match how
            case StopsEarly => l.client.phase == GaveUp
            case FinishesLate => l.client.phase == Finished
            case StopsLate => l.client.phase == GaveUp && 0 < l.completed
  {
    match how
    case StopsEarly => r := StopEarly(cfg, o, s, a);
    case FinishesLate => r := FinishLate(cfg, o, s, a);
    case StopsLate => r := StopLate(cfg, o, s, a);
  }

  // ---------------------------------------------------------------------------------------------
  // They can all be lost.

  /** The clients of `done` hold slots for good and no other client has begun. */
  ghost predicate Filled(cfg: Config, s: System, done: seq<Addr>)
  {
    && Reachable(cfg, s) && s.ends.Keys == cfg.files.Keys
    && (forall k :: 0 <= k < |done| ==> Held(cfg, s, done[k]))
    && (forall a :: a in cfg.files && a !in done ==> LaneOf(s, a) == FRESH)
  }

  /** A full table has no more slots than its holders are clients. */
  lemma HoldersAreEnough(t: seq<Connection>, done: seq<Addr>)
    requires Full(t) && Distinct(t) && forall i :: 0 <= i < |t| ==> t[i].addr in done
    ensures |t| <= |done|
  {
    var places := seq(|t|, i requires 0 <= i < |t| => IndexOf(done, t[i].addr));
    forall i, j | 0 <= i < j < |places| ensures places[i] != places[j] {
      assert done[places[i]] == t[i].addr && done[places[j]] == t[j].addr;
    }
    Pigeonhole(places, |done|);
  }

  /** Fewer such clients than slots leave a slot free. */
  lemma FreeSlotLeft(cfg: Config, s: System, done: seq<Addr>)
    requires Good(cfg, s) && Filled(cfg, s, done) && |done| < |s.table|
    ensures !Full(s.table)
  {
    if Full(s.table) {
      forall i | 0 <= i < |s.table| ensures s.table[i].addr in done {
        HolderHasSlot(cfg, s, i);
      }
      HoldersAreEnough(s.table, done);
    }
  }

  function IndexOf(done: seq<Addr>, a: Addr): (k: nat)
    ensures a in done ==> k < |done| && done[k] == a
  {
    if done == [] || done[0] == a then 0 else 1 + IndexOf(done[1..], a)
  }

  /** As many holders as slots occupy them all. */
  lemma HoldersFillTable(t: seq<Connection>, done: seq<Addr>, slots: seq<nat>)
    requires AllDifferent(done) && |done| == |t| == |slots|
    requires forall k :: 0 <= k < |done| ==> slots[k] < |t| && Holds(t[slots[k]], done[k])
    ensures forall i :: 0 <= i < |t| ==> !t[i].free && t[i].addr in done
  {
    forall i, j | 0 <= i < j < |slots| ensures slots[i] != slots[j] {
      assert Holds(t[slots[i]], done[i]) && Holds(t[slots[j]], done[j]);
    }
    Pigeonhole(slots, |t|);
    forall i: nat | i < |t| ensures !t[i].free && t[i].addr in done {
      assert i in slots;
      var k :| 0 <= k < |slots| && slots[k] == i;
      assert Holds(t[slots[k]], done[k]);
    }
  }

  /** As many such clients as slots hold them all. */
  lemma NoSlotLeft(cfg: Config, s: System, done: seq<Addr>)
    requires Filled(cfg, s, done) && AllDifferent(done) && |done| == |s.table|
    ensures AllHeld(cfg, s)
  {
    var slots := seq(|done|, k requires 0 <= k < |done| => SlotOf(s.table, done[k]));
    forall k | 0 <= k < |done| ensures slots[k] < |s.table| && Holds(s.table[slots[k]], done[k]) {
      assert Held(cfg, s, done[k]);
    }
    HoldersFillTable(s.table, done, slots);
  }

  function SlotOf(t: seq<Connection>, a: Addr): (i: nat)
  {
    var h := Holder(t, a);
    if h < 0 then 0 else h
  }

  lemma OneMoreHeld(cfg: Config, s: System, r: System, done: seq<Addr>, a: Addr)
    requires Filled(cfg, s, done) && a !in done && OthersAsBefore(s, r, a) && Held(cfg, r, a) && Reachable(cfg, r)
    ensures Filled(cfg, r, done + [a])
  {
    var more := done + [a];
    forall i | 0 <= i < |more| ensures Held(cfg, r, more[i]) {
      if i < |done| {
        assert Held(cfg, s, done[i]) && more[i] == done[i] != a;
        assert LaneOf(r, done[i]) == LaneOf(s, done[i]);
      }
    }
    forall b | b in cfg.files && b !in more ensures LaneOf(r, b) == FRESH {
      assert b !in done && a in more;
    }
  }

  lemma FillOne(cfg: Config, s: System, done: seq<Addr>, a: Addr, how: Leak) returns (r: System)
    requires Filled(cfg, s, done) && a in cfg.files && a !in done && |done| < cfg.slots
    requires 0 < cfg.chunk <= |cfg.files[a]| && Possible(cfg, how)
    ensures Filled(cfg, r, done + [a])
  {
    ReachableIsGood(cfg, s);
    FreeSlotLeft(cfg, s, done);
    StaysPut(cfg, None, s);
    r := SlotCanBeLost(cfg, s, s, a, how);
    OneMoreHeld(cfg, s, r, done, a);
  }

  lemma NothingFilled(cfg: Config) returns (s: System)
    requires 0 < cfg.chunk
    ensures Filled(cfg, s, [])
  {
    s := AtStart(cfg);
  }

  /** Different clients, each with a file of at least one full chunk. */
  ghost predicate Suitable(cfg: Config, addrs: seq<Addr>)
  {
    AllDifferent(addrs) && forall i :: 0 <= i < |addrs| ==> addrs[i] in cfg.files && cfg.chunk <= |cfg.files[addrs[i]]|
  }

  lemma LastIsNew(cfg: Config, addrs: seq<Addr>)
    requires Suitable(cfg, addrs) && addrs != []
    ensures var a, done := addrs[|addrs| - 1], addrs[..|addrs| - 1];
            && Suitable(cfg, done) && a !in done && addrs == done + [a]
            && a in cfg.files && cfg.chunk <= |cfg.files[a]|
  {
  }

  lemma {:induction false} FillSlots(cfg: Config, addrs: seq<Addr>, how: Leak) returns (s: System)
    requires 0 < cfg.chunk && Suitable(cfg, addrs) && |addrs| <= cfg.slots && Possible(cfg, how)
    ensures Filled(cfg, s, addrs)
  {
    if addrs == [] {
      s := NothingFilled(cfg);
    } else {
      LastIsNew(cfg, addrs);
      var p := FillSlots(cfg, addrs[..|addrs| - 1], how);
      s := FillOne(cfg, p, addrs[..|addrs| - 1], addrs[|addrs| - 1], how);
    }
  }

  /** With as many clients as slots, each with a file of at least one full chunk, the table can fill up
      for good in each of the ways; clients that finish suffice, each after a single time-out. */
  lemma TableCanFillUp(cfg: Config, addrs: seq<Addr>, how: Leak) returns (s: System)
    requires 0 < cfg.chunk && Suitable(cfg, addrs) && |addrs| == cfg.slots && Possible(cfg, how)
    ensures Reachable(cfg, s) && |s.table| == cfg.slots && AllHeld(cfg, s)
  {
    s := FillSlots(cfg, addrs, how);
    ReachableIsGood(cfg, s);
    NoSlotLeft(cfg, s, addrs);
  }
}

/**
  The hand-off of identifiers to champions (L2_4_Graded/server.c): n worker threads and the main
  thread meet at a barrier, main passes the identifiers 1..n one at a time through a one-slot mailbox
  guarded by a mutex and a condition variable, and everybody meets at the same barrier again.
  One step is one pthread call or one access to the mailbox, so all interleavings are covered,
  spurious wakeups included.
 */
module Mailbox {
  import opened Options
  import opened Tally

  /** Where a worker is.  From `Test` to `Unlock` it holds the mutex, except while `Sleeping` in the
      wait set and `Woken`, when it wants the mutex back. */
  datatype Worker =
    | Start
    | AtBarrier1
    | WantLock
    | Test
    | Sleeping
    | Woken
    | Take
    | Clear(id: nat)
    | Announce(id: nat)
    | Unlock(id: nat)
    | Before2(id: nat)
    | AtBarrier2(id: nat)
    | Passed(id: nat)

  /** Where main is; it holds the mutex at `Post`, `Tell`, `Check` and `Release`. */
  datatype Main =
    | Begin
    | Meeting1
    | Lock
    | Post
    | Tell
    | Check
    | Asleep
    | Roused
    | Release
    | Finish
    | Meeting2
    | Done

  datatype Holder = Nobody | ByMain | ByWorker(w: nat)

  /** `box` is the mailbox, 0 when empty; `turn` main's loop counter; `arrived` and `round` the
      barrier's; `takers` lists the workers in the order in which they read an identifier. */
  datatype State = State(workers: seq<Worker>, main: Main, turn: nat, box: nat, mutex: Holder,
                         arrived: nat, round: nat, takers: seq<nat>)

  datatype Action =
    | Work(w: nat)      // worker w's next call
    | Assign            // main's next call
    | WakeWorker(w: nat)  // spurious wakeups
    | WakeMain

  /** A broadcast. */
  function Wake(x: Worker): (y: Worker)
  {
    if x == Sleeping then Woken else x
  }

  function WakeAll(ws: seq<Worker>): (r: seq<Worker>)
    ensures |r| == |ws| && forall i :: 0 <= i < |ws| ==> r[i] == Wake(ws[i])
  {
    seq(|ws|, i requires 0 <= i < |ws| => Wake(ws[i]))
  }

  function Arrive(s: State): (r: State)
  {
    if s.arrived == |s.workers| then s.(arrived := 0, round := s.round + 1)
    else s.(arrived := s.arrived + 1)
  }

  predicate Enabled(s: State, act: Action)
  {
    match act
    case WakeWorker(w) => w < |s.workers| && s.workers[w] == Sleeping
    case WakeMain => s.main == Asleep
    case Work(w) =>
      w < |s.workers| &&
      (match s.workers[w]
       case AtBarrier1 => s.round >= 1
       case AtBarrier2(_) => s.round >= 2
       case WantLock => s.mutex == Nobody
       case Woken => s.mutex == Nobody
       case Sleeping => false
       case Passed(_) => false
       case _ => true)
    case Assign =>
      match s.main
      case Meeting1 => s.round >= 1
      case Meeting2 => s.round >= 2
      case Lock => s.mutex == Nobody
      case Roused => s.mutex == Nobody
      case Asleep => false
      case Done => false
      case _ => true
  }

  /** A step of the worker on its own: what it does next and what happens to mailbox and mutex. */
  function WorkerStep(s: State, w: nat): (r: State)
    requires Enabled(s, Work(w))
  {
    match s.workers[w]
    case Start => Arrive(s.(workers := s.workers[w := AtBarrier1]))
    case AtBarrier1 => s.(workers := s.workers[w := WantLock])
    case WantLock => s.(workers := s.workers[w := Test], mutex := ByWorker(w))
    case Woken => s.(workers := s.workers[w := Test], mutex := ByWorker(w))
    case Test =>
      if s.box == 0 then s.(workers := s.workers[w := Sleeping], mutex := Nobody)
      else s.(workers := s.workers[w := Take])
    case Take => s.(workers := s.workers[w := Clear(s.box)], takers := s.takers + [w])
    case Clear(id) => s.(workers := s.workers[w := Announce(id)], box := 0)
    case Announce(id) =>
      s.(workers := WakeAll(s.workers)[w := Unlock(id)], main := if s.main == Asleep then Roused else s.main)
    case Unlock(id) => s.(workers := s.workers[w := Before2(id)], mutex := Nobody)
    case Before2(id) => Arrive(s.(workers := s.workers[w := AtBarrier2(id)]))
    case AtBarrier2(id) => s.(workers := s.workers[w := Passed(id)])
  }

  function MainStep(s: State): (r: State)
    requires Enabled(s, Assign)
  {
    var n := |s.workers|;
    match s.main
    case Begin => Arrive(s.(main := Meeting1))
    case Meeting1 => s.(main := if s.turn < n then Lock else Finish)
    case Lock => s.(main := Post, mutex := ByMain)
    case Post => s.(main := Tell, box := s.turn + 1)
    case Tell => s.(main := Check, workers := WakeAll(s.workers))
    case Check => if s.box != 0 then s.(main := Asleep, mutex := Nobody) else s.(main := Release)
    case Roused => s.(main := Check, mutex := ByMain)
    case Release => s.(main := if s.turn + 1 < n then Lock else Finish, mutex := Nobody, turn := s.turn + 1)
    case Finish => Arrive(s.(main := Meeting2))
    case Meeting2 => s.(main := Done)
  }

  function Apply(s: State, act: Action): (r: State)
    requires Enabled(s, act)
  {
    match act
    case Work(w) => WorkerStep(s, w)
    case Assign => MainStep(s)
    case WakeWorker(w) => s.(workers := s.workers[w := Woken])
    case WakeMain => s.(main := Roused)
  }

  function Initial(n: nat): (s: State)
  {
    State(seq(n, _ => Start), Begin, 0, 0, Nobody, 0, 0, [])
  }

  /** The state after a list of actions, if all of them were possible. */
  function After(n: nat, acts: seq<Action>): (s: Option<State>)
  {
    if acts == [] then Some(Initial(n))
    else
      match After(n, acts[..|acts| - 1])
      case None => None
      case Some(p) => if Enabled(p, acts[|acts| - 1]) then Some(Apply(p, acts[|acts| - 1])) else None
  }

  // ---------------------------------------------------------------------------------------------
  // The invariant.

  predicate HasId(x: Worker)
  {
    x.Clear? || x.Announce? || x.Unlock? || x.Before2? || x.AtBarrier2? || x.Passed?
  }

  /** The identifier a worker has, -1 without one. */
  function IdOf(x: Worker): (id: int)
    ensures HasId(x) <==> id >= 0
  {
    if HasId(x) then x.id else -1
  }

  predicate WorkerLocks(x: Worker)
  {
    x.Test? || x.Take? || x.Clear? || x.Announce? || x.Unlock?
  }

  predicate MainLocks(m: Main)
  {
    m.Post? || m.Tell? || m.Check? || m.Release?
  }

  /** The mutex is held by exactly the thread that believes so. */
  ghost predicate MutexRight(s: State)
  {
    && (forall w: nat :: w < |s.workers| ==> (WorkerLocks(s.workers[w]) <==> s.mutex == ByWorker(w)))
    && (MainLocks(s.main) <==> s.mutex == ByMain)
    && (s.mutex.ByWorker? ==> s.mutex.w < |s.workers|)
  }

  predicate InFirst(x: Worker)
  {
    x.Start? || x.AtBarrier1?
  }

  predicate InSecond(x: Worker)
  {
    x.AtBarrier2? || x.Passed?
  }

  function Waiting1(x: Worker): (k: int)
  {
    if x.AtBarrier1? then 1 else 0
  }

  function Waiting2(x: Worker): (k: int)
  {
    if x.AtBarrier2? then 1 else 0
  }

  /** The reused barrier counts right and lets nobody through early. */
  ghost predicate BarrierRight(s: State)
  {
    && s.round <= 2 && s.arrived <= |s.workers|
    && (s.round == 0 ==>
          && (forall w: nat :: w < |s.workers| ==> InFirst(s.workers[w]))
          && s.main in {Begin, Meeting1}
          && s.arrived == Sum(s.workers, Waiting1) + (if s.main == Meeting1 then 1 else 0))
    && (s.round == 1 ==>
          && (forall w: nat :: w < |s.workers| ==> !s.workers[w].Start? && !s.workers[w].Passed?)
          && s.main !in {Begin, Done}
          && s.arrived == Sum(s.workers, Waiting2) + (if s.main == Meeting2 then 1 else 0))
    && (s.round == 2 ==>
          && (forall w: nat :: w < |s.workers| ==> InSecond(s.workers[w]))
          && s.main in {Meeting2, Done}
          && s.arrived == 0)
  }

  /** Identifiers posted so far. */
  function Posted(s: State): (p: nat)
  {
    if s.main in {Tell, Check, Asleep, Roused, Release} then s.turn + 1 else s.turn
  }

  /** Worker w holds identifier k exactly if it was the k-th taker. */
  ghost predicate IdsRight(s: State)
  {
    && AllDifferent(s.takers) && AllBelow(s.takers, |s.workers|)
    && (forall k: nat :: k < |s.takers| ==> IdOf(s.workers[s.takers[k]]) == k + 1)
    && (forall w: nat :: w < |s.workers| && IdOf(s.workers[w]) >= 0 ==> 1 <= IdOf(s.workers[w]) <= |s.takers|)
    && (forall w: nat, k: nat :: w < |s.workers| && k < |s.takers| && IdOf(s.workers[w]) == k + 1 ==> s.takers[k] == w)
  }

  /** The mailbox holds the identifier posted last until it was taken, and nothing otherwise. */
  ghost predicate BoxRight(s: State)
  {
    && s.turn <= |s.workers|
    && (s.main in {Lock, Post, Tell, Check, Asleep, Roused, Release} ==> s.turn < |s.workers|)
    && (s.main in {Begin, Meeting1} ==> s.turn == 0)
    && (s.main in {Finish, Meeting2, Done} ==> s.turn == |s.workers|)
    && (s.box == 0 || s.box == Posted(s))
    && (s.main in {Begin, Meeting1, Lock, Post, Release, Finish, Meeting2, Done} ==> s.box == 0)
    && (s.main == Tell ==> s.box != 0)
    && (s.box == 0 ==> |s.takers| == Posted(s))
    && (s.box != 0 ==> |s.takers| == Posted(s) || |s.takers| + 1 == Posted(s))
    && (forall w: nat :: w < |s.workers| ==>
          && (s.workers[w].Take? ==> s.box != 0 && |s.takers| + 1 == Posted(s))
          && (s.workers[w].Clear? ==> s.box == s.workers[w].id && |s.takers| == Posted(s)))
    && (s.box != 0 && |s.takers| == Posted(s) ==>
          s.mutex.ByWorker? && s.mutex.w < |s.workers| && s.workers[s.mutex.w].Clear?)
  }

  /** No wakeup is lost: a worker sleeps with the mailbox full only just before main's broadcast, and
      main sleeps with it empty only just before the taker's broadcast. */
  ghost predicate NoLostWakeup(s: State)
  {
    && (s.box != 0 && s.main != Tell ==> forall w: nat :: w < |s.workers| ==> s.workers[w] != Sleeping)
    && (s.box == 0 && s.main == Asleep ==>
          s.mutex.ByWorker? && s.mutex.w < |s.workers| && s.workers[s.mutex.w].Announce?)
  }

  ghost predicate Inv(s: State)
  {
    MutexRight(s) && BarrierRight(s) && IdsRight(s) && BoxRight(s) && NoLostWakeup(s)
  }

  lemma InitialBarrier(n: nat)
    ensures BarrierRight(Initial(n))
  {
    SumConstant(Initial(n).workers, Waiting1, 0);
  }

  lemma InitialInv(n: nat)
    ensures Inv(Initial(n))
  {
    InitialBarrier(n);
    InitialMutex(n);
    InitialIds(n);
    InitialMailbox(n);
  }

  lemma InitialMutex(n: nat)
    ensures MutexRight(Initial(n))
  {
  }

  lemma InitialIds(n: nat)
    ensures IdsRight(Initial(n))
  {
    var s := Initial(n);
    assert s.takers == [];
    assert forall w: nat :: w < n ==> s.workers[w] == Start;
  }

  lemma InitialMailbox(n: nat)
    ensures BoxRight(Initial(n))
  {
    var s := Initial(n);
    assert s.takers == [] && s.main == Begin && Posted(s) == 0;
    assert forall w: nat :: w < n ==> s.workers[w] == Start;
  }

  lemma WorkerKeepsMutex(s: State, w: nat)
    requires MutexRight(s) && Enabled(s, Work(w))
    ensures MutexRight(WorkerStep(s, w))
  {
  }

  lemma TakeKeepsIds(s: State, w: nat, r: State)
    requires IdsRight(s) && w < |s.workers| && IdOf(s.workers[w]) == -1
    requires |r.workers| == |s.workers| && r.takers == s.takers + [w] && IdOf(r.workers[w]) == |s.takers| + 1
    requires forall v: nat :: v < |s.workers| && v != w ==> r.workers[v] == s.workers[v]
    ensures IdsRight(r)
  {
    forall k: nat | k < |s.takers| ensures s.takers[k] != w && r.takers[k] == s.takers[k] {
      assert IdOf(s.workers[s.takers[k]]) == k + 1;
    }
  }

  /** A step that neither takes an identifier nor changes one. */
  lemma SameIdsKeepIds(s: State, r: State)
    requires IdsRight(s) && |r.workers| == |s.workers| && r.takers == s.takers
    requires forall w: nat :: w < |s.workers| ==> IdOf(r.workers[w]) == IdOf(s.workers[w])
    ensures IdsRight(r)
  {
  }

  /** Only taking changes who has which identifier. */
  lemma OtherCallsKeepEachId(s: State, w: nat, v: nat)
    requires Enabled(s, Work(w)) && !s.workers[w].Take? && v < |s.workers|
    ensures |WorkerStep(s, w).workers| == |s.workers| && WorkerStep(s, w).takers == s.takers
    ensures IdOf(WorkerStep(s, w).workers[v]) == IdOf(s.workers[v])
  {
  }

  lemma WorkerKeepsIds(s: State, w: nat)
    requires IdsRight(s) && Enabled(s, Work(w))
    requires s.workers[w].Take? ==> s.box == |s.takers| + 1
    ensures IdsRight(WorkerStep(s, w))
  {
    if s.workers[w].Take? {
      TakeKeepsIds(s, w, WorkerStep(s, w));
    } else {
      forall v: nat | v < |s.workers|
        ensures |WorkerStep(s, w).workers| == |s.workers| && WorkerStep(s, w).takers == s.takers
        ensures IdOf(WorkerStep(s, w).workers[v]) == IdOf(s.workers[v])
      {
        OtherCallsKeepEachId(s, w, v);
      }
      OtherCallsKeepEachId(s, w, w);
      SameIdsKeepIds(s, WorkerStep(s, w));
    }
  }

  lemma WorkerKeepsBox(s: State, w: nat)
    requires MutexRight(s) && BoxRight(s) && Enabled(s, Work(w))
    ensures BoxRight(WorkerStep(s, w))
  {
  }

  lemma WorkerKeepsWakeups(s: State, w: nat)
    requires MutexRight(s) && BoxRight(s) && NoLostWakeup(s) && Enabled(s, Work(w))
    ensures NoLostWakeup(WorkerStep(s, w))
  {
  }

  lemma MainKeepsMutex(s: State)
    requires MutexRight(s) && Enabled(s, Assign)
    ensures MutexRight(MainStep(s))
  {
  }

  lemma MainKeepsIds(s: State)
    requires IdsRight(s) && Enabled(s, Assign)
    ensures IdsRight(MainStep(s))
  {
    SameIdsKeepIds(s, MainStep(s));
  }

  lemma MainKeepsBox(s: State)
    requires MutexRight(s) && BoxRight(s) && Enabled(s, Assign)
    ensures BoxRight(MainStep(s))
  {
  }

  lemma MainKeepsWakeups(s: State)
    requires MutexRight(s) && BoxRight(s) && NoLostWakeup(s) && Enabled(s, Assign)
    ensures NoLostWakeup(MainStep(s))
  {
  }

  lemma SameSum(ws: seq<Worker>, us: seq<Worker>, f: Worker -> int)
    requires |ws| == |us| && forall i :: 0 <= i < |ws| ==> f(us[i]) == f(ws[i])
    ensures Sum(us, f) == Sum(ws, f)
  {
    SumRise(ws, us, f, 0);
    SumRise(us, ws, f, 0);
  }

  /** Arriving at the first barrier, and opening it when everybody has. */
  lemma ArrivalKeepsFirstBarrier(s: State, r: State)
    requires s.round == 0 && s.arrived <= |s.workers| && s.main in {Begin, Meeting1}
    requires forall w: nat :: w < |s.workers| ==> InFirst(s.workers[w])
    requires s.arrived + 1 == Sum(s.workers, Waiting1) + (if s.main == Meeting1 then 1 else 0)
    requires r == Arrive(s)
    ensures BarrierRight(r)
  {
    SumMost(s.workers, Waiting1, 1);
    if s.arrived == |s.workers| {
      SumFull(s.workers, Waiting1);
      assert forall w: nat :: w < |s.workers| ==> Waiting1(s.workers[w]) == 1;
      SumConstant(s.workers, Waiting2, 0);
    }
  }

  lemma ArrivalKeepsSecondBarrier(s: State, r: State)
    requires s.round == 1 && s.arrived <= |s.workers| && s.main !in {Begin, Done}
    requires forall w: nat :: w < |s.workers| ==> !s.workers[w].Start? && !s.workers[w].Passed?
    requires s.arrived + 1 == Sum(s.workers, Waiting2) + (if s.main == Meeting2 then 1 else 0)
    requires r == Arrive(s)
    ensures BarrierRight(r)
  {
    SumMost(s.workers, Waiting2, 1);
    if s.arrived == |s.workers| {
      SumFull(s.workers, Waiting2);
      assert forall w: nat :: w < |s.workers| ==> Waiting2(s.workers[w]) == 1;
    }
  }

  lemma AnnouncementKeepsBarrier(s: State, w: nat)
    requires BarrierRight(s) && Enabled(s, Work(w)) && s.workers[w].Announce?
    ensures BarrierRight(WorkerStep(s, w))
  {
    var woken := WakeAll(s.workers);
    SameSum(s.workers, woken, Waiting2);
    SumUpdate(woken, w, Unlock(s.workers[w].id), Waiting2);
  }

  lemma ArrivalKeepsBarrier(s: State, w: nat)
    requires BarrierRight(s) && Enabled(s, Work(w)) && (s.workers[w].Start? || s.workers[w].Before2?)
    ensures BarrierRight(WorkerStep(s, w))
  {
    var r := WorkerStep(s, w);
    if s.workers[w].Start? {
      SumUpdate(s.workers, w, AtBarrier1, Waiting1);
      ArrivalKeepsFirstBarrier(s.(workers := s.workers[w := AtBarrier1]), r);
    } else {
      var next := AtBarrier2(s.workers[w].id);
      SumUpdate(s.workers, w, next, Waiting2);
      ArrivalKeepsSecondBarrier(s.(workers := s.workers[w := next]), r);
    }
  }

  lemma OtherCallsKeepBarrier(s: State, w: nat)
    requires BarrierRight(s) && Enabled(s, Work(w))
    requires !s.workers[w].Start? && !s.workers[w].Before2? && !s.workers[w].Announce?
    ensures BarrierRight(WorkerStep(s, w))
  {
    var r := WorkerStep(s, w);
    assert r.workers == s.workers[w := r.workers[w]];
    SumUpdate(s.workers, w, r.workers[w], Waiting2);
  }

  lemma WorkerKeepsBarrier(s: State, w: nat)
    requires BarrierRight(s) && Enabled(s, Work(w))
    ensures BarrierRight(WorkerStep(s, w))
  {
    if s.workers[w].Announce? {
      AnnouncementKeepsBarrier(s, w);
    } else if s.workers[w].Start? || s.workers[w].Before2? {
      ArrivalKeepsBarrier(s, w);
    } else {
      OtherCallsKeepBarrier(s, w);
    }
  }

  lemma MainKeepsBarrier(s: State)
    requires BarrierRight(s) && Enabled(s, Assign)
    ensures BarrierRight(MainStep(s))
  {
    if s.main == Begin {
      ArrivalKeepsFirstBarrier(s.(main := Meeting1), MainStep(s));
    } else if s.main == Finish {
      ArrivalKeepsSecondBarrier(s.(main := Meeting2), MainStep(s));
    } else if s.main == Tell {
      SameSum(s.workers, WakeAll(s.workers), Waiting2);
    }
  }

  lemma WakeWorkerKeepsInv(s: State, w: nat)
    requires Inv(s) && Enabled(s, WakeWorker(w))
    ensures Inv(Apply(s, WakeWorker(w)))
  {
    var r := Apply(s, WakeWorker(w));
    assert MutexRight(r);
    assert BarrierRight(r) by { SameSum(s.workers, r.workers, Waiting2); }
    assert IdsRight(r) by { SameIdsKeepIds(s, r); }
    assert BoxRight(r);
    assert NoLostWakeup(r);
  }

  lemma WakeMainKeepsIds(s: State)
    requires IdsRight(s)
    ensures IdsRight(s.(main := Roused))
  {
  }

  lemma WakeMainKeepsBox(s: State)
    requires BoxRight(s) && s.main == Asleep
    ensures BoxRight(s.(main := Roused))
  {
  }

  lemma WakeMainKeepsInv(s: State)
    requires Inv(s) && Enabled(s, WakeMain)
    ensures Inv(Apply(s, WakeMain))
  {
    WakeMainKeepsIds(s);
    WakeMainKeepsBox(s);
  }

  lemma StepKeepsInv(s: State, act: Action)
    requires Inv(s) && Enabled(s, act)
    ensures Inv(Apply(s, act))
  {
    match act
    case Work(w) =>
      WorkerKeepsMutex(s, w);
      WorkerKeepsBarrier(s, w);
      WorkerKeepsIds(s, w);
      WorkerKeepsBox(s, w);
      WorkerKeepsWakeups(s, w);
    case Assign =>
      MainKeepsMutex(s);
      MainKeepsBarrier(s);
      MainKeepsIds(s);
      MainKeepsBox(s);
      MainKeepsWakeups(s);
    case WakeWorker(w) => WakeWorkerKeepsInv(s, w);
    case WakeMain => WakeMainKeepsInv(s);
  }

  lemma {:induction false} ReachableInv(n: nat, acts: seq<Action>, s: State)
    requires After(n, acts) == Some(s)
    ensures Inv(s) && |s.workers| == n
  {
    if acts == [] {
      InitialInv(n);
    } else {
      var p := After(n, acts[..|acts| - 1]).value;
      ReachableInv(n, acts[..|acts| - 1], p);
      StepKeepsInv(p, acts[|acts| - 1]);
    }
  }

  // ---------------------------------------------------------------------------------------------
  // Safety.

  /** In every interleaving: main posts only into an empty mailbox, a taker reads exactly the
      identifier posted last and clears it before anybody else can read it. */
  lemma MailboxIsNeverOverwritten(n: nat, acts: seq<Action>, s: State, w: nat)
    requires After(n, acts) == Some(s) && w < n
    ensures |s.workers| == n
    ensures s.main == Post ==> s.box == 0 && |s.takers| == s.turn
    ensures s.workers[w].Take? ==> s.box == s.turn + 1 == |s.takers| + 1
    ensures s.workers[w].Clear? ==>
              s.box == s.workers[w].id == |s.takers| && forall v: nat :: v < n && v != w ==> !WorkerLocks(s.workers[v])
  {
    ReachableInv(n, acts, s);
  }

  /** Nobody passes the second barrier before everybody has reached it, and then the workers hold
      each of the identifiers 1..n exactly once. */
  lemma IdsAreABijection(n: nat, acts: seq<Action>, s: State, k: nat) returns (holder: nat)
    requires After(n, acts) == Some(s) && 1 <= k <= n
    requires s.main == Done || exists w: nat :: w < |s.workers| && s.workers[w].Passed?
    ensures |s.workers| == n && holder < n
    ensures forall w: nat :: w < n ==> InSecond(s.workers[w]) && 1 <= s.workers[w].id <= n
    ensures s.main in {Meeting2, Done}
    ensures forall w: nat :: w < n && InSecond(s.workers[w]) ==> (s.workers[w].id == k <==> w == holder)
  {
    ReachableInv(n, acts, s);
    Pigeonhole(s.takers, n);
    holder := s.takers[k - 1];
  }

  // ---------------------------------------------------------------------------------------------
  // Liveness.

  /** No wakeup is lost: with the mailbox full no worker sleeps, unless main is just about to
      broadcast, and with it empty main does not sleep, unless the taker is just about to. */
  lemma NobodySleepsThroughAHandOff(n: nat, acts: seq<Action>, s: State, w: nat)
    requires After(n, acts) == Some(s) && w < n
    ensures |s.workers| == n
    ensures s.box != 0 && s.workers[w] == Sleeping ==> s.main == Tell
    ensures s.box == 0 && s.main == Asleep ==>
              s.mutex.ByWorker? && s.mutex.w < n && s.workers[s.mutex.w].Announce?
  {
    ReachableInv(n, acts, s);
  }

  predicate Finished(s: State)
  {
    s.main == Done && forall w: nat :: w < |s.workers| ==> s.workers[w].Passed?
  }

  predicate IsCall(act: Action)
  {
    act.Work? || act.Assign?
  }

  lemma FreeInFirstRound(s: State) returns (act: Action)
    requires Inv(s) && s.round == 0
    ensures IsCall(act) && Enabled(s, act)
  {
    if s.main == Begin {
      act := Assign;
    } else if w: nat :| w < |s.workers| && s.workers[w] == Start {
      act := Work(w);
    } else {
      SumConstant(s.workers, Waiting1, 1);
      assert false;
    }
  }

  lemma HolderIsTaker(s: State, w: nat)
    requires IdsRight(s) && w < |s.workers| && HasId(s.workers[w])
    ensures w in s.takers
  {
    var k := IdOf(s.workers[w]) - 1;
    assert s.takers[k] == w;
  }

  /** While main waits for its identifier to be taken, some worker without one can go on. */
  lemma FreeTaker(s: State) returns (w: nat)
    requires Inv(s) && s.round == 1 && s.mutex == Nobody && s.main == Asleep
    ensures w < |s.workers| && Enabled(s, Work(w))
  {
    Pigeonhole(s.takers, |s.workers|);
    assert |s.takers| < |s.workers|;
    w :| w < |s.workers| && w !in s.takers;
    if HasId(s.workers[w]) {
      HolderIsTaker(s, w);
    }
  }

  lemma FreeBetweenBarriers(s: State) returns (act: Action)
    requires Inv(s) && s.round == 1 && s.mutex == Nobody
    ensures IsCall(act) && Enabled(s, act)
  {
    if s.main == Asleep {
      var w := FreeTaker(s);
      act := Work(w);
    } else if s.main != Meeting2 {
      act := Assign;
    } else if w: nat :| w < |s.workers| && Enabled(s, Work(w)) {
      act := Work(w);
    } else {
      Pigeonhole(s.takers, |s.workers|);
      forall w: nat | w < |s.workers| ensures Waiting2(s.workers[w]) == 1 {
        assert w in s.takers && !Enabled(s, Work(w));
      }
      SumConstant(s.workers, Waiting2, 1);
      assert false;
    }
  }

  /** No deadlock: until everybody has passed both barriers, some thread can make its next call
      without waiting for a spurious wakeup. */
  lemma SomeoneCanMove(n: nat, acts: seq<Action>, s: State) returns (act: Action)
    requires After(n, acts) == Some(s) && !Finished(s)
    ensures IsCall(act) && Enabled(s, act)
  {
    ReachableInv(n, acts, s);
    if s.mutex == ByMain {
      act := Assign;
    } else if s.mutex.ByWorker? {
      act := Work(s.mutex.w);
    } else if s.round == 0 {
      act := FreeInFirstRound(s);
    } else if s.round == 1 {
      act := FreeBetweenBarriers(s);
    } else if s.main != Done {
      act := Assign;
    } else {
      var w: nat :| w < |s.workers| && !s.workers[w].Passed?;
      act := Work(w);
    }
  }

  /** How many calls a worker has before it, `b` being what a broadcast may cost the others. */
  function WorkerRank(b: nat, x: Worker): (r: int)
  {
    match x
    case Start => b + 11
    case AtBarrier1 => b + 10
    case WantLock => b + 9
    case Woken => b + 9
    case Test => b + 8
    case Sleeping => b + 7
    case Take => b + 6
    case Clear(_) => b + 5
    case Announce(_) => b + 4
    case Unlock(_) => 3
    case Before2(_) => 2
    case AtBarrier2(_) => 1
    case Passed(_) => 0
  }

  function WorkerRanks(b: nat): (f: Worker -> int)
  {
    (x: Worker) => WorkerRank(b, x)
  }

  function Times(k: nat, t: nat): (r: nat)
  {
    if k == 0 then 0 else Times(k - 1, t) + t
  }

  /** The same for main with `left` turns to go. */
  function MainRank(b: nat, left: nat, m: Main): (r: int)
  {
    Times(left, b + 8) +
    match m
    case Begin => b + 8
    case Meeting1 => b + 7
    case Lock => b + 6
    case Post => b + 5
    case Tell => b + 4
    case Roused => 3
    case Check => 2
    case Asleep => 1
    case Release => 0
    case Finish => 2
    case Meeting2 => 1
    case Done => 0
  }

  function BroadcastCost(s: State): (b: nat)
  {
    2 * |s.workers| + 2
  }

  function Measure(s: State): (m: int)
    requires s.turn <= |s.workers|
  {
    Sum(s.workers, WorkerRanks(BroadcastCost(s))) + MainRank(BroadcastCost(s), |s.workers| - s.turn, s.main)
  }

  lemma WakingCosts(ws: seq<Worker>, b: nat)
    ensures Sum(WakeAll(ws), WorkerRanks(b)) <= Sum(ws, WorkerRanks(b)) + 2 * |ws|
  {
    SumRise(ws, WakeAll(ws), WorkerRanks(b), 2);
  }

  lemma WorkerCallDecreases(s: State, w: nat)
    requires s.turn <= |s.workers| && Enabled(s, Work(w))
    ensures var r := WorkerStep(s, w);
            r.turn == s.turn && |r.workers| == |s.workers| && Measure(r) < Measure(s)
  {
    if s.workers[w].Announce? {
      AnnouncementDecreases(s, w);
    } else {
      var r, b := WorkerStep(s, w), BroadcastCost(s);
      assert r.workers == s.workers[w := r.workers[w]] && r.main == s.main;
      assert WorkerRank(b, r.workers[w]) < WorkerRank(b, s.workers[w]);
      SumUpdate(s.workers, w, r.workers[w], WorkerRanks(b));
    }
  }

  lemma AnnouncementDecreases(s: State, w: nat)
    requires s.turn <= |s.workers| && Enabled(s, Work(w)) && s.workers[w].Announce?
    ensures var r := WorkerStep(s, w);
            r.turn == s.turn && |r.workers| == |s.workers| && Measure(r) < Measure(s)
  {
    var b := BroadcastCost(s);
    WakingCosts(s.workers, b);
    SumUpdate(WakeAll(s.workers), w, Unlock(s.workers[w].id), WorkerRanks(b));
  }

  lemma MainCallDecreases(s: State)
    requires s.turn <= |s.workers| && (s.main == Release ==> s.turn < |s.workers|) && Enabled(s, Assign)
    ensures var r := MainStep(s);
            r.turn <= |s.workers| == |r.workers| && Measure(r) < Measure(s)
  {
    if s.main == Tell {
      WakingCosts(s.workers, BroadcastCost(s));
    } else if s.main == Release {
      var left := |s.workers| - s.turn;
      assert Times(left, BroadcastCost(s) + 8) == Times(left - 1, BroadcastCost(s) + 8) + BroadcastCost(s) + 8;
    }
  }

  /** Every call brings the end nearer. */
  lemma CallDecreasesMeasure(s: State, act: Action)
    requires Inv(s) && Enabled(s, act) && IsCall(act)
    ensures Apply(s, act).turn <= |s.workers| == |Apply(s, act).workers|
    ensures Measure(Apply(s, act)) < Measure(s)
  {
    if act.Work? {
      WorkerCallDecreases(s, act.w);
    } else {
      MainCallDecreases(s);
    }
  }

  /** A spurious wakeup costs at most two calls. */
  lemma SpuriousWakeupCosts(s: State, act: Action)
    requires s.turn <= |s.workers| && Enabled(s, act) && !IsCall(act)
    ensures Apply(s, act).turn <= |s.workers| == |Apply(s, act).workers|
    ensures Measure(Apply(s, act)) <= Measure(s) + 2
  {
    if act.WakeWorker? {
      SumUpdate(s.workers, act.w, Woken, WorkerRanks(BroadcastCost(s)));
    }
  }

  function Calls(acts: seq<Action>): (k: nat)
  {
    if acts == [] then 0 else Calls(acts[..|acts| - 1]) + (if IsCall(acts[|acts| - 1]) then 1 else 0)
  }

  /** The number of calls in any run is bounded by the number of its spurious wakeups: together with
      SomeoneCanMove, a run that is not woken spuriously for ever ends with everybody finished. */
  lemma {:induction false} RunsEnd(n: nat, acts: seq<Action>, s: State)
    requires After(n, acts) == Some(s)
    ensures s.turn <= |s.workers| && 0 <= Measure(s)
    ensures Calls(acts) + Measure(s) <= Measure(Initial(n)) + 2 * (|acts| - Calls(acts))
  {
    MeasureIsNatural(n, acts, s);
    if acts != [] {
      var last := |acts| - 1;
      var p := After(n, acts[..last]).value;
      RunsEnd(n, acts[..last], p);
      LastActionCounts(n, acts, p, s);
    }
  }

  lemma MeasureIsNatural(n: nat, acts: seq<Action>, s: State)
    requires After(n, acts) == Some(s)
    ensures s.turn <= |s.workers| && 0 <= Measure(s)
  {
    ReachableInv(n, acts, s);
    SumLeast(s.workers, WorkerRanks(BroadcastCost(s)), 0);
  }

  lemma LastActionCounts(n: nat, acts: seq<Action>, p: State, s: State)
    requires acts != [] && After(n, acts[..|acts| - 1]) == Some(p) && After(n, acts) == Some(s)
    ensures p.turn <= |p.workers| && s.turn <= |s.workers|
    ensures Measure(s) <= if IsCall(acts[|acts| - 1]) then Measure(p) - 1 else Measure(p) + 2
  {
    var act := acts[|acts| - 1];
    ReachableInv(n, acts[..|acts| - 1], p);
    if IsCall(act) {
      CallDecreasesMeasure(p, act);
    } else {
      SpuriousWakeupCosts(p, act);
    }
  }
}

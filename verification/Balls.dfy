/**
  Balls into bins with many throwing threads (Lab3/prog18.c).  Every lock, unlock, read and write is
  a step of its own: the counters are incremented by a separate read and write, and only the mutexes
  keep threads out of each other's way.
 */
module Balls {
  import opened Options
  import opened Tally

  datatype Thrower =
    | Idle                      // about to lock the waiting counter
    | CheckWaiting              // holds it, about to test it
    | ReadWaiting               // the test succeeded
    | WriteWaiting(seen: int)   // about to store seen - 1
    | UnlockWaiting(took: bool)
    | Throwing
    | LockBin(b: nat)
    | ReadBin(b: nat)
    | WriteBin(b: nat, seen: int)
    | UnlockBin(b: nat)
    | LockThrown
    | ReadThrown
    | WriteThrown(seen: int)
    | UnlockThrown
    | Finished

  datatype Main =
    | Sleeping                  // about to lock the thrown counter
    | Looking
    | Unlocking(bt: int)
    | Summing(next: nat, sum: int)
    | Reporting(sum: int)

  datatype Holder = Nobody | ByMain | ByThrower(t: nat)

  datatype State = State(throwers: seq<Thrower>, main: Main, waiting: int, thrown: int, bins: seq<int>,
                         lockWaiting: Holder, lockThrown: Holder, lockBins: seq<Holder>)

  datatype Action =
    | Throw(t: nat, b: nat)  // thrower t's next step; b is where a ball lands
    | Watch                  // main's next step

  /** The number of heads: the bin a ball ends up in. */
  function Heads(flips: seq<bool>): (k: nat)
    ensures k <= |flips|
  {
    if flips == [] then 0 else Heads(flips[..|flips| - 1]) + (if flips[|flips| - 1] then 1 else 0)
  }

  method ThrowBall(flips: seq<bool>) returns (result: nat)
    ensures result == Heads(flips) && result < |flips| + 1
  {
    result := 0;
    for i := 0 to |flips|
      invariant result == Heads(flips[..i])
    {
      assert flips[..i + 1][..i] == flips[..i];
      if flips[i] {
        result := result + 1;
      }
    }
    assert flips[..|flips|] == flips;
  }

  /** Heads are counted one by one: none among tails, all of them among heads, and turning one tail
      into a head adds one, wherever it is. */
  lemma {:induction false} HeadsCountsHeads(flips: seq<bool>)
    ensures (forall i :: 0 <= i < |flips| ==> !flips[i]) ==> Heads(flips) == 0
    ensures (forall i :: 0 <= i < |flips| ==> flips[i]) ==> Heads(flips) == |flips|
    ensures forall i :: 0 <= i < |flips| && !flips[i] ==> Heads(flips[i := true]) == Heads(flips) + 1
  {
    if flips != [] {
      var n := |flips| - 1;
      HeadsCountsHeads(flips[..n]);
      forall i | 0 <= i < |flips| && !flips[i] ensures Heads(flips[i := true]) == Heads(flips) + 1 {
        assert flips[i := true][..n] == if i == n then flips[..n] else flips[..n][i := true];
      }
    }
  }

  predicate Enabled(s: State, act: Action)
  {
    match act
    case Throw(t, b) =>
      t < |s.throwers| && |s.lockBins| == |s.bins| &&
      (match s.throwers[t]
       case Idle => s.lockWaiting == Nobody
       case Throwing => b < |s.bins|
       case LockBin(b') => b' < |s.bins| && s.lockBins[b'] == Nobody
       case ReadBin(b') => b' < |s.bins|
       case WriteBin(b', _) => b' < |s.bins|
       case UnlockBin(b') => b' < |s.bins|
       case LockThrown => s.lockThrown == Nobody
       case Finished => false
       case _ => true)
    case Watch =>
      match s.main
      case Sleeping => s.lockThrown == Nobody
      case Reporting(_) => false
      case _ => true
  }

  function Apply(balls: int, s: State, act: Action): (r: State)
    requires Enabled(s, act)
  {
    match act
    case Throw(t, b) =>
      (match s.throwers[t]
       case Idle => s.(throwers := s.throwers[t := CheckWaiting], lockWaiting := ByThrower(t))
       case CheckWaiting => s.(throwers := s.throwers[t := if s.waiting > 0 then ReadWaiting else UnlockWaiting(false)])
       case ReadWaiting => s.(throwers := s.throwers[t := WriteWaiting(s.waiting)])
       case WriteWaiting(seen) => s.(throwers := s.throwers[t := UnlockWaiting(true)], waiting := seen - 1)
       case UnlockWaiting(took) =>
         s.(throwers := s.throwers[t := if took then Throwing else Finished], lockWaiting := Nobody)
       case Throwing => s.(throwers := s.throwers[t := LockBin(b)])
       case LockBin(b') => s.(throwers := s.throwers[t := ReadBin(b')], lockBins := s.lockBins[b' := ByThrower(t)])
       case ReadBin(b') => s.(throwers := s.throwers[t := WriteBin(b', s.bins[b'])])
       case WriteBin(b', seen) => s.(throwers := s.throwers[t := UnlockBin(b')], bins := s.bins[b' := seen + 1])
       case UnlockBin(b') => s.(throwers := s.throwers[t := LockThrown], lockBins := s.lockBins[b' := Nobody])
       case LockThrown => s.(throwers := s.throwers[t := ReadThrown], lockThrown := ByThrower(t))
       case ReadThrown => s.(throwers := s.throwers[t := WriteThrown(s.thrown)])
       case WriteThrown(seen) => s.(throwers := s.throwers[t := UnlockThrown], thrown := seen + 1)
       case UnlockThrown => s.(throwers := s.throwers[t := Idle], lockThrown := Nobody))
    case Watch =>
      match s.main
      case Sleeping => s.(main := Looking, lockThrown := ByMain)
      case Looking => s.(main := Unlocking(s.thrown))
      case Unlocking(bt) => s.(main := if bt < balls then Sleeping else Summing(0, 0), lockThrown := Nobody)
      case Summing(i, sum) =>
        s.(main := if i < |s.bins| then Summing(i + 1, sum + s.bins[i]) else Reporting(sum))
  }

  function Initial(balls: int, throwers: nat, bins: nat): (s: State)
  {
    State(seq(throwers, _ => Idle), Sleeping, balls, 0, seq(bins, _ => 0),
          Nobody, Nobody, seq(bins, _ => Nobody))
  }

  function After(balls: int, throwers: nat, bins: nat, acts: seq<Action>): (s: Option<State>)
  {
    if acts == [] then Some(Initial(balls, throwers, bins))
    else
      match After(balls, throwers, bins, acts[..|acts| - 1])
      case None => None
      case Some(p) =>
        if Enabled(p, acts[|acts| - 1]) then Some(Apply(balls, p, acts[|acts| - 1])) else None
  }

  // ---------------------------------------------------------------------------------------------
  // The invariant.

  /** A ball taken but not yet counted as thrown. */
  function InFlight(x: Thrower): (k: int)
  {
    match x
    case UnlockWaiting(took) => if took then 1 else 0
    case Throwing => 1
    case LockBin(_) => 1
    case ReadBin(_) => 1
    case WriteBin(_, _) => 1
    case UnlockBin(_) => 1
    case LockThrown => 1
    case ReadThrown => 1
    case WriteThrown(_) => 1
    case _ => 0
  }

  /** A ball in its bin but not yet counted as thrown. */
  function Binned(x: Thrower): (k: int)
  {
    if x.UnlockBin? || x.LockThrown? || x.ReadThrown? || x.WriteThrown? then 1 else 0
  }

  function Id(k: int): (r: int)
  {
    k
  }

  predicate InWaiting(x: Thrower)
  {
    x.CheckWaiting? || x.ReadWaiting? || x.WriteWaiting? || x.UnlockWaiting?
  }

  predicate InThrown(x: Thrower)
  {
    x.ReadThrown? || x.WriteThrown? || x.UnlockThrown?
  }

  predicate InBin(x: Thrower, b: nat)
  {
    (x.ReadBin? || x.WriteBin? || x.UnlockBin?) && x.b == b
  }

  /** A mutex is held by exactly the thread that is inside its section. */
  ghost predicate LocksRight(s: State)
  {
    && |s.lockBins| == |s.bins|
    && (forall t: nat :: t < |s.throwers| ==>
          && (InWaiting(s.throwers[t]) <==> s.lockWaiting == ByThrower(t))
          && (InThrown(s.throwers[t]) <==> s.lockThrown == ByThrower(t)))
    && (forall t: nat, b: nat :: t < |s.throwers| && b < |s.bins| ==>
          (InBin(s.throwers[t], b) <==> s.lockBins[b] == ByThrower(t)))
    && (s.main.Looking? || s.main.Unlocking? <==> s.lockThrown == ByMain)
  }

  /** A held mutex has an existing holder inside its section. */
  ghost predicate CounterHolders(s: State)
  {
    && (s.lockWaiting != Nobody ==>
          s.lockWaiting.ByThrower? && s.lockWaiting.t < |s.throwers| && InWaiting(s.throwers[s.lockWaiting.t]))
    && (s.lockThrown.ByThrower? ==> s.lockThrown.t < |s.throwers| && InThrown(s.throwers[s.lockThrown.t]))
  }

  ghost predicate BinHolders(s: State)
  {
    forall b: nat :: b < |s.lockBins| && s.lockBins[b] != Nobody ==>
      s.lockBins[b].ByThrower? && s.lockBins[b].t < |s.throwers| && InBin(s.throwers[s.lockBins[b].t], b)
  }

  ghost predicate BinsExist(s: State)
  {
    forall t: nat :: t < |s.throwers| ==> BinExists(s.throwers[t], |s.bins|)
  }

  predicate BinExists(x: Thrower, bins: nat)
  {
    x.LockBin? || x.ReadBin? || x.WriteBin? || x.UnlockBin? ==> x.b < bins
  }

  /** A thrower gives up only when no ball is waiting. */
  ghost predicate QuitRight(s: State)
  {
    forall t: nat :: t < |s.throwers| && (s.throwers[t] == Finished || s.throwers[t] == UnlockWaiting(false)) ==>
      s.waiting == 0
  }

  /** What a thread read inside a section is still there. */
  ghost predicate ReadsCurrent(s: State)
  {
    && 0 <= s.waiting
    && forall t: nat :: t < |s.throwers| ==>
         && (s.throwers[t].ReadWaiting? ==> 0 < s.waiting)
         && (s.throwers[t].WriteWaiting? ==> s.throwers[t].seen == s.waiting && 0 < s.waiting)
         && (s.throwers[t].WriteThrown? ==> s.throwers[t].seen == s.thrown)
         && (s.throwers[t].WriteBin? ==> s.throwers[t].b < |s.bins| && s.throwers[t].seen == s.bins[s.throwers[t].b])
  }

  ghost predicate Conserved(balls: int, s: State)
  {
    && s.waiting + Sum(s.throwers, InFlight) + s.thrown == balls
    && Sum(s.bins, Id) == s.thrown + Sum(s.throwers, Binned)
  }

  ghost predicate MainRight(balls: int, s: State)
  {
    && (s.main.Unlocking? ==> s.main.bt <= s.thrown)
    && (s.main.Summing? ==>
          s.thrown == balls && s.main.next <= |s.bins| && s.main.sum == Sum(s.bins[..s.main.next], Id))
    && (s.main.Reporting? ==> s.thrown == balls && s.main.sum == balls)
  }

  ghost predicate Inv(balls: int, s: State)
  {
    && LocksRight(s) && CounterHolders(s) && BinHolders(s) && BinsExist(s)
    && ReadsCurrent(s) && QuitRight(s) && Conserved(balls, s) && MainRight(balls, s)
  }

  lemma InitialInv(balls: nat, throwers: nat, bins: nat)
    ensures Inv(balls, Initial(balls, throwers, bins))
  {
    var s := Initial(balls, throwers, bins);
    SumConstant(s.throwers, InFlight, 0);
    SumConstant(s.throwers, Binned, 0);
    SumConstant(s.bins, Id, 0);
  }

  lemma StepKeepsLocks(balls: int, s: State, act: Action)
    requires LocksRight(s) && Enabled(s, act)
    ensures LocksRight(Apply(balls, s, act))
  {
  }

  lemma StepKeepsCounterHolders(balls: int, s: State, act: Action)
    requires LocksRight(s) && CounterHolders(s) && Enabled(s, act)
    ensures CounterHolders(Apply(balls, s, act))
  {
  }

  lemma StepKeepsBinHolders(balls: int, s: State, act: Action)
    requires LocksRight(s) && BinHolders(s) && Enabled(s, act)
    ensures BinHolders(Apply(balls, s, act))
  {
    var r := Apply(balls, s, act);
    forall b: nat | b < |r.lockBins| && r.lockBins[b] != Nobody
      ensures r.lockBins[b].ByThrower? && r.lockBins[b].t < |r.throwers| && InBin(r.throwers[r.lockBins[b].t], b)
    {
      if act.Throw? && s.lockBins[b] == ByThrower(act.t) {
        assert InBin(s.throwers[act.t], b);
      }
    }
  }

  lemma StepKeepsBins(balls: int, s: State, act: Action)
    requires BinsExist(s) && Enabled(s, act)
    ensures BinsExist(Apply(balls, s, act))
  {
  }

  lemma StepKeepsQuits(balls: int, s: State, act: Action)
    requires ReadsCurrent(s) && QuitRight(s) && Enabled(s, act)
    ensures QuitRight(Apply(balls, s, act))
  {
  }

  lemma StepKeepsReads(balls: int, s: State, act: Action)
    requires LocksRight(s) && ReadsCurrent(s) && Enabled(s, act)
    ensures ReadsCurrent(Apply(balls, s, act))
  {
    var r := Apply(balls, s, act);
    forall u: nat | u < |s.throwers| && s.throwers[u].WriteBin?
      ensures InBin(s.throwers[u], s.throwers[u].b) && s.lockBins[s.throwers[u].b] == ByThrower(u)
    {
      assert InBin(s.throwers[u], s.throwers[u].b);
    }
    forall u: nat | u < |r.throwers|
      ensures r.throwers[u].WriteBin? ==> r.throwers[u].b < |r.bins| && r.throwers[u].seen == r.bins[r.throwers[u].b]
      ensures r.throwers[u].WriteWaiting? ==> r.throwers[u].seen == r.waiting && 0 < r.waiting
      ensures r.throwers[u].WriteThrown? ==> r.throwers[u].seen == r.thrown
      ensures r.throwers[u].ReadWaiting? ==> 0 < r.waiting
    {
      assert act.Throw? ==> (InWaiting(s.throwers[u]) && InWaiting(s.throwers[act.t]) ==> u == act.t);
      assert act.Throw? ==> (InThrown(s.throwers[u]) && InThrown(s.throwers[act.t]) ==> u == act.t);
    }
  }

  lemma StepConserves(balls: int, s: State, act: Action)
    requires ReadsCurrent(s) && Conserved(balls, s) && Enabled(s, act)
    ensures Conserved(balls, Apply(balls, s, act))
  {
    if act.Throw? {
      ThrowConservesBalls(balls, s, act);
      ThrowConservesBins(balls, s, act);
    }
  }

  lemma ThrowConservesBalls(balls: int, s: State, act: Action)
    requires ReadsCurrent(s) && Enabled(s, act) && act.Throw?
    ensures var r := Apply(balls, s, act);
            r.waiting + Sum(r.throwers, InFlight) + r.thrown == s.waiting + Sum(s.throwers, InFlight) + s.thrown
  {
    var r := Apply(balls, s, act);
    assert r.throwers == s.throwers[act.t := r.throwers[act.t]];
    SumUpdate(s.throwers, act.t, r.throwers[act.t], InFlight);
  }

  lemma ThrowConservesBins(balls: int, s: State, act: Action)
    requires ReadsCurrent(s) && Enabled(s, act) && act.Throw?
    ensures var r := Apply(balls, s, act);
            Sum(r.bins, Id) - r.thrown - Sum(r.throwers, Binned) == Sum(s.bins, Id) - s.thrown - Sum(s.throwers, Binned)
  {
    var r := Apply(balls, s, act);
    assert r.throwers == s.throwers[act.t := r.throwers[act.t]];
    SumUpdate(s.throwers, act.t, r.throwers[act.t], Binned);
    if s.throwers[act.t].WriteBin? {
      var b := s.throwers[act.t].b;
      SumUpdate(s.bins, b, r.bins[b], Id);
      assert r.bins == s.bins[b := r.bins[b]];
    } else {
      assert r.bins == s.bins;
    }
  }

  /** With every ball counted nobody has a ball in flight. */
  lemma NoneInFlight(balls: int, s: State)
    requires ReadsCurrent(s) && Conserved(balls, s) && s.thrown == balls
    ensures s.waiting == 0 && forall t: nat :: t < |s.throwers| ==> InFlight(s.throwers[t]) == 0
    ensures Sum(s.bins, Id) == balls
  {
    SumLeast(s.throwers, InFlight, 0);
    forall t: nat | t < |s.throwers| ensures InFlight(s.throwers[t]) == 0 {
      SumIncludes(s.throwers, InFlight, t);
    }
    SumConstant(s.throwers, Binned, 0);
  }

  lemma ThrownAtMostAll(balls: int, s: State)
    requires ReadsCurrent(s) && Conserved(balls, s)
    ensures s.thrown <= balls
  {
    SumLeast(s.throwers, InFlight, 0);
  }

  lemma StepKeepsMain(balls: int, s: State, act: Action)
    requires Inv(balls, s) && Enabled(s, act)
    ensures MainRight(balls, Apply(balls, s, act))
  {
    ThrownAtMostAll(balls, s);
    if s.thrown == balls {
      NoneInFlight(balls, s);
    }
    if act.Watch? && s.main.Summing? {
      var i := s.main.next;
      if i < |s.bins| {
        assert s.bins[..i + 1][..i] == s.bins[..i];
      } else {
        assert s.bins[..i] == s.bins;
      }
    }
  }

  lemma {:induction false} ReachableInv(balls: nat, throwers: nat, bins: nat, acts: seq<Action>, s: State)
    requires After(balls, throwers, bins, acts) == Some(s)
    ensures Inv(balls, s)
  {
    if acts == [] {
      InitialInv(balls, throwers, bins);
    } else {
      var act := acts[|acts| - 1];
      var p := After(balls, throwers, bins, acts[..|acts| - 1]).value;
      ReachableInv(balls, throwers, bins, acts[..|acts| - 1], p);
      StepKeepsLocks(balls, p, act);
      StepKeepsCounterHolders(balls, p, act);
      StepKeepsBinHolders(balls, p, act);
      StepKeepsBins(balls, p, act);
      StepKeepsReads(balls, p, act);
      StepKeepsQuits(balls, p, act);
      StepConserves(balls, p, act);
      StepKeepsMain(balls, p, act);
    }
  }

  // ---------------------------------------------------------------------------------------------

  /** In every interleaving no ball is lost or doubled: every ball is waiting, in some thrower's
      hands, or thrown, and the bins hold the thrown balls and those binned but not yet counted. */
  lemma BallsAreConserved(balls: nat, throwers: nat, bins: nat, acts: seq<Action>, s: State)
    requires After(balls, throwers, bins, acts) == Some(s)
    ensures 0 <= s.waiting && s.waiting + Sum(s.throwers, InFlight) + s.thrown == balls
    ensures Sum(s.bins, Id) == s.thrown + Sum(s.throwers, Binned)
    ensures s.main.Reporting? ==> s.main.sum == balls
  {
    ReachableInv(balls, throwers, bins, acts, s);
  }

  /** Once all balls are counted as thrown the bins sum up to them and, however the run goes on, no
      bin is written again: main may add them up without locks. */
  lemma {:induction false} BinsAreQuiet(balls: nat, throwers: nat, bins: nat, acts: seq<Action>, more: seq<Action>,
                                       s: State, r: State)
    requires After(balls, throwers, bins, acts) == Some(s) && s.thrown == balls
    requires After(balls, throwers, bins, acts + more) == Some(r)
    ensures r.bins == s.bins && r.thrown == balls && Sum(s.bins, Id) == balls
    decreases |more|
  {
    if more == [] {
      assert acts + more == acts;
      ReachableInv(balls, throwers, bins, acts, s);
      NoneInFlight(balls, s);
    } else {
      var last := |more| - 1;
      assert (acts + more)[..|acts + more| - 1] == acts + more[..last];
      var p := After(balls, throwers, bins, acts + more[..last]).value;
      BinsAreQuiet(balls, throwers, bins, acts, more[..last], s, p);
      ReachableInv(balls, throwers, bins, acts + more[..last], p);
      NoneInFlight(balls, p);
    }
  }

  /** Main looks at the bins only when that is so. */
  lemma MainSumsQuietBins(balls: nat, throwers: nat, bins: nat, acts: seq<Action>, s: State)
    requires After(balls, throwers, bins, acts) == Some(s) && (s.main.Summing? || s.main.Reporting?)
    ensures s.thrown == balls && s.waiting == 0
    ensures forall t: nat :: t < |s.throwers| ==> InFlight(s.throwers[t]) == 0
  {
    ReachableInv(balls, throwers, bins, acts, s);
    NoneInFlight(balls, s);
  }

  // ---------------------------------------------------------------------------------------------
  // All balls do get thrown.

  /** Until all balls are counted some thrower can take a step, unless main is just looking at the
      counter: the mutexes never deadlock and nobody gives up early. */
  lemma SomeThrowerCanMove(balls: nat, throwers: nat, bins: nat, acts: seq<Action>, s: State) returns (t: nat, b: nat)
    requires After(balls, throwers, bins, acts) == Some(s)
    requires 0 < |s.throwers| && 0 < |s.bins| && s.thrown < balls && !s.main.Looking? && !s.main.Unlocking?
    ensures Enabled(s, Throw(t, b))
  {
    ReachableInv(balls, throwers, bins, acts, s);
    t, b := 0, 0;
    if s.throwers[0].Finished? {
      t := SumWitness(s.throwers, InFlight);
    }
    assert BinExists(s.throwers[t], |s.bins|);
    match s.throwers[t]
    case Idle => if s.lockWaiting != Nobody { t := s.lockWaiting.t; }
    case LockThrown => if s.lockThrown != Nobody { t := s.lockThrown.t; }
    case LockBin(k) => if s.lockBins[k] != Nobody { t := s.lockBins[k].t; }
    case _ =>
  }

  /** Steps a thrower may still take before it needs another ball. */
  function Ahead(x: Thrower): (k: int)
  {
    match x
    case Finished => 0
    case WriteWaiting(_) => 0
    case ReadWaiting => 1
    case CheckWaiting => 2
    case Idle => 3
    case UnlockThrown => 4
    case WriteThrown(_) => 5
    case ReadThrown => 6
    case LockThrown => 7
    case UnlockBin(_) => 8
    case WriteBin(_, _) => 9
    case ReadBin(_) => 10
    case LockBin(_) => 11
    case Throwing => 12
    case UnlockWaiting(took) => if took then 13 else 1
  }

  function Throws(acts: seq<Action>): (k: nat)
  {
    if acts == [] then 0 else Throws(acts[..|acts| - 1]) + (if acts[|acts| - 1].Throw? then 1 else 0)
  }

  /** In any run the throwers take at most fourteen steps per ball and three more each. */
  lemma {:induction false} ThrowersEnd(balls: nat, throwers: nat, bins: nat, acts: seq<Action>, s: State)
    requires After(balls, throwers, bins, acts) == Some(s)
    ensures Throws(acts) + Sum(s.throwers, Ahead) + 14 * s.waiting <= 3 * throwers + 14 * balls
    ensures Throws(acts) <= 3 * throwers + 14 * balls
  {
    ReachableInv(balls, throwers, bins, acts, s);
    SumLeast(s.throwers, Ahead, 0);
    if acts == [] {
      SumConstant(s.throwers, Ahead, 3);
    } else {
      var act := acts[|acts| - 1];
      var p := After(balls, throwers, bins, acts[..|acts| - 1]).value;
      ThrowersEnd(balls, throwers, bins, acts[..|acts| - 1], p);
      ReachableInv(balls, throwers, bins, acts[..|acts| - 1], p);
      if act.Throw? {
        ThrowCostsOne(balls, p, act);
      }
    }
  }

  lemma ThrowCostsOne(balls: int, s: State, act: Action)
    requires ReadsCurrent(s) && Enabled(s, act) && act.Throw?
    ensures Sum(Apply(balls, s, act).throwers, Ahead) + 14 * Apply(balls, s, act).waiting
            < Sum(s.throwers, Ahead) + 14 * s.waiting
  {
    var x := Apply(balls, s, act).throwers[act.t];
    SumUpdate(s.throwers, act.t, x, Ahead);
    assert Apply(balls, s, act).throwers == s.throwers[act.t := x];
  }

  // ---------------------------------------------------------------------------------------------
  // Every ball lands in the bin drawn for it.

  /** A thrower has drawn a bin: step `act` from state `p` is the one of throwBall, with result b. */
  predicate Draws(p: State, act: Action, b: nat)
  {
    act.Throw? && act.t < |p.throwers| && p.throwers[act.t] == Throwing && act.b == b
  }

  /** The number of balls drawn for bin b along a run. */
  function DrawnFor(balls: int, throwers: nat, bins: nat, acts: seq<Action>, b: nat): (k: nat)
  {
    if acts == [] then 0
    else
      var last := |acts| - 1;
      var p := After(balls, throwers, bins, acts[..last]);
      DrawnFor(balls, throwers, bins, acts[..last], b)
      + if p.Some? && Draws(p.value, acts[last], b) then 1 else 0
  }

  /** On the way to bin b, the write still to come. */
  function BoundFor(b: nat): (f: Thrower -> int)
  {
    (x: Thrower) => if (x.LockBin? || x.ReadBin? || x.WriteBin?) && x.b == b then 1 else 0
  }

  lemma DrawMovesBin(balls: int, s: State, act: Action, b: nat)
    requires ReadsCurrent(s) && Enabled(s, act) && b < |s.bins|
    ensures var r := Apply(balls, s, act);
            && |r.bins| == |s.bins|
            && r.bins[b] + Sum(r.throwers, BoundFor(b))
               == s.bins[b] + Sum(s.throwers, BoundFor(b)) + if Draws(s, act, b) then 1 else 0
  {
    if act.Throw? {
      var r := Apply(balls, s, act);
      SumUpdate(s.throwers, act.t, r.throwers[act.t], BoundFor(b));
      assert r.throwers == s.throwers[act.t := r.throwers[act.t]];
    }
  }

  lemma NoneOnTheWay(balls: int, s: State, b: nat)
    requires ReadsCurrent(s) && Conserved(balls, s) && s.thrown == balls
    ensures Sum(s.throwers, BoundFor(b)) == 0
  {
    NoneInFlight(balls, s);
    forall t | 0 <= t < |s.throwers| ensures BoundFor(b)(s.throwers[t]) == 0 {
      assert InFlight(s.throwers[t]) == 0;
    }
    SumConstant(s.throwers, BoundFor(b), 0);
  }

  /** In every interleaving each bin holds exactly the balls drawn for it but those still on the way,
      and no others; once all balls are counted none is on the way. */
  lemma {:induction false} BinsHoldWhatWasDrawn(balls: nat, throwers: nat, bins: nat, acts: seq<Action>,
                                               s: State, b: nat)
    requires After(balls, throwers, bins, acts) == Some(s) && b < bins
    ensures |s.bins| == bins
    ensures s.bins[b] + Sum(s.throwers, BoundFor(b)) == DrawnFor(balls, throwers, bins, acts, b)
    ensures s.thrown == balls ==> s.bins[b] == DrawnFor(balls, throwers, bins, acts, b)
  {
    if acts == [] {
      SumConstant(s.throwers, BoundFor(b), 0);
    } else {
      var last := |acts| - 1;
      var p := After(balls, throwers, bins, acts[..last]).value;
      BinsHoldWhatWasDrawn(balls, throwers, bins, acts[..last], p, b);
      ReachableInv(balls, throwers, bins, acts[..last], p);
      DrawMovesBin(balls, p, acts[last], b);
    }
    if s.thrown == balls {
      ReachableInv(balls, throwers, bins, acts, s);
      NoneOnTheWay(balls, s, b);
    }
  }

  // ---------------------------------------------------------------------------------------------
  // The program can always come to its end.

  function ThrowersWork(s: State): (k: int)
  {
    Sum(s.throwers, Ahead) + 14 * s.waiting
  }

  /** Main's steps to its report once all balls are counted; before that, to its next sleep. */
  function MainWork(balls: int, s: State): (k: int)
  {
    if s.thrown < balls then (if s.main.Looking? then 2 else if s.main.Unlocking? then 1 else 0)
    else
      match s.main
      case Unlocking(bt) => if bt < balls then |s.bins| + 5 else |s.bins| + 2
      case Sleeping => |s.bins| + 4
      case Looking => |s.bins| + 3
      case Summing(i, _) => |s.bins| + 1 - i
      case Reporting(_) => 0
  }

  lemma WorkIsNatural(balls: int, s: State)
    requires Inv(balls, s)
    ensures 0 <= ThrowersWork(s) && 0 <= MainWork(balls, s)
  {
    SumLeast(s.throwers, Ahead, 0);
  }

  /** Some step leaves the throwers less to do, or leaves that and main less. */
  lemma SomeStepTowardsReport(balls: nat, throwers: nat, bins: nat, acts: seq<Action>, s: State) returns (act: Action)
    requires After(balls, throwers, bins, acts) == Some(s)
    requires 0 < |s.throwers| && 0 < |s.bins| && !s.main.Reporting?
    ensures Enabled(s, act)
    ensures ThrowersWork(Apply(balls, s, act)) < ThrowersWork(s)
            || (ThrowersWork(Apply(balls, s, act)) == ThrowersWork(s)
                && MainWork(balls, Apply(balls, s, act)) < MainWork(balls, s))
  {
    ReachableInv(balls, throwers, bins, acts, s);
    ThrownAtMostAll(balls, s);
    act := Watch;
    if s.thrown < balls && !s.main.Looking? && !s.main.Unlocking? {
      var t, b := SomeThrowerCanMove(balls, throwers, bins, acts, s);
      act := Throw(t, b);
      ThrowCostsOne(balls, s, act);
    } else if s.main.Sleeping? && s.lockThrown != Nobody {
      act := Throw(s.lockThrown.t, 0);
      ThrowCostsOne(balls, s, act);
    }
  }

  /** With a thrower and a bin, every run can go on until main reports all the balls. */
  lemma EveryRunCanReport(balls: nat, throwers: nat, bins: nat, acts: seq<Action>, s: State)
      returns (all: seq<Action>, r: State)
    requires After(balls, throwers, bins, acts) == Some(s) && 0 < throwers && 0 < bins
    ensures acts <= all && After(balls, throwers, bins, all) == Some(r) && r.main == Reporting(balls)
  {
    ReachableInv(balls, throwers, bins, acts, s);
    WorkIsNatural(balls, s);
    CountsStay(balls, throwers, bins, acts, s);
    all, r := ReportFrom(balls, throwers, bins, acts, s, ThrowersWork(s), MainWork(balls, s));
  }

  lemma {:induction false} CountsStay(balls: nat, throwers: nat, bins: nat, acts: seq<Action>, s: State)
    requires After(balls, throwers, bins, acts) == Some(s)
    ensures |s.throwers| == throwers && |s.bins| == bins
  {
    if acts != [] {
      CountsStay(balls, throwers, bins, acts[..|acts| - 1], After(balls, throwers, bins, acts[..|acts| - 1]).value);
    }
  }

  lemma {:induction false} ReportFrom(balls: nat, throwers: nat, bins: nat, acts: seq<Action>, s: State,
                                     work: nat, main: nat) returns (all: seq<Action>, r: State)
    requires After(balls, throwers, bins, acts) == Some(s) && 0 < throwers && 0 < bins
    requires work == ThrowersWork(s) && main == MainWork(balls, s)
    ensures acts <= all && After(balls, throwers, bins, all) == Some(r) && r.main == Reporting(balls)
    decreases work, main
  {
    ReachableInv(balls, throwers, bins, acts, s);
    CountsStay(balls, throwers, bins, acts, s);
    if s.main.Reporting? {
      all, r := acts, s;
    } else {
      var act := SomeStepTowardsReport(balls, throwers, bins, acts, s);
      var next := Apply(balls, s, act);
      assert (acts + [act])[..|acts + [act]| - 1] == acts;
      ReachableInv(balls, throwers, bins, acts + [act], next);
      WorkIsNatural(balls, next);
      all, r := ReportFrom(balls, throwers, bins, acts + [act], next, ThrowersWork(next), MainWork(balls, next));
    }
  }
}

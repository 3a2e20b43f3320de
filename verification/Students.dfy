/**
  Students passing through three years under cancellation (Lab3/prog20.c).  Each student thread
  increments and decrements per-year counters under per-year mutexes, by a separate read and write.
  Cancellation is deferred: a request may be made at any time but acts only while the thread is at
  its sleep, where the clean-up handler gives the current year's place back.
 */
module Students {
  import opened Options
  import opened Tally

  /** The years of study are 0, 1 and 2; GRADUATED is the year of the engineers. */
  const GRADUATED: nat := 3

  /** In the give-back section `kicked` tells a clean-up after a cancellation from the ordinary one. */
  datatype Student =
    | IncLock(year: nat)
    | IncRead(year: nat)
    | IncWrite(year: nat, seen: int)
    | IncUnlock(year: nat)
    | ToSleep(year: nat)    // the clean-up handler is in place, the sleep not yet entered
    | Sleeping(year: nat)
    | DecLock(year: nat, kicked: bool)
    | DecRead(year: nat, kicked: bool)
    | DecWrite(year: nat, seen: int, kicked: bool)
    | DecUnlock(year: nat, kicked: bool)
    | Finished
    | Cancelled

  datatype Main = Kicking | Joining(next: nat)

  /** `removed[i]` also says that student i has been asked to cancel: main does both together. */
  datatype State = State(students: seq<Student>, values: seq<int>, locks: seq<Option<nat>>,
                         removed: seq<bool>, present: int, main: Main)

  datatype Action =
    | Live(t: nat)       // student t's next step
    | Interrupt(t: nat)  // a pending cancellation interrupts student t's sleep
    | Kick(idx: nat)     // main kicks the drawn student
    | EndTerm            // the time is up
    | Join               // main joins the next student

  predicate Ended(x: Student)
  {
    x.Finished? || x.Cancelled?
  }

  predicate Enabled(s: State, act: Action)
  {
    match act
    case Live(t) =>
      t < |s.students| && !Ended(s.students[t]) && s.students[t].year < |s.values| == |s.locks| &&
      |s.removed| == |s.students| &&
      (s.students[t].IncLock? || s.students[t].DecLock? ==> s.locks[s.students[t].year] == None)
    case Interrupt(t) => t < |s.students| == |s.removed| && s.students[t].Sleeping? && s.removed[t]
    case Kick(idx) => s.main.Kicking? && s.present != 0 && idx < |s.removed| && !s.removed[idx]
    case EndTerm => s.main.Kicking?
    case Join => s.main.Joining? && s.main.next < |s.students| && Ended(s.students[s.main.next])
  }

  /** What student t does next. */
  function LiveStep(s: State, t: nat): (r: State)
    requires Enabled(s, Live(t))
  {
    match s.students[t]
    case IncLock(y) => s.(students := s.students[t := IncRead(y)], locks := s.locks[y := Some(t)])
    case IncRead(y) => s.(students := s.students[t := IncWrite(y, s.values[y])])
    case IncWrite(y, seen) => s.(students := s.students[t := IncUnlock(y)], values := s.values[y := seen + 1])
    case IncUnlock(y) =>
      s.(students := s.students[t := if y < GRADUATED then ToSleep(y) else Finished], locks := s.locks[y := None])
    case ToSleep(y) => s.(students := s.students[t := if s.removed[t] then DecLock(y, true) else Sleeping(y)])
    case Sleeping(y) => s.(students := s.students[t := DecLock(y, false)])
    case DecLock(y, kicked) => s.(students := s.students[t := DecRead(y, kicked)], locks := s.locks[y := Some(t)])
    case DecRead(y, kicked) => s.(students := s.students[t := DecWrite(y, s.values[y], kicked)])
    case DecWrite(y, seen, kicked) =>
      s.(students := s.students[t := DecUnlock(y, kicked)], values := s.values[y := seen - 1])
    case DecUnlock(y, kicked) =>
      s.(students := s.students[t := if kicked then Cancelled else IncLock(y + 1)], locks := s.locks[y := None])
  }

  function Apply(s: State, act: Action): (r: State)
    requires Enabled(s, act)
  {
    match act
    case Live(t) => LiveStep(s, t)
    case Interrupt(t) => s.(students := s.students[t := DecLock(s.students[t].year, true)])
    case Kick(idx) => s.(removed := s.removed[idx := true], present := s.present - 1)
    case EndTerm => s.(main := Joining(0))
    case Join => s.(main := Joining(s.main.next + 1))
  }

  function Initial(n: nat): (s: State)
  {
    State(seq(n, _ => IncLock(0)), seq(GRADUATED + 1, _ => 0), seq(GRADUATED + 1, _ => None),
          seq(n, _ => false), n, Kicking)
  }

  /** The state after the given steps of n students and main, if they can be taken. */
  function After(n: nat, acts: seq<Action>): (s: Option<State>)
  {
    if acts == [] then Some(Initial(n))
    else
      match After(n, acts[..|acts| - 1])
      case None => None
      case Some(p) => if Enabled(p, acts[|acts| - 1]) then Some(Apply(p, acts[|acts| - 1])) else None
  }

  // ---------------------------------------------------------------------------------------------
  // The invariant.

  /** A student is between having incremented year y's counter and giving that place back. */
  predicate In(y: nat, x: Student)
  {
    match x
    case IncUnlock(year) => year == y
    case ToSleep(year) => year == y
    case Sleeping(year) => year == y
    case DecLock(year, _) => year == y
    case DecRead(year, _) => year == y
    case DecWrite(year, _, _) => year == y
    case Finished => y == GRADUATED
    case _ => false
  }

  function Counted(y: nat): (f: Student -> int)
    ensures forall x :: f(x) == if In(y, x) then 1 else 0
  {
    x => if In(y, x) then 1 else 0
  }

  function Lost(x: Student): (k: int)
  {
    if x.Cancelled? then 1 else 0
  }

  function Unremoved(gone: bool): (k: int)
  {
    if gone then 0 else 1
  }

  predicate InSection(x: Student, y: nat)
  {
    (x.IncRead? || x.IncWrite? || x.IncUnlock? || x.DecRead? || x.DecWrite? || x.DecUnlock?) && x.year == y
  }

  predicate YearRight(x: Student)
  {
    !Ended(x) ==>
      x.year < (if x.IncLock? || x.IncRead? || x.IncWrite? || x.IncUnlock? then GRADUATED + 1 else GRADUATED)
  }

  predicate KickedRight(x: Student, gone: bool)
  {
    x.Cancelled? || ((x.DecLock? || x.DecRead? || x.DecWrite? || x.DecUnlock?) && x.kicked) ==> gone
  }

  ghost predicate Shape(n: nat, s: State)
  {
    && |s.students| == |s.removed| == n
    && |s.values| == |s.locks| == GRADUATED + 1
    && (forall t: nat :: t < n ==> YearRight(s.students[t]) && KickedRight(s.students[t], s.removed[t]))
  }

  /** A year's mutex is held by exactly the student inside that year's section. */
  ghost predicate LocksRight(s: State)
  {
    forall t: nat, y: nat :: t < |s.students| && y < |s.locks| ==>
      (InSection(s.students[t], y) <==> s.locks[y] == Some(t))
  }

  ghost predicate HoldersExist(s: State)
  {
    forall y: nat :: y < |s.locks| && s.locks[y].Some? ==>
      s.locks[y].value < |s.students| && InSection(s.students[s.locks[y].value], y)
  }

  /** What a student read inside a section is still there. */
  ghost predicate ReadsCurrent(s: State)
  {
    forall t: nat :: t < |s.students| && (s.students[t].IncWrite? || s.students[t].DecWrite?) ==>
      s.students[t].year < |s.values| ==> s.students[t].seen == s.values[s.students[t].year]
  }

  ghost predicate CountersRight(s: State)
  {
    forall y: nat :: y < |s.values| ==> s.values[y] == Sum(s.students, Counted(y))
  }

  ghost predicate MainRight(s: State)
  {
    && s.present == Sum(s.removed, Unremoved)
    && (s.main.Joining? ==> s.main.next <= |s.students| && forall t: nat :: t < s.main.next ==> Ended(s.students[t]))
  }

  lemma InitialInv(n: nat)
    ensures Shape(n, Initial(n)) && LocksRight(Initial(n)) && HoldersExist(Initial(n)) && ReadsCurrent(Initial(n))
    ensures CountersRight(Initial(n)) && MainRight(Initial(n))
  {
    var s := Initial(n);
    forall y: nat | y < |s.values| ensures s.values[y] == Sum(s.students, Counted(y)) {
      SumConstant(s.students, Counted(y), 0);
    }
    SumConstant(s.removed, Unremoved, 1);
  }

  lemma StepKeepsShape(n: nat, s: State, act: Action)
    requires Shape(n, s) && Enabled(s, act)
    ensures Shape(n, Apply(s, act))
  {
  }

  lemma StepKeepsLocks(n: nat, s: State, act: Action)
    requires Shape(n, s) && LocksRight(s) && Enabled(s, act)
    ensures LocksRight(Apply(s, act))
  {
    var r := Apply(s, act);
    if act.Live? {
      var own := s.students[act.t].year;
      assert YearRight(s.students[act.t]);
      assert InSection(s.students[act.t], own) <==> s.locks[own] == Some(act.t);
    }
    forall t: nat, y: nat | t < |r.students| && y < |r.locks|
      ensures InSection(r.students[t], y) <==> r.locks[y] == Some(t)
    {
      assert InSection(s.students[t], y) <==> s.locks[y] == Some(t);
    }
  }

  lemma StepKeepsHolders(n: nat, s: State, act: Action)
    requires Shape(n, s) && LocksRight(s) && HoldersExist(s) && Enabled(s, act)
    ensures HoldersExist(Apply(s, act))
  {
    if act.Live? {
      assert YearRight(s.students[act.t]);
      assert forall y: nat :: y < |s.locks| && y != s.students[act.t].year ==> !InSection(s.students[act.t], y);
    }
  }

  lemma StepKeepsReads(n: nat, s: State, act: Action)
    requires Shape(n, s) && LocksRight(s) && ReadsCurrent(s) && Enabled(s, act)
    ensures ReadsCurrent(Apply(s, act))
  {
    if act.Live? {
      var y := s.students[act.t].year;
      assert YearRight(s.students[act.t]);
      assert InSection(s.students[act.t], y) ==> s.locks[y] == Some(act.t);
      forall u: nat | u < n && u != act.t && InSection(s.students[act.t], y)
        ensures !InSection(s.students[u], y)
      {
        assert s.locks[y] != Some(u);
      }
    }
  }

  /** A student's step moves year y's counter and the student into or out of that year alike. */
  lemma StepMovesCounter(n: nat, s: State, act: Action, y: nat)
    requires Shape(n, s) && ReadsCurrent(s) && Enabled(s, act) && (act.Live? || act.Interrupt?) && y < |s.values|
    ensures Apply(s, act).values[y] - s.values[y]
         == (if In(y, Apply(s, act).students[act.t]) then 1 else 0) - (if In(y, s.students[act.t]) then 1 else 0)
  {
    assert YearRight(s.students[act.t]);
  }

  lemma StepKeepsCounter(n: nat, s: State, act: Action, y: nat)
    requires Shape(n, s) && ReadsCurrent(s) && Enabled(s, act) && (act.Live? || act.Interrupt?)
    requires y < |s.values| && s.values[y] == Sum(s.students, Counted(y))
    ensures Apply(s, act).values[y] == Sum(Apply(s, act).students, Counted(y))
  {
    var next := Apply(s, act).students[act.t];
    assert Apply(s, act).students == s.students[act.t := next];
    StepMovesCounter(n, s, act, y);
    SumUpdate(s.students, act.t, next, Counted(y));
  }

  lemma StepKeepsCounters(n: nat, s: State, act: Action)
    requires Shape(n, s) && ReadsCurrent(s) && CountersRight(s) && Enabled(s, act)
    ensures CountersRight(Apply(s, act))
  {
    if act.Live? || act.Interrupt? {
      forall y: nat | y < |s.values| ensures Apply(s, act).values[y] == Sum(Apply(s, act).students, Counted(y)) {
        StepKeepsCounter(n, s, act, y);
      }
    }
  }

  lemma StepKeepsMain(n: nat, s: State, act: Action)
    requires Shape(n, s) && MainRight(s) && Enabled(s, act)
    ensures MainRight(Apply(s, act))
  {
    if act.Kick? {
      SumUpdate(s.removed, act.idx, true, Unremoved);
    }
  }

  lemma {:induction false} ReachableInv(n: nat, acts: seq<Action>, s: State)
    requires After(n, acts) == Some(s)
    ensures Shape(n, s) && LocksRight(s) && HoldersExist(s) && ReadsCurrent(s)
    ensures CountersRight(s) && MainRight(s)
  {
    if acts == [] {
      InitialInv(n);
    } else {
      var act := acts[|acts| - 1];
      var p := After(n, acts[..|acts| - 1]).value;
      ReachableInv(n, acts[..|acts| - 1], p);
      StepKeepsShape(n, p, act);
      StepKeepsLocks(n, p, act);
      StepKeepsHolders(n, p, act);
      StepKeepsReads(n, p, act);
      StepKeepsCounters(n, p, act);
      StepKeepsMain(n, p, act);
    }
  }

  // ---------------------------------------------------------------------------------------------
  // The theorems.

  /** In every interleaving, kicks included, each year's counter is the number of students between
      its increment and its decrement, and `present` the number of students not removed. */
  lemma CountersCountStudents(n: nat, acts: seq<Action>, s: State)
    requires After(n, acts) == Some(s)
    ensures |s.values| == GRADUATED + 1
    ensures forall y: nat :: y <= GRADUATED ==> s.values[y] == Sum(s.students, Counted(y))
    ensures s.present == Sum(s.removed, Unremoved)
  {
    ReachableInv(n, acts, s);
  }

  lemma {:induction false} LostAreRemoved(xs: seq<Student>, removed: seq<bool>)
    requires |xs| == |removed| && forall t: nat :: t < |xs| ==> KickedRight(xs[t], removed[t])
    ensures Sum(removed, Unremoved) + Sum(xs, Lost) <= |xs|
  {
    if |xs| > 0 {
      var n := |xs| - 1;
      LostAreRemoved(xs[..n], removed[..n]);
      assert KickedRight(xs[n], removed[n]);
    }
  }

  lemma {:induction false} FinishedOrLost(xs: seq<Student>)
    requires forall t: nat :: t < |xs| ==> Ended(xs[t])
    ensures Sum(xs, Counted(GRADUATED)) + Sum(xs, Lost) == |xs|
  {
    if |xs| > 0 {
      var n := |xs| - 1;
      FinishedOrLost(xs[..n]);
      assert Ended(xs[n]);
    }
  }

  /** After all joins the three years are empty and the engineers are all but those whose
      cancellation took effect; they are at least the students never kicked, and at most all. */
  lemma CountersAfterAllJoins(n: nat, acts: seq<Action>, s: State)
    requires After(n, acts) == Some(s) && s.main == Joining(n)
    ensures |s.values| == GRADUATED + 1 && forall y: nat :: y < GRADUATED ==> s.values[y] == 0
    ensures s.values[GRADUATED] == n - Sum(s.students, Lost)
    ensures 0 <= s.present <= s.values[GRADUATED] <= n
  {
    ReachableInv(n, acts, s);
    forall y: nat | y < GRADUATED ensures s.values[y] == 0 {
      SumConstant(s.students, Counted(y), 0);
    }
    FinishedOrLost(s.students);
    LostAreRemoved(s.students, s.removed);
    SumLeast(s.removed, Unremoved, 0);
    SumLeast(s.students, Lost, 0);
  }

  /** A kicked student who has yet to enter a sleep without the request, or is cleaning up. */
  predicate Doomed(x: Student)
  {
    match x
    case IncLock(y) => y < GRADUATED
    case IncRead(y) => y < GRADUATED
    case IncWrite(y, _) => y < GRADUATED
    case IncUnlock(y) => y < GRADUATED
    case ToSleep(_) => true
    case Sleeping(y) => y + 1 < GRADUATED
    case DecLock(y, kicked) => kicked || y + 1 < GRADUATED
    case DecRead(y, kicked) => kicked || y + 1 < GRADUATED
    case DecWrite(y, _, kicked) => kicked || y + 1 < GRADUATED
    case DecUnlock(y, kicked) => kicked || y + 1 < GRADUATED
    case Finished => false
    case Cancelled => true
  }

  lemma StepKeepsDoomed(n: nat, s: State, act: Action, t: nat)
    requires Shape(n, s) && Enabled(s, act) && t < n && s.removed[t] && Doomed(s.students[t])
    ensures Shape(n, Apply(s, act)) && Apply(s, act).removed[t] && Doomed(Apply(s, act).students[t])
  {
    StepKeepsShape(n, s, act);
    assert YearRight(s.students[t]);
  }

  lemma LastStep(n: nat, acts: seq<Action>, act: Action, r: State) returns (p: State)
    requires After(n, acts + [act]) == Some(r)
    ensures After(n, acts) == Some(p) && Enabled(p, act) && r == Apply(p, act)
  {
    assert (acts + [act])[..|acts + [act]| - 1] == acts;
    p := After(n, acts).value;
  }

  lemma RunStepKeepsDoomed(n: nat, acts: seq<Action>, p: State, act: Action, t: nat)
    requires After(n, acts) == Some(p) && Enabled(p, act)
    requires t < |p.students| == |p.removed| == n && p.removed[t] && Doomed(p.students[t])
    ensures var r := Apply(p, act);
            |r.students| == |r.removed| == n && r.removed[t] && Doomed(r.students[t])
  {
    ReachableInv(n, acts, p);
    StepKeepsDoomed(n, p, act, t);
  }

  /** A student kicked before the last sleep is entered never becomes an engineer: however the run
      goes on, such a student can only end cancelled. */
  lemma {:induction false} KickedInTimeNeverGraduates(n: nat, acts: seq<Action>, more: seq<Action>,
                                                      s: State, r: State, t: nat)
    requires After(n, acts) == Some(s) && After(n, acts + more) == Some(r)
    requires t < n == |s.students| == |s.removed| && s.removed[t] && Doomed(s.students[t])
    ensures |r.students| == |r.removed| == n && r.removed[t] && Doomed(r.students[t])
    ensures Ended(r.students[t]) ==> r.students[t] == Cancelled
    decreases |more|
  {
    if more == [] {
      assert acts + more == acts;
    } else {
      var last := |more| - 1;
      assert acts + more == (acts + more[..last]) + [more[last]];
      var p := LastStep(n, acts + more[..last], more[last], r);
      KickedInTimeNeverGraduates(n, acts, more[..last], s, p, t);
      RunStepKeepsDoomed(n, acts + more[..last], p, more[last], t);
    }
  }

  /** While somebody has not ended, some student can take a step: the year mutexes never deadlock. */
  lemma SomeStudentCanMove(n: nat, acts: seq<Action>, s: State, t: nat) returns (u: nat)
    requires After(n, acts) == Some(s)
    requires t < |s.students| && !Ended(s.students[t])
    ensures Enabled(s, Live(u))
  {
    ReachableInv(n, acts, s);
    assert YearRight(s.students[t]);
    u := t;
    if !Enabled(s, Live(t)) {
      u := s.locks[s.students[t].year].value;
      assert YearRight(s.students[u]);
    }
  }

  /** Steps a student may still take. */
  function Ahead(x: Student): (k: int)
    ensures 0 <= k
  {
    match x
    case IncLock(y) => if y <= GRADUATED then 10 * (GRADUATED - y) + 4 else 0
    case IncRead(y) => if y <= GRADUATED then 10 * (GRADUATED - y) + 3 else 0
    case IncWrite(y, _) => if y <= GRADUATED then 10 * (GRADUATED - y) + 2 else 0
    case IncUnlock(y) => if y <= GRADUATED then 10 * (GRADUATED - y) + 1 else 0
    case ToSleep(y) => if y < GRADUATED then 10 * (GRADUATED - y) else 0
    case Sleeping(y) => if y < GRADUATED then 10 * (GRADUATED - y) - 1 else 0
    case DecLock(y, _) => if y < GRADUATED then 10 * (GRADUATED - y) - 2 else 0
    case DecRead(y, _) => if y < GRADUATED then 10 * (GRADUATED - y) - 3 else 0
    case DecWrite(y, _, _) => if y < GRADUATED then 10 * (GRADUATED - y) - 4 else 0
    case DecUnlock(y, _) => if y < GRADUATED then 10 * (GRADUATED - y) - 5 else 0
    case _ => 0
  }

  predicate ByStudent(act: Action)
  {
    act.Live? || act.Interrupt?
  }

  function StudentSteps(acts: seq<Action>): (k: nat)
  {
    if acts == [] then 0 else StudentSteps(acts[..|acts| - 1]) + (if ByStudent(acts[|acts| - 1]) then 1 else 0)
  }

  lemma AheadFalls(n: nat, s: State, act: Action)
    requires Shape(n, s) && Enabled(s, act)
    ensures Sum(Apply(s, act).students, Ahead) <= Sum(s.students, Ahead) - (if ByStudent(act) then 1 else 0)
  {
    if ByStudent(act) {
      var x := Apply(s, act).students[act.t];
      assert YearRight(s.students[act.t]);
      assert Apply(s, act).students == s.students[act.t := x];
      assert Ahead(x) < Ahead(s.students[act.t]);
      SumUpdate(s.students, act.t, x, Ahead);
    }
  }

  /** The students take at most 34 steps each, so main's joins all come to an end. */
  lemma {:induction false} StudentsEnd(n: nat, acts: seq<Action>, s: State)
    requires After(n, acts) == Some(s)
    ensures StudentSteps(acts) + Sum(s.students, Ahead) <= 34 * n
    ensures StudentSteps(acts) <= 34 * n
  {
    SumLeast(s.students, Ahead, 0);
    if acts == [] {
      SumMost(s.students, Ahead, 34);
    } else {
      var p := After(n, acts[..|acts| - 1]).value;
      StudentsEnd(n, acts[..|acts| - 1], p);
      ReachableInv(n, acts[..|acts| - 1], p);
      AheadFalls(n, p, acts[|acts| - 1]);
    }
  }

  // ---------------------------------------------------------------------------------------------
  // The years a student passes through.

  /** The year whose counter student t's step `act` increments from state `p`, if it does. */
  function IncrementBy(p: Option<State>, act: Action, t: nat): (years: seq<nat>)
  {
    if p.Some? && act == Live(t) && t < |p.value.students| && p.value.students[t].IncWrite?
    then [p.value.students[t].year] else []
  }

  function DecrementBy(p: Option<State>, act: Action, t: nat): (years: seq<nat>)
  {
    if p.Some? && act == Live(t) && t < |p.value.students| && p.value.students[t].DecWrite?
    then [p.value.students[t].year] else []
  }

  /** The years student t has incremented along a run, in order. */
  function Incremented(n: nat, acts: seq<Action>, t: nat): (years: seq<nat>)
  {
    if acts == [] then []
    else
      var last := |acts| - 1;
      Incremented(n, acts[..last], t) + IncrementBy(After(n, acts[..last]), acts[last], t)
  }

  /** The years student t has decremented along a run, in order. */
  function Decremented(n: nat, acts: seq<Action>, t: nat): (years: seq<nat>)
  {
    if acts == [] then []
    else
      var last := |acts| - 1;
      Decremented(n, acts[..last], t) + DecrementBy(After(n, acts[..last]), acts[last], t)
  }

  /** How many years a student has incremented and how many it has decremented, by where it is; a
      cancelled one has as many of both, at least one and at most three. */
  predicate Passed(x: Student, begun: nat, ended: nat)
  {
    match x
    case IncLock(y) => begun == ended == y
    case IncRead(y) => begun == ended == y
    case IncWrite(y, _) => begun == ended == y
    case IncUnlock(y) => begun == y + 1 && ended == y
    case ToSleep(y) => begun == y + 1 && ended == y
    case Sleeping(y) => begun == y + 1 && ended == y
    case DecLock(y, _) => begun == y + 1 && ended == y
    case DecRead(y, _) => begun == y + 1 && ended == y
    case DecWrite(y, _, _) => begun == y + 1 && ended == y
    case DecUnlock(y, _) => begun == ended == y + 1
    case Finished => begun == 4 && ended == 3
    case Cancelled => 1 <= begun == ended <= 3
  }

  /** One step writes at most one of its student's counters, the next one in order. */
  lemma StepKeepsPassed(n: nat, s: State, act: Action, t: nat, begun: nat, ended: nat)
    requires Shape(n, s) && Enabled(s, act) && t < n && Passed(s.students[t], begun, ended)
    ensures var inc, dec := IncrementBy(Some(s), act, t), DecrementBy(Some(s), act, t);
            && Passed(Apply(s, act).students[t], begun + |inc|, ended + |dec|)
            && (inc != [] ==> inc == [begun] && begun < 4)
            && (dec != [] ==> dec == [ended] && ended < 3)
  {
    assert YearRight(s.students[t]);
  }

  lemma NextYear(years: seq<nat>, k: nat, next: seq<nat>)
    requires k <= 4 && years == [0, 1, 2, 3][..k]
    requires next == [] || (next == [k] && k < 4)
    ensures k + |next| <= 4 && years + next == [0, 1, 2, 3][..k + |next|]
  {
  }

  lemma StepToNextYear(n: nat, s: State, act: Action, t: nat, b: nat, e: nat, inc: seq<nat>, dec: seq<nat>)
      returns (begun: nat, ended: nat)
    requires Shape(n, s) && Enabled(s, act) && t < n && Passed(s.students[t], b, e) && b <= 4 && e <= 3
    requires inc == [0, 1, 2, 3][..b] && dec == [0, 1, 2, 3][..e]
    ensures Shape(n, Apply(s, act)) && Passed(Apply(s, act).students[t], begun, ended) && begun <= 4 && ended <= 3
    ensures inc + IncrementBy(Some(s), act, t) == [0, 1, 2, 3][..begun]
    ensures dec + DecrementBy(Some(s), act, t) == [0, 1, 2, 3][..ended]
  {
    StepKeepsShape(n, s, act);
    StepKeepsPassed(n, s, act, t, b, e);
    NextYear(inc, b, IncrementBy(Some(s), act, t));
    NextYear(dec, e, DecrementBy(Some(s), act, t));
    begun, ended := b + |IncrementBy(Some(s), act, t)|, e + |DecrementBy(Some(s), act, t)|;
  }

  lemma {:induction false} YearsByPosition(n: nat, acts: seq<Action>, s: State, t: nat) returns (begun: nat, ended: nat)
    requires After(n, acts) == Some(s) && t < n
    ensures |s.students| == n && Passed(s.students[t], begun, ended) && begun <= 4 && ended <= 3
    ensures Incremented(n, acts, t) == [0, 1, 2, 3][..begun]
    ensures Decremented(n, acts, t) == [0, 1, 2, 3][..ended]
  {
    if acts == [] {
      begun, ended := 0, 0;
    } else {
      var last := |acts| - 1;
      var p := After(n, acts[..last]).value;
      begun, ended := YearsByPosition(n, acts[..last], p, t);
      ReachableInv(n, acts[..last], p);
      begun, ended := StepToNextYear(n, p, acts[last], t, begun, ended,
                                     Incremented(n, acts[..last], t), Decremented(n, acts[..last], t));
    }
  }

  /** Every student passes through the years in order: those incremented so far are 0, 1, ... up to
      the current one, those decremented the same but for a year still held.  An engineer has
      incremented 0 to 3 and decremented 0 to 2, once each; a cancelled student has given back
      exactly the years it began. */
  lemma YearsInOrder(n: nat, acts: seq<Action>, s: State, t: nat)
    requires After(n, acts) == Some(s) && t < n
    ensures |s.students| == n
    ensures Incremented(n, acts, t) <= [0, 1, 2, 3] && Decremented(n, acts, t) <= [0, 1, 2]
    ensures var x, inc, dec := s.students[t], Incremented(n, acts, t), Decremented(n, acts, t);
            && (x == Finished ==> inc == [0, 1, 2, 3] && dec == [0, 1, 2])
            && (x == Cancelled ==> inc == dec && 1 <= |inc| <= 3)
            && (x.IncLock? || x.IncRead? || x.IncWrite? ==> |inc| == |dec| == x.year)
            && (x.DecUnlock? ==> |inc| == |dec| == x.year + 1)
            && (x.IncUnlock? || x.ToSleep? || x.Sleeping? || x.DecLock? || x.DecRead? || x.DecWrite? ==>
                  |inc| == x.year + 1 && |dec| == x.year)
  {
    var begun, ended := YearsByPosition(n, acts, s, t);
  }

  /** A kick that reaches a sleeping student cancels it, in the last year too. */
  lemma KickedAsleepNeverGraduates(n: nat, acts: seq<Action>, more: seq<Action>, s: State, r: State, t: nat)
    requires After(n, acts) == Some(s) && Enabled(s, Interrupt(t))
    requires After(n, acts + [Interrupt(t)] + more) == Some(r)
    ensures t < n == |r.students| && (Ended(r.students[t]) ==> r.students[t] == Cancelled)
  {
    ReachableInv(n, acts, s);
    var cut := acts + [Interrupt(t)];
    assert cut[..|cut| - 1] == acts;
    KickedInTimeNeverGraduates(n, cut, more, Apply(s, Interrupt(t)), r, t);
  }

  /** Nobody is cancelled without having been kicked. */
  lemma UnkickedGraduates(n: nat, acts: seq<Action>, s: State, t: nat)
    requires After(n, acts) == Some(s) && t < n
    ensures |s.students| == |s.removed| == n
    ensures Ended(s.students[t]) && !s.removed[t] ==> s.students[t] == Finished
  {
    ReachableInv(n, acts, s);
    assert KickedRight(s.students[t], s.removed[t]);
  }

  // ---------------------------------------------------------------------------------------------
  // The program can always come to its end.

  function MainWork(n: nat, m: Main): (k: int)
  {
    match m
    case Kicking => n + 1
    case Joining(next) => n - next
  }

  lemma StepTowardsJoins(n: nat, acts: seq<Action>, s: State) returns (act: Action, r: State)
    requires After(n, acts) == Some(s) && s.main != Joining(n)
    ensures After(n, acts + [act]) == Some(r)
    ensures 0 <= Sum(r.students, Ahead) <= Sum(s.students, Ahead) && 0 <= MainWork(n, r.main)
    ensures Sum(r.students, Ahead) < Sum(s.students, Ahead) || MainWork(n, r.main) < MainWork(n, s.main)
  {
    act := SomethingToDo(n, acts, s);
    r := Apply(s, act);
    assert (acts + [act])[..|acts + [act]| - 1] == acts;
    ReachableInv(n, acts, s);
    StepKeepsMain(n, s, act);
    StepKeepsShape(n, s, act);
    AheadFalls(n, s, act);
    SumLeast(r.students, Ahead, 0);
  }

  lemma SomethingToDo(n: nat, acts: seq<Action>, s: State) returns (act: Action)
    requires After(n, acts) == Some(s) && s.main != Joining(n)
    ensures Enabled(s, act) && (act.EndTerm? || act.Join? || act.Live?)
  {
    ReachableInv(n, acts, s);
    if s.main.Kicking? {
      act := EndTerm;
    } else if Ended(s.students[s.main.next]) {
      act := Join;
    } else {
      var u := SomeStudentCanMove(n, acts, s, s.main.next);
      act := Live(u);
    }
  }

  /** From every reachable state some run goes on until main has joined all the students. */
  lemma EveryRunCanJoinAll(n: nat, acts: seq<Action>, s: State) returns (all: seq<Action>, r: State)
    requires After(n, acts) == Some(s)
    ensures acts <= all && After(n, all) == Some(r) && r.main == Joining(n)
  {
    ReachableInv(n, acts, s);
    SumLeast(s.students, Ahead, 0);
    all, r := JoinAllFrom(n, acts, s, Sum(s.students, Ahead), MainWork(n, s.main));
  }

  lemma {:induction false} JoinAllFrom(n: nat, acts: seq<Action>, s: State, work: nat, main: nat)
      returns (all: seq<Action>, r: State)
    requires After(n, acts) == Some(s) && work == Sum(s.students, Ahead) && main == MainWork(n, s.main)
    ensures acts <= all && After(n, all) == Some(r) && r.main == Joining(n)
    decreases work, main
  {
    if s.main == Joining(n) {
      all, r := acts, s;
    } else {
      var act, next := StepTowardsJoins(n, acts, s);
      all, r := JoinAllFrom(n, acts + [act], next, Sum(next.students, Ahead), MainWork(n, next.main));
    }
  }

  // ---------------------------------------------------------------------------------------------
  // Choosing whom to kick.

  datatype Outcome = NobodyPresent | StillDrawing | Kicked(idx: nat)

  /** Main's list of students. */
  class StudentsList {
    var removed: array<bool>
    var present: int

    ghost predicate Valid()
      reads this, removed
    {
      present == Sum(removed[..], Unremoved)
    }

    constructor (count: nat)
      ensures Valid() && fresh(removed) && removed[..] == seq(count, _ => false) && present == count
    {
      removed := new bool[count](_ => false);
      present := count;
      new;
      assert removed[..] == seq(count, _ => false);
      SumConstant(removed[..], Unremoved, 1);
    }

    /** The list afterwards and the student to cancel; `draws` are the random numbers available, and
        with all of them spent on removed students the source would go on drawing. */
    method KickStudent(draws: seq<nat>) returns (outcome: Outcome)
      requires Valid() && removed.Length > 0
      modifies this`present, removed
      ensures Valid() && removed == old(removed)
      ensures outcome.NobodyPresent? <==> forall i :: 0 <= i < removed.Length ==> old(removed[i])
      ensures outcome.StillDrawing? ==> forall k :: 0 <= k < |draws| ==> old(removed[..])[draws[k] % removed.Length]
      ensures !outcome.Kicked? ==> removed[..] == old(removed[..]) && present == old(present)
      ensures outcome.Kicked? ==>
                && outcome.idx < removed.Length && !old(removed[..])[outcome.idx]
                && removed[..] == old(removed[..])[outcome.idx := true] && present == old(present) - 1
      ensures outcome.Kicked? ==> exists k :: 0 <= k < |draws| && outcome.idx == draws[k] % removed.Length
                                    && forall j :: 0 <= j < k ==> old(removed[..])[draws[j] % removed.Length]
    {
      PresentMeansUnremoved(removed[..]);
      if present == 0 {
        return NobodyPresent;
      }
      var k := 0;
      while k < |draws| && removed[draws[k] % removed.Length]
        invariant k <= |draws|
        invariant forall j :: 0 <= j < k ==> old(removed[..])[draws[j] % removed.Length]
      {
        k := k + 1;
      }
      if k == |draws| {
        return StillDrawing;
      }
      var idx := draws[k] % removed.Length;
      SumUpdate(removed[..], idx, true, Unremoved);
      removed[idx] := true;
      present := present - 1;
      assert removed[..] == old(removed[..])[idx := true];
      return Kicked(idx);
    }
  }

  /** `present` reads 0 exactly when everybody has been removed: until then the drawing can succeed. */
  lemma PresentMeansUnremoved(removed: seq<bool>)
    ensures Sum(removed, Unremoved) == 0 <==> forall i :: 0 <= i < |removed| ==> removed[i]
  {
    if forall i :: 0 <= i < |removed| ==> removed[i] {
      SumConstant(removed, Unremoved, 0);
    } else {
      var i :| 0 <= i < |removed| && !removed[i];
      SumIncludes(removed, Unremoved, i);
    }
  }
}

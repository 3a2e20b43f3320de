/**
  The ring of processes over pipes (Lab2_1/test2.c): the primary process makes n pipes, forks n-1
  children, every process closes the pipe ends it does not use, and one message goes round until a
  process receives 0 and the ring shuts down.  Process i reads pipe i and writes pipe i+1; the
  primary is process n-1.  File descriptor 2p is the read end and 2p+1 the write end of pipe p.
  A step is one system call of one process; every process keeps its own set of open descriptors.
 */
module TokenRing {
  import opened Options
  import opened RingCodec
  import opened Tally

  datatype Proc =
    | Unborn
    | Forking            // the primary, before it has forked all children
    | Closing(next: nat) // close_other_pipes is about to look at descriptor `next`
    | Starting           // the primary, about to write the first message
    | Reading
    | Holding(v: int)    // about to write v
    | Leaving            // about to close its read end
    | HalfGone           // about to close its write end
    | Gone

  /** `zero` records that a process has received 0. */
  datatype State = State(procs: seq<Proc>, fds: seq<set<nat>>, pipes: seq<seq<int>>, forked: nat, zero: bool)

  datatype Action =
    | Fork
    | Close(i: nat)
    | Start
    | Receive(i: nat, draw: nat)
    | EndOfFile(i: nat)
    | Send(i: nat)
    | Leave(i: nat)

  function Successor(n: nat, i: nat): (r: nat)
    requires i < n
    ensures r < n
  {
    if i + 1 == n then 0 else i + 1
  }

  function Predecessor(n: nat, i: nat): (r: nat)
    requires i < n
    ensures r < n && Successor(n, r) == i
  {
    if i == 0 then n - 1 else i - 1
  }

  function ReadEnd(p: nat): (fd: nat) { 2 * p }

  function WriteEnd(p: nat): (fd: nat) { 2 * p + 1 }

  /** The two descriptors process i keeps. */
  function OwnEnds(n: nat, i: nat): (own: set<nat>)
    requires i < n
  {
    {ReadEnd(i), WriteEnd(Successor(n, i))}
  }

  function AllEnds(n: nat): (all: set<nat>)
  {
    Below(2 * n)
  }

  predicate SomeoneHas(s: State, fd: nat)
  {
    exists q :: 0 <= q < |s.fds| && fd in s.fds[q]
  }

  /** A message value and its step size as the program fixes them. */
  const FIRST := 1
  const LOWER := -10
  const UPPER := 10

  predicate Shaped(s: State)
  {
    2 <= |s.procs| == |s.fds| == |s.pipes|
  }

  predicate Enabled(s: State, act: Action)
    requires Shaped(s)
  {
    var n := |s.procs|;
    match act
    case Fork => s.procs[n - 1] == Forking
    case Close(i) => i < n && s.procs[i].Closing?
    case Start => s.procs[n - 1] == Starting
    case Receive(i, _) => i < n && s.procs[i] == Reading && s.pipes[i] != []
    case EndOfFile(i) => i < n && s.procs[i] == Reading && s.pipes[i] == [] && !SomeoneHas(s, WriteEnd(i))
    case Send(i) => i < n && s.procs[i].Holding?
    case Leave(i) => i < n && (s.procs[i] == Leaving || s.procs[i] == HalfGone)
  }

  /** A write to pipe p: the message is appended, or lost when nobody can read it. */
  function Deliver(s: State, p: nat, v: int): (pipes: seq<seq<int>>)
    requires Shaped(s) && p < |s.pipes|
  {
    if SomeoneHas(s, ReadEnd(p)) then s.pipes[p := s.pipes[p] + [v]] else s.pipes
  }

  function Apply(s: State, act: Action): (r: State)
    requires Shaped(s) && Enabled(s, act)
    ensures Shaped(r) && |r.procs| == |s.procs|
  {
    var n := |s.procs|;
    match act
    case Fork =>
      if s.forked < n - 1 then
        s.(procs := s.procs[s.forked := Closing(0)], fds := s.fds[s.forked := s.fds[n - 1]], forked := s.forked + 1)
      else s.(procs := s.procs[n - 1 := Closing(0)])
    case Close(i) =>
      var j := s.procs[i].next;
      if j < 2 * n then
        s.(procs := s.procs[i := Closing(j + 1)],
           fds := if j in OwnEnds(n, i) then s.fds else s.fds[i := s.fds[i] - {j}])
      else s.(procs := s.procs[i := if i == n - 1 then Starting else Reading])
    case Start => s.(procs := s.procs[n - 1 := Reading], pipes := Deliver(s, 0, FIRST))
    case Receive(i, draw) =>
      var v := s.pipes[i][0];
      var rest := s.pipes[i := s.pipes[i][1..]];
      if v == 0 then s.(procs := s.procs[i := Leaving], pipes := rest, zero := true)
      else s.(procs := s.procs[i := Holding(Vary(v, LOWER, UPPER, draw))], pipes := rest)
    case EndOfFile(i) => s.(procs := s.procs[i := Leaving])
    case Send(i) =>
      var p := Successor(n, i);
      s.(procs := s.procs[i := if SomeoneHas(s, ReadEnd(p)) then Reading else Leaving],
         pipes := Deliver(s, p, s.procs[i].v))
    case Leave(i) =>
      if s.procs[i] == Leaving then
        s.(procs := s.procs[i := HalfGone], fds := s.fds[i := s.fds[i] - {ReadEnd(i)}])
      else s.(procs := s.procs[i := Gone], fds := s.fds[i := {}])
  }

  function Initial(n: nat): (s: State)
    requires 2 <= n
    ensures Shaped(s) && |s.procs| == n
  {
    State(seq(n, i => if i == n - 1 then Forking else Unborn),
          seq(n, i => if i == n - 1 then AllEnds(n) else {}),
          seq(n, _ => []), 0, false)
  }

  function After(n: nat, acts: seq<Action>): (s: Option<State>)
    requires 2 <= n
    ensures s.Some? ==> Shaped(s.value) && |s.value.procs| == n
  {
    if acts == [] then Some(Initial(n))
    else
      match After(n, acts[..|acts| - 1])
      case None => None
      case Some(p) => if Enabled(p, acts[|acts| - 1]) then Some(Apply(p, acts[|acts| - 1])) else None
  }

  // ---------------------------------------------------------------------------------------------

  /** What each process has open, by what it is doing. */
  ghost predicate EndsRight(s: State, i: nat)
    requires Shaped(s) && i < |s.procs|
  {
    var n := |s.procs|;
    match s.procs[i]
    case Unborn => s.fds[i] == {} && s.procs[n - 1] == Forking && s.forked <= i < n - 1
    case Forking => i == n - 1 && s.fds[i] == AllEnds(n)
    case Closing(j) => j <= 2 * n && s.fds[i] == (set fd | fd in AllEnds(n) && (fd in OwnEnds(n, i) || j <= fd))
    case Starting => i == n - 1 && s.fds[i] == OwnEnds(n, i)
    case Reading => s.fds[i] == OwnEnds(n, i)
    case Holding(v) => s.fds[i] == OwnEnds(n, i) && -SAFETY_BOUND <= v <= SAFETY_BOUND
    case Leaving => s.zero && s.fds[i] == OwnEnds(n, i)
    case HalfGone => s.zero && s.fds[i] == {WriteEnd(Successor(n, i))}
    case Gone => s.zero && s.fds[i] == {}
  }

  function InPipe(p: seq<int>): (k: int)
  {
    |p|
  }

  function InHand(x: Proc): (k: int)
  {
    if x.Holding? then 1 else 0
  }

  function Tokens(s: State): (k: int)
  {
    Sum(s.pipes, InPipe) + Sum(s.procs, InHand)
  }

  predicate Opening(s: State)
    requires Shaped(s)
  {
    var p := s.procs[|s.procs| - 1];
    p.Forking? || p.Closing? || p.Starting?
  }

  predicate Departing(x: Proc)
  {
    x == Leaving || x == HalfGone || x == Gone
  }

  ghost predicate AllEndsRight(s: State)
    requires Shaped(s)
  {
    forall i: nat :: i < |s.procs| ==> EndsRight(s, i)
  }

  ghost predicate ValuesBounded(s: State)
  {
    forall p, k :: 0 <= p < |s.pipes| && 0 <= k < |s.pipes[p]| ==> -SAFETY_BOUND <= s.pipes[p][k] <= SAFETY_BOUND
  }

  /** One message in all until 0 was received, none afterwards. */
  ghost predicate TokensRight(s: State)
    requires Shaped(s)
  {
    Tokens(s) == if s.zero || Opening(s) then 0 else 1
  }

  ghost predicate PhaseRight(s: State)
    requires Shaped(s)
  {
    && s.forked < |s.procs|
    && (s.procs[|s.procs| - 1] == Forking || s.forked == |s.procs| - 1)
    && (forall i: nat :: s.forked <= i < |s.procs| - 1 ==> s.procs[i] == Unborn)
    && (s.zero ==> !Opening(s) && exists i: nat :: i < |s.procs| && Departing(s.procs[i]))
  }

  ghost predicate Inv(s: State)
  {
    Shaped(s) && AllEndsRight(s) && ValuesBounded(s) && TokensRight(s) && PhaseRight(s)
  }

  lemma InitialInv(n: nat)
    requires 2 <= n
    ensures Inv(Initial(n))
  {
    var s := Initial(n);
    SumConstant(s.pipes, InPipe, 0);
    SumConstant(s.procs, InHand, 0);
  }

  // ---- descriptors ------------------------------------------------------------------------------

  /** Until 0 has been received the writer and the reader of every pipe have their ends open. */
  lemma PipesAreConnected(s: State, p: nat)
    requires Inv(s) && !s.zero && p < |s.procs|
    ensures SomeoneHas(s, WriteEnd(p)) && SomeoneHas(s, ReadEnd(p))
  {
    var n := |s.procs|;
    var q := Predecessor(n, p);
    assert EndsRight(s, p) && EndsRight(s, q) && EndsRight(s, n - 1);
    assert WriteEnd(p) in OwnEnds(n, q) && ReadEnd(p) in OwnEnds(n, p);
    assert WriteEnd(p) in s.fds[q] || WriteEnd(p) in s.fds[n - 1];
    assert ReadEnd(p) in s.fds[p] || ReadEnd(p) in s.fds[n - 1];
  }

  lemma ForkKeepsEnds(s: State)
    requires Inv(s) && Enabled(s, Fork)
    ensures AllEndsRight(Apply(s, Fork))
  {
    var r, n := Apply(s, Fork), |s.procs|;
    forall i: nat | i < n ensures EndsRight(r, i) {
      assert EndsRight(s, i) && EndsRight(s, n - 1);
      assert (set fd | fd in AllEnds(n) && (fd in OwnEnds(n, i) || 0 <= fd)) == AllEnds(n);
    }
  }

  lemma CloseKeepsEnds(s: State, i: nat)
    requires Inv(s) && Enabled(s, Close(i))
    ensures AllEndsRight(Apply(s, Close(i)))
  {
    var r, n := Apply(s, Close(i)), |s.procs|;
    assert EndsRight(s, i);
    assert OwnEnds(n, i) <= AllEnds(n);
    forall k: nat | k < n ensures EndsRight(r, k) {
      assert EndsRight(s, k);
    }
  }

  lemma SumsAreNatural(s: State)
    ensures 0 <= Sum(s.pipes, InPipe) && 0 <= Sum(s.procs, InHand)
  {
    SumLeast(s.pipes, InPipe, 0);
    SumLeast(s.procs, InHand, 0);
  }

  /** A process with a message in hand, or a pipe with one in it, has the one message there is. */
  lemma MessageMeansOneToken(s: State, i: nat)
    requires Inv(s) && i < |s.procs| && (s.procs[i].Holding? || s.pipes[i] != [])
    ensures !s.zero && !Opening(s)
  {
    SumsAreNatural(s);
    if s.procs[i].Holding? {
      SumIncludes(s.procs, InHand, i);
    } else {
      SumIncludes(s.pipes, InPipe, i);
    }
  }

  lemma EndOfFileMeansZero(s: State, i: nat)
    requires Inv(s) && Enabled(s, EndOfFile(i))
    ensures s.zero
  {
    if !s.zero {
      PipesAreConnected(s, i);
    }
  }

  /** A process not concerned by a step. */
  lemma SameEnds(s: State, r: State, k: nat)
    requires Shaped(s) && Shaped(r) && k < |s.procs| == |r.procs| && EndsRight(s, k)
    requires r.procs[k] == s.procs[k] && r.fds[k] == s.fds[k] && r.forked == s.forked && (s.zero ==> r.zero)
    requires s.procs[|s.procs| - 1] == Forking ==> r.procs[|s.procs| - 1] == Forking
    ensures EndsRight(r, k)
  {
  }

  lemma SendKeepsEnds(s: State, i: nat)
    requires Inv(s) && Enabled(s, Send(i))
    ensures AllEndsRight(Apply(s, Send(i)))
  {
    var r := Apply(s, Send(i));
    MessageMeansOneToken(s, i);
    PipesAreConnected(s, Successor(|s.procs|, i));
    forall k: nat | k < |s.procs| ensures EndsRight(r, k) {
      assert EndsRight(s, k);
      if k != i {
        SameEnds(s, r, k);
      }
    }
  }

  lemma DepartureKeepsEnds(s: State, act: Action)
    requires Inv(s) && Enabled(s, act) && (act.EndOfFile? || act.Leave?)
    ensures AllEndsRight(Apply(s, act))
  {
    var r := Apply(s, act);
    if act.EndOfFile? {
      EndOfFileMeansZero(s, act.i);
    }
    forall k: nat | k < |s.procs| ensures EndsRight(r, k) {
      assert EndsRight(s, k);
      if k != act.i {
        SameEnds(s, r, k);
      }
    }
  }

  lemma ReceptionKeepsEnds(s: State, act: Action)
    requires Inv(s) && Enabled(s, act) && (act.Start? || act.Receive?)
    ensures AllEndsRight(Apply(s, act))
  {
    var r, i := Apply(s, act), if act.Start? then |s.procs| - 1 else act.i;
    forall k: nat | k < |s.procs| ensures EndsRight(r, k) {
      assert EndsRight(s, k);
      if k != i {
        SameEnds(s, r, k);
      }
    }
  }

  // ---- the message ------------------------------------------------------------------------------

  lemma TokensChange(s: State, r: State, i: nat, p: nat)
    requires i < |s.procs| == |r.procs| && p < |s.pipes| == |r.pipes|
    requires r.procs == s.procs[i := r.procs[i]] && r.pipes == s.pipes[p := r.pipes[p]]
    ensures Tokens(r) == Tokens(s) + InHand(r.procs[i]) - InHand(s.procs[i]) + |r.pipes[p]| - |s.pipes[p]|
  {
    SumUpdate(s.procs, i, r.procs[i], InHand);
    SumUpdate(s.pipes, p, r.pipes[p], InPipe);
  }

  /** The steps that move the message. */
  lemma MovesKeepTokens(s: State, act: Action)
    requires Inv(s) && Enabled(s, act) && (act.Start? || act.Receive? || act.Send?)
    ensures TokensRight(Apply(s, act))
  {
    var r, n := Apply(s, act), |s.procs|;
    match act
    case Start =>
      PipesAreConnected(s, 0);
      TokensChange(s, r, n - 1, 0);
    case Receive(i, _) =>
      MessageMeansOneToken(s, i);
      TokensChange(s, r, i, i);
    case Send(i) =>
      MessageMeansOneToken(s, i);
      PipesAreConnected(s, Successor(n, i));
      TokensChange(s, r, i, Successor(n, i));
  }

  lemma StepKeepsTokens(s: State, act: Action)
    requires Inv(s) && Enabled(s, act)
    ensures TokensRight(Apply(s, act))
  {
    var r, n := Apply(s, act), |s.procs|;
    match act
    case Fork => TokensChange(s, r, if s.forked < n - 1 then s.forked else n - 1, 0);
    case Close(i) => TokensChange(s, r, i, 0);
    case EndOfFile(i) => TokensChange(s, r, i, 0);
    case Leave(i) => TokensChange(s, r, i, 0);
    case Start => MovesKeepTokens(s, act);
    case Receive(_, _) => MovesKeepTokens(s, act);
    case Send(_) => MovesKeepTokens(s, act);
  }

  lemma StepKeepsValues(s: State, act: Action)
    requires Inv(s) && Enabled(s, act)
    ensures ValuesBounded(Apply(s, act))
  {
    if act.Send? {
      assert EndsRight(s, act.i);
    }
  }

  lemma StepKeepsPhase(s: State, act: Action)
    requires Inv(s) && Enabled(s, act)
    ensures PhaseRight(Apply(s, act))
  {
    var r, n := Apply(s, act), |s.procs|;
    if act.Receive? {
      MessageMeansOneToken(s, act.i);
    }
    if act.Send? {
      MessageMeansOneToken(s, act.i);
    }
    if r.zero {
      if s.zero {
        var i: nat :| i < n && Departing(s.procs[i]);
        assert Departing(r.procs[i]);
      } else {
        assert Departing(r.procs[act.i]);
      }
    }
  }

  lemma StepKeepsInv(s: State, act: Action)
    requires Inv(s) && Enabled(s, act)
    ensures Inv(Apply(s, act))
  {
    if act.Fork? {
      ForkKeepsEnds(s);
    } else if act.Close? {
      CloseKeepsEnds(s, act.i);
    } else if act.Send? {
      SendKeepsEnds(s, act.i);
    } else if act.EndOfFile? || act.Leave? {
      DepartureKeepsEnds(s, act);
    } else {
      ReceptionKeepsEnds(s, act);
    }
    StepKeepsTokens(s, act);
    StepKeepsValues(s, act);
    StepKeepsPhase(s, act);
  }

  lemma {:induction false} ReachableInv(n: nat, acts: seq<Action>, s: State)
    requires 2 <= n && After(n, acts) == Some(s)
    ensures Inv(s) && |s.procs| == n
  {
    if acts == [] {
      InitialInv(n);
    } else {
      var p := After(n, acts[..|acts| - 1]).value;
      ReachableInv(n, acts[..|acts| - 1], p);
      StepKeepsInv(p, acts[|acts| - 1]);
    }
  }

  // ---------------------------------------------------------------------------------------------
  // Safety.

  /** The ring holds exactly one message, in a pipe or in a process, from the primary's first write
      until a process receives 0, and none before and after; every message stays within the bound. */
  lemma SingleToken(n: nat, acts: seq<Action>, s: State)
    requires 2 <= n && After(n, acts) == Some(s)
    ensures Shaped(s) && Tokens(s) == if s.zero || Opening(s) then 0 else 1
    ensures ValuesBounded(s)
    ensures forall i: nat :: i < n && s.procs[i].Holding? ==> -SAFETY_BOUND <= s.procs[i].v <= SAFETY_BOUND
  {
    ReachableInv(n, acts, s);
    forall i: nat | i < n && s.procs[i].Holding? ensures -SAFETY_BOUND <= s.procs[i].v <= SAFETY_BOUND {
      assert EndsRight(s, i);
    }
  }

  /** Every message fits the length-prefixed format, so the bytes in a pipe always read back as the
      messages in it. */
  lemma MessagesFitTheirFrames(n: nat, acts: seq<Action>, s: State, p: nat)
    requires 2 <= n && After(n, acts) == Some(s) && p < n
    ensures |s.pipes| == n && AllInts(s.pipes[p]) && ReadAll(Frames(s.pipes[p])) == s.pipes[p]
  {
    ReachableInv(n, acts, s);
    FramingRoundTrip(s.pipes[p]);
  }

  /** Nobody leaves and nobody sees an end of file before a 0 was received; a write never finds its
      pipe broken, whenever it happens. */
  lemma NobodyLeavesEarly(n: nat, acts: seq<Action>, s: State, i: nat)
    requires 2 <= n && After(n, acts) == Some(s) && i < n
    ensures Shaped(s) && |s.procs| == n
    ensures Departing(s.procs[i]) ==> s.zero
    ensures Enabled(s, EndOfFile(i)) ==> s.zero
    ensures Enabled(s, Send(i)) ==> SomeoneHas(s, ReadEnd(Successor(n, i)))
  {
    ReachableInv(n, acts, s);
    assert EndsRight(s, i);
    if Enabled(s, EndOfFile(i)) {
      EndOfFileMeansZero(s, i);
    }
    if Enabled(s, Send(i)) {
      MessageMeansOneToken(s, i);
      PipesAreConnected(s, Successor(n, i));
    }
  }

  /** While it takes part in the ring, child i has just the read end of its own pipe and the write end
      of the next one open, and the primary those of the last and of the first; on leaving it closes
      the read end, then the write end.  Before the forks the primary has all of them open. */
  lemma EndsOfEachProcess(n: nat, acts: seq<Action>, s: State, i: nat)
    requires 2 <= n && After(n, acts) == Some(s) && i < n
    ensures |s.procs| == |s.fds| == n
    ensures var x, rd, wr := s.procs[i], if i < n - 1 then 2 * i else 2 * n - 2, if i < n - 1 then 2 * i + 3 else 1;
            && (x.Starting? || x.Reading? || x.Holding? || x.Leaving? ==> s.fds[i] == {rd, wr})
            && (x.HalfGone? ==> s.fds[i] == {wr})
            && (x.Unborn? || x.Gone? ==> s.fds[i] == {})
            && (x.Forking? ==> forall fd: nat :: fd in s.fds[i] <==> fd < 2 * n)
  {
    ReachableInv(n, acts, s);
    OwnEndsAreOpen(s, i);
  }

  lemma OwnEndsAreOpen(s: State, i: nat)
    requires Inv(s) && i < |s.procs|
    ensures var n, x := |s.procs|, s.procs[i];
            var rd, wr := if i < n - 1 then 2 * i else 2 * n - 2, if i < n - 1 then 2 * i + 3 else 1;
            && (x.Starting? || x.Reading? || x.Holding? || x.Leaving? ==> s.fds[i] == {rd, wr})
            && (x.HalfGone? ==> s.fds[i] == {wr})
            && (x.Unborn? || x.Gone? ==> s.fds[i] == {})
            && (x.Forking? ==> forall fd: nat :: fd in s.fds[i] <==> fd < 2 * n)
  {
    assert EndsRight(s, i);
  }

  // ---------------------------------------------------------------------------------------------
  // The values that go round.

  datatype Reception = Reception(at: nat, value: int)

  /** What step `act` takes out of a pipe in state `p`. */
  function ReceptionBy(p: Option<State>, act: Action): (rs: seq<Reception>)
  {
    if p.Some? && act.Receive? && act.i < |p.value.pipes| && p.value.pipes[act.i] != []
    then [Reception(act.i, p.value.pipes[act.i][0])] else []
  }

  /** All that has been received along a run, in order. */
  function Received(n: nat, acts: seq<Action>): (rs: seq<Reception>)
    requires 2 <= n
  {
    if acts == [] then []
    else
      var last := |acts| - 1;
      Received(n, acts[..last]) + ReceptionBy(After(n, acts[..last]), acts[last])
  }

  /** w may be sent on by a process that received u. */
  predicate MayFollow(u: int, w: int)
  {
    && u != 0 && -1000000 <= w <= 1000000
    && (u - 10 <= w <= u + 10 || (w == 1 && (u < -999990 || 999990 < u)))
  }

  /** b comes after a: at the next process round the ring, with a value that may follow. */
  predicate Follows(n: nat, a: Reception, b: Reception)
  {
    && a.at < n && b.at == (if a.at == n - 1 then 0 else a.at + 1)
    && MayFollow(a.value, b.value)
  }

  predicate FollowsAt(n: nat, rs: seq<Reception>, k: nat)
    requires k + 1 < |rs|
  {
    Follows(n, rs[k], rs[k + 1])
  }

  ghost predicate WentRound(n: nat, rs: seq<Reception>)
  {
    && (rs != [] ==> rs[0] == Reception(0, 1))
    && forall k: nat :: k + 1 < |rs| ==> FollowsAt(n, rs, k)
  }

  /** Where the message is after the receptions `rs`, and what it may be. */
  ghost predicate Carried(s: State, rs: seq<Reception>)
    requires Shaped(s)
  {
    if rs == [] then
      && !s.zero
      && (forall i :: 0 <= i < |s.procs| ==> !s.procs[i].Holding?)
      && (forall p :: 0 <= p < |s.pipes| && s.pipes[p] != [] ==> p == 0 && s.pipes[p] == [1])
    else
      var a := rs[|rs| - 1];
      && !Opening(s) && a.at < |s.procs| && (s.zero <==> a.value == 0)
      && (forall i :: 0 <= i < |s.procs| && s.procs[i].Holding? ==> i == a.at && MayFollow(a.value, s.procs[i].v))
      && (forall p :: 0 <= p < |s.pipes| && s.pipes[p] != [] ==>
            p == Successor(|s.procs|, a.at) && MayFollow(a.value, s.pipes[p][0]))
  }

  lemma StartIsCarried(s: State, rs: seq<Reception>)
    requires Inv(s) && Enabled(s, Start) && Carried(s, rs)
    ensures Carried(Apply(s, Start), rs)
  {
    PipesAreConnected(s, 0);
    forall p | 0 <= p < |s.pipes| ensures s.pipes[p] == [] {
      if s.pipes[p] != [] {
        MessageMeansOneToken(s, p);
      }
    }
  }

  lemma SendIsCarried(s: State, i: nat, rs: seq<Reception>)
    requires Inv(s) && Enabled(s, Send(i)) && Carried(s, rs)
    ensures Carried(Apply(s, Send(i)), rs)
  {
    HandOver(s, i, 0);
  }

  lemma ReceiveIsCarried(s: State, i: nat, draw: nat, rs: seq<Reception>)
    requires Inv(s) && Enabled(s, Receive(i, draw)) && Carried(s, rs)
    ensures Carried(Apply(s, Receive(i, draw)), rs + [Reception(i, s.pipes[i][0])])
    ensures rs == [] ==> Reception(i, s.pipes[i][0]) == Reception(0, 1)
    ensures rs != [] ==> Follows(|s.procs|, rs[|rs| - 1], Reception(i, s.pipes[i][0]))
  {
    MessageMeansOneToken(s, i);
    OneMessage(s, i);
    var v := s.pipes[i][0];
    assert Vary(v, -10, 10, draw) == Vary(v, LOWER, UPPER, draw);
    VaryExactly(v, -10, 10, Vary(v, -10, 10, draw));
    NothingInHand(s, i);
  }

  lemma NothingInHand(s: State, p: nat)
    requires Inv(s) && p < |s.pipes| && s.pipes[p] != []
    ensures forall i :: 0 <= i < |s.procs| ==> !s.procs[i].Holding?
  {
    forall i | 0 <= i < |s.procs| ensures !s.procs[i].Holding? {
      if s.procs[i].Holding? {
        SumsAreNatural(s);
        SumIncludes(s.procs, InHand, i);
        OneMessage(s, p);
      }
    }
  }

  /** A process that sends puts just the value it holds into the pipe of its successor, whose next
      reception takes that value out, and goes back to reading. */
  lemma HandOver(s: State, i: nat, draw: nat)
    requires Inv(s) && Enabled(s, Send(i))
    ensures var r, j := Apply(s, Send(i)), Successor(|s.procs|, i);
            && r.procs == s.procs[i := Reading] && r.zero == s.zero
            && r.pipes[j] == [s.procs[i].v]
            && (forall p :: 0 <= p < |r.pipes| && p != j ==> r.pipes[p] == [])
            && ReceptionBy(Some(r), Receive(j, draw)) == [Reception(j, s.procs[i].v)]
            && (Enabled(r, Receive(j, draw)) ==> Apply(r, Receive(j, draw)).pipes[j] == [])
  {
    var j := Successor(|s.procs|, i);
    MessageMeansOneToken(s, i);
    PipesAreConnected(s, j);
    SumsAreNatural(s);
    SumIncludes(s.procs, InHand, i);
    forall p: nat | p < |s.pipes| ensures s.pipes[p] == [] {
      OneMessage(s, p);
    }
  }

  lemma MessageStays(s: State, act: Action, rs: seq<Reception>)
    requires Inv(s) && Enabled(s, act) && Carried(s, rs)
    requires act.Fork? || act.Close? || act.EndOfFile? || act.Leave?
    ensures Carried(Apply(s, act), rs)
  {
    var r := Apply(s, act);
    assert r.pipes == s.pipes && r.zero == s.zero;
    forall i | 0 <= i < |r.procs| && r.procs[i].Holding? ensures r.procs[i] == s.procs[i] {
    }
    assert Opening(r) ==> Opening(s);
  }

  lemma {:induction false} LongerWalk(n: nat, rs: seq<Reception>, b: Reception)
    requires WentRound(n, rs)
    requires if rs == [] then b == Reception(0, 1) else Follows(n, rs[|rs| - 1], b)
    ensures WentRound(n, rs + [b])
  {
    var all := rs + [b];
    forall k: nat | k + 1 < |all| ensures FollowsAt(n, all, k) {
      if k + 1 < |rs| {
        assert FollowsAt(n, rs, k);
      }
    }
  }

  lemma StepKeepsCarried(s: State, act: Action, rs: seq<Reception>)
    requires Inv(s) && Enabled(s, act) && Carried(s, rs) && WentRound(|s.procs|, rs)
    ensures Carried(Apply(s, act), rs + ReceptionBy(Some(s), act))
    ensures WentRound(|s.procs|, rs + ReceptionBy(Some(s), act))
  {
    match act
    case Receive(i, draw) =>
      ReceiveIsCarried(s, i, draw, rs);
      LongerWalk(|s.procs|, rs, Reception(i, s.pipes[i][0]));
    case Send(i) =>
      assert rs + [] == rs;
      SendIsCarried(s, i, rs);
    case Start =>
      assert rs + [] == rs;
      StartIsCarried(s, rs);
    case _ =>
      assert rs + [] == rs;
      MessageStays(s, act, rs);
  }

  lemma {:induction false} ReachableCarried(n: nat, acts: seq<Action>, s: State)
    requires 2 <= n && After(n, acts) == Some(s)
    ensures Carried(s, Received(n, acts)) && WentRound(n, Received(n, acts))
  {
    if acts != [] {
      var last := |acts| - 1;
      var p := After(n, acts[..last]).value;
      ReachableInv(n, acts[..last], p);
      ReachableCarried(n, acts[..last], p);
      StepKeepsCarried(p, acts[last], Received(n, acts[..last]));
    }
  }

  /** The processes receive in turn, process 0 first; the first value is 1, each later one is at most 10
      from the one before, or 1 again where that can leave the bounds of a million; nothing is received
      after a 0, and a process has received 0 exactly if `zero` says so. */
  lemma ValuesGoRound(n: nat, acts: seq<Action>, s: State)
    requires 2 <= n && After(n, acts) == Some(s)
    ensures var rs := Received(n, acts);
            && (rs != [] ==> rs[0] == Reception(0, 1))
            && (forall k: nat :: k + 1 < |rs| ==> FollowsAt(n, rs, k))
            && (s.zero <==> rs != [] && rs[|rs| - 1].value == 0)
  {
    ReachableCarried(n, acts, s);
  }

  /** And every such value can follow: a process that can receive u can send on each of them. */
  lemma EveryValueCanFollow(n: nat, acts: seq<Action>, s: State, i: nat, w: int) returns (draw: nat, r: State)
    requires 2 <= n && After(n, acts) == Some(s) && i < n && Enabled(s, Receive(i, 0))
    requires MayFollow(s.pipes[i][0], w)
    ensures After(n, acts + [Receive(i, draw), Send(i)]) == Some(r)
    ensures r.pipes[Successor(n, i)] == [w]
  {
    ReachableInv(n, acts, s);
    var v := s.pipes[i][0];
    VaryExactly(v, LOWER, UPPER, w);
    draw :| Vary(v, LOWER, UPPER, draw) == w;
    var m := Apply(s, Receive(i, draw));
    var all := acts + [Receive(i, draw), Send(i)];
    assert all[..|all| - 1] == acts + [Receive(i, draw)];
    assert (acts + [Receive(i, draw)])[..|acts|] == acts;
    StepKeepsInv(s, Receive(i, draw));
    HandOver(m, i, 0);
    r := Apply(m, Send(i));
  }

  // ---------------------------------------------------------------------------------------------
  // Shutdown.

  /** Going round from a process that is gone, there is a reading process right after a gone one. */
  lemma {:induction false} FirstStillReading(s: State, z: nat, k: nat, steps: nat) returns (i: nat)
    requires Shaped(s) && z < |s.procs| && k < |s.procs| && s.procs[z] == Gone && s.procs[k] == Reading
    requires forall j: nat :: j < |s.procs| ==> s.procs[j] == Gone || s.procs[j] == Reading
    requires steps == if z <= k then k - z else k + |s.procs| - z
    ensures i < |s.procs| && s.procs[i] == Reading && s.procs[Predecessor(|s.procs|, i)] == Gone
    decreases steps
  {
    var next := Successor(|s.procs|, z);
    if s.procs[next] == Reading {
      i := next;
    } else {
      i := FirstStillReading(s, next, k, steps - 1);
    }
  }

  lemma AllGoneBeforeIt(s: State, i: nat)
    requires Inv(s) && i < |s.procs| && s.procs[Predecessor(|s.procs|, i)] == Gone
    requires forall j: nat :: j < |s.procs| ==> s.procs[j] == Gone || s.procs[j] == Reading
    ensures !SomeoneHas(s, WriteEnd(i))
  {
    var n := |s.procs|;
    forall q | 0 <= q < n ensures WriteEnd(i) !in s.fds[q] {
      assert EndsRight(s, q);
      if s.procs[q] == Reading {
        assert Successor(n, q) != i;
      }
    }
  }

  /** After the 0 there is always a next step until every process is gone, and once nobody is still
      closing or leaving it is an end of file at the process after one that is gone. */
  lemma ShutdownGoesOn(n: nat, acts: seq<Action>, s: State) returns (act: Action)
    requires 2 <= n && After(n, acts) == Some(s) && s.zero
    requires exists i: nat :: i < |s.procs| && s.procs[i] != Gone
    ensures Shaped(s) && Enabled(s, act)
    ensures act.Close? || act.Leave? || act.EndOfFile?
    ensures (forall j: nat :: j < n ==> s.procs[j] == Gone || s.procs[j] == Reading) ==> act.EndOfFile?
  {
    ReachableInv(n, acts, s);
    if j: nat :| j < n && s.procs[j].Closing? {
      act := Close(j);
    } else if j: nat :| j < n && (s.procs[j] == Leaving || s.procs[j] == HalfGone) {
      act := Leave(j);
    } else {
      forall j: nat | j < n ensures s.procs[j] == Gone || s.procs[j] == Reading {
        NobodyElse(s, j);
      }
      var z: nat :| z < n && Departing(s.procs[z]);
      var k: nat :| k < n && s.procs[k] != Gone;
      var i := FirstStillReading(s, z, k, if z <= k then k - z else k + n - z);
      AllGoneBeforeIt(s, i);
      NoMessageLeft(s, i);
      act := EndOfFile(i);
    }
  }

  lemma NobodyElse(s: State, j: nat)
    requires Inv(s) && s.zero && j < |s.procs|
    ensures !s.procs[j].Unborn? && !s.procs[j].Forking? && !s.procs[j].Starting? && !s.procs[j].Holding?
  {
    assert EndsRight(s, j);
    if s.procs[j].Holding? {
      MessageMeansOneToken(s, j);
    }
  }

  lemma NoMessageLeft(s: State, i: nat)
    requires Inv(s) && s.zero && i < |s.procs|
    ensures s.pipes[i] == []
  {
    if s.pipes[i] != [] {
      MessageMeansOneToken(s, i);
    }
  }

  /** System calls a process has before it once 0 was received. */
  function Rank(n: nat, x: Proc): (k: int)
  {
    match x
    case Closing(j) => if j <= 2 * n then 2 * n - j + 4 else 4
    case Reading => 3
    case Leaving => 2
    case HalfGone => 1
    case _ => 0
  }

  function Ranks(n: nat): (f: Proc -> int)
  {
    (x: Proc) => Rank(n, x)
  }

  lemma OnlyShutdownActions(s: State, act: Action)
    requires Inv(s) && s.zero && Enabled(s, act)
    ensures act.Close? || act.Leave? || act.EndOfFile?
    ensures act.Close? ==> s.procs[act.i].next <= 2 * |s.procs|
  {
    if act.Receive? {
      NoMessageLeft(s, act.i);
    } else if act.Send? {
      NobodyElse(s, act.i);
    } else if act.Close? {
      assert EndsRight(s, act.i);
    }
  }

  /** After the 0 every step brings the processes nearer to all being gone. */
  lemma ShutdownEnds(n: nat, acts: seq<Action>, s: State, act: Action)
    requires 2 <= n && After(n, acts) == Some(s) && s.zero && Enabled(s, act)
    ensures Apply(s, act).zero
    ensures 0 <= Sum(Apply(s, act).procs, Ranks(n)) < Sum(s.procs, Ranks(n))
  {
    ReachableInv(n, acts, s);
    OnlyShutdownActions(s, act);
    RankFalls(s, act);
  }

  lemma RankFalls(s: State, act: Action)
    requires Shaped(s) && s.zero && Enabled(s, act) && !Opening(s)
    requires act.Close? || act.Leave? || act.EndOfFile?
    requires act.Close? ==> s.procs[act.i].next <= 2 * |s.procs|
    ensures Apply(s, act).zero
    ensures 0 <= Sum(Apply(s, act).procs, Ranks(|s.procs|)) < Sum(s.procs, Ranks(|s.procs|))
  {
    var r, f := Apply(s, act), Ranks(|s.procs|);
    SumLeast(r.procs, f, 0);
    SumUpdate(s.procs, act.i, r.procs[act.i], f);
  }

  /** Before the 0 the ring does not get stuck either. */
  lemma MessageGoesOn(n: nat, acts: seq<Action>, s: State) returns (act: Action)
    requires 2 <= n && After(n, acts) == Some(s) && !s.zero
    ensures Shaped(s) && Enabled(s, act) && !act.EndOfFile? && !act.Leave?
  {
    ReachableInv(n, acts, s);
    if s.procs[n - 1] == Forking {
      act := Fork;
    } else if s.procs[n - 1] == Starting {
      act := Start;
    } else if j: nat :| j < n && s.procs[j].Closing? {
      act := Close(j);
    } else {
      act := CarryMessage(s);
    }
  }

  lemma CarryMessage(s: State) returns (act: Action)
    requires Inv(s) && !s.zero && !Opening(s)
    requires forall j: nat :: j < |s.procs| ==> !s.procs[j].Closing?
    ensures Enabled(s, act) && (act.Send? || act.Receive?)
  {
    if Sum(s.procs, InHand) > 0 {
      var i := SumWitness(s.procs, InHand);
      act := Send(i);
    } else {
      var p := SumWitness(s.pipes, InPipe);
      assert EndsRight(s, p);
      SumsAreNatural(s);
      if s.procs[p].Holding? {
        SumIncludes(s.procs, InHand, p);
        assert false;
      }
      act := Receive(p, 0);
    }
  }

  // ---------------------------------------------------------------------------------------------
  // The ring can always be shut down.

  /** System calls a process has before it until it takes part in the ring. */
  function Preparing(n: nat, x: Proc): (k: int)
    ensures 0 <= k
  {
    match x
    case Unborn => 2 * n + 3
    case Forking => 2 * n + 3
    case Closing(j) => if j <= 2 * n then 2 * n - j + 2 else 0
    case Starting => 1
    case _ => 0
  }

  function PreparingIn(n: nat): (f: Proc -> int)
  {
    (x: Proc) => Preparing(n, x)
  }

  ghost function Preparation(s: State): (k: int)
    ensures 0 <= k
  {
    SumLeast(s.procs, PreparingIn(|s.procs|), 0);
    Sum(s.procs, PreparingIn(|s.procs|))
  }

  function Size(v: int): (k: nat)
  {
    if v < 0 then 0 - v else v
  }

  /** Steps that would take a message to 0 if every process brought it nearer by one. */
  function PipeDistance(p: seq<int>): (k: int)
    ensures 0 <= k
  {
    if p == [] then 0 else 2 * Size(p[0]) + 1
  }

  function HandDistance(x: Proc): (k: int)
    ensures 0 <= k
  {
    if x.Holding? then 2 * Size(x.v) + 2 else 0
  }

  ghost function Distance(s: State): (k: int)
    ensures 0 <= k
  {
    SumLeast(s.pipes, PipeDistance, 0);
    SumLeast(s.procs, HandDistance, 0);
    Sum(s.pipes, PipeDistance) + Sum(s.procs, HandDistance)
  }

  lemma PreparationFalls(s: State, act: Action)
    requires Inv(s) && Enabled(s, act) && (act.Fork? || act.Close? || act.Start?)
    ensures Preparation(Apply(s, act)) < Preparation(s)
  {
    var i := Preparer(s, act);
    PreparerGetsOn(s, act);
    SumUpdate(s.procs, i, Apply(s, act).procs[i], PreparingIn(|s.procs|));
  }

  function Preparer(s: State, act: Action): (i: nat)
    requires Shaped(s) && Enabled(s, act) && (act.Fork? || act.Close? || act.Start?)
    ensures i < |s.procs|
  {
    var n := |s.procs|;
    if act.Close? then act.i else if act.Fork? && s.forked < n - 1 then s.forked else n - 1
  }

  lemma PreparerGetsOn(s: State, act: Action)
    requires Inv(s) && Enabled(s, act) && (act.Fork? || act.Close? || act.Start?)
    ensures var i, n, r := Preparer(s, act), |s.procs|, Apply(s, act);
            && r.procs == s.procs[i := r.procs[i]]
            && Preparing(n, r.procs[i]) < Preparing(n, s.procs[i])
  {
    assert EndsRight(s, Preparer(s, act));
  }

  lemma DistanceChange(s: State, r: State, i: nat, p: nat)
    requires i < |s.procs| == |r.procs| && p < |s.pipes| == |r.pipes|
    requires r.procs == s.procs[i := r.procs[i]] && r.pipes == s.pipes[p := r.pipes[p]]
    requires Preparing(|s.procs|, r.procs[i]) == Preparing(|s.procs|, s.procs[i])
    ensures Preparation(r) == Preparation(s)
    ensures Distance(r) == Distance(s) + HandDistance(r.procs[i]) - HandDistance(s.procs[i])
                           + PipeDistance(r.pipes[p]) - PipeDistance(s.pipes[p])
  {
    SumUpdate(s.procs, i, r.procs[i], PreparingIn(|s.procs|));
    SumUpdate(s.procs, i, r.procs[i], HandDistance);
    SumUpdate(s.pipes, p, r.pipes[p], PipeDistance);
  }

  lemma OneMessage(s: State, p: nat)
    requires Inv(s) && p < |s.procs|
    ensures |s.pipes[p]| <= 1
    ensures Sum(s.procs, InHand) > 0 ==> s.pipes[p] == []
  {
    SumsAreNatural(s);
    SumIncludes(s.pipes, InPipe, p);
  }

  lemma SendingGetsNearer(s: State, i: nat)
    requires Inv(s) && Enabled(s, Send(i))
    ensures Preparation(Apply(s, Send(i))) == Preparation(s) && Distance(Apply(s, Send(i))) < Distance(s)
  {
    var p := Successor(|s.procs|, i);
    SumIncludes(s.procs, InHand, i);
    OneMessage(s, p);
    MessageMeansOneToken(s, i);
    PipesAreConnected(s, p);
    DistanceChange(s, Apply(s, Send(i)), i, p);
  }

  /** A process can always bring a message nearer to 0. */
  lemma SomeDrawGetsNearer(v: int) returns (draw: nat)
    requires v != 0 && -SAFETY_BOUND <= v <= SAFETY_BOUND
    ensures Size(Vary(v, LOWER, UPPER, draw)) < Size(v)
  {
    var nearer := if v > 0 then v - 1 else v + 1;
    VaryExactly(v, LOWER, UPPER, nearer);
    draw :| Vary(v, LOWER, UPPER, draw) == nearer;
  }

  lemma ReceivingGetsNearer(s: State, i: nat) returns (act: Action)
    requires Inv(s) && Enabled(s, Receive(i, 0))
    ensures act.Receive? && Enabled(s, act)
    ensures !Apply(s, act).zero ==>
              Preparation(Apply(s, act)) == Preparation(s) && Distance(Apply(s, act)) < Distance(s)
  {
    var v := s.pipes[i][0];
    act := Receive(i, 0);
    if v != 0 {
      var draw := SomeDrawGetsNearer(v);
      act := Receive(i, draw);
      OneMessage(s, i);
      DistanceChange(s, Apply(s, act), i, i);
    }
  }

  /** Before the 0 some step finishes a preparation, brings the message nearer to 0, or receives 0. */
  lemma SomeStepTowardsZero(s: State) returns (act: Action)
    requires Inv(s) && !s.zero
    ensures Enabled(s, act)
    ensures Apply(s, act).zero || Preparation(Apply(s, act)) < Preparation(s)
            || (Preparation(Apply(s, act)) == Preparation(s) && Distance(Apply(s, act)) < Distance(s))
  {
    var n := |s.procs|;
    if s.procs[n - 1] == Forking {
      act := Fork;
      PreparationFalls(s, act);
    } else if s.procs[n - 1] == Starting {
      act := Start;
      PreparationFalls(s, act);
    } else if j: nat :| j < n && s.procs[j].Closing? {
      act := Close(j);
      PreparationFalls(s, act);
    } else {
      act := CarryMessage(s);
      if act.Send? {
        SendingGetsNearer(s, act.i);
      } else {
        act := ReceivingGetsNearer(s, act.i);
      }
    }
  }

  ghost function ShutdownRank(n: nat, s: State): (k: int)
    ensures 0 <= k
  {
    SumLeast(s.procs, Ranks(n), 0);
    Sum(s.procs, Ranks(n))
  }

  /** How far the ring is from all processes being gone. */
  datatype Remaining = Remaining(beforeZero: bool, calls: int, distance: int)

  ghost function WorkLeft(n: nat, s: State): (w: Remaining)
    ensures 0 <= w.calls && 0 <= w.distance
  {
    if s.zero then Remaining(false, ShutdownRank(n, s), 0) else Remaining(true, Preparation(s), Distance(s))
  }

  predicate Less(a: Remaining, b: Remaining)
  {
    || (!a.beforeZero && b.beforeZero)
    || (a.beforeZero == b.beforeZero && a.calls < b.calls)
    || (a.beforeZero == b.beforeZero && a.calls == b.calls && a.distance < b.distance)
  }

  predicate AllGone(s: State)
  {
    s.zero && forall i: nat :: i < |s.procs| ==> s.procs[i] == Gone
  }

  lemma SomeStepNearer(n: nat, acts: seq<Action>, s: State) returns (act: Action, r: State)
    requires 2 <= n && After(n, acts) == Some(s) && !AllGone(s)
    ensures After(n, acts + [act]) == Some(r) && Less(WorkLeft(n, r), WorkLeft(n, s))
  {
    ReachableInv(n, acts, s);
    if s.zero {
      act := ShutdownGoesOn(n, acts, s);
      ShutdownEnds(n, acts, s, act);
    } else {
      act := SomeStepTowardsZero(s);
    }
    r := Apply(s, act);
    assert (acts + [act])[..|acts + [act]| - 1] == acts;
  }

  /** From every reachable state, the initial one included, some run goes on until a 0 is received and
      every process is gone. */
  lemma EveryRunCanBeShutDown(n: nat, acts: seq<Action>, s: State) returns (all: seq<Action>, r: State)
    requires 2 <= n && After(n, acts) == Some(s)
    ensures acts <= all && After(n, all) == Some(r) && |r.procs| == n && AllGone(r)
  {
    all, r := ShutDownFrom(n, acts, s, WorkLeft(n, s));
  }

  lemma {:induction false} ShutDownFrom(n: nat, acts: seq<Action>, s: State, w: Remaining)
      returns (all: seq<Action>, r: State)
    requires 2 <= n && After(n, acts) == Some(s) && w == WorkLeft(n, s)
    ensures acts <= all && After(n, all) == Some(r) && |r.procs| == n && AllGone(r)
    decreases w.beforeZero, w.calls, w.distance
  {
    if AllGone(s) {
      all, r := acts, s;
    } else {
      var act, next := SomeStepNearer(n, acts, s);
      all, r := ShutDownFrom(n, acts + [act], next, WorkLeft(n, next));
    }
  }
}

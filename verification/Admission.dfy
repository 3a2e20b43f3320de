/**
  Admission control by a semaphore (L2_4/POSIX_sem_server.c with L2_4/POSIX_sem_client.c).  Each
  client sends one datagram with a 16-bit number of seconds.  The server takes a permit and starts a
  worker, or denies at once; the worker sleeps, sends the number back and returns the permit.  The
  network may lose, delay, reorder and duplicate datagrams, and a client's alarm may go off at any time.
 */
module Admission {
  import opened Options
  import opened Tally

  const WORDS: nat := 0x1_0000

  /** A 16-bit word as the programs exchange it. */
  type Word = w: int | 0 <= w < WORDS

  /** htons and ntohs on a little-endian machine. */
  function Swap(w: Word): (r: Word)
  {
    w % 256 * 256 + w / 256
  }

  /** What a client puts on the wire for its argument: the low 16 bits in network order. */
  function Wire(arg: int): (r: Word)
  {
    Swap(arg % WORDS)
  }

  /** The denial, -1 as a 16-bit number. */
  const DENY: Word := Swap(0xFFFF)

  lemma SwapTwice(w: Word)
    ensures Swap(Swap(w)) == w
  {
    var hi, lo := w / 256, w % 256;
    assert w == 256 * hi + lo && 0 <= hi < 256;
    assert Swap(w) == 256 * lo + hi;
    assert Swap(w) % 256 == hi && Swap(w) / 256 == lo;
  }

  /** The two bytes change places; a denial is all ones either way. */
  lemma WireExamples()
    ensures Swap(0x1234) == 0x3412 && Wire(5) == 0x0500 && Wire(0x1_0203) == 0x0302
    ensures DENY == 0xFFFF && Wire(-1) == 0xFFFF
  {
  }

  /** Only an argument whose low 16 bits are all ones looks like a denial. */
  lemma WireIsDeny(arg: int)
    ensures Wire(arg) == DENY <==> arg % WORDS == 0xFFFF
  {
    SwapTwice(arg % WORDS);
    SwapTwice(0xFFFF);
  }

  // ---------------------------------------------------------------------------------------------

  datatype Verdict = Timeout | ServiceDenied | TimeHasExpired

  /** `job` is the request whose reply the client took, if it took one. */
  datatype Client =
    | Ready
    | Waiting
    | Deciding(time: Word, job: Option<nat>)
    | Reported(verdict: Verdict, time: Word, job: Option<nat>)

  datatype Status = Examining | Denying | Denied | Starting | Serving | Replied | Over

  /** A received request. */
  datatype Job = Job(client: nat, time: Word, status: Status)

  datatype Reply = Reply(job: nat, client: nat, time: Word)

  /** `current` is the job the receive loop is busy with, `alarmed[c]` client c's last_signal. */
  datatype State = State(clients: seq<Client>, alarmed: seq<bool>, jobs: seq<Job>, current: Option<nat>,
                         permits: nat, replies: seq<Reply>)

  datatype Action =
    | Send(c: nat)
    | Receive(c: nat)        // the server receives a copy of client c's request
    | TryWait
    | SendDenial
    | Spawn
    | Answer(j: nat)         // worker j wakes up and replies
    | Post(j: nat)
    | Deliver(c: nat, k: nat)  // client c receives a copy of the k-th reply
    | Alarm(c: nat)
    | Interrupted(c: nat)    // the alarm breaks client c's recv off
    | Decide(c: nat)

  predicate Busy(s: State, x: Status)
  {
    s.current.Some? && s.current.value < |s.jobs| && s.jobs[s.current.value].status == x
  }

  predicate Enabled(args: seq<int>, s: State, act: Action)
  {
    |s.clients| == |args| == |s.alarmed| &&
    match act
    case Send(c) => c < |args| && s.clients[c].Ready?
    case Receive(c) => c < |args| && !s.clients[c].Ready? && s.current == None
    case TryWait => Busy(s, Examining)
    case SendDenial => Busy(s, Denying)
    case Spawn => Busy(s, Starting)
    case Answer(j) => j < |s.jobs| && s.jobs[j].status == Serving
    case Post(j) => j < |s.jobs| && s.jobs[j].status == Replied
    case Deliver(c, k) => c < |args| && s.clients[c].Waiting? && k < |s.replies| && s.replies[k].client == c
    case Alarm(c) => c < |args| && (s.clients[c].Waiting? || s.clients[c].Deciding?)
    case Interrupted(c) => c < |args| && s.clients[c].Waiting? && s.alarmed[c]
    case Decide(c) => c < |args| && s.clients[c].Deciding?
  }

  function SetStatus(s: State, j: nat, x: Status): (r: State)
    requires j < |s.jobs|
  {
    s.(jobs := s.jobs[j := s.jobs[j].(status := x)])
  }

  /** What the client prints, from its alarm flag and the number it holds. */
  function Report(alarmed: bool, time: Word): (v: Verdict)
  {
    if alarmed then Timeout else if time == DENY then ServiceDenied else TimeHasExpired
  }

  function Apply(args: seq<int>, s: State, act: Action): (r: State)
    requires Enabled(args, s, act)
  {
    match act
    case Send(c) => s.(clients := s.clients[c := Waiting])
    case Receive(c) => s.(jobs := s.jobs + [Job(c, Wire(args[c]), Examining)], current := Some(|s.jobs|))
    case TryWait =>
      if s.permits == 0 then SetStatus(s, s.current.value, Denying)
      else SetStatus(s, s.current.value, Starting).(permits := s.permits - 1)
    case SendDenial =>
      var j := s.current.value;
      SetStatus(s, j, Denied).(current := None, replies := s.replies + [Reply(j, s.jobs[j].client, DENY)])
    case Spawn => SetStatus(s, s.current.value, Serving).(current := None)
    case Answer(j) =>
      SetStatus(s, j, Replied).(replies := s.replies + [Reply(j, s.jobs[j].client, s.jobs[j].time)])
    case Post(j) => SetStatus(s, j, Over).(permits := s.permits + 1)
    case Deliver(c, k) => s.(clients := s.clients[c := Deciding(s.replies[k].time, Some(s.replies[k].job))])
    case Alarm(c) => s.(alarmed := s.alarmed[c := true])
    case Interrupted(c) => s.(clients := s.clients[c := Deciding(Wire(args[c]), None)])
    case Decide(c) =>
      var x := s.clients[c];
      s.(clients := s.clients[c := Reported(Report(s.alarmed[c], x.time), x.time, x.job)])
  }

  function Initial(fsNum: nat, args: seq<int>): (s: State)
  {
    State(seq(|args|, _ => Ready), seq(|args|, _ => false), [], None, fsNum, [])
  }

  /** The state after the given steps, if they can be taken: `fsNum` permits, one client per argument. */
  function After(fsNum: nat, args: seq<int>, acts: seq<Action>): (s: Option<State>)
  {
    if acts == [] then Some(Initial(fsNum, args))
    else
      match After(fsNum, args, acts[..|acts| - 1])
      case None => None
      case Some(p) =>
        if Enabled(args, p, acts[|acts| - 1]) then Some(Apply(args, p, acts[|acts| - 1])) else None
  }

  // ---------------------------------------------------------------------------------------------
  // The invariant.

  function Active(x: Job): (k: int)
  {
    if x.status.Starting? || x.status.Serving? || x.status.Replied? then 1 else 0
  }

  function IsDenied(x: Job): (k: int)
  {
    if x.status.Denied? then 1 else 0
  }

  function IsOver(x: Job): (k: int)
  {
    if x.status.Over? then 1 else 0
  }

  /** Being examined, the denial not sent yet. */
  function Undecided(x: Job): (k: int)
  {
    if x.status.Examining? || x.status.Denying? then 1 else 0
  }

  ghost predicate JobsRight(args: seq<int>, s: State)
  {
    && |s.clients| == |s.alarmed| == |args|
    && (forall j: nat :: j < |s.jobs| ==> s.jobs[j].client < |args| && s.jobs[j].time == Wire(args[s.jobs[j].client]))
    && (s.current.Some? ==> s.current.value == |s.jobs| - 1)
    && (forall j: nat :: j < |s.jobs| ==>
          (s.jobs[j].status in {Examining, Denying, Starting} <==> s.current == Some(j)))
  }

  ghost predicate PermitsRight(fsNum: nat, s: State)
  {
    s.permits + Sum(s.jobs, Active) == fsNum
  }

  /** The number that answers job x, when it has been answered. */
  predicate Answers(x: Job, time: Word)
  {
    (x.status.Denied? && time == DENY) || ((x.status.Replied? || x.status.Over?) && time == x.time)
  }

  ghost predicate RepliesRight(s: State)
  {
    && (forall k: nat :: k < |s.replies| ==>
          && s.replies[k].job < |s.jobs|
          && s.replies[k].client == s.jobs[s.replies[k].job].client
          && Answers(s.jobs[s.replies[k].job], s.replies[k].time))
    && (forall k: nat, l: nat :: k < l < |s.replies| ==> s.replies[k].job != s.replies[l].job)
  }

  ghost predicate ClientRight(s: State, c: nat)
    requires c < |s.clients| == |s.alarmed|
  {
    match s.clients[c]
    case Ready => true
    case Waiting => true
    case Deciding(time, None) => s.alarmed[c]
    case Deciding(time, Some(j)) => j < |s.jobs| && s.jobs[j].client == c && Answers(s.jobs[j], time)
    case Reported(verdict, time, None) => s.alarmed[c] && verdict == Timeout
    case Reported(verdict, time, Some(j)) =>
      verdict == Report(s.alarmed[c], time) && j < |s.jobs| && s.jobs[j].client == c && Answers(s.jobs[j], time)
  }

  ghost predicate ClientsRight(s: State)
  {
    |s.clients| == |s.alarmed| && forall c: nat :: c < |s.clients| ==> ClientRight(s, c)
  }

  lemma StepKeepsJobs(args: seq<int>, s: State, act: Action)
    requires JobsRight(args, s) && Enabled(args, s, act)
    ensures JobsRight(args, Apply(args, s, act))
  {
  }

  lemma StepKeepsPermits(fsNum: nat, args: seq<int>, s: State, act: Action)
    requires PermitsRight(fsNum, s) && Enabled(args, s, act)
    ensures PermitsRight(fsNum, Apply(args, s, act))
  {
    var r := Apply(args, s, act);
    match act
    case Receive(_) => assert r.jobs[..|s.jobs|] == s.jobs;
    case TryWait => SumUpdate(s.jobs, s.current.value, r.jobs[s.current.value], Active);
    case SendDenial => SumUpdate(s.jobs, s.current.value, r.jobs[s.current.value], Active);
    case Spawn => SumUpdate(s.jobs, s.current.value, r.jobs[s.current.value], Active);
    case Answer(j) => SumUpdate(s.jobs, j, r.jobs[j], Active);
    case Post(j) => SumUpdate(s.jobs, j, r.jobs[j], Active);
    case _ =>
  }

  lemma StepKeepsReplies(args: seq<int>, s: State, act: Action)
    requires JobsRight(args, s) && RepliesRight(s) && Enabled(args, s, act)
    ensures RepliesRight(Apply(args, s, act))
  {
  }

  /** An answered job stays answered by the same number. */
  lemma AnswersStay(args: seq<int>, s: State, act: Action, j: nat, time: Word)
    requires Enabled(args, s, act) && j < |s.jobs| && Answers(s.jobs[j], time)
    ensures j < |Apply(args, s, act).jobs| && Apply(args, s, act).jobs[j].client == s.jobs[j].client
    ensures Answers(Apply(args, s, act).jobs[j], time)
  {
  }

  lemma StepKeepsClients(args: seq<int>, s: State, act: Action)
    requires JobsRight(args, s) && RepliesRight(s) && ClientsRight(s) && Enabled(args, s, act)
    ensures ClientsRight(Apply(args, s, act))
  {
    var r := Apply(args, s, act);
    forall c: nat | c < |r.clients| ensures ClientRight(r, c) {
      assert ClientRight(s, c);
      match s.clients[c]
      case Deciding(time, Some(j)) => AnswersStay(args, s, act, j, time);
      case Reported(_, time, Some(j)) => AnswersStay(args, s, act, j, time);
      case _ =>
    }
  }

  lemma {:induction false} ReachableInv(fsNum: nat, args: seq<int>, acts: seq<Action>, s: State)
    requires After(fsNum, args, acts) == Some(s)
    ensures JobsRight(args, s) && PermitsRight(fsNum, s) && RepliesRight(s) && ClientsRight(s)
  {
    if acts != [] {
      var act := acts[|acts| - 1];
      var p := After(fsNum, args, acts[..|acts| - 1]).value;
      ReachableInv(fsNum, args, acts[..|acts| - 1], p);
      StepKeepsJobs(args, p, act);
      StepKeepsPermits(fsNum, args, p, act);
      StepKeepsReplies(args, p, act);
      StepKeepsClients(args, p, act);
    }
  }

  // ---------------------------------------------------------------------------------------------
  // The theorems.

  lemma {:induction false} EveryJobIsOneThing(jobs: seq<Job>)
    ensures Sum(jobs, IsDenied) + Sum(jobs, Active) + Sum(jobs, IsOver) + Sum(jobs, Undecided) == |jobs|
  {
    if jobs != [] {
      EveryJobIsOneThing(jobs[..|jobs| - 1]);
    }
  }

  /** Permits are conserved, so at most `fsNum` requests are in service, and the requests received
      are those denied, in service, finished and the one being examined, if any. */
  lemma PermitsAndRequestsAreConserved(fsNum: nat, args: seq<int>, acts: seq<Action>, s: State)
    requires After(fsNum, args, acts) == Some(s)
    ensures s.permits + Sum(s.jobs, Active) == fsNum
    ensures |s.jobs| == Sum(s.jobs, IsDenied) + Sum(s.jobs, Active) + Sum(s.jobs, IsOver)
                        + (if Busy(s, Examining) || Busy(s, Denying) then 1 else 0)
  {
    ReachableInv(fsNum, args, acts, s);
    EveryJobIsOneThing(s.jobs);
    if s.current.Some? {
      var n := |s.jobs| - 1;
      SumConstant(s.jobs[..n], Undecided, 0);
    } else {
      SumConstant(s.jobs, Undecided, 0);
    }
  }

  /** The examined request is denied exactly when all permits are out, and takes one otherwise. */
  lemma DeniedExactlyWhenFull(fsNum: nat, args: seq<int>, acts: seq<Action>, s: State)
    requires After(fsNum, args, acts) == Some(s) && Busy(s, Examining)
    ensures Enabled(args, s, TryWait)
    ensures Busy(Apply(args, s, TryWait), Denying) <==> Sum(s.jobs, Active) == fsNum
    ensures Busy(Apply(args, s, TryWait), Starting) <==> Sum(s.jobs, Active) < fsNum
  {
    ReachableInv(fsNum, args, acts, s);
  }

  /** A request is answered at most once. */
  lemma AnsweredAtMostOnce(fsNum: nat, args: seq<int>, acts: seq<Action>, s: State, k: nat, l: nat)
    requires After(fsNum, args, acts) == Some(s) && k < l < |s.replies|
    ensures s.replies[k].job != s.replies[l].job
  {
    ReachableInv(fsNum, args, acts, s);
  }

  /** Client c has printed its verdict about the reply to job j, without a timeout. */
  predicate Judged(s: State, c: nat, j: nat)
  {
    c < |s.clients| && s.clients[c].Reported? && s.clients[c].verdict != Timeout
    && s.clients[c].job == Some(j) && j < |s.jobs|
  }

  /** The client prints "denied" exactly when the server denied the request or the request itself
      was the denial's number; without a timeout it always has a reply of its own to go by. */
  lemma VerdictExplained(fsNum: nat, args: seq<int>, acts: seq<Action>, s: State, c: nat)
    requires After(fsNum, args, acts) == Some(s) && c < |s.clients| == |args|
    requires s.clients[c].Reported? && s.clients[c].verdict != Timeout
    ensures s.clients[c].job.Some? && Judged(s, c, s.clients[c].job.value)
    ensures s.jobs[s.clients[c].job.value].client == c
    ensures s.clients[c].verdict == ServiceDenied <==>
              s.jobs[s.clients[c].job.value].status == Denied || args[c] % WORDS == 0xFFFF
  {
    ReachableInv(fsNum, args, acts, s);
    assert ClientRight(s, c);
    WireIsDeny(args[c]);
  }

  /** The client reports a timeout exactly if its alarm has gone off by then; a client served reports
      its own number. */
  lemma ReportMatchesAlarmAndNumber(fsNum: nat, args: seq<int>, acts: seq<Action>, s: State, c: nat)
    requires After(fsNum, args, acts) == Some(s) && c < |s.clients| && s.clients[c].Reported?
    ensures |s.clients| == |args| == |s.alarmed|
    ensures s.clients[c].verdict == Timeout <==> s.alarmed[c]
    ensures s.clients[c].verdict == TimeHasExpired ==> s.clients[c].time == Wire(args[c])
  {
    ReachableInv(fsNum, args, acts, s);
    assert ClientRight(s, c);
  }

  /** In every run client c's verdict on a reply tells whether the server denied it. */
  ghost predicate Truthful(fsNum: nat, args: seq<int>, c: nat)
  {
    forall acts: seq<Action>, s: State, j: nat ::
      After(fsNum, args, acts) == Some(s) && Judged(s, c, j) ==>
        (s.clients[c].verdict == ServiceDenied <==> s.jobs[j].status == Denied)
  }

  lemma OneMore(fsNum: nat, args: seq<int>, acts: seq<Action>, s: State, act: Action)
    requires After(fsNum, args, acts) == Some(s) && Enabled(args, s, act)
    ensures After(fsNum, args, acts + [act]) == Some(Apply(args, s, act))
  {
    assert (acts + [act])[..|acts + [act]| - 1] == acts;
  }

  /** Client c asks first and is served. */
  lemma ServedRun(fsNum: nat, args: seq<int>, c: nat) returns (acts: seq<Action>, s: State)
    requires fsNum > 0 && c < |args|
    ensures After(fsNum, args, acts) == Some(s) && Judged(s, c, 0)
    ensures s.jobs[0].status == Replied
  {
    acts, s := [], Initial(fsNum, args);
    OneMore(fsNum, args, acts, s, Send(c));
    acts, s := acts + [Send(c)], Apply(args, s, Send(c));
    OneMore(fsNum, args, acts, s, Receive(c));
    acts, s := acts + [Receive(c)], Apply(args, s, Receive(c));
    OneMore(fsNum, args, acts, s, TryWait);
    acts, s := acts + [TryWait], Apply(args, s, TryWait);
    OneMore(fsNum, args, acts, s, Spawn);
    acts, s := acts + [Spawn], Apply(args, s, Spawn);
    OneMore(fsNum, args, acts, s, Answer(0));
    acts, s := acts + [Answer(0)], Apply(args, s, Answer(0));
    OneMore(fsNum, args, acts, s, Deliver(c, 0));
    acts, s := acts + [Deliver(c, 0)], Apply(args, s, Deliver(c, 0));
    OneMore(fsNum, args, acts, s, Decide(c));
    acts, s := acts + [Decide(c)], Apply(args, s, Decide(c));
  }

  /** The client's verdict is truthful in every run exactly when its request is not, in its low 16
      bits, the number the server uses for a denial. */
  lemma TruthfulExactly(fsNum: nat, args: seq<int>, c: nat)
    requires fsNum > 0 && c < |args|
    ensures Truthful(fsNum, args, c) <==> args[c] % WORDS != 0xFFFF
  {
    if args[c] % WORDS != 0xFFFF {
      forall acts: seq<Action>, s: State, j: nat | After(fsNum, args, acts) == Some(s) && Judged(s, c, j)
        ensures s.clients[c].verdict == ServiceDenied <==> s.jobs[j].status == Denied
      {
        ReachableInv(fsNum, args, acts, s);
        VerdictExplained(fsNum, args, acts, s, c);
      }
    } else {
      var acts, s := ServedRun(fsNum, args, c);
      ReachableInv(fsNum, args, acts, s);
      VerdictExplained(fsNum, args, acts, s, c);
      assert After(fsNum, args, acts) == Some(s) && Judged(s, c, 0);
    }
  }

  // ---------------------------------------------------------------------------------------------
  // The loops of the two programs, against the machine.

  /** The state after further steps, if they can be taken. */
  function Then(args: seq<int>, s: State, acts: seq<Action>): (r: Option<State>)
    decreases |acts|
  {
    if acts == [] then Some(s)
    else if Enabled(args, s, acts[0]) then Then(args, Apply(args, s, acts[0]), acts[1..])
    else None
  }

  /** What makes the receive loop go round: a datagram from client c, worker j running to its end
      meanwhile, or a signal, which may be the one to stop. */
  datatype Event = Datagram(c: nat) | WorkerDone(j: nat) | Signal(stop: bool)

  /** The machine's steps for one event. */
  function Reaction(s: State, e: Event): (acts: seq<Action>)
  {
    match e
    case Datagram(c) => [Receive(c), TryWait, if s.permits == 0 then SendDenial else Spawn]
    case WorkerDone(j) => [Answer(j), Post(j)]
    case Signal(_) => []
  }

  /** The machine's state after the loop has seen all events up to the one that stops it; None if
      the machine cannot follow them. */
  function Served(args: seq<int>, s: State, events: seq<Event>): (r: Option<State>)
    decreases |events|
  {
    if events == [] || events[0] == Signal(true) then Some(s)
    else
      match Then(args, s, Reaction(s, events[0]))
      case None => None
      case Some(p) => Served(args, p, events[1..])
  }

  /** The server's memory: the semaphore, the requests it has seen and what it has sent. */
  class Server {
    var permits: nat
    var jobs: seq<Job>
    var replies: seq<Reply>

    ghost predicate Matches(s: State)
      reads this
    {
      s.permits == permits && s.jobs == jobs && s.replies == replies && s.current == None
    }

    constructor (fsNum: nat)
      ensures forall args: seq<int> :: Matches(Initial(fsNum, args))
    {
      permits, jobs, replies := fsNum, [], [];
    }

    /** One turn of the receive loop. */
    method HandleRequest(c: nat, time: Word, ghost args: seq<int>, ghost s: State)
      requires Matches(s) && Enabled(args, s, Receive(c)) && time == Wire(args[c])
      modifies this
      ensures Then(args, s, Reaction(s, Datagram(c))).Some?
      ensures Matches(Then(args, s, Reaction(s, Datagram(c))).value)
    {
      var j := |jobs|;
      ghost var received := Apply(args, s, Receive(c));
      ghost var waited := Apply(args, received, TryWait);
      var status;
      if permits == 0 {
        replies := replies + [Reply(j, c, DENY)];
        status := Denied;
        assert Then(args, waited, [SendDenial]) == Some(Apply(args, waited, SendDenial));
      } else {
        permits := permits - 1;
        status := Serving;
        assert Then(args, waited, [Spawn]) == Some(Apply(args, waited, Spawn));
      }
      jobs := jobs + [Job(c, time, status)];
      ghost var acts := Reaction(s, Datagram(c));
      assert Then(args, s, acts) == Then(args, received, acts[1..]) == Then(args, waited, acts[1..][1..]);
    }

    /** A worker: after its sleep it sends the number back and posts. */
    method CommunicateDgram(j: nat, ghost args: seq<int>, ghost s: State)
      requires Matches(s) && Enabled(args, s, Answer(j))
      modifies this
      ensures Then(args, s, Reaction(s, WorkerDone(j))).Some?
      ensures Matches(Then(args, s, Reaction(s, WorkerDone(j))).value)
    {
      ghost var answered := Apply(args, s, Answer(j));
      replies := replies + [Reply(j, jobs[j].client, jobs[j].time)];
      permits := permits + 1;
      jobs := jobs[j := jobs[j].(status := Over)];
      assert Then(args, answered, [Post(j)]) == Some(Apply(args, answered, Post(j)));
      assert Then(args, s, Reaction(s, WorkerDone(j))) == Then(args, answered, Reaction(s, WorkerDone(j))[1..]);
    }

    /** The receive loop over any events the machine can follow. */
    method DoServer(args: seq<int>, events: seq<Event>, ghost s: State)
      requires Matches(s) && Served(args, s, events).Some?
      modifies this
      ensures Matches(Served(args, s, events).value)
    {
      var i := 0;
      ghost var now := s;
      while i < |events| && events[i] != Signal(true)
        invariant i <= |events| && Matches(now)
        invariant Served(args, s, events) == Served(args, now, events[i..])
      {
        assert events[i..][0] == events[i] && events[i..][1..] == events[i + 1..];
        ghost var next := Then(args, now, Reaction(now, events[i])).value;
        match events[i] {
          case Datagram(c) => HandleRequest(c, Wire(args[c]), args, now);
          case WorkerDone(j) => CommunicateDgram(j, args, now);
          case Signal(_) =>
        }
        now := next;
        i := i + 1;
      }
    }
  }

  /** How a recv of the client ends: with a datagram, or broken off by a signal.  `alarmed` says
      whether the alarm has gone off before the client looks at last_signal next. */
  datatype Outcome = Got(time: Word, alarmed: bool) | Eintr(alarmed: bool)

  /** The client's wait for a reply and its verdict: the first recv that is not broken off by some
      other signal decides, and until then the client goes on waiting. */
  method AwaitReply(arg: int, outcomes: seq<Outcome>) returns (verdict: Option<Verdict>, k: nat)
    ensures k <= |outcomes| && forall l :: 0 <= l < k ==> outcomes[l] == Eintr(false)
    ensures k == |outcomes| ==> verdict == None
    ensures k < |outcomes| ==> outcomes[k] != Eintr(false)
    ensures k < |outcomes| && outcomes[k].Eintr? ==> verdict == Some(Timeout)
    ensures k < |outcomes| && outcomes[k].Got? ==> verdict == Some(Report(outcomes[k].alarmed, outcomes[k].time))
  {
    var time := Wire(arg);
    var lastSignal := false;
    k := 0;
    while k < |outcomes| && outcomes[k].Eintr? && !outcomes[k].alarmed
      invariant k <= |outcomes|
      invariant forall l :: 0 <= l < k ==> outcomes[l] == Eintr(false)
    {
      k := k + 1;
    }
    if k == |outcomes| {
      return None, k;
    }
    lastSignal := outcomes[k].alarmed;
    if outcomes[k].Got? {
      time := outcomes[k].time;
    }
    verdict := Some(if lastSignal then Timeout else if time == DENY then ServiceDenied else TimeHasExpired);
  }
}

/** The acceptor and the workers of the server, as a transition system over any number of workers.
    The acceptor tests for room and adds its job in two separate critical sections; every wait may
    end by a signal or spuriously, and is followed by the test again. */
module PoolProtocol {
  import opened Basics
  import opened JobQueue

  datatype Worker = Awake | Asleep | Running(job: Request)

  datatype Acceptor = Testing | Waiting | Accepting | Holding(job: Request)
  {
    function Held(): seq<Request> { if Holding? then [job] else [] }
    predicate Reserved() { Accepting? || Holding? }
  }

  /** The shared queue and counter, everyone's phase, and three histories: connections accepted,
      jobs taken off the queue, and jobs done with. */
  datatype State = State(queue: seq<Request>, active: int, maxSize: int, acceptor: Acceptor, workers: seq<Worker>,
                         accepted: seq<Request>, dispatched: seq<Request>, finished: multiset<Request>)

  datatype Step =
    | WorkerTest(w: nat)
    | WorkerDone(w: nat)
    | AcceptorTest
    | Accept(job: Request)
    | Enqueue(woken: set<nat>)
    | SpuriousWorker(w: nat)
    | SpuriousAcceptor

  function Start(workers: nat, maxSize: int): State {
    State([], 0, maxSize, Testing, seq(workers, i => Awake), [], [], multiset{})
  }

  // ---- Steps ----

  function Wake(ws: seq<Worker>, woken: set<nat>): (r: seq<Worker>)
    ensures |r| == |ws|
    ensures forall w: nat :: w < |ws| ==> r[w] == if w in woken && ws[w].Asleep? then Awake else ws[w]
  {
    seq(|ws|, w requires 0 <= w < |ws| => if w in woken && ws[w].Asleep? then Awake else ws[w])
  }

  /** Only the acceptor ever waits for room, so a signal wakes it if it waits. */
  function Roused(a: Acceptor): Acceptor {
    if a.Waiting? then Testing else a
  }

  ghost predicate SleepsAt(ws: seq<Worker>, w: nat) {
    w < |ws| && ws[w].Asleep?
  }

  ghost predicate SomeoneSleeps(ws: seq<Worker>) {
    exists w :: SleepsAt(ws, w)
  }

  /** A signal wakes at least one of the sleeping workers, if there are any. */
  ghost predicate Signalled(ws: seq<Worker>, woken: set<nat>) {
    && (forall w :: w in woken ==> SleepsAt(ws, w))
    && (SomeoneSleeps(ws) ==> woken != {})
  }

  ghost predicate Enabled(s: State, step: Step) {
    match step
    case WorkerTest(w) => w < |s.workers| && s.workers[w].Awake?
    case WorkerDone(w) => w < |s.workers| && s.workers[w].Running?
    case AcceptorTest => s.acceptor.Testing?
    case Accept(_) => s.acceptor.Accepting?
    case Enqueue(woken) => s.acceptor.Holding? && Signalled(s.workers, woken)
    case SpuriousWorker(w) => w < |s.workers| && s.workers[w].Asleep?
    case SpuriousAcceptor => s.acceptor.Waiting?
  }

  ghost function Apply(s: State, step: Step): State
    requires Enabled(s, step)
  {
    match step
    case WorkerTest(w) =>
      if s.queue == [] then s.(workers := s.workers[w := Asleep])
      else s.(queue := s.queue[1..], active := s.active + 1, acceptor := Roused(s.acceptor),
              workers := s.workers[w := Running(s.queue[0])], dispatched := s.dispatched + [s.queue[0]])
    case WorkerDone(w) =>
      s.(active := s.active - 1, acceptor := Roused(s.acceptor), workers := s.workers[w := Awake],
         finished := s.finished + multiset{s.workers[w].job})
    case AcceptorTest =>
      s.(acceptor := if |s.queue| + s.active >= s.maxSize then Waiting else Accepting)
    case Accept(job) => s.(acceptor := Holding(job), accepted := s.accepted + [job])
    case Enqueue(woken) =>
      s.(queue := s.queue + [s.acceptor.job], acceptor := Testing, workers := Wake(s.workers, woken))
    case SpuriousWorker(w) => s.(workers := s.workers[w := Awake])
    case SpuriousAcceptor => s.(acceptor := Testing)
  }

  // ---- Counting workers ----

  function JobOf(w: Worker): multiset<Request> {
    if w.Running? then multiset{w.job} else multiset{}
  }

  function RunningJobs(ws: seq<Worker>): multiset<Request> {
    if ws == [] then multiset{} else RunningJobs(ws[..|ws| - 1]) + JobOf(ws[|ws| - 1])
  }

  function RunningCount(ws: seq<Worker>): nat {
    if ws == [] then 0 else RunningCount(ws[..|ws| - 1]) + Unit(ws[|ws| - 1].Running?)
  }

  function AwakeCount(ws: seq<Worker>): nat {
    if ws == [] then 0 else AwakeCount(ws[..|ws| - 1]) + Unit(ws[|ws| - 1].Awake?)
  }

  /** How often a request is among the running jobs. */
  function Handled(ws: seq<Worker>, r: Request): nat {
    if ws == [] then 0 else Handled(ws[..|ws| - 1], r) + Unit(ws[|ws| - 1] == Running(r))
  }

  lemma {:induction false} HandledIsMultiplicity(ws: seq<Worker>, r: Request)
    ensures RunningJobs(ws)[r] == Handled(ws, r)
  {
    if ws != [] {
      HandledIsMultiplicity(ws[..|ws| - 1], r);
    }
  }

  lemma {:induction false} HandledMoved(ws: seq<Worker>, w: nat, p: Worker, r: Request)
    requires w < |ws|
    ensures Handled(ws[w := p], r) + Unit(ws[w] == Running(r)) == Handled(ws, r) + Unit(p == Running(r))
  {
    var n := |ws| - 1;
    if w == n {
      assert ws[w := p][..n] == ws[..n];
    } else {
      HandledMoved(ws[..n], w, p, r);
      assert ws[w := p][..n] == ws[..n][w := p];
    }
  }

  lemma JobCount(ws: seq<Worker>, w: nat, p: Worker, r: Request)
    requires w < |ws|
    ensures RunningJobs(ws[w := p])[r] + Unit(ws[w] == Running(r)) == RunningJobs(ws)[r] + Unit(p == Running(r))
  {
    HandledMoved(ws, w, p, r);
    HandledIsMultiplicity(ws, r);
    HandledIsMultiplicity(ws[w := p], r);
  }

  lemma JobTaken(ws: seq<Worker>, w: nat, job: Request, d: multiset<Request>, f: multiset<Request>)
    requires w < |ws| && ws[w].Awake? && d == RunningJobs(ws) + f
    ensures d + multiset{job} == RunningJobs(ws[w := Running(job)]) + f
  {
    forall r
      ensures (d + multiset{job})[r] == (RunningJobs(ws[w := Running(job)]) + f)[r]
    {
      JobCount(ws, w, Running(job), r);
    }
  }

  lemma JobDone(ws: seq<Worker>, w: nat, d: multiset<Request>, f: multiset<Request>)
    requires w < |ws| && ws[w].Running? && d == RunningJobs(ws) + f
    ensures d == RunningJobs(ws[w := Awake]) + (f + multiset{ws[w].job})
  {
    forall r
      ensures d[r] == (RunningJobs(ws[w := Awake]) + (f + multiset{ws[w].job}))[r]
    {
      JobCount(ws, w, Awake, r);
    }
  }

  lemma JobsKept(ws: seq<Worker>, w: nat, p: Worker)
    requires w < |ws| && !ws[w].Running? && !p.Running?
    ensures RunningJobs(ws[w := p]) == RunningJobs(ws)
  {
    forall r
      ensures RunningJobs(ws[w := p])[r] == RunningJobs(ws)[r]
    {
      JobCount(ws, w, p, r);
    }
  }

  lemma {:induction false} WorkerMoved(ws: seq<Worker>, w: nat, p: Worker)
    requires w < |ws|
    ensures RunningCount(ws[w := p]) == RunningCount(ws) - Unit(ws[w].Running?) + Unit(p.Running?)
    ensures AwakeCount(ws[w := p]) == AwakeCount(ws) - Unit(ws[w].Awake?) + Unit(p.Awake?)
    ensures RunningCount(ws) >= Unit(ws[w].Running?)
  {
    var n := |ws| - 1;
    if w == n {
      assert ws[w := p][..n] == ws[..n];
    } else {
      WorkerMoved(ws[..n], w, p);
      assert ws[w := p][..n] == ws[..n][w := p];
    }
  }

  lemma RunningLast(ws: seq<Worker>)
    requires ws != []
    ensures RunningJobs(ws) == RunningJobs(ws[..|ws| - 1]) + JobOf(ws[|ws| - 1])
  {
  }

  lemma {:induction false} SameJobs(ws: seq<Worker>, ws': seq<Worker>)
    requires |ws| == |ws'| && forall w :: 0 <= w < |ws| ==> JobOf(ws[w]) == JobOf(ws'[w])
    ensures RunningJobs(ws) == RunningJobs(ws')
  {
    if ws != [] {
      SameJobs(ws[..|ws| - 1], ws'[..|ws| - 1]);
      RunningLast(ws);
      RunningLast(ws');
    }
  }

  lemma JobsWoken(ws: seq<Worker>, woken: set<nat>)
    ensures RunningJobs(Wake(ws, woken)) == RunningJobs(ws)
  {
    SameJobs(ws, Wake(ws, woken));
  }

  lemma {:induction false} WorkersWoken(ws: seq<Worker>, woken: set<nat>)
    ensures RunningCount(Wake(ws, woken)) == RunningCount(ws)
    ensures AwakeCount(ws) <= AwakeCount(Wake(ws, woken)) <= |ws|
  {
    if ws != [] {
      var n := |ws| - 1;
      WorkersWoken(ws[..n], woken);
      assert Wake(ws, woken)[..n] == Wake(ws[..n], woken);
    }
  }

  lemma {:induction false} OneMoreAwake(ws: seq<Worker>, woken: set<nat>, w: nat)
    requires w in woken && SleepsAt(ws, w)
    ensures AwakeCount(Wake(ws, woken)) > AwakeCount(ws)
  {
    var n := |ws| - 1;
    assert Wake(ws, woken)[..n] == Wake(ws[..n], woken);
    if w < n {
      OneMoreAwake(ws[..n], woken, w);
    } else {
      WorkersWoken(ws[..n], woken);
    }
  }

  // ---- The invariant ----

  /** Room: queued and active jobs, with the slot the acceptor has reserved, never exceed the limit,
      and the counter is the number of jobs being handled. */
  ghost predicate RoomOk(s: State) {
    && s.active == RunningCount(s.workers)
    && |s.queue| + s.active + Unit(s.acceptor.Reserved()) <= s.maxSize
  }

  /** Order: what was dispatched, what is queued and what the acceptor holds make up, in this
      order, everything accepted; and what was dispatched is being handled or finished, once each. */
  ghost predicate OrderOk(s: State) {
    && s.accepted == s.dispatched + s.queue + s.acceptor.Held()
    && multiset(s.dispatched) == RunningJobs(s.workers) + s.finished
  }

  /** Sleep: a worker sleeps only while the awake idle ones suffice for the queue, and the acceptor
      only while there is no room. */
  ghost predicate SleepOk(s: State) {
    && (SomeoneSleeps(s.workers) ==> AwakeCount(s.workers) >= |s.queue|)
    && (s.acceptor.Waiting? ==> |s.queue| + s.active == s.maxSize)
  }

  ghost predicate Inv(s: State) {
    RoomOk(s) && OrderOk(s) && SleepOk(s)
  }

  // ---- Room and sleep are kept ----

  /** If a worker sleeps after another one changed phase awake, then it slept before. */
  lemma StillAsleep(ws: seq<Worker>, w: nat, p: Worker)
    requires w < |ws| && !p.Asleep?
    ensures SomeoneSleeps(ws[w := p]) ==> SomeoneSleeps(ws)
  {
    var ws' := ws[w := p];
    if u :| SleepsAt(ws', u) {
      assert SleepsAt(ws, u);
    }
  }

  lemma WorkerTestRoom(s: State, w: nat)
    requires RoomOk(s) && SleepOk(s) && Enabled(s, WorkerTest(w))
    ensures RoomOk(Apply(s, WorkerTest(w))) && SleepOk(Apply(s, WorkerTest(w)))
  {
    if s.queue == [] {
      WorkerMoved(s.workers, w, Asleep);
    } else {
      WorkerMoved(s.workers, w, Running(s.queue[0]));
      StillAsleep(s.workers, w, Running(s.queue[0]));
    }
  }

  lemma EnqueueRoom(s: State, woken: set<nat>)
    requires RoomOk(s) && SleepOk(s) && Enabled(s, Enqueue(woken))
    ensures RoomOk(Apply(s, Enqueue(woken))) && SleepOk(Apply(s, Enqueue(woken)))
  {
    var ws' := Wake(s.workers, woken);
    WorkersWoken(s.workers, woken);
    if u :| SleepsAt(ws', u) {
      assert SleepsAt(s.workers, u);
      var v :| v in woken;
      OneMoreAwake(s.workers, woken, v);
    }
  }

  lemma RoomKept(s: State, step: Step)
    requires RoomOk(s) && SleepOk(s) && Enabled(s, step)
    ensures RoomOk(Apply(s, step)) && SleepOk(Apply(s, step))
  {
    match step
    case WorkerTest(w) => WorkerTestRoom(s, w);
    case WorkerDone(w) =>
      WorkerMoved(s.workers, w, Awake);
      StillAsleep(s.workers, w, Awake);
    case Enqueue(woken) => EnqueueRoom(s, woken);
    case SpuriousWorker(w) =>
      WorkerMoved(s.workers, w, Awake);
      StillAsleep(s.workers, w, Awake);
    case AcceptorTest =>
    case Accept(_) =>
    case SpuriousAcceptor =>
  }

  // ---- Order is kept ----

  lemma TakenInOrder(d: seq<Request>, q: seq<Request>, h: seq<Request>)
    requires q != []
    ensures d + q + h == d + [q[0]] + q[1..] + h
    ensures multiset(d + [q[0]]) == multiset(d) + multiset{q[0]}
  {
    assert q == [q[0]] + q[1..];
  }

  lemma HandedOver(d: seq<Request>, q: seq<Request>, job: Request)
    ensures d + q + [job] == d + (q + [job]) + []
  {
  }

  lemma WorkerTestOrder(s: State, w: nat)
    requires OrderOk(s) && Enabled(s, WorkerTest(w))
    ensures OrderOk(Apply(s, WorkerTest(w)))
  {
    if s.queue == [] {
      JobsKept(s.workers, w, Asleep);
    } else {
      JobTaken(s.workers, w, s.queue[0], multiset(s.dispatched), s.finished);
      TakenInOrder(s.dispatched, s.queue, s.acceptor.Held());
    }
  }

  lemma EnqueueOrder(s: State, woken: set<nat>)
    requires OrderOk(s) && Enabled(s, Enqueue(woken))
    ensures OrderOk(Apply(s, Enqueue(woken)))
  {
    JobsWoken(s.workers, woken);
    HandedOver(s.dispatched, s.queue, s.acceptor.job);
  }

  lemma AcceptorOrder(s: State, step: Step)
    requires OrderOk(s) && Enabled(s, step) && (step.AcceptorTest? || step.Accept? || step.SpuriousAcceptor?)
    ensures OrderOk(Apply(s, step))
  {
  }

  lemma OrderKept(s: State, step: Step)
    requires OrderOk(s) && Enabled(s, step)
    ensures OrderOk(Apply(s, step))
  {
    match step
    case WorkerTest(w) => WorkerTestOrder(s, w);
    case WorkerDone(w) => JobDone(s.workers, w, multiset(s.dispatched), s.finished);
    case Enqueue(woken) => EnqueueOrder(s, woken);
    case SpuriousWorker(w) => JobsKept(s.workers, w, Awake);
    case _ => AcceptorOrder(s, step);
  }

  lemma StepKeepsInv(s: State, step: Step)
    requires Inv(s) && Enabled(s, step)
    ensures Inv(Apply(s, step))
  {
    RoomKept(s, step);
    OrderKept(s, step);
  }

  // ---- Runs ----

  ghost predicate Run(s: State, steps: seq<Step>)
    decreases |steps|
  {
    steps == [] || (Enabled(s, steps[0]) && Run(Apply(s, steps[0]), steps[1..]))
  }

  ghost function Final(s: State, steps: seq<Step>): State
    requires Run(s, steps)
    decreases |steps|
  {
    if steps == [] then s else Final(Apply(s, steps[0]), steps[1..])
  }

  lemma {:induction false} NobodyRunsAtStart(n: nat)
    ensures RunningJobs(seq(n, i => Awake)) == multiset{} && RunningCount(seq(n, i => Awake)) == 0
    ensures !SomeoneSleeps(seq(n, i => Awake))
  {
    if n > 0 {
      NobodyRunsAtStart(n - 1);
      assert seq(n, i => Awake)[..n - 1] == seq(n - 1, i => Awake);
    }
  }

  lemma {:induction false} RunFrom(s: State, steps: seq<Step>)
    requires Inv(s) && Run(s, steps)
    ensures Inv(Final(s, steps))
    decreases |steps|
  {
    if steps != [] {
      StepKeepsInv(s, steps[0]);
      RunFrom(Apply(s, steps[0]), steps[1..]);
    }
  }

  /** In every run of the server, admission, order and sleep are as promised. */
  lemma {:induction false} RunKeepsInv(workers: nat, maxSize: int, steps: seq<Step>)
    requires maxSize > 0 && Run(Start(workers, maxSize), steps)
    ensures Inv(Final(Start(workers, maxSize), steps))
  {
    NobodyRunsAtStart(workers);
    RunFrom(Start(workers, maxSize), steps);
  }

  // ---- Exactly once, in order ----

  lemma {:induction false} HistoriesGrow(s: State, steps: seq<Step>)
    requires Run(s, steps)
    ensures s.accepted <= Final(s, steps).accepted && s.dispatched <= Final(s, steps).dispatched
    ensures s.finished <= Final(s, steps).finished
    ensures Final(s, steps).maxSize == s.maxSize && |Final(s, steps).workers| == |s.workers|
    decreases |steps|
  {
    if steps != [] {
      HistoriesGrow(Apply(s, steps[0]), steps[1..]);
    }
  }

  ghost predicate Accounted(s: State) {
    multiset(s.accepted) == RunningJobs(s.workers) + s.finished + multiset(s.queue + s.acceptor.Held())
  }

  lemma NoneLost(s: State)
    requires OrderOk(s)
    ensures Accounted(s)
  {
    assert s.accepted == s.dispatched + (s.queue + s.acceptor.Held());
  }

  /** First come, first served: the jobs dispatched during a run are the next ones accepted, and
      every accepted job is queued, held, active or finished, with none lost or doubled. */
  lemma ServedInOrder(s: State, steps: seq<Step>)
    requires Inv(s) && Run(s, steps)
    ensures s.dispatched <= Final(s, steps).dispatched <= Final(s, steps).accepted
    ensures Accounted(Final(s, steps)) && |Final(s, steps).queue| + Final(s, steps).active <= s.maxSize
  {
    RunFrom(s, steps);
    HistoriesGrow(s, steps);
    NoneLost(Final(s, steps));
  }

  // ---- Nobody is stuck ----

  lemma {:induction false} SomebodyAwake(ws: seq<Worker>)
    requires AwakeCount(ws) > 0
    ensures exists w: nat :: w < |ws| && ws[w].Awake?
  {
    var n := |ws| - 1;
    if !ws[n].Awake? {
      SomebodyAwake(ws[..n]);
      var w: nat :| w < n && ws[..n][w].Awake?;
      assert ws[w].Awake?;
    }
  }

  lemma {:induction false} SomebodyRuns(ws: seq<Worker>)
    requires RunningCount(ws) > 0
    ensures exists w: nat :: w < |ws| && ws[w].Running?
  {
    var n := |ws| - 1;
    if !ws[n].Running? {
      SomebodyRuns(ws[..n]);
      var w: nat :| w < n && ws[..n][w].Running?;
      assert ws[w].Running?;
    }
  }

  /** The counter of active jobs is the number of jobs being handled. */
  lemma {:induction false} CountsJobs(ws: seq<Worker>)
    ensures |RunningJobs(ws)| == RunningCount(ws)
  {
    if ws != [] {
      CountsJobs(ws[..|ws| - 1]);
    }
  }

  ghost predicate WorkerMoves(s: State, step: Step) {
    (step.WorkerTest? || step.WorkerDone?) && Enabled(s, step)
  }

  /** A queued or running job means some worker can move; so does a waiting acceptor. */
  lemma NeverStuck(s: State)
    requires Inv(s) && s.maxSize > 0 && |s.workers| > 0
    requires s.queue != [] || s.active > 0 || s.acceptor.Waiting?
    ensures exists step :: WorkerMoves(s, step)
  {
    if s.active > 0 {
      SomebodyRuns(s.workers);
      var w: nat :| w < |s.workers| && s.workers[w].Running?;
      assert WorkerMoves(s, WorkerDone(w));
    } else if AwakeCount(s.workers) > 0 {
      SomebodyAwake(s.workers);
      var w: nat :| w < |s.workers| && s.workers[w].Awake?;
      assert WorkerMoves(s, WorkerTest(w));
    } else if s.workers[0].Running? {
      assert WorkerMoves(s, WorkerDone(0));
    } else if s.workers[0].Awake? {
      assert WorkerMoves(s, WorkerTest(0));
    } else {
      assert SleepsAt(s.workers, 0);
    }
  }

  // ---- Every accepted job is finished ----

  /** A step other than a new connection or a spurious wake-up. */
  ghost predicate Onward(s: State, step: Step) {
    Enabled(s, step) && !step.Accept? && !step.SpuriousWorker? && !step.SpuriousAcceptor?
  }

  ghost predicate OnwardRun(s: State, steps: seq<Step>)
    decreases |steps|
  {
    steps == [] || (Onward(s, steps[0]) && OnwardRun(Apply(s, steps[0]), steps[1..]))
  }

  function Work(s: State): nat {
    3 * |s.acceptor.Held()| + 2 * |s.queue| + RunningCount(s.workers)
  }

  function Alert(s: State): nat {
    AwakeCount(s.workers) + Unit(s.acceptor.Testing?)
  }

  /** Work left, weighed above the threads about to test their condition again. */
  function Rank(s: State): nat {
    Work(s) * (|s.workers| + 2) + Alert(s)
  }

  lemma WorkerRankFalls(s: State, step: Step)
    requires Inv(s) && (step.WorkerTest? || step.WorkerDone?) && Enabled(s, step)
    ensures Work(Apply(s, step)) < Work(s) || (Work(Apply(s, step)) == Work(s) && Alert(Apply(s, step)) < Alert(s))
  {
    WorkerMoved(s.workers, step.w, Apply(s, step).workers[step.w]);
  }

  lemma AcceptorRankFalls(s: State, step: Step)
    requires Inv(s) && (step.AcceptorTest? || step.Enqueue?) && Enabled(s, step)
    ensures Work(Apply(s, step)) < Work(s) || (Work(Apply(s, step)) == Work(s) && Alert(Apply(s, step)) < Alert(s))
  {
    if step.Enqueue? {
      WorkersWoken(s.workers, step.woken);
    }
  }

  lemma RankFalls(s: State, step: Step)
    requires Inv(s) && Onward(s, step)
    ensures Rank(Apply(s, step)) < Rank(s)
  {
    var s' := Apply(s, step);
    if step.WorkerTest? || step.WorkerDone? {
      WorkerRankFalls(s, step);
    } else {
      AcceptorRankFalls(s, step);
    }
    WorkersWoken(s'.workers, {});
    assert |s'.workers| == |s.workers|;
    if Work(s') < Work(s) {
      RankOrder(Work(s), Work(s'), |s.workers| + 2, Alert(s), Alert(s'));
    }
  }

  lemma EnqueueEnabled(s: State)
    requires s.acceptor.Holding?
    ensures exists woken :: Onward(s, Enqueue(woken))
  {
    if u :| SleepsAt(s.workers, u) {
      assert Onward(s, Enqueue({u}));
    } else {
      assert Onward(s, Enqueue({}));
    }
  }

  lemma SomeStepLeft(s: State)
    requires Inv(s) && |s.workers| > 0 && s.maxSize > 0 && (s.queue != [] || s.active > 0 || s.acceptor.Waiting?)
    ensures exists step :: Onward(s, step)
  {
    NeverStuck(s);
    var step :| WorkerMoves(s, step);
    assert Onward(s, step);
  }

  lemma AtRest(s: State)
    requires Inv(s) && s.maxSize > 0 && |s.workers| > 0 && forall step :: !Onward(s, step)
    ensures s.finished == multiset(s.accepted) && s.acceptor.Accepting?
  {
    if s.acceptor.Holding? {
      EnqueueEnabled(s);
    }
    assert !Onward(s, AcceptorTest);
    if s.queue != [] || s.active > 0 || s.acceptor.Waiting? {
      SomeStepLeft(s);
    }
    assert s.accepted == s.dispatched;
    CountsJobs(s.workers);
  }

  /** Once connections and spurious wake-ups stop, every schedule ends within a fixed number of
      steps, and it can end only with every accepted job finished and the acceptor ready. */
  lemma {:induction false} EveryJobFinishes(s: State, steps: seq<Step>)
    requires Inv(s) && s.maxSize > 0 && |s.workers| > 0 && OnwardRun(s, steps)
    ensures Run(s, steps) && |steps| <= Rank(s)
    ensures (forall step :: !Onward(Final(s, steps), step)) ==>
              Final(s, steps).finished == multiset(s.accepted) && Final(s, steps).acceptor.Accepting?
    decreases |steps|
  {
    if steps == [] {
      if forall step :: !Onward(s, step) {
        AtRest(s);
      }
    } else {
      StepKeepsInv(s, steps[0]);
      RankFalls(s, steps[0]);
      EveryJobFinishes(Apply(s, steps[0]), steps[1..]);
      assert Apply(s, steps[0]).accepted == s.accepted;
    }
  }
}

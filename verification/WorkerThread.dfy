/** The reusable worker thread (`ReusableThread`): any number of threads call `set_work`, one of them finally destroys
    the object, and the worker runs the stored task. Every access to an atomic flag is one step of one thread. */
module WorkerThread {
  import opened Sequences

  // A thread that uses the object: where it is inside `set_work`, or inside the destructor.
  datatype Caller =
    | Idle
    | TestAssigned(t: nat)
    | Exchange(t: nat)
    | Store(t: nat)
    | Assign(t: nat)
    | AwaitTask
    | SetQuit
    | AwaitWorker
    | Gone

  datatype Worker = Loop | TestExecuted | TestTask | Fetch | Running(t: nat) | SetExecuted | ClearAssigned
                  | Waiting | Ended

  datatype State = State(
    taskExecuted: bool,
    taskAssigned: bool,
    quit: bool,
    workerDone: bool,
    task: Option<nat>,
    callers: seq<Caller>,
    worker: Worker,
    // History: the tasks for which `set_work` answers true, those started and those finished.
    accepted: seq<nat>,
    started: seq<nat>,
    finished: seq<nat>)

  datatype Action =
    | SetWork(i: nat, t: nat)
    | Destroy(i: nat)
    | Advance(i: nat)
    | Work

  function Start(n: nat): State {
    State(true, false, false, false, None, seq(n, _ => Idle), Loop, [], [], [])
  }

  function At(s: State, i: nat, c: Caller): State
    requires i < |s.callers|
  {
    s.(callers := s.callers[i := c])
  }

  function StepCaller(s: State, i: nat): State
    requires i < |s.callers|
  {
    match s.callers[i]
    case Idle => s
    case TestAssigned(t) => At(s, i, if s.taskAssigned then Idle else Exchange(t))
    case Exchange(t) =>
      if s.taskExecuted then At(s, i, Store(t)).(taskExecuted := false, accepted := s.accepted + [t])
      else At(s, i, Idle)
    case Store(t) => At(s, i, Assign(t)).(task := Some(t))
    case Assign(t) => At(s, i, Idle).(taskAssigned := true)
    case AwaitTask => At(s, i, if s.taskAssigned then AwaitTask else SetQuit)
    case SetQuit => At(s, i, AwaitWorker).(quit := true)
    case AwaitWorker => At(s, i, if s.workerDone then Gone else AwaitWorker)
    case Gone => s
  }

  function StepWorker(s: State): State {
    match s.worker
    case Loop => if s.quit then s.(worker := Ended, workerDone := true) else s.(worker := TestExecuted)
    case TestExecuted => s.(worker := if s.taskExecuted then Waiting else TestTask)
    case TestTask => s.(worker := if s.taskAssigned then Fetch else Waiting)
    case Fetch => if s.task.Some? then s.(worker := Running(s.task.value), started := s.started + [s.task.value]) else s
    case Running(t) => s.(worker := SetExecuted, finished := s.finished + [t])
    case SetExecuted => s.(worker := ClearAssigned, taskExecuted := true)
    case ClearAssigned => s.(worker := Loop, taskAssigned := false)
    case Waiting => s.(worker := Loop)
    case Ended => s
  }

  function Step(s: State, a: Action): State {
    match a
    case SetWork(i, t) => if i < |s.callers| && s.callers[i] == Idle then At(s, i, TestAssigned(t)) else s
    case Destroy(i) => if i < |s.callers| && s.callers[i] == Idle then At(s, i, AwaitTask) else s
    case Advance(i) => if i < |s.callers| then StepCaller(s, i) else s
    case Work => StepWorker(s)
  }

  function Run(s: State, actions: seq<Action>): State {
    if actions == [] then s else Step(Run(s, actions[..|actions| - 1]), actions[|actions| - 1])
  }

  // --- what the class is for ---

  ghost predicate Accepting(c: Caller) {
    c.Store? || c.Assign?
  }

  ghost predicate NoneAccepting(s: State) {
    forall c <- s.callers :: !Accepting(c)
  }

  ghost predicate NoneStoring(s: State) {
    forall c <- s.callers :: !c.Store?
  }

  ghost predicate Safe(s: State) {
    // Each accepted task is started and finished at most once, in the order of acceptance.
    && s.finished <= s.started <= s.accepted && |s.started| <= |s.finished| + 1
    // The stored task is not replaced while the worker takes it or runs it.
    && (s.worker.Fetch? || s.worker.Running? ==> NoneStoring(s))
    // Readiness means that every task handed over so far has finished.
    && (s.taskExecuted && NoneAccepting(s) ==> s.finished == s.accepted)
    // Nothing is lost when the object is destroyed.
    && (s.quit ==> s.finished == s.accepted)
  }

  ghost predicate SafeInAllRuns(n: nat) {
    forall actions :: Safe(Run(Start(n), actions))
  }

  // --- one caller ---

  /** The task in hand between acceptance and the end of its run. */
  ghost predicate InHand(s: State, t: nat) {
    s.accepted == s.finished + [t]
  }

  /** The phases of a round: free, accepted, handed over, run, reported. */
  ghost predicate Phase(s: State, c: Caller) {
    && (!s.taskExecuted <==> c.Store? || c.Assign? || (s.taskAssigned && s.worker != ClearAssigned))
    && (s.taskAssigned ==> !c.Exchange? && !c.Store? && !c.Assign? && !c.SetQuit? && !c.AwaitWorker? && !c.Gone?)
    && (c.Store? || c.Assign? ==> InHand(s, c.t) && s.started == s.finished)
    && (c.Assign? ==> s.task == Some(c.t))
    && (s.worker.Fetch? || s.worker.Running? || s.worker == SetExecuted || s.worker == ClearAssigned ==> s.taskAssigned)
    && (s.worker == TestTask || s.worker.Fetch? || s.worker.Running? || s.worker == SetExecuted ==> !s.taskExecuted)
    && (s.taskExecuted ==> s.finished == s.started == s.accepted)
    && (s.worker == SetExecuted ==> s.finished == s.started == s.accepted)
    && (s.worker.Running? ==> InHand(s, s.worker.t) && s.started == s.accepted)
    && (s.taskAssigned && !s.taskExecuted && !s.worker.Running? && s.worker != SetExecuted ==>
          s.task.Some? && InHand(s, s.task.value) && s.started == s.finished)
    && (s.quit <==> c.AwaitWorker? || c.Gone?)
    && (s.workerDone <==> s.worker == Ended) && (s.workerDone ==> s.quit)
  }

  lemma PhaseSafe(s: State)
    requires |s.callers| == 1 && Phase(s, s.callers[0])
    ensures Safe(s)
  {
    assert s.callers[0] in s.callers;
  }

  lemma StepKeepsPhase(s: State, a: Action)
    requires |s.callers| == 1 && Phase(s, s.callers[0])
    ensures var t := Step(s, a); |t.callers| == 1 && Phase(t, t.callers[0])
  {
    hide Safe, Phase;
    match a
    case Work => WorkKeepsPhase(s);
    case Advance(i) =>
      if i == 0 {
        CallerKeepsPhase(s);
      }
    case SetWork(i, t) =>
      if i == 0 && s.callers[0] == Idle {
        BeginKeepsPhase(s, TestAssigned(t));
      }
    case Destroy(i) =>
      if i == 0 && s.callers[0] == Idle {
        BeginKeepsPhase(s, AwaitTask);
      }
  }

  lemma WorkKeepsPhase(s: State)
    requires |s.callers| == 1 && Phase(s, s.callers[0])
    ensures StepWorker(s).callers == s.callers && Phase(StepWorker(s), s.callers[0])
  {
  }

  lemma CallerKeepsPhase(s: State)
    requires |s.callers| == 1 && Phase(s, s.callers[0])
    ensures var t := StepCaller(s, 0); |t.callers| == 1 && Phase(t, t.callers[0])
  {
  }

  lemma BeginKeepsPhase(s: State, c: Caller)
    requires |s.callers| == 1 && Phase(s, s.callers[0]) && s.callers[0] == Idle && (c.TestAssigned? || c == AwaitTask)
    ensures Phase(At(s, 0, c), c)
  {
  }

  lemma {:induction false} OneCallerSafe(actions: seq<Action>)
    ensures var s := Run(Start(1), actions); |s.callers| == 1 && Phase(s, s.callers[0]) && Safe(s)
  {
    hide Safe;
    if actions != [] {
      OneCallerSafe(actions[..|actions| - 1]);
      StepKeepsPhase(Run(Start(1), actions[..|actions| - 1]), actions[|actions| - 1]);
    }
    PhaseSafe(Run(Start(1), actions));
  }

  // --- no caller, and several callers ---

  lemma {:induction false} NoCallerSafe(actions: seq<Action>)
    ensures var s := Run(Start(0), actions);
            s == Start(0).(worker := s.worker) && (s.worker == Loop || s.worker == TestExecuted || s.worker == Waiting)
  {
    if actions != [] {
      NoCallerSafe(actions[..|actions| - 1]);
    }
  }

  ghost predicate Reaches(n: nat, s: State) {
    exists actions :: Run(Start(n), actions) == s
  }

  lemma StepReaches(n: nat, s: State, a: Action)
    requires Reaches(n, s)
    ensures Reaches(n, Step(s, a))
  {
    var actions :| Run(Start(n), actions) == s;
    assert (actions + [a])[..|actions|] == actions;
    assert Run(Start(n), actions + [a]) == Step(s, a);
  }

  /** The first two callers where given, all others idle. */
  function Pair(n: nat, c: Caller, d: Caller): seq<Caller>
    requires n >= 2
  {
    [c, d] + seq(n - 2, _ => Idle)
  }

  lemma PairUpdate(n: nat, c: Caller, d: Caller, e: Caller)
    requires n >= 2
    ensures Pair(n, c, d)[0 := e] == Pair(n, e, d) && Pair(n, c, d)[1 := e] == Pair(n, c, e)
    ensures Pair(n, c, d)[0] == c && Pair(n, c, d)[1] == d
  {
  }

  /** Both callers pass the first test before either has been accepted. */
  lemma BothPassTheTest(n: nat)
    requires n >= 2
    ensures Reaches(n, Start(n).(callers := Pair(n, Exchange(0), Exchange(1))))
  {
    hide Reaches, Run;
    var s := Start(n);
    assert s.callers == Pair(n, Idle, Idle);
    StartReached(n);
    PairUpdate(n, Idle, Idle, TestAssigned(0));
    StepReaches(n, s, SetWork(0, 0));
    var s1 := s.(callers := Pair(n, TestAssigned(0), Idle));
    PairUpdate(n, TestAssigned(0), Idle, TestAssigned(1));
    StepReaches(n, s1, SetWork(1, 1));
    var s2 := s.(callers := Pair(n, TestAssigned(0), TestAssigned(1)));
    PairUpdate(n, TestAssigned(0), TestAssigned(1), Exchange(0));
    StepReaches(n, s2, Advance(0));
    var s3 := s.(callers := Pair(n, Exchange(0), TestAssigned(1)));
    PairUpdate(n, Exchange(0), TestAssigned(1), Exchange(1));
    StepReaches(n, s3, Advance(1));
  }

  lemma StartReached(n: nat)
    ensures Reaches(n, Start(n))
  {
    assert Run(Start(n), []) == Start(n);
  }

  /** Caller `i` (0 or 1) is accepted, stores its task and hands it over. */
  lemma Accepted(n: nat, s: State, i: nat, c: Caller, t: nat)
    requires n >= 2 && i < 2 && s.taskExecuted && Reaches(n, s)
    requires s.callers == (if i == 0 then Pair(n, Exchange(t), c) else Pair(n, c, Exchange(t)))
    ensures Reaches(n, s.(taskExecuted := false, taskAssigned := true, task := Some(t), accepted := s.accepted + [t],
                          callers := if i == 0 then Pair(n, Idle, c) else Pair(n, c, Idle)))
  {
    hide Reaches, Run;
    StepReaches(n, s, Advance(i));
    var s1 := Step(s, Advance(i));
    assert s1.callers[i] == Store(t);
    StepReaches(n, s1, Advance(i));
    var s2 := Step(s1, Advance(i));
    StepReaches(n, s2, Advance(i));
    var s3 := Step(s2, Advance(i));
    assert s3.callers == s.callers[i := Idle];
    if i == 0 {
      PairUpdate(n, Exchange(t), c, Idle);
    } else {
      PairUpdate(n, c, Exchange(t), Idle);
    }
  }

  /** The worker runs the stored task and reports it, but has not yet cleared the assignment. */
  lemma TaskRun(n: nat, s: State, t: nat)
    requires Reaches(n, s) && s.worker == Loop && !s.quit && !s.taskExecuted && s.taskAssigned && s.task == Some(t)
    ensures Reaches(n, s.(worker := ClearAssigned, taskExecuted := true, started := s.started + [t],
                          finished := s.finished + [t]))
  {
    hide Reaches, Run;
    StepReaches(n, s, Work);
    StepReaches(n, s.(worker := TestExecuted), Work);
    StepReaches(n, s.(worker := TestTask), Work);
    StepReaches(n, s.(worker := Fetch), Work);
    var s4 := s.(worker := Running(t), started := s.started + [t]);
    StepReaches(n, s4, Work);
    var s5 := s4.(worker := SetExecuted, finished := s.finished + [t]);
    StepReaches(n, s5, Work);
  }

  /** With two callers the second one can be accepted between the two stores that end a round: its assignment is
      cleared, its task never runs, and the object can be destroyed. */
  lemma SecondTaskLost(n: nat)
    requires n >= 2
    ensures exists s :: Reaches(n, s) && s.quit && s.accepted == [0, 1] && s.finished == [0]
  {
    hide Reaches, Run;
    BothPassTheTest(n);
    var s := Start(n).(callers := Pair(n, Exchange(0), Exchange(1)));
    Accepted(n, s, 0, Exchange(1), 0);
    var s1 := s.(taskExecuted := false, taskAssigned := true, task := Some(0), accepted := [0],
                 callers := Pair(n, Idle, Exchange(1)));
    assert s.accepted + [0] == [0];
    TaskRun(n, s1, 0);
    var s2 := s1.(worker := ClearAssigned, taskExecuted := true, started := [0], finished := [0]);
    assert [] + [0] == [0];
    Accepted(n, s2, 1, Idle, 1);
    var s3 := s2.(taskExecuted := false, task := Some(1), accepted := [0, 1], callers := Pair(n, Idle, Idle));
    assert [0] + [1] == [0, 1];
    StepReaches(n, s3, Work);
    LostAtDestruction(n, s3.(worker := Loop, taskAssigned := false));
  }

  lemma LostAtDestruction(n: nat, s: State)
    requires Reaches(n, s) && |s.callers| > 0 && s.callers[0] == Idle && !s.taskAssigned
    ensures exists t :: Reaches(n, t) && t.quit && t.accepted == s.accepted && t.finished == s.finished
  {
    hide Reaches, Run;
    StepReaches(n, s, Destroy(0));
    var s1 := Step(s, Destroy(0));
    StepReaches(n, s1, Advance(0));
    var s2 := Step(s1, Advance(0));
    StepReaches(n, s2, Advance(0));
    assert Step(s2, Advance(0)).quit;
  }

  /** The worker thread keeps its promises in every run exactly when at most one thread calls it. */
  lemma SafeIff(n: nat)
    ensures SafeInAllRuns(n) <==> n <= 1
  {
    if n == 0 {
      forall actions ensures Safe(Run(Start(n), actions)) {
        NoCallerSafe(actions);
      }
    } else if n == 1 {
      forall actions ensures Safe(Run(Start(n), actions)) {
        OneCallerSafe(actions);
      }
    } else {
      SecondTaskLost(n);
      var s :| Reaches(n, s) && s.quit && s.accepted == [0, 1] && s.finished == [0];
      var actions :| Run(Start(n), actions) == s;
      assert !Safe(s);
    }
  }

  // --- a round of work ---

  /** While the thread is free, a task given to it is accepted, run and finished, and the thread is free again. */
  lemma RoundCompletes(s: State, t: nat)
    requires |s.callers| == 1 && s.callers[0] == Idle && s.worker == Loop
    requires s.taskExecuted && !s.taskAssigned && !s.quit
    ensures var given := Run(s, [SetWork(0, t), Advance(0), Advance(0), Advance(0), Advance(0)]);
            && given == s.(taskExecuted := false, taskAssigned := true, task := Some(t), accepted := s.accepted + [t])
            && Run(given, [Work, Work, Work, Work, Work, Work, Work])
               == s.(task := Some(t), accepted := s.accepted + [t], started := s.started + [t],
                     finished := s.finished + [t])
  {
    hide Run;
    RunFive(s, SetWork(0, t), Advance(0), Advance(0), Advance(0), Advance(0));
    var s1 := Step(s, SetWork(0, t));
    var s2 := Step(s1, Advance(0));
    var s3 := Step(s2, Advance(0));
    var s4 := Step(s3, Advance(0));
    var given := Step(s4, Advance(0));
    assert s1.callers == [TestAssigned(t)] && s2.callers == [Exchange(t)] && s3.callers == [Store(t)];
    assert s4.callers == [Assign(t)] && given.callers == s.callers == [Idle];
    RunSeven(given);
  }

  /** A worker without a task comes back to the head of its loop, where it can find the next one. */
  lemma IdleWorkerReturns(s: State)
    requires s.taskExecuted && !s.quit && s.worker == Loop
    ensures Run(s, [Work]).worker == TestExecuted && Run(s, [Work, Work, Work]) == s
  {
    var three, two, one: seq<Action> := [Work, Work, Work], [Work, Work], [Work];
    assert three[..2] == two && two[..1] == one && one[..0] == [];
    assert Run(s, []) == s && Run(s, one) == Step(s, Work) && Run(s, two) == Step(Step(s, Work), Work);
  }

  /** A task offered while another one is under way is refused. */
  lemma BusyRefuses(s: State, t: nat)
    requires |s.callers| == 1 && s.callers[0] == Idle && (s.taskAssigned || !s.taskExecuted)
    ensures Run(s, [SetWork(0, t), Advance(0), Advance(0)]).accepted == s.accepted
  {
    var three: seq<Action> := [SetWork(0, t), Advance(0), Advance(0)];
    assert three[..2] == [SetWork(0, t), Advance(0)] && three[..2][..1] == [SetWork(0, t)] && three[..1][..0] == [];
    var s1 := Step(s, SetWork(0, t));
    assert Run(s, []) == s && Run(s, three[..1]) == s1 && Run(s, three[..2]) == Step(s1, Advance(0));
  }

  /** An idle thread is destroyed: the worker ends, and the destructor returns after it. */
  lemma DestructionEnds(s: State)
    requires |s.callers| == 1 && s.callers[0] == Idle && s.worker == Loop && !s.taskAssigned
    ensures var t := Run(s, [Destroy(0), Advance(0), Advance(0), Work, Advance(0)]);
            t.worker == Ended && t.callers == [Gone] && t.quit && t.finished == s.finished
  {
    hide Run;
    RunFive(s, Destroy(0), Advance(0), Advance(0), Work, Advance(0));
  }

  lemma RunFive(s: State, a: Action, b: Action, c: Action, d: Action, e: Action)
    ensures Run(s, [a, b, c, d, e]) == Step(Step(Step(Step(Step(s, a), b), c), d), e)
  {
    hide Step;
    var five, four, three, two, one := [a, b, c, d, e], [a, b, c, d], [a, b, c], [a, b], [a];
    assert five[..4] == four && four[..3] == three && three[..2] == two && two[..1] == one && one[..0] == [];
    assert Run(s, []) == s && Run(s, one) == Step(s, a) && Run(s, two) == Step(Run(s, one), b);
    assert Run(s, three) == Step(Run(s, two), c) && Run(s, four) == Step(Run(s, three), d);
  }

  lemma RunSeven(s: State)
    requires s.worker == Loop && !s.quit && !s.taskExecuted && s.taskAssigned && s.task.Some?
    ensures Run(s, [Work, Work, Work, Work, Work, Work, Work])
         == s.(taskExecuted := true, taskAssigned := false, started := s.started + [s.task.value],
               finished := s.finished + [s.task.value])
  {
    hide Run;
    var five, six, seven := [Work, Work, Work, Work, Work], [Work, Work, Work, Work, Work, Work],
                            [Work, Work, Work, Work, Work, Work, Work];
    RunFive(s, Work, Work, Work, Work, Work);
    var s4 := s.(worker := Running(s.task.value), started := s.started + [s.task.value]);
    assert Step(Step(s, Work), Work) == s.(worker := TestTask);
    assert Step(Step(s.(worker := TestTask), Work), Work) == s4;
    assert Step(s4, Work) == s4.(worker := SetExecuted, finished := s.finished + [s.task.value]);
    assert seven[..6] == six && six[..5] == five;
    RunLast(s, six);
    RunLast(s, seven);
  }

  lemma RunLast(s: State, actions: seq<Action>)
    requires actions != []
    ensures Run(s, actions) == Step(Run(s, actions[..|actions| - 1]), actions[|actions| - 1])
  {
  }
}

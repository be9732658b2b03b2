/**
 The worker pool as a step machine: workers that test the flag, take a task and run it, threads that submit,
 and one thread that shuts the pool down. An event is one critical section of the queue's mutex or one atomic
 access. A task returns, and no task shuts its own pool down.
 */
module WorkerProtocol {

  datatype Task = Job(id: nat) | NoOp

  datatype Worker =
    | Testing                     // about to test the flag
    | Committed                   // saw the flag set; about to look at the queue with the mutex held
    | Asleep                      // in the wait set of the condition variable
    | Running(task: Task)
    | Exited

  /** How far the call of `Shutdown` is. */
  datatype Phase =
    | Open                        // not called yet
    | Checked                     // found the flag set, about to clear it
    | Adding(left: nat)           // no-op tasks still to add
    | Joining(next: nat)          // the worker it waits for
    | Done

  /** `submitted`, `taken` and `finished` record every task ever added, dequeued and run to its end, in order. */
  datatype State = State(
    workers: seq<Worker>, queue: seq<Task>, isAlive: bool, phase: Phase,
    submitted: seq<Task>, taken: seq<Task>, finished: seq<Task>)

  datatype Event =
    | Submit(id: nat, pick: nat)  // `pick` is the sleeper that notify_one wakes, if there is any
    | Shutdown(pick: nat)         // the next step of the thread in `Shutdown`
    | Work(w: nat)                // the next step of worker `w`
    | Wake(w: nat)                // a spurious wake-up

  function Init(threads: nat): State {
    State(seq(threads, _ => Testing), [], true, Open, [], [], [])
  }

  /** notify_one wakes some sleeper when there is one. */
  predicate Notifies(s: State, pick: nat) {
    Asleep in s.workers ==> pick < |s.workers| && s.workers[pick] == Asleep
  }

  function Add(s: State, task: Task, pick: nat): State
    requires Notifies(s, pick)
  {
    s.(queue := s.queue + [task], submitted := s.submitted + [task],
       workers := if Asleep in s.workers then s.workers[pick := Committed] else s.workers)
  }

  function Goto(s: State, w: nat, worker: Worker): State
    requires w < |s.workers|
  {
    s.(workers := s.workers[w := worker])
  }

  function WorkStep(s: State, w: nat): State
    requires w < |s.workers|
  {
    match s.workers[w]
    case Testing => Goto(s, w, if s.isAlive then Committed else Exited)
    case Committed =>
      if s.queue == [] then Goto(s, w, Asleep)
      else Goto(s, w, Running(s.queue[0])).(queue := s.queue[1..], taken := s.taken + [s.queue[0]])
    case Running(task) => Goto(s, w, Testing).(finished := s.finished + [task])
    case _ => s
  }

  function ShutdownStep(s: State, pick: nat): State {
    match s.phase
    case Open => s.(phase := if s.isAlive then Checked else Done)
    case Checked => s.(isAlive := false, phase := Adding(|s.workers|))
    case Adding(left) =>
      if left == 0 then s.(phase := Joining(0))
      else if Notifies(s, pick) then Add(s, NoOp, pick).(phase := Adding(left - 1))
      else s
    case Joining(next) =>
      if next >= |s.workers| then s.(phase := Done)
      else if s.workers[next] == Exited then s.(phase := Joining(next + 1))
      else s
    case Done => s
  }

  /** An event that cannot happen leaves the state alone. */
  function Step(s: State, e: Event): (s': State)
    ensures |s'.workers| == |s.workers|
  {
    match e
    case Submit(id, pick) => if Notifies(s, pick) then Add(s, Job(id), pick) else s
    case Shutdown(pick) => ShutdownStep(s, pick)
    case Work(w) => if w < |s.workers| then WorkStep(s, w) else s
    case Wake(w) => if w < |s.workers| && s.workers[w] == Asleep then Goto(s, w, Committed) else s
  }

  function Run(s: State, es: seq<Event>): (s': State)
    ensures |s'.workers| == |s.workers|
    decreases |es|
  {
    if es == [] then s else Run(Step(s, es[0]), es[1..])
  }

  lemma {:induction false} RunAppend(s: State, a: seq<Event>, b: seq<Event>)
    ensures Run(s, a + b) == Run(Run(s, a), b)
    decreases |a|
  {
    if a == [] {
      assert a + b == b;
    } else {
      RunAppend(Step(s, a[0]), a[1..], b);
      assert (a + b)[1..] == a[1..] + b;
    }
  }

  lemma RunCons(s: State, e: Event, rest: seq<Event>)
    ensures Run(s, [e] + rest) == Run(Step(s, e), rest)
  {
    assert ([e] + rest)[1..] == rest;
  }

  lemma RunThenStep(s: State, es: seq<Event>, e: Event)
    ensures Run(s, es + [e]) == Step(Run(s, es), e)
  {
    hide Step;
    RunAppend(s, es, [e]);
    assert [e][1..] == [];
  }

  lemma StepAndStep(s: State, a: seq<Event>, b: seq<Event>, e: Event)
    ensures Run(s, a + [e] + b + [e]) == Step(Run(Step(Run(s, a), e), b), e)
  {
    hide Step, Run;
    RunThenStep(s, a, e);
    RunAppend(s, a + [e], b);
    RunThenStep(s, a + [e] + b, e);
  }

  /** Only the thread in `Shutdown` moves the phase and clears the flag. */
  lemma {:induction false} OthersKeepPhase(s: State, es: seq<Event>)
    requires forall e | e in es :: !e.Shutdown?
    ensures Run(s, es).phase == s.phase && Run(s, es).isAlive == s.isAlive
    decreases |es|
  {
    if es != [] { OthersKeepPhase(Step(s, es[0]), es[1..]); }
  }

  // ---- counting workers

  function Sum(f: Worker -> nat, ws: seq<Worker>): nat {
    if ws == [] then 0 else f(ws[0]) + Sum(f, ws[1..])
  }

  lemma {:induction false} SumUpdate(f: Worker -> nat, ws: seq<Worker>, w: nat, worker: Worker)
    requires w < |ws|
    ensures Sum(f, ws[w := worker]) + f(ws[w]) == Sum(f, ws) + f(worker)
  {
    if w == 0 {
      assert ws[w := worker][1..] == ws[1..];
    } else {
      assert ws[w := worker][1..] == ws[1..][w - 1 := worker];
      SumUpdate(f, ws[1..], w - 1, worker);
    }
  }

  lemma {:induction false} SumAtLeast(f: Worker -> nat, ws: seq<Worker>, w: nat)
    requires w < |ws|
    ensures f(ws[w]) <= Sum(f, ws)
  {
    if w > 0 { SumAtLeast(f, ws[1..], w - 1); }
  }

  lemma {:induction false} SumZero(f: Worker -> nat, ws: seq<Worker>)
    requires forall w | 0 <= w < |ws| :: f(ws[w]) == 0
    ensures Sum(f, ws) == 0
  {
    if ws != [] { SumZero(f, ws[1..]); }
  }

  lemma {:induction false} SumBound(f: Worker -> nat, ws: seq<Worker>, most: nat)
    requires forall w | 0 <= w < |ws| :: f(ws[w]) <= most
    ensures Sum(f, ws) <= most * |ws|
  {
    if ws != [] { SumBound(f, ws[1..], most); }
  }

  function OneCommitted(w: Worker): nat { if w == Committed then 1 else 0 }
  function OneAsleep(w: Worker): nat { if w == Asleep then 1 else 0 }

  /** What a worker still has to do after the flag was cleared. */
  function Effort(w: Worker): nat {
    match w
    case Committed => 3
    case Asleep => 3
    case Running(_) => 2
    case Testing => 1
    case Exited => 0
  }

  function Awake(s: State): nat { Sum(OneCommitted, s.workers) }
  function Sleepers(s: State): nat { Sum(OneAsleep, s.workers) }

  /** The workers inside `Take`. */
  function InTake(s: State): nat { Awake(s) + Sleepers(s) }

  lemma SleepersAreAsleep(s: State)
    ensures Sleepers(s) > 0 <==> Asleep in s.workers
  {
    if Asleep in s.workers {
      var w: nat :| w < |s.workers| && s.workers[w] == Asleep;
      SumAtLeast(OneAsleep, s.workers, w);
    } else {
      SumZero(OneAsleep, s.workers);
    }
  }

  lemma Counted(s: State, w: nat, worker: Worker)
    requires w < |s.workers|
    ensures var s' := Goto(s, w, worker);
      && Awake(s') + OneCommitted(s.workers[w]) == Awake(s) + OneCommitted(worker)
      && Sleepers(s') + OneAsleep(s.workers[w]) == Sleepers(s) + OneAsleep(worker)
      && (Asleep in s'.workers <==> Sleepers(s') > 0)
  {
    SumUpdate(OneCommitted, s.workers, w, worker);
    SumUpdate(OneAsleep, s.workers, w, worker);
    SleepersAreAsleep(Goto(s, w, worker));
  }

  // ---- what every step keeps

  function ToAdd(phase: Phase): nat { if phase.Adding? then phase.left else 0 }

  /** `Shutdown` has joined the first `k` workers. */
  predicate Joined(ws: seq<Worker>, k: nat) {
    k <= |ws| && forall w | 0 <= w < k :: ws[w] == Exited
  }

  predicate PhaseOk(s: State) {
    match s.phase
    case Open => s.isAlive
    case Checked => s.isAlive
    case Adding(left) => !s.isAlive && left <= |s.workers|
    case Joining(next) => !s.isAlive && Joined(s.workers, next)
    case Done => !s.isAlive && Joined(s.workers, |s.workers|)
  }

  /** Every task submitted is either taken already or still queued, in order: none is lost, none starts twice. */
  predicate Accounted(s: State) { s.submitted == s.taken + s.queue }

  /** While somebody sleeps there is an awake taker for each queued task. */
  predicate NoLostWakeUp(s: State) { Asleep in s.workers ==> Awake(s) >= |s.queue| }

  /** Once the flag is cleared there is a task, queued or to come, for every worker in `Take`. */
  predicate EnoughTasks(s: State) { !s.isAlive ==> InTake(s) <= |s.queue| + ToAdd(s.phase) }

  predicate PoolOk(s: State) {
    PhaseOk(s) && Accounted(s) && NoLostWakeUp(s) && EnoughTasks(s)
  }

  lemma InitPool(threads: nat)
    ensures PoolOk(Init(threads))
  {
  }

  lemma AddKeeps(s: State, task: Task, pick: nat)
    requires PoolOk(s) && Notifies(s, pick)
    ensures var s' := Add(s, task, pick);
      && PoolOk(s') && InTake(s') == InTake(s)
      && (ToAdd(s.phase) > 0 ==> PoolOk(s'.(phase := Adding(s.phase.left - 1))))
  {
    if Asleep in s.workers {
      Counted(s, pick, Committed);
      assert Add(s, task, pick).workers == Goto(s, pick, Committed).workers;
    }
  }

  lemma WorkKeeps(s: State, w: nat)
    requires PoolOk(s) && w < |s.workers|
    ensures PoolOk(WorkStep(s, w))
  {
    var s' := WorkStep(s, w);
    assert s.workers[w := s.workers[w]] == s.workers;
    Counted(s, w, s'.workers[w]);
    SleepersAreAsleep(s);
    assert s'.workers == Goto(s, w, s'.workers[w]).workers;
    assert Awake(s') == Awake(Goto(s, w, s'.workers[w]));
  }

  lemma ClearingKeeps(s: State, pick: nat)
    requires PoolOk(s) && s.phase == Checked
    ensures PoolOk(ShutdownStep(s, pick))
  {
    TakersAreWorkers(s.workers);
  }

  lemma {:induction false} TakersAreWorkers(ws: seq<Worker>)
    ensures Sum(OneCommitted, ws) + Sum(OneAsleep, ws) <= |ws|
  {
    if ws != [] { TakersAreWorkers(ws[1..]); }
  }

  lemma ShutdownKeeps(s: State, pick: nat)
    requires PoolOk(s)
    ensures PoolOk(ShutdownStep(s, pick))
  {
    match s.phase
    case Open =>
    case Checked => ClearingKeeps(s, pick);
    case Adding(left) => if left > 0 && Notifies(s, pick) { AddKeeps(s, NoOp, pick); }
    case Joining(next) =>
    case Done =>
  }

  lemma WakeKeeps(s: State, w: nat)
    requires PoolOk(s) && w < |s.workers| && s.workers[w] == Asleep
    ensures PoolOk(Goto(s, w, Committed)) && InTake(Goto(s, w, Committed)) == InTake(s)
  {
    Counted(s, w, Committed);
  }

  /**
   No wake-up is lost, no task is lost or started twice, and after the flag is cleared there is a task for
   every worker in `Take`, whatever the schedule.
   */
  lemma PoolStep(s: State, e: Event)
    requires PoolOk(s)
    ensures PoolOk(Step(s, e))
  {
    match e
    case Submit(id, pick) => if Notifies(s, pick) { AddKeeps(s, Job(id), pick); }
    case Shutdown(pick) => ShutdownKeeps(s, pick);
    case Work(w) => if w < |s.workers| { WorkKeeps(s, w); }
    case Wake(w) => if w < |s.workers| && s.workers[w] == Asleep { WakeKeeps(s, w); }
  }

  lemma {:induction false} PoolRun(s: State, es: seq<Event>)
    requires PoolOk(s)
    ensures PoolOk(Run(s, es))
    decreases |es|
  {
    if es != [] {
      PoolStep(s, es[0]);
      PoolRun(Step(s, es[0]), es[1..]);
    }
  }
}

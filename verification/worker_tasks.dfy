/** Which tasks are queued, and that a task taken is the task run. */
module WorkerTasks {
  import opened Bags
  import opened WorkerProtocol
  import opened WorkerShutdown

  // ---- every task taken is run, once

  /** The task a worker is running. */
  function InHand(w: Worker): multiset<Task> { if w.Running? then multiset{w.task} else multiset{} }

  /** What has been taken is what was run to its end and what the workers are running. */
  ghost predicate Executed(s: State) {
    multiset(s.taken) == multiset(s.finished) + Bag(InHand, s.workers)
  }

  lemma InitExecuted(threads: nat)
    ensures Executed(Init(threads))
  {
    BagEmpty(InHand, Init(threads).workers);
  }

  /** Worker `w` moves on with nothing in its hand before or after. */
  lemma NothingInHandMoves(s: State, s': State, w: nat, worker: Worker)
    requires Executed(s) && w < |s.workers| && InHand(s.workers[w]) == multiset{} == InHand(worker)
    requires s'.taken == s.taken && s'.finished == s.finished && s'.workers == s.workers[w := worker]
    ensures Executed(s')
  {
    BagReplace(InHand, s.workers, w, worker);
    hide Bag;
  }

  lemma TakenInHand(s: State, w: nat)
    requires Executed(s) && w < |s.workers| && s.workers[w] == Committed && s.queue != []
    ensures Executed(WorkStep(s, w))
  {
    BagReplace(InHand, s.workers, w, WorkStep(s, w).workers[w]);
    hide Bag;
  }

  lemma FinishedFromHand(s: State, w: nat)
    requires Executed(s) && w < |s.workers| && s.workers[w].Running?
    ensures Executed(WorkStep(s, w))
  {
    BagReplace(InHand, s.workers, w, Testing);
    hide Bag;
  }

  lemma WorkExecutes(s: State, w: nat)
    requires Executed(s) && w < |s.workers|
    ensures Executed(WorkStep(s, w))
  {
    if s.workers[w].Running? {
      FinishedFromHand(s, w);
    } else if s.workers[w] == Committed && s.queue != [] {
      TakenInHand(s, w);
    } else {
      var s' := WorkStep(s, w);
      assert s.workers[w := s.workers[w]] == s.workers;
      NothingInHandMoves(s, s', w, s'.workers[w]);
    }
  }

  lemma AddExecutes(s: State, task: Task, pick: nat)
    requires Executed(s) && Notifies(s, pick)
    ensures Executed(Add(s, task, pick))
  {
    if Asleep in s.workers {
      NothingInHandMoves(s, Add(s, task, pick), pick, Committed);
    }
  }

  lemma SameExecuted(s: State, s': State)
    requires Executed(s) && s'.workers == s.workers && s'.taken == s.taken && s'.finished == s.finished
    ensures Executed(s')
  {
  }

  lemma ShutdownExecutes(s: State, pick: nat)
    requires Executed(s)
    ensures Executed(ShutdownStep(s, pick))
  {
    hide Executed;
    if s.phase.Adding? && s.phase.left > 0 && Notifies(s, pick) {
      AddExecutes(s, NoOp, pick);
      SameExecuted(Add(s, NoOp, pick), ShutdownStep(s, pick));
    } else {
      SameExecuted(s, ShutdownStep(s, pick));
    }
  }

  lemma WakeExecutes(s: State, w: nat)
    requires Executed(s) && w < |s.workers| && s.workers[w] == Asleep
    ensures Executed(Goto(s, w, Committed))
  {
    NothingInHandMoves(s, Goto(s, w, Committed), w, Committed);
  }

  lemma ExecutedStep(s: State, e: Event)
    requires Executed(s)
    ensures Executed(Step(s, e))
  {
    hide Executed, ShutdownStep, WorkStep, Add;
    match e
    case Submit(id, pick) => if Notifies(s, pick) { AddExecutes(s, Job(id), pick); }
    case Shutdown(pick) => ShutdownExecutes(s, pick);
    case Work(w) => if w < |s.workers| { WorkExecutes(s, w); }
    case Wake(w) => if w < |s.workers| && s.workers[w] == Asleep { WakeExecutes(s, w); }
  }

  /** In every run each task taken is the task its worker runs, and is run once. */
  lemma {:induction false} ExecutedRun(s: State, es: seq<Event>)
    requires Executed(s)
    ensures Executed(Run(s, es))
    decreases |es|
  {
    if es != [] {
      hide Step, Executed;
      ExecutedStep(s, es[0]);
      ExecutedRun(Step(s, es[0]), es[1..]);
    }
  }

  /** When `Shutdown` has returned everything taken was run to its end. */
  lemma DoneIsExecuted(s: State)
    requires PoolOk(s) && Executed(s) && s.phase == Done
    ensures multiset(s.finished) == multiset(s.taken)
  {
    BagEmpty(InHand, s.workers);
  }

  /**
   The tasks submitted before the shutdown are all run to their end exactly when enough workers were inside
   `Take` when the flag was cleared.
   */
  lemma QueuedTasksRunExactlyWhen(s: State, pick: nat, es: seq<Event>)
    requires WholeShutdown(s, pick, es) && Executed(s)
    ensures var s' := Run(Step(s, Shutdown(pick)), es);
      && multiset(s'.finished) == multiset(s'.taken)
      && (multiset(s.submitted) <= multiset(s'.finished) <==> |s.queue| <= InTake(s))
  {
    var s' := Run(Step(s, Shutdown(pick)), es);
    ShutdownIsSound(s, pick, es);
    DoneIsExecuted(s');
    ShutdownAccounts(s, pick, es);
    hide Step, Run, WholeShutdown, PoolOk, Executed;
    PrefixByCount(s.submitted, s'.taken, s'.submitted);
    assert |s.submitted| == |s.taken| + |s.queue| by { AllAccounted(s, pick, es); }
  }

  lemma AllAccounted(s: State, pick: nat, es: seq<Event>)
    requires WholeShutdown(s, pick, es)
    ensures |s.submitted| == |s.taken| + |s.queue|
  {
  }

  lemma ShutdownIsSound(s: State, pick: nat, es: seq<Event>)
    requires WholeShutdown(s, pick, es) && Executed(s)
    ensures PoolOk(Run(Step(s, Shutdown(pick)), es)) && Executed(Run(Step(s, Shutdown(pick)), es))
  {
    hide Step, Run, Executed;
    PoolStep(s, Shutdown(pick));
    PoolRun(Step(s, Shutdown(pick)), es);
    ExecutedStep(s, Shutdown(pick));
    ExecutedRun(Step(s, Shutdown(pick)), es);
  }

  /** Of two prefixes of one sequence the shorter is contained in the longer, and only the shorter. */
  lemma PrefixByCount<T>(a: seq<T>, b: seq<T>, whole: seq<T>)
    requires a <= whole && b <= whole
    ensures multiset(a) <= multiset(b) <==> |a| <= |b|
  {
    if |a| <= |b| {
      assert b == a + b[|a|..];
    } else if multiset(a) <= multiset(b) {
      assert a == b + a[|b|..];
      assert |multiset(a)| == |a| && |multiset(b)| == |b|;
      SmallerCount(multiset(a), multiset(b));
    }
  }

  lemma SmallerCount<T>(a: multiset<T>, b: multiset<T>)
    requires a <= b
    ensures |a| <= |b|
  {
    assert b == a + (b - a);
  }

  // ---- what is queued is what was submitted

  /** The jobs among `tasks`, in order. */
  function JobsOf(tasks: seq<Task>): seq<nat> {
    if tasks == [] then [] else (if tasks[0].Job? then [tasks[0].id] else []) + JobsOf(tasks[1..])
  }

  function NoOpsIn(tasks: seq<Task>): nat {
    if tasks == [] then 0 else (if tasks[0].NoOp? then 1 else 0) + NoOpsIn(tasks[1..])
  }

  lemma {:induction false} OneMoreQueued(tasks: seq<Task>, task: Task)
    ensures JobsOf(tasks + [task]) == JobsOf(tasks) + if task.Job? then [task.id] else []
    ensures NoOpsIn(tasks + [task]) == NoOpsIn(tasks) + if task.NoOp? then 1 else 0
  {
    if tasks == [] {
      assert tasks + [task] == [task];
    } else {
      assert (tasks + [task])[1..] == tasks[1..] + [task];
      OneMoreQueued(tasks[1..], task);
    }
  }

  /** The ids of the accepted submissions of a run, in order. */
  function Accepted(s: State, es: seq<Event>): seq<nat>
    decreases |es|
  {
    if es == [] then [] else (if Submits(s, es[0]) then [es[0].id] else []) + Accepted(Step(s, es[0]), es[1..])
  }

  /** The no-ops `Shutdown` will still add, whether or not it was called. */
  function NoOpsLeft(s: State): nat {
    match s.phase
    case Open => |s.workers|
    case Checked => |s.workers|
    case Adding(left) => left
    case _ => 0
  }

  lemma QueuedBy(s: State, e: Event)
    requires PoolOk(s)
    ensures var s' := Step(s, e);
      && JobsOf(s'.submitted) == JobsOf(s.submitted) + (if Submits(s, e) then [e.id] else [])
      && NoOpsIn(s'.submitted) + NoOpsLeft(s') == NoOpsIn(s.submitted) + NoOpsLeft(s)
  {
    if e.Submit? { OneMoreQueued(s.submitted, Job(e.id)); }
    if e.Shutdown? { OneMoreQueued(s.submitted, NoOp); }
    hide JobsOf, NoOpsIn, PoolOk;
    if s.phase == Open { OpenIsAlive(s); }
  }

  lemma OpenIsAlive(s: State)
    requires PoolOk(s) && s.phase == Open
    ensures s.isAlive
  {
  }

  /**
   In every run exactly the accepted submissions are queued, in their order, and exactly the no-ops of the
   shutdown, of which there are as many as workers.
   */
  lemma {:induction false} QueuedRun(s: State, es: seq<Event>)
    requires PoolOk(s)
    ensures var s' := Run(s, es);
      && JobsOf(s'.submitted) == JobsOf(s.submitted) + Accepted(s, es)
      && NoOpsIn(s'.submitted) + NoOpsLeft(s') == NoOpsIn(s.submitted) + NoOpsLeft(s)
    decreases |es|
  {
    if es != [] {
      QueuedBy(s, es[0]);
      PoolStep(s, es[0]);
      hide Step, JobsOf, NoOpsIn, NoOpsLeft, PoolOk, Submits;
      QueuedRun(Step(s, es[0]), es[1..]);
    }
  }

  /** From a new pool on: the jobs queued are the accepted submissions, and a finished shutdown added its no-ops. */
  lemma QueuedFromStart(threads: nat, es: seq<Event>)
    ensures var s := Run(Init(threads), es);
      && JobsOf(s.submitted) == Accepted(Init(threads), es)
      && NoOpsIn(s.submitted) + NoOpsLeft(s) == threads
      && (s.phase == Done ==> NoOpsIn(s.submitted) == threads)
  {
    InitPool(threads);
    QueuedRun(Init(threads), es);
  }

  /** A whole shutdown adds as many no-ops as there are workers, and no job of its own. */
  lemma NoOpsOfShutdown(s: State, pick: nat, es: seq<Event>)
    requires WholeShutdown(s, pick, es)
    ensures var s1 := Step(s, Shutdown(pick)); var s' := Run(s1, es);
      && NoOpsIn(s'.submitted) == NoOpsIn(s.submitted) + |s.workers|
      && JobsOf(s'.submitted) == JobsOf(s.submitted) + Accepted(s1, es)
  {
    var s1 := Step(s, Shutdown(pick));
    PoolStep(s, Shutdown(pick));
    QueuedRun(s1, es);
    hide Run, Accepted, JobsOf, NoOpsIn;
  }

  /** What a whole shutdown has done, from the state `s` in which it clears the flag to its end `s'`. */
  ghost predicate ShutdownResult(s: State, s': State) {
    // a task for each worker inside `Take`, and all earlier tasks exactly when there were no more of them
    && |s'.taken| == |s.taken| + InTake(s)
    && (s.submitted <= s'.taken <==> |s.queue| <= InTake(s))
    // everything taken was run to its end
    && multiset(s'.finished) == multiset(s'.taken)
    && (multiset(s.submitted) <= multiset(s'.finished) <==> |s.queue| <= InTake(s))
    // a no-op for each worker
    && NoOpsIn(s'.submitted) == NoOpsIn(s.submitted) + |s.workers|
  }

  lemma ShutdownResults(s: State, pick: nat, es: seq<Event>)
    requires WholeShutdown(s, pick, es) && Executed(s)
    ensures ShutdownResult(s, Run(Step(s, Shutdown(pick)), es))
  {
    ShutdownAccounts(s, pick, es);
    QueuedTasksStartExactlyWhen(s, pick, es);
    QueuedTasksRunExactlyWhen(s, pick, es);
    NoOpsOfShutdown(s, pick, es);
    hide Step, Run, WholeShutdown, Executed, InTake, NoOpsIn;
  }

  // ---- while the flag is set

  /** No worker leaves its loop before the flag is cleared. */
  predicate AllWork(s: State) { s.isAlive ==> Exited !in s.workers }

  lemma AllWorkStep(s: State, e: Event)
    requires AllWork(s)
    ensures AllWork(Step(s, e))
  {
  }

  lemma {:induction false} AllWorkRun(s: State, es: seq<Event>)
    requires AllWork(s)
    ensures AllWork(Run(s, es))
    decreases |es|
  {
    if es != [] {
      hide Step, AllWork;
      AllWorkStep(s, es[0]);
      AllWorkRun(Step(s, es[0]), es[1..]);
    }
  }

  /** A worker that is awake takes the oldest task within three steps of its own, and finishes it with one more. */
  lemma AwakeWorkerServes(s: State, w: nat) returns (k: nat)
    requires s.isAlive && w < |s.workers| && s.queue != []
    requires s.workers[w] == Testing || s.workers[w] == Committed || s.workers[w].Running?
    ensures 1 <= k <= 3
    ensures var s' := Run(s, seq(k, _ => Work(w)));
      && s'.workers == s.workers[w := Running(s.queue[0])] && s'.queue == s.queue[1..]
      && WorkStep(s', w).finished == s'.finished + [s.queue[0]]
  {
    k := if s.workers[w] == Committed then 1 else if s.workers[w] == Testing then 2 else 3;
    var all := seq(k, _ => Work(w));
    assert all == [Work(w)] + all[1..];
    RunCons(s, Work(w), all[1..]);
    var s1 := Step(s, Work(w));
    if k >= 2 {
      assert all[1..] == [Work(w)] + all[2..];
      RunCons(s1, Work(w), all[2..]);
      var s2 := Step(s1, Work(w));
      if k == 3 {
        assert all[2..] == [Work(w)] + [];
        RunCons(s2, Work(w), []);
      }
    }
  }
}

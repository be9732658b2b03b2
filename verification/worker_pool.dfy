/** The worker pool and its queue as objects: each method is one critical section or one access of the machine. */
module WorkerPools {
  import opened Options
  import opened WorkerProtocol
  import opened WorkerShutdown
  import opened WorkerTasks

  /** A FIFO of tasks and the wait set of its condition variable; both change only with the mutex held. */
  class WorkQueue {
    var tasks: seq<Task>
    var sleepers: set<nat>

    constructor ()
      ensures tasks == [] && sleepers == {}
    {
      tasks, sleepers := [], {};
    }

    /** Appends, then wakes one sleeper, `pick` if it sleeps; nothing happens when `pick` is needed but awake. */
    method Add(task: Task, pick: nat) returns (added: bool, woken: Option<nat>)
      modifies this
      ensures added <==> (old(sleepers) == {} || pick in old(sleepers))
      ensures tasks == if added then old(tasks) + [task] else old(tasks)
      ensures woken == if added && old(sleepers) != {} then Some(pick) else None
      ensures sleepers == if woken.Some? then old(sleepers) - {pick} else old(sleepers)
    {
      added, woken := sleepers == {} || pick in sleepers, None;
      if added {
        tasks := tasks + [task];
        if sleepers != {} {
          sleepers, woken := sleepers - {pick}, Some(pick);
        }
      }
    }

    /** One pass of the wait loop: the oldest task, or `w` joins the wait set. */
    method Take(w: nat) returns (task: Option<Task>)
      modifies this
      ensures task.Some? <==> old(tasks) != []
      ensures task.Some? ==> [task.value] + tasks == old(tasks) && sleepers == old(sleepers)
      ensures task.None? ==> tasks == [] && sleepers == old(sleepers) + {w}
    {
      if tasks == [] {
        task, sleepers := None, sleepers + {w};
      } else {
        task, tasks := Some(tasks[0]), tasks[1..];
      }
    }

    method Unblock(w: nat)
      modifies this
      ensures tasks == old(tasks) && sleepers == old(sleepers) - {w}
    {
      sleepers := sleepers - {w};
    }

    method HasWork() returns (some: bool)
      ensures some <==> tasks != []
    {
      some := tasks != [];
    }
  }

  class WorkerPool {
    const queue: WorkQueue
    const workers: array<Worker>
    var isAlive: bool
    var phase: Phase
    ghost var submitted: seq<Task>
    ghost var taken: seq<Task>
    ghost var finished: seq<Task>

    ghost predicate Valid()
      reads this, queue, workers
    {
      && (forall w: nat :: w in queue.sleepers <==> w < workers.Length && workers[w] == Asleep)
      && PoolOk(View()) && Executed(View())
    }

    ghost function View(): State
      reads this, queue, workers
    {
      State(workers[..], queue.tasks, isAlive, phase, submitted, taken, finished)
    }

    constructor (threads: nat)
      ensures Valid() && View() == Init(threads)
      ensures fresh(queue) && fresh(workers)
    {
      queue := new WorkQueue();
      workers := new Worker[threads](_ => Testing);
      isAlive, phase, submitted, taken, finished := true, Open, [], [], [];
      new;
      assert workers[..] == Init(threads).workers;
      InitPool(threads);
      InitExecuted(threads);
    }

    /** The sleepers of the queue are the sleepers of the machine. */
    lemma SleepersKnown()
      requires Valid()
      ensures queue.sleepers == {} <==> Asleep !in View().workers
      ensures forall pick: nat :: Notifies(View(), pick) <==> queue.sleepers == {} || pick in queue.sleepers
    {
      if Asleep in View().workers {
        var w: nat :| w < workers.Length && workers[w] == Asleep;
        assert w in queue.sleepers;
      }
      if queue.sleepers != {} {
        var w: nat :| w in queue.sleepers;
        assert workers[..][w] == Asleep;
      }
    }

    method AddTask(task: Task, pick: nat) returns (added: bool)
      requires Valid()
      modifies queue, workers, this`submitted
      ensures added <==> Notifies(old(View()), pick)
      ensures View() == if added then WorkerProtocol.Add(old(View()), task, pick) else old(View())
      ensures forall w: nat :: w in queue.sleepers <==> w < workers.Length && workers[w] == Asleep
    {
      SleepersKnown();
      var woken;
      added, woken := queue.Add(task, pick);
      if added { submitted := submitted + [task]; }
      if woken.Some? {
        workers[woken.value] := Committed;
      }
    }

    method Submit(id: nat, pick: nat)
      requires Valid()
      modifies queue, workers, this`submitted
      ensures Valid() && View() == Step(old(View()), Event.Submit(id, pick))
    {
      hide Executed;
      PoolStep(View(), Event.Submit(id, pick));
      ExecutedStep(View(), Event.Submit(id, pick));
      var _ := AddTask(Job(id), pick);
    }

    /** The next step of worker `w` in its loop. */
    method Work(w: nat)
      requires Valid()
      modifies queue, workers, this`taken, this`finished
      ensures Valid() && View() == Step(old(View()), Event.Work(w))
    {
      hide Executed;
      PoolStep(View(), Event.Work(w));
      ExecutedStep(View(), Event.Work(w));
      if w < workers.Length {
        match workers[w]
        case Testing => workers[w] := if isAlive then Committed else Exited;
        case Committed =>
          var task := queue.Take(w);
          if task.Some? {
            workers[w], taken := Running(task.value), taken + [task.value];
          } else {
            workers[w] := Asleep;
          }
        case Running(task) => workers[w], finished := Testing, finished + [task];
        case _ =>
      }
    }

    method Wake(w: nat)
      requires Valid()
      modifies queue, workers
      ensures Valid() && View() == Step(old(View()), Event.Wake(w))
    {
      hide Executed;
      PoolStep(View(), Event.Wake(w));
      ExecutedStep(View(), Event.Wake(w));
      if w < workers.Length && workers[w] == Asleep {
        queue.Unblock(w);
        workers[w] := Committed;
      }
    }

    /** The next step of the thread in `Shutdown`. */
    method ShutdownOnce(pick: nat)
      requires Valid()
      modifies queue, workers, this`submitted, this`isAlive, this`phase
      ensures Valid() && View() == Step(old(View()), Event.Shutdown(pick))
    {
      hide Executed;
      PoolStep(View(), Event.Shutdown(pick));
      ExecutedStep(View(), Event.Shutdown(pick));
      match phase
      case Open => phase := if isAlive then Checked else Done;
      case Checked => isAlive, phase := false, Adding(workers.Length);
      case Adding(left) =>
        if left == 0 {
          phase := Joining(0);
        } else {
          var added := AddTask(NoOp, pick);
          if added { phase := Adding(left - 1); }
        }
      case Joining(next) =>
        if next >= workers.Length {
          phase := Done;
        } else if workers[next] == Exited {
          phase := Joining(next + 1);
        }
      case Done =>
    }

    /** Any schedule: the objects follow the machine. */
    method RunSchedule(es: seq<Event>)
      requires Valid()
      modifies this, queue, workers
      ensures Valid() && View() == Run(old(View()), es)
    {
      hide Executed;
      ghost var start := View();
      for i := 0 to |es|
        invariant Valid()
        invariant Run(View(), es[i..]) == Run(start, es)
      {
        match es[i]
        case Submit(id, pick) => Submit(id, pick);
        case Shutdown(pick) => ShutdownOnce(pick);
        case Work(w) => Work(w);
        case Wake(w) => Wake(w);
      }
      assert es[|es|..] == [];
    }

    /** Whom notify_one is to wake: any sleeper. */
    method AnySleeper() returns (pick: nat)
      requires Valid()
      ensures Notifies(View(), pick)
    {
      hide Executed;
      SleepersKnown();
      pick := 0;
      if queue.sleepers != {} { pick :| pick in queue.sleepers; }
    }

    /** What the others do between two steps of `Shutdown`. */
    method OthersRun(between: seq<Event>)
      requires Valid() && forall e | e in between :: !e.Shutdown?
      modifies queue, workers, this
      ensures Valid() && View() == Run(old(View()), between)
      ensures phase == old(phase) && isAlive == old(isAlive)
    {
      hide Executed;
      OthersKeepPhase(View(), between);
      RunSchedule(between);
    }

    /** The loop of `Shutdown` that adds a no-op for each worker. */
    method AddNoOps(between: seq<Event>) returns (ghost es: seq<Event>)
      requires Valid() && phase == Adding(workers.Length) && forall e | e in between :: !e.Shutdown?
      modifies queue, workers, this
      ensures Valid() && phase == Adding(0) && View() == Run(old(View()), es)
      ensures NoOpsIn(submitted) == NoOpsIn(old(submitted)) + workers.Length
      ensures JobsOf(submitted) == JobsOf(old(submitted)) + Accepted(old(View()), es)
    {
      hide Executed;
      es := [];
      ghost var start := View();
      for i := 0 to workers.Length
        invariant Valid() && phase == Adding(workers.Length - i) && View() == Run(start, es)
      {
        OthersRun(between);
        var pick := AnySleeper();
        ShutdownOnce(pick);
        RunAppend(start, es, between + [Event.Shutdown(pick)]);
        RunThenStep(Run(start, es), between, Event.Shutdown(pick));
        es := es + (between + [Event.Shutdown(pick)]);
      }
      QueuedRun(start, es);
    }

    /** What join waits for: the worker runs until it leaves its loop. */
    method RunOut(w: nat) returns (ghost es: seq<Event>)
      requires Valid() && phase.Joining? && w < workers.Length
      modifies queue, workers, this
      ensures Valid() && workers[w] == Exited && phase == old(phase) && View() == Run(old(View()), es)
    {
      hide Executed;
      es := [];
      ghost var start := View();
      while workers[w] != Exited
        invariant Valid() && phase == start.phase && View() == Run(start, es)
        decreases Sum(Effort, View().workers)
      {
        WorkWinds(View(), w);
        Work(w);
        RunThenStep(start, es, Event.Work(w));
        es := es + [Event.Work(w)];
      }
    }

    /** The loop of `Shutdown` that joins each worker. */
    method JoinAll(between: seq<Event>) returns (ghost es: seq<Event>)
      requires Valid() && phase == Joining(0) && forall e | e in between :: !e.Shutdown?
      modifies queue, workers, this
      ensures Valid() && phase == Joining(workers.Length) && View() == Run(old(View()), es)
    {
      hide Executed;
      es := [];
      ghost var start := View();
      for j := 0 to workers.Length
        invariant Valid() && phase == Joining(j) && View() == Run(start, es)
      {
        OthersRun(between);
        ghost var ran := RunOut(j);
        ShutdownOnce(0);
        RunAppend(start, es, between);
        RunAppend(start, es + between, ran);
        RunThenStep(start, es + between + ran, Event.Shutdown(0));
        es := es + between + ran + [Event.Shutdown(0)];
      }
    }

    /** Both loops of `Shutdown`. */
    method AddAndJoin(between: seq<Event>) returns (ghost es: seq<Event>)
      requires Valid() && phase == Adding(workers.Length) && forall e | e in between :: !e.Shutdown?
      modifies queue, workers, this
      ensures Valid() && phase == Done && View() == Run(old(View()), es)
    {
      hide Executed;
      ghost var start := View();
      ghost var added := AddNoOps(between);
      ShutdownOnce(0);
      ghost var joined := JoinAll(between);
      ShutdownOnce(0);
      StepAndStep(start, added, joined, Event.Shutdown(0));
      es := added + [Event.Shutdown(0)] + joined + [Event.Shutdown(0)];
    }

    /**
     The whole of `Shutdown`, with `between` for what the other threads do between its steps. It returns; all
     workers have left; and from the state at which the flag was cleared on exactly as many tasks were taken as
     workers were inside `Take`. A later call returns at once.
     */
    method Shutdown(between: seq<Event>) returns (ghost cleared: State, ghost es: seq<Event>)
      requires Valid() && (phase == Open || phase == Done) && forall e | e in between :: !e.Shutdown?
      modifies queue, workers, this
      ensures Valid() && phase == Done && forall w | 0 <= w < workers.Length :: workers[w] == Exited
      ensures old(phase) == Done ==> View() == old(View())
      ensures old(phase) == Open ==>
        && cleared == Run(Step(old(View()), Event.Shutdown(0)), between) && WholeShutdown(cleared, 0, es)
        && View() == Run(Step(cleared, Event.Shutdown(0)), es)
        && ShutdownResult(cleared, View())
    {
      hide Executed, ShutdownResult;
      cleared, es := View(), [];
      if !isAlive { return; }
      ShutdownOnce(0);
      OthersRun(between);
      cleared := View();
      ShutdownOnce(0);
      es := AddAndJoin(between);
      ShutdownResults(cleared, 0, es);
    }
  }
}

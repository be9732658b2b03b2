/** What `Shutdown` guarantees over whole runs, and exactly which queued tasks still start. */
module WorkerShutdown {
  import opened WorkerProtocol

  // ---- after the flag is cleared

  /** A worker inside `Take` owes one dequeue. */
  function Owes(w: Worker): nat { if w == Committed || w == Asleep then 1 else 0 }

  predicate Takes(s: State, e: Event, w: nat) {
    e == Work(w) && w < |s.workers| && s.workers[w] == Committed && s.queue != []
  }

  /** How many tasks worker `w` takes during a run. */
  function TakesOf(s: State, es: seq<Event>, w: nat): nat
    decreases |es|
  {
    if es == [] then 0 else (if Takes(s, es[0], w) then 1 else 0) + TakesOf(Step(s, es[0]), es[1..], w)
  }

  lemma OwesStep(s: State, e: Event, w: nat)
    requires PoolOk(s) && !s.isAlive && w < |s.workers|
    ensures !Step(s, e).isAlive
    ensures Owes(Step(s, e).workers[w]) + (if Takes(s, e, w) then 1 else 0) == Owes(s.workers[w])
  {
  }

  /**
   Each worker takes at most one more task once the flag is cleared: exactly the one it owes if it was inside
   `Take`, and none otherwise.
   */
  lemma {:induction false} OneMoreTask(s: State, es: seq<Event>, w: nat)
    requires PoolOk(s) && !s.isAlive && w < |s.workers|
    ensures !Run(s, es).isAlive
    ensures TakesOf(s, es, w) + Owes(Run(s, es).workers[w]) == Owes(s.workers[w]) <= 1
    decreases |es|
  {
    if es != [] {
      OwesStep(s, es[0], w);
      PoolStep(s, es[0]);
      OneMoreTask(Step(s, es[0]), es[1..], w);
    }
  }

  /** The lists of tasks only grow. */
  predicate Grows(s: State, s': State) {
    s.taken <= s'.taken && s.submitted <= s'.submitted
  }

  lemma AddGrows(s: State, task: Task, pick: nat)
    requires PoolOk(s) && Notifies(s, pick)
    ensures Grows(s, Add(s, task, pick)) && InTake(Add(s, task, pick)) == InTake(s)
  {
    AddKeeps(s, task, pick);
  }

  lemma WorkConserves(s: State, w: nat)
    requires PoolOk(s) && !s.isAlive && w < |s.workers|
    ensures var s' := WorkStep(s, w);
      Grows(s, s') && |s'.taken| + InTake(s') == |s.taken| + InTake(s)
  {
    var s' := WorkStep(s, w);
    assert s.workers[w := s.workers[w]] == s.workers;
    Counted(s, w, s'.workers[w]);
    assert s'.workers == Goto(s, w, s'.workers[w]).workers;
    assert InTake(s') == InTake(Goto(s, w, s'.workers[w]));
  }

  /** What has been taken plus what the workers in `Take` still owe does not change any more. */
  lemma TakenPlusOwed(s: State, e: Event)
    requires PoolOk(s) && !s.isAlive
    ensures var s' := Step(s, e);
      !s'.isAlive && Grows(s, s') && |s'.taken| + InTake(s') == |s.taken| + InTake(s)
  {
    match e
    case Submit(id, pick) => if Notifies(s, pick) { AddGrows(s, Job(id), pick); }
    case Shutdown(pick) => if s.phase.Adding? && Notifies(s, pick) { AddGrows(s, NoOp, pick); }
    case Work(w) => if w < |s.workers| { WorkConserves(s, w); }
    case Wake(w) => if w < |s.workers| && s.workers[w] == Asleep { WakeKeeps(s, w); }
  }

  // ---- the shutdown thread

  /** Steps the thread in `Shutdown` has still to make. */
  function ShutdownLeft(s: State): nat {
    match s.phase
    case Open => 0
    case Checked => 0
    case Adding(left) => left + |s.workers| + 2
    case Joining(next) => 1 + if next <= |s.workers| then |s.workers| - next else 0
    case Done => 0
  }

  /** Events that do something, submissions aside. */
  predicate Effective(s: State, e: Event) { !e.Submit? && Step(s, e) != s }

  /** How many of a run's events do something, submissions aside. */
  function Effects(s: State, es: seq<Event>): nat
    decreases |es|
  {
    if es == [] then 0 else (if Effective(s, es[0]) then 1 else 0) + Effects(Step(s, es[0]), es[1..])
  }

  /** Everything the workers and the thread in `Shutdown` have still to do. */
  function Remaining(s: State): nat { Sum(Effort, s.workers) + ShutdownLeft(s) }

  /** Once the last no-op is in, nobody sleeps, and there is a queued task for everybody in `Take`. */
  lemma NobodySleeps(s: State)
    requires PoolOk(s) && !s.isAlive && ToAdd(s.phase) == 0
    ensures Asleep !in s.workers && Awake(s) <= |s.queue|
  {
    SleepersAreAsleep(s);
  }

  lemma AwakeHasTask(s: State, w: nat)
    requires PoolOk(s) && !s.isAlive && ToAdd(s.phase) == 0
    requires w < |s.workers| && s.workers[w] == Committed
    ensures s.queue != []
  {
    NobodySleeps(s);
    SumAtLeast(OneCommitted, s.workers, w);
  }

  predicate Winding(s: State) { PoolOk(s) && (s.phase.Joining? || s.phase.Done?) }

  lemma WorkWinds(s: State, w: nat)
    requires Winding(s) && w < |s.workers|
    ensures Sum(Effort, WorkStep(s, w).workers) + (if WorkStep(s, w) != s then 1 else 0) == Sum(Effort, s.workers)
    ensures WorkStep(s, w) == s <==> s.workers[w] == Exited
  {
    NobodySleeps(s);
    var s' := WorkStep(s, w);
    SumUpdate(Effort, s.workers, w, s'.workers[w]);
    if s.workers[w] == Committed { AwakeHasTask(s, w); }
    assert s.workers[w] != Asleep;
    assert s'.workers == s.workers[w := s'.workers[w]];
  }

  /** After the last no-op every effective event uses up one unit of the remaining work, and submissions none. */
  lemma WindingStep(s: State, e: Event)
    requires Winding(s)
    ensures Winding(Step(s, e))
    ensures Remaining(Step(s, e)) + (if Effective(s, e) then 1 else 0) == Remaining(s)
  {
    PoolStep(s, e);
    NobodySleeps(s);
    match e
    case Submit(_, _) =>
    case Shutdown(_) =>
    case Work(w) => if w < |s.workers| { WorkWinds(s, w); }
    case Wake(_) =>
  }

  lemma UnfinishedMoves(s: State) returns (e: Event)
    requires Winding(s) && s.phase != Done
    ensures Effective(s, e)
  {
    e := Shutdown(0);
    if s.phase.next < |s.workers| && s.workers[s.phase.next] != Exited {
      e := Work(s.phase.next);
      WorkWinds(s, s.phase.next);
    }
  }

  lemma {:induction false} WindingRun(s: State, es: seq<Event>)
    requires Winding(s)
    ensures Winding(Run(s, es))
    ensures Remaining(Run(s, es)) + Effects(s, es) == Remaining(s)
    decreases |es|
  {
    if es != [] {
      WindingStep(s, es[0]);
      WindingRun(Step(s, es[0]), es[1..]);
    }
  }

  lemma RemainingIsBounded(s: State)
    requires Winding(s)
    ensures Remaining(s) <= 4 * |s.workers| + 1
    ensures Remaining(s) == 0 <==> s.phase == Done
  {
    SumBound(Effort, s.workers, 3);
    if s.phase == Done { SumZero(Effort, s.workers); }
  }

  /**
   Every join completes, in every schedule and with any number of submissions in between: from the last no-op
   on, a run is finished once it holds `Remaining(s)` effective events, at most four for each worker and one
   more; until then some worker or the joining thread can move.
   */
  lemma EveryJoinCompletes(s: State, es: seq<Event>)
    requires Winding(s)
    ensures Effects(s, es) <= Remaining(s) <= 4 * |s.workers| + 1
    ensures Run(s, es).phase == Done <==> Effects(s, es) == Remaining(s)
    ensures Run(s, es).phase != Done ==> exists e :: Effective(Run(s, es), e)
  {
    WindingRun(s, es);
    RemainingIsBounded(s);
    RemainingIsBounded(Run(s, es));
    if Run(s, es).phase != Done {
      var e := UnfinishedMoves(Run(s, es));
    }
  }

  /** Before that, adding a no-op never blocks, whatever the workers do. */
  lemma AddingNeverBlocks(s: State) returns (pick: nat)
    requires PoolOk(s) && s.phase.Adding?
    ensures var s' := Step(s, Shutdown(pick));
      !s'.isAlive && ShutdownLeft(s') == ShutdownLeft(s) - 1
  {
    pick := 0;
    if Asleep in s.workers {
      pick :| pick < |s.workers| && s.workers[pick] == Asleep;
    }
  }

  /** No other thread adds to the work of the thread in `Shutdown`. */
  lemma ShutdownLeftFalls(s: State, e: Event)
    requires PoolOk(s) && !s.isAlive
    ensures ShutdownLeft(Step(s, e)) == ShutdownLeft(s) - if e.Shutdown? && Step(s, e) != s then 1 else 0
  {
  }

  function ShutdownSteps(s: State, es: seq<Event>): nat
    decreases |es|
  {
    if es == [] then 0
    else (if es[0].Shutdown? && Step(s, es[0]) != s then 1 else 0) + ShutdownSteps(Step(s, es[0]), es[1..])
  }

  /** So it is past its no-ops after one step for each, whatever happens in between. */
  lemma {:induction false} AddingEnds(s: State, es: seq<Event>)
    requires PoolOk(s) && !s.isAlive
    ensures PoolOk(Run(s, es)) && !Run(s, es).isAlive
    ensures ShutdownLeft(Run(s, es)) + ShutdownSteps(s, es) == ShutdownLeft(s)
    decreases |es|
  {
    if es != [] {
      ShutdownLeftFalls(s, es[0]);
      TakenPlusOwed(s, es[0]);
      PoolStep(s, es[0]);
      AddingEnds(Step(s, es[0]), es[1..]);
    }
  }

  /** From wherever it stands after clearing the flag, `Shutdown` can run to its end. */
  lemma {:induction false} ShutdownCanFinish(s: State) returns (es: seq<Event>)
    requires PoolOk(s) && !s.isAlive
    ensures Run(s, es).phase == Done
    ensures forall e | e in es :: !e.Submit?
    decreases ShutdownLeft(s), Sum(Effort, s.workers)
  {
    if s.phase == Done {
      es := [];
    } else {
      var e;
      if s.phase.Adding? {
        var pick := AddingNeverBlocks(s);
        e := Shutdown(pick);
      } else {
        e := UnfinishedMoves(s);
        WindingStep(s, e);
      }
      ShutdownLeftFalls(s, e);
      TakenPlusOwed(s, e);
      PoolStep(s, e);
      var rest := ShutdownCanFinish(Step(s, e));
      es := [e] + rest;
    }
  }

  // ---- what is left in the queue

  predicate Submits(s: State, e: Event) { e.Submit? && Notifies(s, e.pick) }

  function Submissions(s: State, es: seq<Event>): nat
    decreases |es|
  {
    if es == [] then 0 else (if Submits(s, es[0]) then 1 else 0) + Submissions(Step(s, es[0]), es[1..])
  }

  lemma AddedTasks(s: State, e: Event)
    requires PoolOk(s) && !s.isAlive
    ensures var s' := Step(s, e);
      |s'.submitted| + ToAdd(s'.phase) == |s.submitted| + ToAdd(s.phase) + if Submits(s, e) then 1 else 0
  {
  }

  lemma {:induction false} TaskBalance(s: State, es: seq<Event>)
    requires PoolOk(s) && !s.isAlive
    ensures var s' := Run(s, es);
      && PoolOk(s') && !s'.isAlive && Grows(s, s')
      && |s'.taken| + InTake(s') == |s.taken| + InTake(s)
      && |s'.submitted| + ToAdd(s'.phase) == |s.submitted| + ToAdd(s.phase) + Submissions(s, es)
    decreases |es|
  {
    if es != [] {
      PoolStep(s, es[0]);
      TakenPlusOwed(s, es[0]);
      AddedTasks(s, es[0]);
      TaskBalance(Step(s, es[0]), es[1..]);
    }
  }

  lemma DoneIsEmpty(s: State)
    requires PoolOk(s) && s.phase == Done
    ensures InTake(s) == 0
  {
    SumZero(OneCommitted, s.workers);
    SumZero(OneAsleep, s.workers);
  }

  /** The run of a whole shutdown: `s` is about to clear the flag, and `es` ends after the last join. */
  predicate WholeShutdown(s: State, pick: nat, es: seq<Event>) {
    PoolOk(s) && s.phase == Checked && Run(Step(s, Shutdown(pick)), es).phase == Done
  }

  /**
   Of everything queued when the flag is cleared or added later, exactly as many tasks are taken as there were
   workers inside `Take`, oldest first; the rest stays behind.
   */
  lemma ShutdownAccounts(s: State, pick: nat, es: seq<Event>)
    requires WholeShutdown(s, pick, es)
    ensures var s', later := Run(Step(s, Shutdown(pick)), es), Submissions(Step(s, Shutdown(pick)), es);
      && |s'.taken| == |s.taken| + InTake(s)
      && |s'.queue| == |s.queue| + |s.workers| + later - InTake(s)
      && s'.submitted == s'.taken + s'.queue && s.submitted <= s'.submitted
  {
    var s1 := Step(s, Shutdown(pick));
    PoolStep(s, Shutdown(pick));
    TaskBalance(s1, es);
    DoneIsEmpty(Run(s1, es));
  }

  /** The tasks submitted before the shutdown all start exactly when enough workers were inside `Take`. */
  lemma QueuedTasksStartExactlyWhen(s: State, pick: nat, es: seq<Event>)
    requires WholeShutdown(s, pick, es)
    ensures s.submitted <= Run(Step(s, Shutdown(pick)), es).taken <==> |s.queue| <= InTake(s)
  {
    var s' := Run(Step(s, Shutdown(pick)), es);
    ShutdownAccounts(s, pick, es);
    assert s.submitted == s'.submitted[..|s.submitted|];
    if |s.queue| <= InTake(s) {
      assert s.submitted == s'.taken[..|s.submitted|];
    }
  }

  /** A submitted job that no worker ever starts, for any number of threads. */
  lemma JobIsDropped(threads: nat, id: nat) returns (es: seq<Event>)
    ensures var s := Run(Init(threads), es);
      s.phase == Done && s.taken == [] && s.submitted != [] && s.submitted[0] == Job(id)
  {
    var s := Init(threads);
    InitPool(threads);
    var s1 := Step(s, Submit(id, 0));
    var s2 := Step(s1, Shutdown(0));
    var s3 := Step(s2, Shutdown(0));
    PoolStep(s, Submit(id, 0));
    PoolStep(s1, Shutdown(0));
    PoolStep(s2, Shutdown(0));
    var rest := ShutdownCanFinish(s3);
    es := [Submit(id, 0)] + ([Shutdown(0)] + ([Shutdown(0)] + rest));
    RunCons(s, Submit(id, 0), [Shutdown(0)] + ([Shutdown(0)] + rest));
    RunCons(s1, Shutdown(0), [Shutdown(0)] + rest);
    RunCons(s2, Shutdown(0), rest);
    ShutdownAccounts(s2, 0, rest);
    SumZero(OneCommitted, s2.workers);
    SumZero(OneAsleep, s2.workers);
  }

  /** Nothing starts after `Shutdown` has returned, whoever goes on submitting. */
  lemma {:induction false} NothingAfterDone(s: State, es: seq<Event>)
    requires PoolOk(s) && s.phase == Done
    ensures var s' := Run(s, es);
      && s'.phase == Done && s'.taken == s.taken && s'.finished == s.finished
      && s'.workers == s.workers && Joined(s'.workers, |s'.workers|)
    decreases |es|
  {
    if es != [] {
      PoolStep(s, es[0]);
      NothingAfterDone(Step(s, es[0]), es[1..]);
    }
  }
}

/** How a call on the pools ends: what acquire hands out or why not, and what a return has done, in every state. */
module NodeAnswers {
  import opened NodePool
  import opened NodeStacks
  import opened NodeGuarantees

  predicate InAcquire(pc: Pc) {
    pc.LoadHead? || pc.LoadNext? || pc.CasPop? || pc.TrackPop? || pc.Allocate? || pc.TrackAlloc?
  }

  predicate InReturn(pc: Pc) { pc.LoadTop? || pc.StoreNext? || pc.CasPush? || pc.TrackPush? }

  /** The pool a call of acquire is for, or a return that has pushed. */
  function PoolOf(pc: Pc): nat {
    match pc
    case LoadHead(j) => j
    case LoadNext(j, _) => j
    case CasPop(j, _, _) => j
    case TrackPop(j, _) => j
    case Allocate(j) => j
    case TrackAlloc(j, _) => j
    case TrackPush(j) => j
    case _ => 0
  }

  /** Acquire has a block to hand out: it popped or allocated its node. */
  predicate HasBlock(pc: Pc) { pc.TrackPop? || pc.TrackAlloc? }

  /** Still in the same acquire, with the same block if it has one; nothing shows at the callers. */
  predicate StillAcquiring(s: State, s': State, a: Pc, b: Pc) {
    InAcquire(b) && PoolOf(b) == PoolOf(a) && (HasBlock(a) ==> b == a) && s'.held == s.held
  }

  /** The caller has one node more: the one this thread popped or allocated, of the pool that was asked. */
  predicate HandedOut(s: State, s': State, a: Pc, b: Pc) {
    && HasBlock(a) && b == Idle && a.node in s.nodes && s.nodes[a.node].pool == PoolOf(a)
    && s'.held == s.held + multiset{a.node}
  }

  /** A node is obtained only as the head of the list of its pool, or from malloc when that list was empty. */
  predicate Obtains(s: State, s': State, e: Event, a: Pc, b: Pc) {
    && (b.Allocate? && !a.Allocate? ==> PoolOf(a) < |s.pools| && s.pools[PoolOf(a)].head == 0)
    && (b.TrackPop? && !a.TrackPop? ==> Pops(s, e) && PoolOf(a) < |s.pools| && b.node == s.pools[PoolOf(a)].head)
    && (b.TrackAlloc? && !a.TrackAlloc? ==> a.Allocate? && e.Malloc? && b.node == e.node && e.node !in s.nodes)
  }

  /** How an event of a thread inside acquire may show. */
  predicate AcquireAnswered(s: State, s': State, e: Event)
    requires e.t < |s.threads| == |s'.threads|
  {
    var a, b := s.threads[e.t], s'.threads[e.t];
    if e.Advance? && HasBlock(a) then HandedOut(s, s', a, b)
    else if e.MallocFails? && a.Allocate? then
      b == Idle && s'.held == s.held && s'.nodes == s.nodes && s'.pools == s.pools
    else StillAcquiring(s, s', a, b) && Obtains(s, s', e, a, b)
  }

  /** Still in the same return, its node not pushed; or just pushed on top of its home pool; or pushed and done. */
  predicate ReturnAnswered(s: State, s': State, e: Event)
    requires e.t < |s.threads| == |s'.threads|
  {
    var a, b := s.threads[e.t], s'.threads[e.t];
    && s'.held == s.held
    && if a.TrackPush? then b == if e.Advance? then Idle else a
       else if Pushes(s, e) then
         && Carries(a) in s.nodes && s.nodes[Carries(a)].pool < |s'.pools|
         && b == TrackPush(s.nodes[Carries(a)].pool)
         && s'.pools[s.nodes[Carries(a)].pool].head == Carries(a)
       else !b.TrackPush? && InReturn(b) && Carries(b) == Carries(a) != 0
  }

  /** How an event of a thread between calls may show. */
  predicate CallStarts(s: State, s': State, e: Event)
    requires e.t < |s.threads| == |s'.threads|
  {
    var b := s'.threads[e.t];
    && s'.pools == s.pools && s'.nodes == s.nodes
    && (InAcquire(b) <==> e.CallAcquire? && e.pool < |s.pools|)
    && (InAcquire(b) ==> PoolOf(b) == e.pool)
    && (InReturn(b) <==> e.CallReturn? && e.node in s.held)
    && (if InReturn(b) then Carries(b) == e.node && s'.held == s.held - multiset{e.node} else s'.held == s.held)
  }

  predicate Answered(s: State, s': State, e: Event)
    requires e.t < |s.threads| == |s'.threads|
  {
    if InAcquire(s.threads[e.t]) then AcquireAnswered(s, s', e)
    else if InReturn(s.threads[e.t]) then ReturnAnswered(s, s', e)
    else CallStarts(s, s', e)
  }

  lemma MoveOfAcquire(s: State, t: nat)
    requires t < |s.threads| && PcOk(s, s.threads[t]) && InAcquire(s.threads[t]) && !s.threads[t].Allocate?
    ensures AcquireAnswered(s, Move(s, t), Advance(t))
  {
  }

  lemma MoveOfReturn(s: State, t: nat)
    requires t < |s.threads| && PcOk(s, s.threads[t]) && InReturn(s.threads[t])
    requires Carries(s.threads[t]) != 0 || s.threads[t].TrackPush?
    ensures ReturnAnswered(s, Move(s, t), Advance(t))
  {
  }

  lemma CarriedIsNode(s: State, t: nat)
    requires MemoryOk(s) && t < |s.threads| && InReturn(s.threads[t])
    ensures Carries(s.threads[t]) != 0 || s.threads[t].TrackPush?
  {
    ThreadOk(s, t);
    if !s.threads[t].TrackPush? { assert NodeOk(s, Carries(s.threads[t])); }
  }

  /** A thread that stays where it is. */
  lemma NothingShows(s: State, e: Event)
    requires e.t < |s.threads| && s.threads[e.t] != Idle && !(e.Advance? && HasBlock(s.threads[e.t]))
    requires !(e.Advance? && s.threads[e.t].TrackPush?) && !(e.MallocFails? && s.threads[e.t].Allocate?)
    requires InReturn(s.threads[e.t]) ==> Carries(s.threads[e.t]) != 0 || s.threads[e.t].TrackPush?
    requires !Pushes(s, e)
    ensures Answered(s, s, e)
  {
  }

  lemma DisabledGoesOn(s: State, e: Event)
    requires MemoryOk(s) && e.t < |s.threads| && !Enabled(s, e) && s.threads[e.t] != Idle
    ensures Answered(s, Step(s, e), e)
  {
    ThreadOk(s, e.t);
    if InReturn(s.threads[e.t]) { CarriedIsNode(s, e.t); }
    hide MemoryOk, Answered;
    NothingShows(s, e);
  }

  lemma CallGoesOn(s: State, e: Event)
    requires MemoryOk(s) && Enabled(s, e) && !e.Advance? && s.threads[e.t] != Idle
    ensures Answered(s, Step(s, e), e)
  {
    if InReturn(s.threads[e.t]) { CarriedIsNode(s, e.t); }
    if e.MallocFails? { FailureShows(s, e.t); }
    hide MemoryOk, Step;
    CallStep(s, e);
  }

  lemma FailureShows(s: State, t: nat)
    requires MemoryOk(s) && Enabled(s, MallocFails(t))
    ensures Step(s, MallocFails(t)) == Goto(s, t, Idle)
  {
  }

  lemma IdleStarts(s: State, e: Event)
    requires MemoryOk(s) && e.t < |s.threads| && s.threads[e.t] == Idle
    ensures CallStarts(s, Step(s, e), e)
  {
    if e.CallReturn? && Enabled(s, e) { ReturnStep(s, e.t, e.node); }
    if e.CallReturn? && e.node in s.held { assert NodeOk(s, e.node); }
    hide MemoryOk;
  }

  /** Every event in every sound state: no call ends, and no node is obtained or given up, in any other way. */
  lemma StepIsAnswered(s: State, e: Event)
    requires MemoryOk(s) && e.t < |s.threads|
    ensures Answered(s, Step(s, e), e)
  {
    hide Step, MemoryOk, AcquireAnswered, ReturnAnswered, CallStarts;
    if s.threads[e.t] == Idle {
      IdleStarts(s, e);
    } else if Enabled(s, e) && e.Advance? {
      AccessIsAnswered(s, e.t);
    } else if Enabled(s, e) {
      CallGoesOn(s, e);
    } else {
      DisabledGoesOn(s, e);
    }
  }

  lemma AccessIsAnswered(s: State, t: nat)
    requires MemoryOk(s) && Enabled(s, Advance(t)) && s.threads[t] != Idle
    ensures Answered(s, Step(s, Advance(t)), Advance(t))
  {
    AdvanceIsMove(s, t);
    hide Move, Step, MemoryOk, AcquireAnswered, ReturnAnswered;
    if InAcquire(s.threads[t]) {
      MoveOfAcquire(s, t);
    } else {
      CarriedIsNode(s, t);
      MoveOfReturn(s, t);
    }
  }

  lemma EveryCallIsAnswered(memSizes: seq<nat>, threads: nat, es: seq<Event>, e: Event)
    requires e.t < threads
    ensures var s := Run(Start(memSizes, threads), es); |s.threads| == threads && Answered(s, Step(s, e), e)
  {
    RunKeepsThreads(Start(memSizes, threads), es);
    hide Run, Step, Answered;
    StepIsAnswered(Run(Start(memSizes, threads), es), e);
  }

  lemma {:induction false} RunKeepsThreads(s: State, es: seq<Event>)
    requires MemoryOk(s)
    ensures |Run(s, es).threads| == |s.threads| && |Run(s, es).pools| == |s.pools|
    decreases |es|
  {
    hide Step, MemoryOk;
    if es != [] {
      MemoryStep(s, es[0]);
      RunKeepsThreads(Step(s, es[0]), es[1..]);
    }
  }

  // ---- an undisturbed call gets to its end

  /** At most how many accesses of its own a thread is away from its end, or from asking malloc. */
  function Work(s: State, t: nat): nat
    requires t < |s.threads| && PcOk(s, s.threads[t])
  {
    match s.threads[t]
    case LoadHead(j) => FromHead(s, j)
    case LoadNext(j, top) => 3 + if s.pools[j].head == top then 0 else FromHead(s, j)
    case CasPop(j, top, _) => 2 + if s.pools[j].head == top then 0 else FromHead(s, j)
    case TrackPop(_, _) => 1
    case TrackAlloc(_, _) => 1
    case LoadTop(_) => 4
    case StoreNext(n, top) => 3 + if s.pools[s.nodes[n].pool].head == top then 0 else 4
    case CasPush(n, top) => 2 + if s.pools[s.nodes[n].pool].head == top then 0 else 4
    case TrackPush(_) => 1
    case _ => 0
  }

  function FromHead(s: State, j: nat): nat
    requires j < |s.pools|
  {
    if s.pools[j].head == 0 then 1 else 4
  }

  /** Neither between calls nor waiting for malloc. */
  predicate Busy(pc: Pc) { pc != Idle && !pc.Allocate? }

  lemma MoveWorks(s: State, t: nat)
    requires t < |s.threads| && PcOk(s, s.threads[t]) && Busy(s.threads[t])
    requires PcOk(Move(s, t), Move(s, t).threads[t])
    ensures Work(Move(s, t), t) < Work(s, t) <= 7
  {
  }

  lemma BusyWorks(s: State, t: nat)
    requires MemoryOk(s) && t < |s.threads| && Busy(s.threads[t])
    ensures MemoryOk(Step(s, Advance(t)))
    ensures PcOk(s, s.threads[t]) && PcOk(Step(s, Advance(t)), Step(s, Advance(t)).threads[t])
    ensures Work(Step(s, Advance(t)), t) < Work(s, t) <= 7
  {
    MemoryStep(s, Advance(t));
    AdvanceIsMove(s, t);
    ThreadOk(Step(s, Advance(t)), t);
    hide MemoryOk, Step, Move, Work;
    MoveWorks(s, t);
  }

  /** `k` accesses of thread `t` in a row. */
  function Accesses(t: nat, k: nat): seq<Event> {
    if k == 0 then [] else [Advance(t)] + Accesses(t, k - 1)
  }

  /**
   Whatever the others have done before, a thread that is left alone inside a call has ended it, or asks malloc,
   after at most seven accesses of its own.
   */
  lemma {:induction false} BusyEnds(s: State, t: nat) returns (k: nat)
    requires MemoryOk(s) && t < |s.threads| && PcOk(s, s.threads[t])
    ensures k <= Work(s, t)
    ensures |Run(s, Accesses(t, k)).threads| == |s.threads| && !Busy(Run(s, Accesses(t, k)).threads[t])
    decreases Work(s, t)
  {
    hide Step, MemoryOk, Work, Run, PcOk, Busy;
    if !Busy(s.threads[t]) {
      k := 0;
      RunNothing(s);
    } else {
      BusyWorks(s, t);
      var j := BusyEnds(Step(s, Advance(t)), t);
      k := j + 1;
      RunCons(s, Advance(t), Accesses(t, j));
    }
  }
}

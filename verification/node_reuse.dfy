/**
 The converse: with two threads between the head load and the compare-and-swap of acquire, a node that
 is popped and pushed back in between hands one block to two callers.
 */
module NodeReuse {
  import opened Bags
  import opened NodePool
  import opened NodeStacks
  import opened NodeGuarantees

  /** The events of thread `t` alone. */
  predicate By(es: seq<Event>, t: nat) { forall e | e in es :: e.t == t }

  /** `s'` is `s` up to counters and the heads of other pools. */
  predicate Differs(s: State, s': State, j: nat, head: nat, nodes: map<nat, Node>, held: multiset<nat>) {
    && s'.threads == s.threads && s'.nodes == nodes && s'.held == held
    && |s'.pools| == |s.pools| && j < |s.pools| && s'.pools[j].head == head
  }

  lemma LoadHeadStep(s: State, t: nat, j: nat)
    requires MemoryOk(s) && t < |s.threads| && s.threads[t] == LoadHead(j) && j < |s.pools| && s.pools[j].head != 0
    ensures Step(s, Advance(t)) == Goto(s, t, LoadNext(j, s.pools[j].head))
  {
  }

  lemma LoadNextStep(s: State, t: nat, j: nat, top: nat)
    requires MemoryOk(s) && t < |s.threads| && s.threads[t] == LoadNext(j, top) && top in s.nodes
    ensures Step(s, Advance(t)) == Goto(s, t, CasPop(j, top, s.nodes[top].next))
  {
  }

  lemma PopStep(s: State, t: nat, j: nat, next: nat)
    requires MemoryOk(s) && t < |s.threads| && j < |s.pools| && s.threads[t] == CasPop(j, s.pools[j].head, next)
    ensures Step(s, Advance(t)) == SetHead(Goto(s, t, TrackPop(j, s.pools[j].head)), j, next)
  {
    ThreadOk(s, t);
    hide MemoryOk;
  }

  lemma TrackPopStep(s: State, t: nat, j: nat, n: nat)
    requires MemoryOk(s) && t < |s.threads| && j < |s.pools| && s.threads[t] == TrackPop(j, n)
    ensures Step(s, Advance(t)) == CountAvailable(Goto(s, t, Idle).(held := s.held + multiset{n}), j, -1)
  {
    ThreadOk(s, t);
    hide MemoryOk;
  }

  lemma RunTwo(s: State, e1: Event, e2: Event)
    requires MemoryOk(s)
    ensures MemoryOk(Step(s, e1)) && Run(s, [e1, e2]) == Step(Step(s, e1), e2)
  {
    RunCons(s, e1, [e2]);
    RunCons(Step(s, e1), e2, []);
    assert [e1] + [e2] == [e1, e2] && [e2] + [] == [e2];
  }

  lemma LoadTwice(s: State, t: nat, j: nat)
    requires MemoryOk(s) && t < |s.threads| && s.threads[t] == LoadHead(j) && j < |s.pools| && s.pools[j].head != 0
    requires s.pools[j].head in s.nodes
    ensures Run(s, [Advance(t), Advance(t)]) == Goto(s, t, CasPop(j, s.pools[j].head, s.nodes[s.pools[j].head].next))
  {
    hide Step, Run, MemoryOk;
    var top := s.pools[j].head;
    RunTwo(s, Advance(t), Advance(t));
    LoadHeadStep(s, t, j);
    LoadNextStep(Goto(s, t, LoadNext(j, top)), t, j, top);
  }

  /** An undisturbed acquire up to the load of the node's successor. */
  lemma AcquireHalf(s: State, t: nat, j: nat) returns (es: seq<Event>)
    requires MemoryOk(s) && t < |s.threads| && s.threads[t] == Idle && j < |s.pools| && s.pools[j].head != 0
    requires s.pools[j].head in s.nodes
    ensures By(es, t)
    ensures Run(s, es) == Goto(s, t, CasPop(j, s.pools[j].head, s.nodes[s.pools[j].head].next))
  {
    var s1 := Goto(s, t, LoadHead(j));
    assert Step(s, CallAcquire(t, j)) == s1;
    hide Step, Run, MemoryOk;
    es := [CallAcquire(t, j)] + [Advance(t), Advance(t)];
    RunCons(s, CallAcquire(t, j), [Advance(t), Advance(t)]);
    LoadTwice(s1, t, j);
  }

  /** The compare-and-swap that succeeds, and the hand-out. */
  lemma AcquireRest(s: State, t: nat, j: nat, next: nat) returns (es: seq<Event>)
    requires MemoryOk(s) && t < |s.threads| && j < |s.pools| && s.threads[t] == CasPop(j, s.pools[j].head, next)
    ensures By(es, t)
    ensures Differs(Goto(s, t, Idle), Run(s, es), j, next, s.nodes, s.held + multiset{s.pools[j].head})
  {
    hide Step, Run, MemoryOk;
    var top := s.pools[j].head;
    es := [Advance(t)] + ([Advance(t)] + []);
    RunCons(s, Advance(t), [Advance(t)] + []);
    PopStep(s, t, j, next);
    var s1 := SetHead(Goto(s, t, TrackPop(j, top)), j, next);
    RunCons(s1, Advance(t), []);
    TrackPopStep(s1, t, j, top);
    RunNothing(Step(s1, Advance(t)));
  }

  /** An undisturbed acquire from a non-empty pool. */
  lemma AcquireTop(s: State, t: nat, j: nat) returns (es: seq<Event>)
    requires MemoryOk(s) && t < |s.threads| && s.threads[t] == Idle && j < |s.pools| && s.pools[j].head != 0
    requires s.pools[j].head in s.nodes
    ensures By(es, t)
    ensures Differs(s, Run(s, es), j, s.nodes[s.pools[j].head].next, s.nodes, s.held + multiset{s.pools[j].head})
  {
    hide Run, Step, MemoryOk;
    var first := AcquireHalf(s, t, j);
    var rest := AcquireRest(Run(s, first), t, j, s.nodes[s.pools[j].head].next);
    es := first + rest;
    RunAppend(s, first, rest);
    assert s.threads[t := Idle] == s.threads;
  }

  lemma FreshHalf(s: State, t: nat, j: nat) returns (es: seq<Event>)
    requires MemoryOk(s) && t < |s.threads| && s.threads[t] == Idle && j < |s.pools| && s.pools[j].head == 0
    ensures By(es, t) && Run(s, es) == Goto(s, t, Allocate(j))
  {
    es := [CallAcquire(t, j), Advance(t)];
    RunTwo(s, CallAcquire(t, j), Advance(t));
    assert Step(s, CallAcquire(t, j)) == Goto(s, t, LoadHead(j));
  }

  lemma FreshRest(s: State, t: nat, j: nat, n: nat, d: nat) returns (es: seq<Event>)
    requires MemoryOk(s) && t < |s.threads| && j < |s.pools| && s.threads[t] == Allocate(j)
    requires n != 0 && n !in s.nodes && d !in s.header
    ensures By(es, t) && Run(s, es).header == s.header[d := n]
    ensures Differs(Goto(s, t, Idle), Run(s, es), j, s.pools[j].head,
                    s.nodes[n := Node(0, d, j, s.pools[j].memSize)], s.held + multiset{n})
  {
    es := [Malloc(t, n, d), Advance(t)];
    RunTwo(s, Malloc(t, n, d), Advance(t));
    assert Step(s, Malloc(t, n, d)) ==
      Goto(s, t, TrackAlloc(j, n)).(nodes := s.nodes[n := Node(0, d, j, s.pools[j].memSize)],
                                    header := s.header[d := n]);
  }

  /** An undisturbed acquire from an empty pool. */
  lemma AcquireFresh(s: State, t: nat, j: nat, n: nat, d: nat) returns (es: seq<Event>)
    requires MemoryOk(s) && t < |s.threads| && s.threads[t] == Idle && j < |s.pools| && s.pools[j].head == 0
    requires n != 0 && n !in s.nodes && d !in s.header
    ensures By(es, t)
    ensures Differs(s, Run(s, es), j, 0, s.nodes[n := Node(0, d, j, s.pools[j].memSize)], s.held + multiset{n})
    ensures Run(s, es).header == s.header[d := n]
  {
    hide Run, Step, MemoryOk;
    var first := FreshHalf(s, t, j);
    var rest := FreshRest(Run(s, first), t, j, n, d);
    es := first + rest;
    RunAppend(s, first, rest);
    assert s.threads[t := Idle] == s.threads;
  }

  lemma CallReturnStep(s: State, t: nat, n: nat)
    requires MemoryOk(s) && Enabled(s, CallReturn(t, n))
    ensures Step(s, CallReturn(t, n)) == Goto(s, t, LoadTop(n)).(held := s.held - multiset{n})
  {
    ReturnStep(s, t, n);
  }

  lemma LoadTopStep(s: State, t: nat, n: nat)
    requires MemoryOk(s) && t < |s.threads| && s.threads[t] == LoadTop(n)
    requires n in s.nodes && s.nodes[n].pool < |s.pools|
    ensures Step(s, Advance(t)) == Goto(s, t, StoreNext(n, s.pools[s.nodes[n].pool].head))
  {
  }

  lemma ReturnHalf(s: State, t: nat, n: nat) returns (es: seq<Event>)
    requires MemoryOk(s) && Enabled(s, CallReturn(t, n)) && n in s.nodes && s.nodes[n].pool < |s.pools|
    ensures By(es, t)
    ensures Run(s, es) == Goto(s, t, StoreNext(n, s.pools[s.nodes[n].pool].head)).(held := s.held - multiset{n})
  {
    es := [CallReturn(t, n), Advance(t)];
    CallReturnStep(s, t, n);
    RunTwo(s, CallReturn(t, n), Advance(t));
    LoadTopStep(Step(s, CallReturn(t, n)), t, n);
  }

  lemma ReturnLink(s: State, t: nat, n: nat, j: nat) returns (es: seq<Event>)
    requires MemoryOk(s) && t < |s.threads| && j < |s.pools| && n in s.nodes && s.nodes[n].pool == j
    requires s.threads[t] == StoreNext(n, s.pools[j].head)
    ensures By(es, t)
    ensures Run(s, es) ==
            SetHead(Goto(s, t, TrackPush(j)), j, n).(nodes := s.nodes[n := s.nodes[n].(next := s.pools[j].head)])
  {
    var top := s.pools[j].head;
    es := [Advance(t), Advance(t)];
    assert PcOk(s, s.threads[t]);
    RunTwo(s, Advance(t), Advance(t));
    assert Step(s, Advance(t)) == Goto(s, t, CasPush(n, top)).(nodes := s.nodes[n := s.nodes[n].(next := top)]);
  }

  lemma ReturnCount(s: State, t: nat, j: nat) returns (es: seq<Event>)
    requires MemoryOk(s) && t < |s.threads| && j < |s.pools| && s.threads[t] == TrackPush(j)
    ensures By(es, t)
    ensures Differs(Goto(s, t, Idle), Run(s, es), j, s.pools[j].head, s.nodes, s.held)
    ensures Run(s, es).header == s.header
  {
    es := [Advance(t)];
    RunCons(s, Advance(t), []);
    assert es + [] == es;
  }

  lemma ReturnTail(s: State, t: nat, n: nat, j: nat) returns (es: seq<Event>)
    requires MemoryOk(s) && t < |s.threads| && j < |s.pools| && n in s.nodes && s.nodes[n].pool == j
    requires s.threads[t] == StoreNext(n, s.pools[j].head)
    ensures By(es, t) && Run(s, es).header == s.header
    ensures Differs(Goto(s, t, Idle), Run(s, es), j, n, s.nodes[n := s.nodes[n].(next := s.pools[j].head)], s.held)
  {
    var first := ReturnLink(s, t, n, j);
    var rest := ReturnCount(Run(s, first), t, j);
    es := first + rest;
    RunAppend(s, first, rest);
  }

  /** An undisturbed return. */
  lemma ReturnAlone(s: State, t: nat, n: nat) returns (es: seq<Event>)
    requires MemoryOk(s) && Enabled(s, CallReturn(t, n)) && n in s.nodes && s.nodes[n].pool < |s.pools|
    ensures By(es, t)
    ensures var j := s.nodes[n].pool;
      && Differs(s, Run(s, es), j, n, s.nodes[n := s.nodes[n].(next := s.pools[j].head)], s.held - multiset{n})
      && Run(s, es).header == s.header
  {
    hide Run, Step, MemoryOk;
    var first := ReturnHalf(s, t, n);
    var rest := ReturnTail(Run(s, first), t, n, s.nodes[n].pool);
    es := first + rest;
    RunAppend(s, first, rest);
    assert s.threads[t := Idle] == s.threads;
  }

  // ---- the run

  /** Threads 0 and 1 are between calls and pool 0 is the list 1, 2 with nothing held. */
  ghost predicate TwoListed(s: State) {
    && MemoryOk(s) && |s.pools| >= 1 && |s.threads| >= 2 && s.threads[0] == Idle && s.threads[1] == Idle
    && s.held == multiset{} && s.pools[0].head == 1
    && 1 in s.nodes && 2 in s.nodes && s.nodes[1].pool == 0 && s.nodes[2].pool == 0
    && s.nodes[1].next == 2 && s.nodes[2].next == 0
  }

  lemma ListTwo(memSizes: seq<nat>, threads: nat) returns (es: seq<Event>)
    requires |memSizes| >= 1 && threads >= 2
    ensures MemoryOk(Init(memSizes, threads)) && By(es, 1) && TwoListed(Run(Init(memSizes, threads), es))
  {
    hide Run, Step;
    var s := Init(memSizes, threads);
    InitMemory(memSizes, threads);
    var a := AcquireFresh(s, 1, 0, 1, 1);
    var s1 := Run(s, a);
    var b := AcquireFresh(s1, 1, 0, 2, 2);
    var s2 := Run(s1, b);
    var c := ReturnAlone(s2, 1, 2);
    var s3 := Run(s2, c);
    var d := ReturnAlone(s3, 1, 1);
    es := a + (b + (c + d));
    RunAppend(s, a, b + (c + d));
    RunAppend(s1, b, c + d);
    RunAppend(s2, c, d);
  }

  /** Thread 0 loads node 1 and its successor 2; thread 1 pops 1 and 2 and pushes 1 back. */
  lemma Reuse(s: State) returns (es: seq<Event>)
    requires TwoListed(s)
    ensures forall e | e in es :: e.t < 2
    ensures var s' := Run(s, es);
      && |s'.threads| == |s.threads| && s'.threads[0] == CasPop(0, 1, 2) && s'.threads[1] == Idle
      && |s'.pools| >= 1 && s'.pools[0].head == 1 && s'.held == multiset{2} && 1 in s'.nodes && 2 in s'.nodes
  {
    hide Run, Step;
    var a := AcquireHalf(s, 0, 0);
    var s1 := Run(s, a);
    var b := AcquireTop(s1, 1, 0);
    var s2 := Run(s1, b);
    var c := AcquireTop(s2, 1, 0);
    var s3 := Run(s2, c);
    var d := ReturnAlone(s3, 1, 1);
    es := a + (b + (c + d));
    RunAppend(s, a, b + (c + d));
    RunAppend(s1, b, c + d);
    RunAppend(s2, c, d);
    assert s3.held - multiset{1} == multiset{2};
  }

  /** Thread 0 swings the head to node 2, which thread 1 holds, and thread 1 acquires it again. */
  lemma AcquireTwice(s: State) returns (es: seq<Event>)
    requires MemoryOk(s) && |s.threads| >= 2 && s.threads[0] == CasPop(0, 1, 2) && s.threads[1] == Idle
    requires |s.pools| >= 1 && s.pools[0].head == 1 && s.held == multiset{2} && 2 in s.nodes
    ensures forall e | e in es :: e.t < 2
    ensures Run(s, es).held[2] == 2
  {
    hide Run, Step;
    var a := AcquireRest(s, 0, 0, 2);
    var b := AcquireTop(Run(s, a), 1, 0);
    es := a + b;
    RunAppend(s, a, b);
  }

  lemma BlockHandedOutTwice(memSizes: seq<nat>, threads: nat) returns (es: seq<Event>)
    requires |memSizes| >= 1 && threads >= 2
    ensures MemoryOk(Init(memSizes, threads)) && forall e | e in es :: e.t < 2
    ensures Run(Init(memSizes, threads), es).held[2] == 2
  {
    hide Run, Step;
    var s := Init(memSizes, threads);
    var a := ListTwo(memSizes, threads);
    var b := Reuse(Run(s, a));
    var c := AcquireTwice(Run(Run(s, a), b));
    es := a + (b + c);
    RunAppend(s, a, b + c);
    RunAppend(Run(s, a), b, c);
  }

  // ---- exactly when

  lemma WindowOfFew(s: State)
    requires |s.threads| <= 1
    ensures Window(s, 1)
  {
    if |s.threads| == 1 {
      assert s.threads == [s.threads[0]];
      assert Bag(InWindow, s.threads) == InWindow(s.threads[0]) + Bag(InWindow, []);
    }
  }

  ghost predicate OnlyTwoActive(s: State) {
    |s.threads| >= 2 && forall t | 2 <= t < |s.threads| :: s.threads[t] == Idle
  }

  lemma WindowOfTwo(s: State)
    requires OnlyTwoActive(s)
    ensures Window(s, 2)
  {
    var rest := s.threads[2..];
    BagEmpty(InWindow, rest);
    assert s.threads[1..][1..] == rest;
    assert Bag(InWindow, s.threads[1..]) == InWindow(s.threads[1]) + Bag(InWindow, rest);
  }

  lemma TwoStayActive(s: State, e: Event)
    requires MemoryOk(s) && OnlyTwoActive(s) && e.t < 2
    ensures OnlyTwoActive(Step(s, e))
  {
    OneThreadMoves(s, e);
  }

  lemma {:induction false} RunOfTwo(s: State, es: seq<Event>, k: nat)
    requires MemoryOk(s) && OnlyTwoActive(s) && k >= 2
    requires forall e | e in es :: e.t < 2
    ensures WindowRun(s, es, k)
    decreases |es|
  {
    WindowOfTwo(s);
    if es != [] {
      MemoryStep(s, es[0]);
      TwoStayActive(s, es[0]);
      RunOfTwo(Step(s, es[0]), es[1..], k);
    }
  }

  lemma {:induction false} RunOfFew(s: State, es: seq<Event>)
    requires MemoryOk(s) && |s.threads| <= 1
    ensures WindowRun(s, es, 1)
    decreases |es|
  {
    WindowOfFew(s);
    if es != [] {
      MemoryStep(s, es[0]);
      RunOfFew(Step(s, es[0]), es[1..]);
    }
  }

  lemma {:induction false} WindowRunLess(s: State, es: seq<Event>, k: nat)
    requires MemoryOk(s) && WindowRun(s, es, k) && k <= 1
    ensures WindowRun(s, es, 1)
    decreases |es|
  {
    if es != [] {
      MemoryStep(s, es[0]);
      WindowRunLess(Step(s, es[0]), es[1..], k);
    }
  }

  /** No schedule with at most `k` threads per pool in the acquire window gives a block two callers. */
  ghost predicate SafeUpTo(memSizes: seq<nat>, threads: nat, k: nat) {
    forall es: seq<Event> ::
      InitMemory(memSizes, threads);
      WindowRun(Init(memSizes, threads), es, k) ==> HeldOnce(Run(Init(memSizes, threads), es))
  }

  /** Exactly how much concurrency the pools stand: one acquirer at a time, or a single thread. */
  lemma SafeExactlyForOneAcquirer(memSizes: seq<nat>, threads: nat, k: nat)
    requires |memSizes| >= 1
    ensures SafeUpTo(memSizes, threads, k) <==> (k <= 1 || threads <= 1)
  {
    var s, stacks := Init(memSizes, threads), EmptyStacks(|memSizes|);
    InitStacks(memSizes, threads);
    if k <= 1 || threads <= 1 {
      forall es: seq<Event> | WindowRun(s, es, k) ensures HeldOnce(Run(s, es)) {
        if threads <= 1 { RunOfFew(s, es); } else { WindowRunLess(s, es, k); }
        SoleAcquirerIsSafe(s, es, stacks);
        OnceEachIsHeldOnce(Run(s, es), Books(Run(s, es), StackRun(s, es, stacks)));
      }
    } else {
      var es := BlockHandedOutTwice(memSizes, threads);
      RunOfTwo(s, es, k);
      assert !HeldOnce(Run(s, es));
    }
  }
}

/** What the lists guarantee over whole runs, and exactly how much concurrency they stand. */
module NodeGuarantees {
  import opened Bags
  import opened NodePool
  import opened NodeStacks

  ghost predicate HarmlessRun(s: State, es: seq<Event>)
    requires MemoryOk(s)
    decreases |es|
  {
    es != [] ==> HarmlessPush(s, es[0]) && (MemoryStep(s, es[0]); HarmlessRun(Step(s, es[0]), es[1..]))
  }

  /** The stacks after a run, push by push and pop by pop. */
  ghost function StackRun(s: State, es: seq<Event>, stacks: seq<seq<nat>>): (r: seq<seq<nat>>)
    requires MemoryOk(s) && |stacks| == |s.pools|
    ensures |r| == |stacks|
    decreases |es|
  {
    if es == [] then stacks
    else MemoryStep(s, es[0]); StackRun(Step(s, es[0]), es[1..], StackStep(s, es[0], stacks))
  }

  function EmptyStacks(pools: nat): seq<seq<nat>> { seq(pools, _ => []) }

  lemma InitStacks(memSizes: seq<nat>, threads: nat)
    ensures var s := Init(memSizes, threads);
      MemoryOk(s) && StacksOk(s, EmptyStacks(|memSizes|), Books(s, EmptyStacks(|memSizes|)))
  {
    var s := Init(memSizes, threads);
    InitMemory(memSizes, threads);
    BagEmpty(Stacked, EmptyStacks(|memSizes|));
    BagEmpty(Carried, s.threads);
  }

  /**
   In every run without a harmful push each list is exactly its abstract stack, and every node is in
   exactly one place: one list, one thread in between, or one caller.
   */
  lemma {:induction false} HarmlessRunKeepsStacks(s: State, es: seq<Event>, stacks: seq<seq<nat>>)
    requires StacksOk(s, stacks, Books(s, stacks)) && HarmlessRun(s, es)
    ensures StacksOk(Run(s, es), StackRun(s, es, stacks), Books(Run(s, es), StackRun(s, es, stacks)))
    decreases |es|
  {
    if es != [] {
      MemoryStep(s, es[0]);
      StackEvent(s, es[0], stacks);
      HarmlessRunKeepsStacks(Step(s, es[0]), es[1..], StackStep(s, es[0], stacks));
    }
  }

  /** No block has two callers. */
  predicate HeldOnce(s: State) { forall n | n in s.held :: s.held[n] == 1 }

  lemma OnceEachIsHeldOnce(s: State, o: Owners)
    requires OnceEach(s, o)
    ensures HeldOnce(s)
  {
    forall n | n in s.held ensures s.held[n] == 1 {
      assert o.stacked[n] + o.carried[n] + s.held[n] == if n in s.nodes then 1 else 0;
    }
  }

  // ---- at most so many threads between the head load and the compare-and-swap of acquire

  function InWindow(pc: Pc): multiset<nat> {
    if pc.LoadNext? || pc.CasPop? then multiset{pc.pool} else multiset{}
  }

  /** At most `k` threads per pool have loaded a head and not yet tried to swing it. */
  ghost predicate Window(s: State, k: nat) {
    forall j: nat :: Bag(InWindow, s.threads)[j] <= k
  }

  ghost predicate WindowRun(s: State, es: seq<Event>, k: nat)
    requires MemoryOk(s)
    decreases |es|
  {
    Window(s, k) && (es != [] ==> (MemoryStep(s, es[0]); WindowRun(Step(s, es[0]), es[1..], k)))
  }

  /** A thread in the window has loaded a node that is still in the list. */
  ghost predicate Anchored(s: State, stacks: seq<seq<nat>>, pc: Pc) {
    pc.LoadNext? || pc.CasPop? ==> pc.pool < |stacks| && pc.top in stacks[pc.pool]
  }

  ghost predicate AllAnchored(s: State, stacks: seq<seq<nat>>) {
    forall t | 0 <= t < |s.threads| :: Anchored(s, stacks, s.threads[t])
  }

  lemma SoleInWindow(s: State, t: nat, u: nat)
    requires Window(s, 1) && t < |s.threads| && u < |s.threads| && t != u
    requires InWindow(s.threads[t]) != multiset{} && InWindow(s.threads[u]) != multiset{}
    ensures s.threads[t].pool != s.threads[u].pool
  {
    var i, k := if t < u then t else u, if t < u then u else t;
    BagTwo(InWindow, s.threads, i, k);
    var j := s.threads[t].pool;
    assert (InWindow(s.threads[i]) + InWindow(s.threads[k]))[j] <= 1;
  }

  lemma AnchoredPushIsHarmless(s: State, e: Event, stacks: seq<seq<nat>>)
    requires StacksOk(s, stacks, Books(s, stacks)) && AllAnchored(s, stacks)
    ensures HarmlessPush(s, e)
  {
    if Pushes(s, e) {
      var o, n := Books(s, stacks), s.threads[e.t].node;
      BooksAreTallied(s, stacks, e.t);
      assert PcOk(s, s.threads[e.t]) && NodeOk(s, n);
      CarriedIsUnlisted(s, stacks, o, e.t);
      forall t | 0 <= t < |s.threads| && s.threads[t].CasPop? ensures s.threads[t].top != n {
        assert Anchored(s, stacks, s.threads[t]);
      }
    }
  }

  lemma AnchoredStep(s: State, e: Event, stacks: seq<seq<nat>>)
    requires StacksOk(s, stacks, Books(s, stacks)) && AllAnchored(s, stacks) && Window(s, 1)
    ensures AllAnchored(Step(s, e), StackStep(s, e, stacks))
  {
    if !Enabled(s, e) {
      DisabledEvent(s, e, stacks);
    } else {
      OneThreadMoves(s, e);
      AnchoredMover(s, e, stacks);
      var s', stacks' := Step(s, e), StackStep(s, e, stacks);
      forall t | 0 <= t < |s'.threads| ensures Anchored(s', stacks', s'.threads[t]) {
        assert Anchored(s, stacks, s.threads[t]);
        if t != e.t && InWindow(s.threads[t]) != multiset{} {
          if Pops(s, e) { SoleInWindow(s, t, e.t); }
          StacksKeepOthers(s, e, stacks, s.threads[t].pool, s.threads[t].top);
        }
      }
    }
  }

  /** Only a pop of the same pool takes a node out of its stack. */
  lemma StacksKeepOthers(s: State, e: Event, stacks: seq<seq<nat>>, j: nat, n: nat)
    requires |stacks| == |s.pools| && j < |stacks| && n in stacks[j]
    requires Pops(s, e) ==> s.threads[e.t].pool != j
    ensures n in StackStep(s, e, stacks)[j]
  {
  }

  /** A thread in the window got there by a load of the head or of the node's successor. */
  lemma WindowMove(s: State, t: nat)
    requires MemoryOk(s) && t < |s.threads|
    ensures var b := Move(s, t).threads[t];
      && (b.LoadNext? ==> s.threads[t] == LoadHead(b.pool) && s.pools[b.pool].head == b.top != 0)
      && (b.CasPop? ==> s.threads[t] == LoadNext(b.pool, b.top))
  {
    ThreadOk(s, t);
    hide MemoryOk;
  }

  lemma WindowEntry(s: State, e: Event)
    requires MemoryOk(s) && Enabled(s, e)
    ensures var a, b := s.threads[e.t], Step(s, e).threads[e.t];
      InWindow(b) != multiset{} ==>
        && e.Advance? && b.pool < |s.pools|
        && ((a == LoadHead(b.pool) && s.pools[b.pool].head == b.top != 0) || a == LoadNext(b.pool, b.top))
  {
    hide Step, Move;
    if e.Advance? { AdvanceIsMove(s, e.t); ThreadOk(s, e.t); WindowMove(s, e.t); } else { CallStep(s, e); }
  }

  lemma AnchoredMover(s: State, e: Event, stacks: seq<seq<nat>>)
    requires MemoryOk(s) && Chains(s, stacks) && Enabled(s, e)
    requires Anchored(s, stacks, s.threads[e.t])
    ensures Anchored(Step(s, e), StackStep(s, e, stacks), Step(s, e).threads[e.t])
  {
    WindowEntry(s, e);
    var b := Step(s, e).threads[e.t];
    if InWindow(b) != multiset{} {
      assert StackStep(s, e, stacks) == stacks;
      if s.threads[e.t].LoadHead? { HeadOfChain(s, stacks, b.pool); }
    }
  }

  /**
   One thread at a time between the head load and the compare-and-swap of acquire, any number of threads
   in return: no push is ever harmful, so the run is safe without further conditions.
   */
  lemma {:induction false} SoleAcquirerIsSafe(s: State, es: seq<Event>, stacks: seq<seq<nat>>)
    requires StacksOk(s, stacks, Books(s, stacks)) && AllAnchored(s, stacks) && WindowRun(s, es, 1)
    ensures HarmlessRun(s, es)
    ensures StacksOk(Run(s, es), StackRun(s, es, stacks), Books(Run(s, es), StackRun(s, es, stacks)))
    decreases |es|
  {
    if es != [] {
      AnchoredPushIsHarmless(s, es[0], stacks);
      AnchoredStep(s, es[0], stacks);
      MemoryStep(s, es[0]);
      StackEvent(s, es[0], stacks);
      SoleAcquirerIsSafe(Step(s, es[0]), es[1..], StackStep(s, es[0], stacks));
    }
  }
}

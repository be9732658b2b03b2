/** The usage counters: 32-bit, wrapping, and exact up to the threads that have yet to count. */
module NodeCounters {
  import opened Bags
  import opened NodePool
  import opened NodeStacks
  import opened NodeGuarantees

  function PopPending(pc: Pc): multiset<nat> { if pc.TrackPop? then multiset{pc.pool} else multiset{} }
  function PushPending(pc: Pc): multiset<nat> { if pc.TrackPush? then multiset{pc.pool} else multiset{} }
  function AllocPending(pc: Pc): multiset<nat> { if pc.TrackAlloc? then multiset{pc.pool} else multiset{} }

  /** How many threads have changed pool `j` but not counted it yet. */
  datatype Pending = Pending(pops: int, pushes: int, allocs: int)

  ghost function PendingOn(s: State, j: nat): Pending {
    Pending(Bag(PopPending, s.threads)[j], Bag(PushPending, s.threads)[j], Bag(AllocPending, s.threads)[j])
  }

  function NodesOf(s: State, j: nat): set<nat> { set n | n in s.nodes && s.nodes[n].pool == j }

  ghost predicate CountsOf(pool: MemPool, listed: nat, owned: nat, p: Pending) {
    && pool.numAvailable == (listed + p.pops - p.pushes) % WORD
    && pool.numAllocs == (owned - p.allocs) % WORD
  }

  /**
   `num_available` is the list length, plus the pops and minus the pushes not yet counted;
   `num_allocs` is the number of nodes of the pool, minus the allocations not yet counted; both modulo 2^32.
   */
  ghost predicate CountersOk(s: State, stacks: seq<seq<nat>>) {
    |stacks| == |s.pools| &&
    forall j | 0 <= j < |s.pools| :: CountsOf(s.pools[j], |stacks[j]|, |NodesOf(s, j)|, PendingOn(s, j))
  }

  lemma InitCounters(memSizes: seq<nat>, threads: nat)
    ensures CountersOk(Init(memSizes, threads), EmptyStacks(|memSizes|))
  {
    var s := Init(memSizes, threads);
    BagEmpty(PopPending, s.threads);
    BagEmpty(PushPending, s.threads);
    BagEmpty(AllocPending, s.threads);
    forall j: nat ensures NodesOf(s, j) == {} {}
  }

  /** What a thread in state `pc` still has to count for pool `j`. */
  function Due(pc: Pc, j: nat): Pending {
    Pending(if pc.TrackPop? && pc.pool == j then 1 else 0,
            if pc.TrackPush? && pc.pool == j then 1 else 0,
            if pc.TrackAlloc? && pc.pool == j then 1 else 0)
  }

  /** Each thread counts for itself. */
  lemma PendingMoved(s: State, s': State, t: nat, j: nat)
    requires t < |s.threads| && |s'.threads| == |s.threads| && s'.threads == s.threads[t := s'.threads[t]]
    ensures var p, p', a, b := PendingOn(s, j), PendingOn(s', j), Due(s.threads[t], j), Due(s'.threads[t], j);
      p' == Pending(p.pops - a.pops + b.pops, p.pushes - a.pushes + b.pushes, p.allocs - a.allocs + b.allocs)
  {
    var a, b := s.threads[t], s'.threads[t];
    PendingColumn(PopPending, s.threads, t, b, j);
    PendingColumn(PushPending, s.threads, t, b, j);
    PendingColumn(AllocPending, s.threads, t, b, j);
    DueIsPending(a, j);
    DueIsPending(b, j);
  }

  lemma DueIsPending(pc: Pc, j: nat)
    ensures Due(pc, j) == Pending(PopPending(pc)[j], PushPending(pc)[j], AllocPending(pc)[j])
  {
  }

  lemma PendingColumn(f: Pc -> multiset<nat>, ts: seq<Pc>, t: nat, b: Pc, j: nat)
    requires t < |ts|
    ensures Bag(f, ts[t := b])[j] + f(ts[t])[j] == Bag(f, ts)[j] + f(b)[j]
  {
    BagUpdate(f, ts, t, b);
    AddAt(Bag(f, ts[t := b]), f(ts[t]), Bag(f, ts), f(b), j);
  }

  lemma AddAt(a: multiset<nat>, b: multiset<nat>, c: multiset<nat>, d: multiset<nat>, j: nat)
    requires a + b == c + d
    ensures a[j] + b[j] == c[j] + d[j]
  {
    assert (a + b)[j] == (c + d)[j];
  }

  /** Wrapping 32-bit addition; nothing is added to a value that is in range already. */
  function Add32(x: int, d: int): int { if d == 0 then x else (x + d) % WORD }

  /** What an event from `s` to `s'` does to the counters and the stack of pool `j`. */
  predicate Counted(s: State, s': State, e: Event, stacks: seq<seq<nat>>, j: nat)
    requires e.t < |s.threads| == |s'.threads| && j < |s.pools| == |s'.pools| == |stacks|
  {
    var a, b := Due(s.threads[e.t], j), Due(s'.threads[e.t], j);
    // what was left to count is counted
    && s'.pools[j].numAvailable == Add32(s.pools[j].numAvailable, a.pushes - a.pops)
    && s'.pools[j].numAllocs == Add32(s.pools[j].numAllocs, a.allocs)
    // what changes is left to count
    && |StackStep(s, e, stacks)[j]| == |stacks[j]| - b.pops + b.pushes
    && b.allocs == Added(s, e, j)
  }

  /** How many nodes an event adds to pool `j`. */
  function Added(s: State, e: Event, j: nat): int
    requires e.t < |s.threads|
  {
    if e.Malloc? && s.threads[e.t] == Allocate(j) then 1 else 0
  }

  predicate SamePools(nodes: map<nat, Node>, nodes': map<nat, Node>) {
    nodes'.Keys == nodes.Keys && forall n | n in nodes :: nodes'[n].pool == nodes[n].pool
  }

  lemma RelinkNodes(s: State, t: nat)
    requires MemoryOk(s) && t < |s.threads| && s.threads[t].StoreNext?
    ensures SamePools(s.nodes, Move(s, t).nodes)
  {
    ThreadOk(s, t);
    hide MemoryOk;
  }

  lemma MoveNodes(s: State, t: nat)
    requires MemoryOk(s) && t < |s.threads| && !s.threads[t].StoreNext?
    ensures Move(s, t).nodes == s.nodes
  {
    ThreadOk(s, t);
    hide MemoryOk;
  }

  lemma CallNodes(s: State, e: Event)
    requires MemoryOk(s) && Enabled(s, e) && !e.Advance? && !e.Malloc?
    ensures Step(s, e).nodes == s.nodes
  {
    hide Step;
    CallStep(s, e);
  }

  lemma MallocNodes(s: State, e: Event)
    requires MemoryOk(s) && Enabled(s, e) && e.Malloc?
    ensures var s' := Step(s, e);
      s'.nodes.Keys == s.nodes.Keys + {e.node} && (forall n | n in s.nodes :: s'.nodes[n].pool == s.nodes[n].pool)
      && s'.nodes[e.node].pool == s.threads[e.t].pool
  {
    assert PcOk(s, s.threads[e.t]);
  }

  lemma PoolKept(s: State, s': State, j: nat)
    requires SamePools(s.nodes, s'.nodes)
    ensures NodesOf(s', j) == NodesOf(s, j)
  {
  }

  lemma PoolGrows(s: State, s': State, j: nat, n: nat)
    requires n !in s.nodes && s'.nodes.Keys == s.nodes.Keys + {n}
    requires forall m | m in s.nodes :: s'.nodes[m].pool == s.nodes[m].pool
    ensures |NodesOf(s', j)| == |NodesOf(s, j)| + if s'.nodes[n].pool == j then 1 else 0
  {
    assert NodesOf(s', j) == if s'.nodes[n].pool == j then NodesOf(s, j) + {n} else NodesOf(s, j);
  }

  /** Only malloc adds a node, and no event moves a node to another pool. */
  lemma NodesAdded(s: State, e: Event, j: nat)
    requires MemoryOk(s) && Enabled(s, e)
    ensures |NodesOf(Step(s, e), j)| == |NodesOf(s, j)| + Added(s, e, j)
  {
    if e.Malloc? {
      MallocNodes(s, e);
      PoolGrows(s, Step(s, e), j, e.node);
    } else {
      if !e.Advance? {
        CallNodes(s, e);
      } else if s.threads[e.t].StoreNext? {
        RelinkNodes(s, e.t);
      } else {
        MoveNodes(s, e.t);
      }
      PoolKept(s, Step(s, e), j);
    }
  }

  lemma CountPop(s: State, t: nat, stacks: seq<seq<nat>>, j: nat)
    requires MemoryOk(s) && Chains(s, stacks) && Enabled(s, Advance(t)) && j < |s.pools|
    requires s.threads[t].CasPop?
    ensures Counted(s, Step(s, Advance(t)), Advance(t), stacks, j)
  {
    ThreadOk(s, t);
    hide MemoryOk;
    if Pops(s, Advance(t)) { HeadOfChain(s, stacks, s.threads[t].pool); }
  }

  lemma CountPush(s: State, t: nat, stacks: seq<seq<nat>>, j: nat)
    requires MemoryOk(s) && Chains(s, stacks) && Enabled(s, Advance(t)) && j < |s.pools|
    requires s.threads[t].CasPush?
    ensures Counted(s, Step(s, Advance(t)), Advance(t), stacks, j)
  {
    assert PcOk(s, s.threads[t]) && NodeOk(s, s.threads[t].node);
    hide MemoryOk, Chains;
  }

  /** The accesses that count change one counter of one pool. */
  lemma TrackStep(s: State, t: nat)
    requires MemoryOk(s) && t < |s.threads|
    requires s.threads[t].TrackPop? || s.threads[t].TrackAlloc? || s.threads[t].TrackPush?
    ensures var pc, s' := s.threads[t], Step(s, Advance(t));
      && pc.pool < |s.pools| && s'.threads[t] == Idle
      && s'.pools == (match pc
          case TrackPop(j, _) => CountAvailable(s, j, -1)
          case TrackPush(j) => CountAvailable(s, j, 1)
          case TrackAlloc(j, _) => CountAlloc(s, j)
          case _ => s).pools
  {
    AdvanceIsMove(s, t);
    hide MemoryOk, Step;
  }

  lemma CountTrack(s: State, t: nat, stacks: seq<seq<nat>>, j: nat)
    requires MemoryOk(s) && Chains(s, stacks) && Enabled(s, Advance(t)) && j < |s.pools|
    requires s.threads[t].TrackPop? || s.threads[t].TrackAlloc? || s.threads[t].TrackPush?
    ensures Counted(s, Step(s, Advance(t)), Advance(t), stacks, j)
  {
    hide Step, MemoryOk, Chains;
    TrackStep(s, t);
    PoolsHaveStacks(s, stacks);
  }

  lemma PoolsHaveStacks(s: State, stacks: seq<seq<nat>>)
    requires Chains(s, stacks)
    ensures |stacks| == |s.pools|
  {
  }

  lemma CountLoad(s: State, t: nat, stacks: seq<seq<nat>>, j: nat)
    requires MemoryOk(s) && Chains(s, stacks) && Enabled(s, Advance(t)) && j < |s.pools|
    requires s.threads[t].LoadHead? || s.threads[t].LoadNext? || s.threads[t].LoadTop? || s.threads[t].StoreNext?
    ensures Counted(s, Step(s, Advance(t)), Advance(t), stacks, j)
  {
    var b := Step(s, Advance(t)).threads[t];
    ThreadOk(s, t);
    hide MemoryOk;
    assert !b.TrackPop? && !b.TrackPush? && !b.TrackAlloc?;
  }

  /** The events outside the accesses touch no counter and no head. */
  lemma CallLeavesPools(s: State, e: Event)
    requires MemoryOk(s) && Enabled(s, e) && !e.Advance?
    ensures Step(s, e).pools == s.pools
    ensures forall j: nat :: Due(s.threads[e.t], j) == Pending(0, 0, 0)
    ensures forall j: nat :: Due(Step(s, e).threads[e.t], j) == Pending(0, 0, Added(s, e, j))
  {
    hide Step, MemoryOk;
    CallStep(s, e);
  }

  lemma CountCall(s: State, e: Event, stacks: seq<seq<nat>>, j: nat)
    requires MemoryOk(s) && Chains(s, stacks) && Enabled(s, e) && !e.Advance? && j < |s.pools|
    ensures Counted(s, Step(s, e), e, stacks, j)
  {
    CallLeavesPools(s, e);
    CountUntouched(s, Step(s, e), e, stacks, j);
  }

  lemma CountUntouched(s: State, s': State, e: Event, stacks: seq<seq<nat>>, j: nat)
    requires e.t < |s.threads| == |s'.threads| && j < |s.pools| == |stacks| && s'.pools == s.pools && !e.Advance?
    requires Due(s.threads[e.t], j) == Pending(0, 0, 0)
    requires Due(s'.threads[e.t], j) == Pending(0, 0, Added(s, e, j))
    ensures Counted(s, s', e, stacks, j)
  {
  }

  lemma CountEvent(s: State, e: Event, stacks: seq<seq<nat>>, j: nat)
    requires MemoryOk(s) && Chains(s, stacks) && Enabled(s, e) && j < |s.pools|
    ensures Counted(s, Step(s, e), e, stacks, j)
  {
    if !e.Advance? {
      CountCall(s, e, stacks, j);
    } else {
      match s.threads[e.t]
      case CasPop(_, _, _) => CountPop(s, e.t, stacks, j);
      case CasPush(_, _) => CountPush(s, e.t, stacks, j);
      case TrackPop(_, _) => CountTrack(s, e.t, stacks, j);
      case TrackAlloc(_, _) => CountTrack(s, e.t, stacks, j);
      case TrackPush(_) => CountTrack(s, e.t, stacks, j);
      case _ => CountLoad(s, e.t, stacks, j);
    }
  }

  lemma AddAgrees(x: int, d: int, y: int)
    requires x == y % WORD
    ensures Add32(x, d) == (y + d) % WORD
  {
  }

  lemma CountsFollow(pool: MemPool, pool': MemPool, listed: int, listed': int, owned: int, owned': int,
                     p: Pending, p': Pending, a: Pending, b: Pending)
    requires pool.numAvailable == (listed + p.pops - p.pushes) % WORD && pool.numAllocs == (owned - p.allocs) % WORD
    requires p' == Pending(p.pops - a.pops + b.pops, p.pushes - a.pushes + b.pushes, p.allocs - a.allocs + b.allocs)
    requires pool'.numAvailable == Add32(pool.numAvailable, a.pushes - a.pops)
    requires pool'.numAllocs == Add32(pool.numAllocs, a.allocs)
    requires listed' == listed - b.pops + b.pushes && owned' == owned + b.allocs
    ensures pool'.numAvailable == (listed' + p'.pops - p'.pushes) % WORD
    ensures pool'.numAllocs == (owned' - p'.allocs) % WORD
  {
    AddAgrees(pool.numAvailable, a.pushes - a.pops, listed + p.pops - p.pushes);
    AddAgrees(pool.numAllocs, a.allocs, owned - p.allocs);
  }

  lemma PendingAfter(s: State, e: Event, j: nat)
    requires MemoryOk(s) && Enabled(s, e)
    ensures var s' := Step(s, e);
      var p, a, b := PendingOn(s, j), Due(s.threads[e.t], j), Due(s'.threads[e.t], j);
      PendingOn(s', j) ==
        Pending(p.pops - a.pops + b.pops, p.pushes - a.pushes + b.pushes, p.allocs - a.allocs + b.allocs)
  {
    hide Step, PendingOn, Due;
    OneThreadMoves(s, e);
    PendingMoved(s, Step(s, e), e.t, j);
  }

  lemma CountersOfPool(s: State, s': State, e: Event, stacks: seq<seq<nat>>, j: nat, p: Pending, p': Pending)
    requires e.t < |s.threads| == |s'.threads| && j < |s.pools| == |s'.pools| == |stacks|
    requires CountsOf(s.pools[j], |stacks[j]|, |NodesOf(s, j)|, p)
    requires Counted(s, s', e, stacks, j)
    requires |NodesOf(s', j)| == |NodesOf(s, j)| + Added(s, e, j)
    requires var a, b := Due(s.threads[e.t], j), Due(s'.threads[e.t], j);
      p' == Pending(p.pops - a.pops + b.pops, p.pushes - a.pushes + b.pushes, p.allocs - a.allocs + b.allocs)
    ensures CountsOf(s'.pools[j], |StackStep(s, e, stacks)[j]|, |NodesOf(s', j)|, p')
  {
    CountsFollow(s.pools[j], s'.pools[j], |stacks[j]|, |StackStep(s, e, stacks)[j]|, |NodesOf(s, j)|, |NodesOf(s', j)|,
                 p, p', Due(s.threads[e.t], j), Due(s'.threads[e.t], j));
  }

  /** The counters stay exact along every run of harmless pushes. */
  lemma CountersStep(s: State, e: Event, stacks: seq<seq<nat>>)
    requires MemoryOk(s) && Chains(s, stacks) && CountersOk(s, stacks)
    ensures CountersOk(Step(s, e), StackStep(s, e, stacks))
  {
    hide MemoryOk, Chains, Move, CountsOf, PendingOn, NodesOf;
    if Enabled(s, e) {
      var s' := Step(s, e);
      forall j | 0 <= j < |s.pools|
        ensures CountsOf(s'.pools[j], |StackStep(s, e, stacks)[j]|, |NodesOf(s', j)|, PendingOn(s', j))
      {
        CountEvent(s, e, stacks, j);
        NodesAdded(s, e, j);
        PendingAfter(s, e, j);
        CountersOfPool(s, s', e, stacks, j, PendingOn(s, j), PendingOn(s', j));
      }
    } else {
      DisabledEvent(s, e, stacks);
    }
  }

  lemma {:induction false} CountersRun(s: State, es: seq<Event>, stacks: seq<seq<nat>>)
    requires StacksOk(s, stacks, Books(s, stacks)) && CountersOk(s, stacks) && HarmlessRun(s, es)
    ensures CountersOk(Run(s, es), StackRun(s, es, stacks))
    decreases |es|
  {
    if es != [] {
      MemoryStep(s, es[0]);
      StackEvent(s, es[0], stacks);
      CountersStep(s, es[0], stacks);
      CountersRun(Step(s, es[0]), es[1..], StackStep(s, es[0], stacks));
    }
  }

  ghost predicate Quiescent(s: State) { forall t | 0 <= t < |s.threads| :: s.threads[t] == Idle }

  function HeldOf(s: State, j: nat): set<nat> { set n | n in NodesOf(s, j) && n in s.held }

  lemma {:induction false} ListedNodes(s: State, j: nat, head: nat, st: seq<nat>)
    requires MemoryOk(s) && Chain(s.nodes, head, st) && LinkOk(s, j, head)
    ensures forall n | n in st :: n in NodesOf(s, j)
    decreases |st|
  {
    if st != [] {
      assert NodeOk(s, head);
      ListedNodes(s, j, s.nodes[head].next, st[1..]);
    }
  }

  function Members(st: seq<nat>): set<nat> { set n: nat | n in st }

  lemma {:induction false} DistinctCount(st: seq<nat>)
    requires forall n: nat :: multiset(st)[n] <= 1
    ensures |Members(st)| == |st|
  {
    if st != [] {
      var x: nat, rest: seq<nat> := st[0], st[1..];
      assert st == [x] + rest;
      forall n: nat ensures multiset(rest)[n] <= 1 {
        assert multiset(st)[n] <= 1;
      }
      assert x !in rest by { assert multiset(st)[x] <= 1; }
      DistinctCount(rest);
      assert Members(st) == {x} + Members(rest);
    }
  }

  /** A listed node is in the list of its own pool. */
  lemma ListedAtHome(s: State, stacks: seq<seq<nat>>, j: nat, n: nat)
    requires MemoryOk(s) && Chains(s, stacks) && n in NodesOf(s, j) && n in Bag(Stacked, stacks)
    ensures j < |stacks| && n in stacks[j]
  {
    var i := BagSource(Stacked, stacks, n);
    assert n in stacks[i];
    assert LinkOk(s, i, s.pools[i].head) && Chain(s.nodes, s.pools[i].head, stacks[i]);
    ListedNodes(s, i, s.pools[i].head, stacks[i]);
  }

  lemma IdleOwners(s: State, stacks: seq<seq<nat>>, j: nat)
    requires MemoryOk(s) && Chains(s, stacks) && OnceEach(s, Books(s, stacks)) && Quiescent(s) && j < |s.pools|
    ensures forall n | n in NodesOf(s, j) :: (n in stacks[j]) != (n in s.held)
    ensures forall n: nat :: multiset(stacks[j])[n] <= 1
  {
    var o := Books(s, stacks);
    BagEmpty(Carried, s.threads);
    BagUpdate(Stacked, stacks, j, stacks[j]);
    forall n | n in NodesOf(s, j) ensures (n in stacks[j]) != (n in s.held) {
      assert o.stacked[n] + o.carried[n] + s.held[n] == 1;
      if n in o.stacked { ListedAtHome(s, stacks, j, n); }
      if n in stacks[j] { assert n in Stacked(stacks[j]); }
    }
    forall n: nat ensures multiset(stacks[j])[n] <= 1 {
      assert o.stacked[n] + o.carried[n] + s.held[n] <= 1;
    }
  }

  lemma IdlePartition(s: State, st: seq<nat>, j: nat)
    requires forall n | n in NodesOf(s, j) :: (n in st) != (n in s.held)
    requires forall n | n in st :: n in NodesOf(s, j)
    requires forall n: nat :: multiset(st)[n] <= 1
    ensures |NodesOf(s, j)| == |st| + |HeldOf(s, j)|
  {
    var listed := Members(st);
    DistinctCount(st);
    assert NodesOf(s, j) == listed + HeldOf(s, j) && listed !! HeldOf(s, j);
  }

  lemma NothingPending(s: State, j: nat)
    requires Quiescent(s)
    ensures PendingOn(s, j) == Pending(0, 0, 0)
  {
    BagEmpty(PopPending, s.threads);
    BagEmpty(PushPending, s.threads);
    BagEmpty(AllocPending, s.threads);
  }

  /**
   When no operation is in progress, `num_available` is the list length and `num_allocs` is the number of
   listed plus held blocks of the pool, both modulo 2^32.
   */
  lemma IdleCounters(s: State, stacks: seq<seq<nat>>, j: nat)
    requires StacksOk(s, stacks, Books(s, stacks)) && CountersOk(s, stacks) && Quiescent(s) && j < |s.pools|
    ensures s.pools[j].numAvailable == |stacks[j]| % WORD
    ensures s.pools[j].numAllocs == (|stacks[j]| + |HeldOf(s, j)|) % WORD
  {
    hide Books, MemoryOk, OnceEach, Chains, NodesOf, HeldOf;
    NothingPending(s, j);
    IdleOwners(s, stacks, j);
    CountersAt(s, stacks, j);
    ChainAt(s, stacks, j);
    IdleCount(s, stacks[j], j, PendingOn(s, j));
  }

  lemma ChainAt(s: State, stacks: seq<seq<nat>>, j: nat)
    requires Chains(s, stacks) && j < |s.pools|
    ensures Chain(s.nodes, s.pools[j].head, stacks[j])
  {
  }

  lemma CountersAt(s: State, stacks: seq<seq<nat>>, j: nat)
    requires CountersOk(s, stacks) && j < |s.pools|
    ensures CountsOf(s.pools[j], |stacks[j]|, |NodesOf(s, j)|, PendingOn(s, j))
  {
  }

  lemma IdleCount(s: State, st: seq<nat>, j: nat, p: Pending)
    requires MemoryOk(s) && j < |s.pools| && Chain(s.nodes, s.pools[j].head, st)
    requires CountsOf(s.pools[j], |st|, |NodesOf(s, j)|, p) && p == Pending(0, 0, 0)
    requires forall n | n in NodesOf(s, j) :: (n in st) != (n in s.held)
    requires forall n: nat :: multiset(st)[n] <= 1
    ensures s.pools[j].numAvailable == |st| % WORD
    ensures s.pools[j].numAllocs == (|st| + |HeldOf(s, j)|) % WORD
  {
    ListedNodes(s, j, s.pools[j].head, st);
    hide MemoryOk, Chain, NodesOf, HeldOf, CountsOf;
    IdlePartition(s, st, j);
    IdleNumbers(s.pools[j], |st|, |HeldOf(s, j)|, |NodesOf(s, j)|);
  }

  lemma IdleNumbers(pool: MemPool, listed: nat, held: nat, owned: nat)
    requires CountsOf(pool, listed, owned, Pending(0, 0, 0)) && owned == listed + held
    ensures pool.numAvailable == listed % WORD && pool.numAllocs == (listed + held) % WORD
  {
  }

  /** With no call in progress: the list length, and the listed plus held blocks, modulo 2^32. */
  ghost predicate IdleExact(s: State, stacks: seq<seq<nat>>)
    requires |stacks| == |s.pools|
  {
    forall j | 0 <= j < |s.pools| ::
      s.pools[j].numAvailable == |stacks[j]| % WORD && s.pools[j].numAllocs == (|stacks[j]| + |HeldOf(s, j)|) % WORD
  }

  /** Lists, owners and counters are as they should be. */
  ghost predicate Sound(s: State, stacks: seq<seq<nat>>) {
    && StacksOk(s, stacks, Books(s, stacks)) && HeldOnce(s)
    && CountersOk(s, stacks) && (Quiescent(s) ==> IdleExact(s, stacks))
  }

  lemma CountersAreSound(s: State, stacks: seq<seq<nat>>)
    requires StacksOk(s, stacks, Books(s, stacks)) && CountersOk(s, stacks)
    ensures Sound(s, stacks)
  {
    hide Books, HeldOf, StacksOk, CountsOf;
    HeldOnceAt(s, Books(s, stacks), stacks);
    if Quiescent(s) {
      forall j: nat | j < |s.pools|
        ensures s.pools[j].numAvailable == |stacks[j]| % WORD
        ensures s.pools[j].numAllocs == (|stacks[j]| + |HeldOf(s, j)|) % WORD
      {
        IdleCounters(s, stacks, j);
      }
    }
  }

  lemma HeldOnceAt(s: State, o: Owners, stacks: seq<seq<nat>>)
    requires StacksOk(s, stacks, o)
    ensures HeldOnce(s)
  {
    OnceEachIsHeldOnce(s, o);
  }

  lemma SoundFrom(start: State, empty: seq<seq<nat>>, es: seq<Event>)
    requires StacksOk(start, empty, Books(start, empty)) && CountersOk(start, empty) && HarmlessRun(start, es)
    ensures Sound(Run(start, es), StackRun(start, es, empty))
  {
    StackedIsShaped(start, empty, Books(start, empty));
    hide Books, Run, StackRun, StacksOk, CountersOk, HarmlessRun, Sound;
    HarmlessRunKeepsStacks(start, es, empty);
    CountersRun(start, es, empty);
    CountersAreSound(Run(start, es), StackRun(start, es, empty));
  }

  lemma StackedIsShaped(s: State, stacks: seq<seq<nat>>, o: Owners)
    requires StacksOk(s, stacks, o)
    ensures MemoryOk(s) && |stacks| == |s.pools|
  {
  }

  /**
   From new pools on, in every run without a harmful push: each list is its abstract stack, every node is in one
   place, no block has two callers, and the counters are exact.
   */
  lemma PoolsAreSound(memSizes: seq<nat>, threads: nat, es: seq<Event>)
    requires HarmlessRun(Start(memSizes, threads), es)
    ensures var start := Start(memSizes, threads);
      Sound(Run(start, es), StackRun(start, es, EmptyStacks(|memSizes|)))
  {
    InitStacks(memSizes, threads);
    InitCounters(memSizes, threads);
    hide Init, Books, StacksOk, CountersOk, HarmlessRun, Sound, Run, StackRun;
    SoundFrom(Start(memSizes, threads), EmptyStacks(|memSizes|), es);
  }
}

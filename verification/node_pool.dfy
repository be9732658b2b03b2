/**
 The dynamic memory pools as a step machine: any number of pools share one heap, any number of threads
 acquire and return, one event is one atomic access. Address 0 is NULL.
 */
module NodePool {
  import opened Bags

  /** A list node with the block it owns: address, size and home pool of the block. */
  datatype Node = Node(next: nat, data: nat, pool: nat, capacity: nat)

  datatype MemPool = MemPool(head: nat, memSize: nat, numAllocs: nat, numAvailable: nat)

  datatype Pc =
    | Idle
    | LoadHead(pool: nat)                             // acquire: about to load the head
    | LoadNext(pool: nat, top: nat)                   // acquire: loaded `top`, about to load its next
    | CasPop(pool: nat, top: nat, next: nat)          // acquire: about to swing the head to `next`
    | TrackPop(pool: nat, node: nat)                  // acquire: popped, about to count
    | Allocate(pool: nat)                             // acquire: pool was empty, about to call malloc
    | TrackAlloc(pool: nat, node: nat)                // acquire: allocated, about to count
    | LoadTop(node: nat)                              // return: about to load the head
    | StoreNext(node: nat, top: nat)                  // return: about to link the node to `top`
    | CasPush(node: nat, top: nat)                    // return: about to swing the head to the node
    | TrackPush(pool: nat)                            // return: pushed, about to count

  /** `header` is the word before each block; `held` are the nodes whose blocks callers own. */
  datatype State = State(
    pools: seq<MemPool>, nodes: map<nat, Node>, header: map<nat, nat>,
    threads: seq<Pc>, held: multiset<nat>)

  datatype Event =
    | CallAcquire(t: nat, pool: nat)
    | CallReturn(t: nat, node: nat)                   // with the block of a held node
    | Advance(t: nat)
    | FailCas(t: nat)                                 // a weak compare-and-swap fails spuriously
    | Malloc(t: nat, node: nat, data: nat)            // both allocations succeed
    | MallocFails(t: nat)

  const WORD: nat := 0x1_0000_0000

  function Init(memSizes: seq<nat>, threads: nat): State {
    State(seq(|memSizes|, i requires 0 <= i < |memSizes| => MemPool(0, memSizes[i], 0, 0)),
          map[], map[], seq(threads, _ => Idle), multiset{})
  }

  function Goto(s: State, t: nat, pc: Pc): State
    requires t < |s.threads|
  {
    s.(threads := s.threads[t := pc])
  }

  function SetHead(s: State, j: nat, head: nat): State
    requires j < |s.pools|
  {
    s.(pools := s.pools[j := s.pools[j].(head := head)])
  }

  function CountAvailable(s: State, j: nat, delta: int): State
    requires j < |s.pools|
  {
    s.(pools := s.pools[j := s.pools[j].(numAvailable := (s.pools[j].numAvailable + delta) % WORD)])
  }

  function CountAlloc(s: State, j: nat): State
    requires j < |s.pools|
  {
    s.(pools := s.pools[j := s.pools[j].(numAllocs := (s.pools[j].numAllocs + 1) % WORD)])
  }

  /** A link of pool `j` is NULL or a node whose home is pool `j`. */
  predicate LinkOk(s: State, j: nat, x: nat) {
    x == 0 || (x in s.nodes && s.nodes[x].pool == j)
  }

  predicate NodeOfPool(s: State, j: nat, x: nat) {
    x != 0 && x in s.nodes && s.nodes[x].pool == j
  }

  /** Nothing a thread refers to is dangling or from another pool. */
  predicate PcOk(s: State, pc: Pc) {
    match pc
    case Idle => true
    case LoadHead(j) => j < |s.pools|
    case LoadNext(j, top) => j < |s.pools| && NodeOfPool(s, j, top)
    case CasPop(j, top, next) => j < |s.pools| && NodeOfPool(s, j, top) && LinkOk(s, j, next)
    case TrackPop(j, n) => j < |s.pools| && NodeOfPool(s, j, n)
    case Allocate(j) => j < |s.pools|
    case TrackAlloc(j, n) => j < |s.pools| && NodeOfPool(s, j, n)
    case LoadTop(n) => n in s.nodes && s.nodes[n].pool < |s.pools|
    case StoreNext(n, top) => n in s.nodes && s.nodes[n].pool < |s.pools| && LinkOk(s, s.nodes[n].pool, top)
    case CasPush(n, top) => n in s.nodes && s.nodes[n].pool < |s.pools| && LinkOk(s, s.nodes[n].pool, top)
    case TrackPush(j) => j < |s.pools|
  }

  /** Every block has its node in its header and the size of its home pool; links stay in the home pool. */
  predicate NodeOk(s: State, n: nat)
    requires n in s.nodes
  {
    var v := s.nodes[n];
    n != 0 && v.pool < |s.pools| && v.capacity == s.pools[v.pool].memSize
    && v.data in s.header && s.header[v.data] == n && LinkOk(s, v.pool, v.next)
  }

  /** Every load and store of the next step goes to memory that exists, and no link leaves its home pool. */
  ghost predicate MemoryOk(s: State) {
    && (forall n | n in s.nodes :: NodeOk(s, n))
    && (forall n | n in s.held :: n in s.nodes)
    && (forall t | 0 <= t < |s.threads| :: PcOk(s, s.threads[t]))
    && (forall j | 0 <= j < |s.pools| :: LinkOk(s, j, s.pools[j].head))
  }

  /** One atomic access of thread `t`. */
  ghost function Move(s: State, t: nat): (s': State)
    requires t < |s.threads| && PcOk(s, s.threads[t])
    ensures |s'.threads| == |s.threads| && |s'.pools| == |s.pools|
  {
    match s.threads[t]
    case Idle => s
    case LoadHead(j) => Goto(s, t, if s.pools[j].head == 0 then Allocate(j) else LoadNext(j, s.pools[j].head))
    case LoadNext(j, top) => Goto(s, t, CasPop(j, top, s.nodes[top].next))
    case CasPop(j, top, next) =>
      if s.pools[j].head == top then SetHead(Goto(s, t, TrackPop(j, top)), j, next) else Goto(s, t, LoadHead(j))
    case TrackPop(j, n) => CountAvailable(Goto(s, t, Idle).(held := s.held + multiset{n}), j, -1)
    case Allocate(j) => s
    case TrackAlloc(j, n) => CountAlloc(Goto(s, t, Idle).(held := s.held + multiset{n}), j)
    case LoadTop(n) => Goto(s, t, StoreNext(n, s.pools[s.nodes[n].pool].head))
    case StoreNext(n, top) => Goto(s, t, CasPush(n, top)).(nodes := s.nodes[n := s.nodes[n].(next := top)])
    case CasPush(n, top) =>
      var j := s.nodes[n].pool;
      if s.pools[j].head == top then SetHead(Goto(s, t, TrackPush(j)), j, n) else Goto(s, t, LoadTop(n))
    case TrackPush(j) => CountAvailable(Goto(s, t, Idle), j, 1)
  }

  ghost predicate Enabled(s: State, e: Event) {
    e.t < |s.threads| &&
    match e
    case CallAcquire(t, j) => s.threads[t] == Idle && j < |s.pools|
    case CallReturn(t, n) => s.threads[t] == Idle && n in s.held
    case Advance(t) => s.threads[t] != Idle && !s.threads[t].Allocate?
    case FailCas(t) => s.threads[t].CasPop? || s.threads[t].CasPush?
    case Malloc(t, n, d) => s.threads[t].Allocate? && n != 0 && n !in s.nodes && d !in s.header
    case MallocFails(t) => s.threads[t].Allocate?
  }

  /** A disabled event leaves the state alone. */
  ghost function Step(s: State, e: Event): (s': State)
    requires MemoryOk(s)
    ensures |s'.threads| == |s.threads| && |s'.pools| == |s.pools|
  {
    if !Enabled(s, e) then s else
    match e
    case CallAcquire(t, j) => Goto(s, t, LoadHead(j))
    case CallReturn(t, n) =>
      assert NodeOk(s, n);
      Goto(s, t, LoadTop(s.header[s.nodes[n].data])).(held := s.held - multiset{n})
    case Advance(t) => assert PcOk(s, s.threads[t]); Move(s, t)
    case FailCas(t) =>
      (match s.threads[t]
       case CasPop(j, _, _) => Goto(s, t, LoadHead(j))
       case CasPush(n, _) => Goto(s, t, LoadTop(n))
       case _ => s)
    case Malloc(t, n, d) =>
      var j := s.threads[t].pool;
      assert PcOk(s, s.threads[t]);
      Goto(s, t, TrackAlloc(j, n)).(nodes := s.nodes[n := Node(0, d, j, s.pools[j].memSize)],
                                    header := s.header[d := n])
    case MallocFails(t) => Goto(s, t, Idle)
  }

  lemma InitMemory(memSizes: seq<nat>, threads: nat)
    ensures MemoryOk(Init(memSizes, threads))
  {
  }

  /** New pools, known to be sound. */
  ghost function Start(memSizes: seq<nat>, threads: nat): (s: State)
    ensures s == Init(memSizes, threads) && |s.pools| == |memSizes| && MemoryOk(s)
  {
    InitMemory(memSizes, threads);
    Init(memSizes, threads)
  }

  lemma ThreadOk(s: State, t: nat)
    requires MemoryOk(s) && t < |s.threads|
    ensures PcOk(s, s.threads[t])
  {
  }

  lemma AdvanceIsMove(s: State, t: nat)
    requires MemoryOk(s) && Enabled(s, Advance(t))
    ensures PcOk(s, s.threads[t]) && Step(s, Advance(t)) == Move(s, t)
  {
    ThreadOk(s, t);
    hide Move;
  }

  /** What a return of a held block starts from. */
  lemma ReturnStep(s: State, t: nat, n: nat)
    requires MemoryOk(s) && Enabled(s, CallReturn(t, n))
    ensures Step(s, CallReturn(t, n)) == Goto(s, t, LoadTop(n)).(held := s.held - multiset{n})
    ensures n in s.nodes && NodeOk(s, n)
  {
    assert NodeOk(s, n);
  }

  /** Where an event other than an access takes its thread. */
  function AfterCall(s: State, e: Event): Pc
    requires e.t < |s.threads|
  {
    match e
    case CallAcquire(_, j) => LoadHead(j)
    case CallReturn(_, n) => LoadTop(n)
    case FailCas(t) =>
      (match s.threads[t]
       case CasPop(j, _, _) => LoadHead(j)
       case CasPush(n, _) => LoadTop(n)
       case pc => pc)
    case Malloc(t, n, _) => if s.threads[t].Allocate? then TrackAlloc(s.threads[t].pool, n) else s.threads[t]
    case MallocFails(_) => Idle
    case Advance(t) => s.threads[t]
  }

  lemma CallStep(s: State, e: Event)
    requires MemoryOk(s) && Enabled(s, e) && !e.Advance?
    ensures var s' := Step(s, e);
      && s'.threads == s.threads[e.t := AfterCall(s, e)] && s'.pools == s.pools
      && (!e.Malloc? ==> s'.nodes == s.nodes) && (!e.CallReturn? ==> s'.held == s.held)
  {
    ThreadOk(s, e.t);
    if e.CallReturn? { ReturnStep(s, e.t, e.node); }
    hide MemoryOk, PcOk;
  }

  /** Links stay good while nodes are only added or relinked. */
  predicate Extends(s: State, s': State) {
    && |s'.pools| == |s.pools| && (forall j | 0 <= j < |s.pools| :: s'.pools[j].memSize == s.pools[j].memSize)
    && (forall n | n in s.nodes :: n in s'.nodes && s'.nodes[n].(next := 0) == s.nodes[n].(next := 0))
    && (forall d | d in s.header :: d in s'.header && s'.header[d] == s.header[d])
  }

  lemma MemoryGoto(s: State, t: nat, pc: Pc)
    requires MemoryOk(s) && t < |s.threads| && PcOk(s, pc)
    ensures MemoryOk(Goto(s, t, pc))
  {
    var s' := Goto(s, t, pc);
    forall n | n in s'.nodes ensures NodeOk(s', n) { assert NodeOk(s, n); }
    forall i | 0 <= i < |s'.threads| ensures PcOk(s', s'.threads[i]) {
      assert PcOk(s, if i == t then pc else s.threads[i]);
    }
  }

  lemma MemoryPool(s: State, j: nat, pool: MemPool)
    requires MemoryOk(s) && j < |s.pools| && pool.memSize == s.pools[j].memSize && LinkOk(s, j, pool.head)
    ensures MemoryOk(s.(pools := s.pools[j := pool]))
  {
    var s' := s.(pools := s.pools[j := pool]);
    forall n | n in s'.nodes ensures NodeOk(s', n) { assert NodeOk(s, n); }
    forall i | 0 <= i < |s'.threads| ensures PcOk(s', s'.threads[i]) { assert PcOk(s, s.threads[i]); }
  }

  lemma MemoryHeld(s: State, held: multiset<nat>)
    requires MemoryOk(s) && forall n | n in held :: n in s.nodes
    ensures MemoryOk(s.(held := held))
  {
    var s' := s.(held := held);
    forall n | n in s'.nodes ensures NodeOk(s', n) { assert NodeOk(s, n); }
    forall i | 0 <= i < |s'.threads| ensures PcOk(s', s'.threads[i]) { assert PcOk(s, s.threads[i]); }
  }

  lemma MemoryNodes(s: State, nodes: map<nat, Node>, header: map<nat, nat>)
    requires var s' := s.(nodes := nodes, header := header);
      && MemoryOk(s) && Extends(s, s')
      && forall n | n in nodes && !(n in s.nodes && nodes[n] == s.nodes[n]) :: NodeOk(s', n)
    ensures MemoryOk(s.(nodes := nodes, header := header))
  {
    var s' := s.(nodes := nodes, header := header);
    forall n | n in s'.nodes ensures NodeOk(s', n) {
      if n in s.nodes { assert NodeOk(s, n); }
    }
    forall i | 0 <= i < |s'.threads| ensures PcOk(s', s'.threads[i]) { assert PcOk(s, s.threads[i]); }
  }

  lemma MemoryCasPop(s: State, t: nat)
    requires MemoryOk(s) && t < |s.threads| && s.threads[t].CasPop?
    ensures MemoryOk(Move(s, t))
  {
    var pc := s.threads[t];
    assert PcOk(s, pc);
    if s.pools[pc.pool].head == pc.top {
      MemoryGoto(s, t, TrackPop(pc.pool, pc.top));
      MemoryPool(Goto(s, t, TrackPop(pc.pool, pc.top)), pc.pool, s.pools[pc.pool].(head := pc.next));
    } else {
      MemoryGoto(s, t, LoadHead(pc.pool));
    }
  }

  lemma MemoryStoreNext(s: State, t: nat)
    requires MemoryOk(s) && t < |s.threads| && s.threads[t].StoreNext?
    ensures MemoryOk(Move(s, t))
  {
    var n, top := s.threads[t].node, s.threads[t].top;
    assert PcOk(s, s.threads[t]) && NodeOk(s, n);
    MemoryGoto(s, t, CasPush(n, top));
    MemoryNodes(Goto(s, t, CasPush(n, top)), s.nodes[n := s.nodes[n].(next := top)], s.header);
  }

  lemma MemoryCasPush(s: State, t: nat)
    requires MemoryOk(s) && t < |s.threads| && s.threads[t].CasPush?
    ensures MemoryOk(Move(s, t))
  {
    var n := s.threads[t].node;
    assert PcOk(s, s.threads[t]) && NodeOk(s, n);
    var j := s.nodes[n].pool;
    if s.pools[j].head == s.threads[t].top {
      MemoryGoto(s, t, TrackPush(j));
      MemoryPool(Goto(s, t, TrackPush(j)), j, s.pools[j].(head := n));
    } else {
      MemoryGoto(s, t, LoadTop(n));
    }
  }

  /** The accesses that only move their thread. */
  lemma MemoryLoad(s: State, t: nat)
    requires MemoryOk(s) && t < |s.threads|
    requires s.threads[t].LoadHead? || s.threads[t].LoadNext? || s.threads[t].LoadTop?
    ensures MemoryOk(Move(s, t))
  {
    var pc := s.threads[t];
    assert PcOk(s, pc);
    if pc.LoadNext? { assert NodeOk(s, pc.top); }
    if pc.LoadTop? {
      assert NodeOk(s, pc.node) && LinkOk(s, s.nodes[pc.node].pool, s.pools[s.nodes[pc.node].pool].head);
    }
    MemoryGoto(s, t, Move(s, t).threads[t]);
  }

  lemma MemoryTrackPush(s: State, t: nat)
    requires MemoryOk(s) && t < |s.threads| && s.threads[t].TrackPush?
    ensures MemoryOk(Move(s, t))
  {
    var j := s.threads[t].pool;
    assert PcOk(s, s.threads[t]);
    MemoryGoto(s, t, Idle);
    MemoryPool(Goto(s, t, Idle), j, Move(s, t).pools[j]);
  }

  lemma MemoryMove(s: State, t: nat)
    requires MemoryOk(s) && t < |s.threads|
    ensures MemoryOk(Move(s, t))
  {
    assert PcOk(s, s.threads[t]);
    match s.threads[t]
    case Idle =>
    case Allocate(_) =>
    case CasPop(_, _, _) => MemoryCasPop(s, t);
    case TrackPop(j, n) => MemoryHandOut(s, t, j, n, Move(s, t).pools[j]);
    case TrackAlloc(j, n) => MemoryHandOut(s, t, j, n, Move(s, t).pools[j]);
    case StoreNext(_, _) => MemoryStoreNext(s, t);
    case CasPush(_, _) => MemoryCasPush(s, t);
    case TrackPush(_) => MemoryTrackPush(s, t);
    case _ => MemoryLoad(s, t);
  }

  lemma MemoryHandOut(s: State, t: nat, j: nat, n: nat, pool: MemPool)
    requires MemoryOk(s) && t < |s.threads| && j < |s.pools| && n in s.nodes
    requires pool.memSize == s.pools[j].memSize && pool.head == s.pools[j].head
    ensures MemoryOk(Goto(s, t, Idle).(held := s.held + multiset{n}, pools := s.pools[j := pool]))
  {
    MemoryGoto(s, t, Idle);
    MemoryHeld(Goto(s, t, Idle), s.held + multiset{n});
    assert LinkOk(s, j, pool.head);
    MemoryPool(Goto(s, t, Idle).(held := s.held + multiset{n}), j, pool);
  }

  lemma MemoryMalloc(s: State, t: nat, n: nat, d: nat)
    requires MemoryOk(s) && Enabled(s, Malloc(t, n, d))
    ensures MemoryOk(Step(s, Malloc(t, n, d)))
  {
    assert PcOk(s, s.threads[t]);
    var j := s.threads[t].pool;
    var nodes, header := s.nodes[n := Node(0, d, j, s.pools[j].memSize)], s.header[d := n];
    MemoryNodes(s, nodes, header);
    MemoryGoto(s.(nodes := nodes, header := header), t, TrackAlloc(j, n));
  }

  lemma MemoryReturn(s: State, t: nat, n: nat)
    requires MemoryOk(s) && Enabled(s, CallReturn(t, n))
    ensures MemoryOk(Step(s, CallReturn(t, n)))
  {
    ReturnStep(s, t, n);
    MemoryGoto(s, t, LoadTop(n));
    MemoryHeld(Goto(s, t, LoadTop(n)), s.held - multiset{n});
  }

  /**
   Memory safety and routing, every schedule, any number of threads, with or without interference: what
   the next step touches exists, each block has its home pool's size and leads back to its node, and no
   list ever leaves its home pool.
   */
  lemma MemoryStep(s: State, e: Event)
    requires MemoryOk(s)
    ensures MemoryOk(Step(s, e))
  {
    if Enabled(s, e) {
      ThreadOk(s, e.t);
      match e
      case CallAcquire(t, j) => MemoryGoto(s, t, LoadHead(j));
      case CallReturn(t, n) => MemoryReturn(s, t, n);
      case Advance(t) => MemoryMove(s, t); AdvanceIsMove(s, t);
      case FailCas(t) => MemoryGoto(s, t, Step(s, e).threads[t]);
      case Malloc(t, n, d) => MemoryMalloc(s, t, n, d);
      case MallocFails(t) => MemoryGoto(s, t, Idle);
    }
  }

  ghost function Run(s: State, es: seq<Event>): (s': State)
    requires MemoryOk(s)
    ensures MemoryOk(s')
    decreases |es|
  {
    if es == [] then s else MemoryStep(s, es[0]); Run(Step(s, es[0]), es[1..])
  }

  lemma RunNothing(s: State)
    requires MemoryOk(s)
    ensures Run(s, []) == s
  {
  }

  lemma RunCons(s: State, e: Event, rest: seq<Event>)
    requires MemoryOk(s)
    ensures MemoryOk(Step(s, e)) && Run(s, [e] + rest) == Run(Step(s, e), rest)
  {
    MemoryStep(s, e);
    assert ([e] + rest)[1..] == rest;
  }

  lemma {:induction false} RunAppend(s: State, a: seq<Event>, b: seq<Event>)
    requires MemoryOk(s)
    ensures Run(s, a + b) == Run(Run(s, a), b)
    decreases |a|
  {
    if a == [] {
      assert a + b == b;
    } else {
      var e, rest := a[0], a[1..];
      assert a == [e] + rest && a + b == [e] + (rest + b);
      RunCons(s, e, rest);
      RunCons(s, e, rest + b);
      RunAppend(Step(s, e), rest, b);
    }
  }
}

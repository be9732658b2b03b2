/** The multipool: one pool for each size class, any number of threads acquiring and returning blocks. */
module Multipools {
  import opened NodePool
  import opened NodeStacks
  import opened NodeAnswers
  import opened SizeClasses

  /** What thread `t` got for its request of `size` bytes: a block, or NULL because malloc failed. */
  datatype Answer = Granted(t: nat, size: nat, node: nat) | Failed(t: nat, size: nat)

  /** `asked[t]` is the size of thread `t`'s latest request; `answers` are all answers ever given, in order. */
  datatype Multi = Multi(heap: State, asked: seq<nat>, answers: seq<Answer>)

  datatype MultiEvent =
    | Acquire(t: nat, size: nat)
    | Inner(e: Event)             // any other event of the pools

  /** The pools the multipool is created with. */
  function PoolSizes(): seq<nat> { seq(ENTRY_COUNT, i requires 0 <= i < ENTRY_COUNT => ClassSize(i)) }

  /** Asking for more than the largest class gives NULL at once. */
  predicate Refused(size: nat)
    requires size < MAX
  {
    FindIndex(size) >= ENTRY_COUNT
  }

  predicate HandsOut(s: State, e: Event) {
    e.Advance? && e.t < |s.threads| && (s.threads[e.t].TrackPop? || s.threads[e.t].TrackAlloc?)
  }

  predicate GivesUp(s: State, e: Event) {
    e.MallocFails? && e.t < |s.threads| && s.threads[e.t].Allocate?
  }

  /** The answer an event gives, if any. */
  function AnswerOf(m: Multi, e: Event): seq<Answer>
    requires |m.asked| == |m.heap.threads|
  {
    if HandsOut(m.heap, e) then [Granted(e.t, m.asked[e.t], m.heap.threads[e.t].node)]
    else if GivesUp(m.heap, e) then [Failed(e.t, m.asked[e.t])]
    else []
  }

  ghost function MultiStep(m: Multi, e: MultiEvent): Multi
    requires MemoryOk(m.heap) && |m.asked| == |m.heap.threads|
  {
    match e
    case Acquire(t, size) =>
      if t < |m.asked| && m.heap.threads[t] == Idle && size < MAX && !Refused(size)
      then m.(heap := Step(m.heap, CallAcquire(t, FindIndex(size))), asked := m.asked[t := size])
      else m
    case Inner(e) =>
      if e.CallAcquire? then m
      else m.(heap := Step(m.heap, e), answers := m.answers + AnswerOf(m, e))
  }

  /** The pool an acquiring thread works on, -1 for a thread that is not acquiring. */
  function Acquiring(pc: Pc): int {
    match pc
    case LoadHead(j) => j
    case LoadNext(j, _) => j
    case CasPop(j, _, _) => j
    case TrackPop(j, _) => j
    case Allocate(j) => j
    case TrackAlloc(j, _) => j
    case _ => -1
  }

  /** A thread that acquires works on the pool for the size it asked for. */
  predicate Routed(pc: Pc, size: nat) {
    Acquiring(pc) >= 0 ==> 1 <= size < MAX && FindIndex(size) == Acquiring(pc) < ENTRY_COUNT
  }

  /** A block handed out lives in the pool of its size class. */
  predicate Honoured(s: State, g: Answer) {
    g.Granted? ==>
      && g.node in s.nodes && 1 <= g.size < MAX
      && s.nodes[g.node].pool == FindIndex(g.size) < ENTRY_COUNT
  }

  ghost predicate MultiOk(m: Multi) {
    && MemoryOk(m.heap)
    && |m.asked| == |m.heap.threads|
    && |m.heap.pools| == ENTRY_COUNT && (forall j | 0 <= j < ENTRY_COUNT :: m.heap.pools[j].memSize == ClassSize(j))
    && (forall t | 0 <= t < |m.asked| :: Routed(m.heap.threads[t], m.asked[t]))
    && (forall k | 0 <= k < |m.answers| :: Honoured(m.heap, m.answers[k]))
  }

  // ---- the heap keeps its nodes where they are

  /** Nodes keep their home and pools their size. */
  predicate HomesKept(s: State, s': State) {
    && |s'.pools| == |s.pools| && (forall j | 0 <= j < |s.pools| :: s'.pools[j].memSize == s.pools[j].memSize)
    && (forall n | n in s.nodes :: n in s'.nodes && s'.nodes[n].pool == s.nodes[n].pool)
  }

  lemma MoveKeepsHomes(s: State, t: nat)
    requires t < |s.threads| && PcOk(s, s.threads[t])
    ensures HomesKept(s, Move(s, t))
  {
    var pc := s.threads[t];
    if pc.StoreNext? {
      assert Move(s, t).nodes == s.nodes[pc.node := s.nodes[pc.node].(next := pc.top)];
    } else {
      assert Move(s, t).nodes == s.nodes;
    }
  }

  lemma MallocKeepsHomes(s: State, e: Event)
    requires MemoryOk(s) && Enabled(s, e) && e.Malloc?
    ensures HomesKept(s, Step(s, e))
  {
    ThreadOk(s, e.t);
    hide MemoryOk;
  }

  lemma StepKeepsHomes(s: State, e: Event)
    requires MemoryOk(s)
    ensures HomesKept(s, Step(s, e))
  {
    if Enabled(s, e) {
      hide Step, Move, MemoryOk;
      if e.Advance? {
        AdvanceIsMove(s, e.t);
        MoveKeepsHomes(s, e.t);
      } else if e.Malloc? {
        MallocKeepsHomes(s, e);
      } else {
        CallStep(s, e);
      }
    }
  }

  lemma MoveStaysOnPool(s: State, t: nat)
    requires t < |s.threads| && PcOk(s, s.threads[t])
    ensures var s' := Move(s, t);
      && (forall u | 0 <= u < |s.threads| && u != t :: s'.threads[u] == s.threads[u])
      && (Acquiring(s'.threads[t]) >= 0 ==> Acquiring(s'.threads[t]) == Acquiring(s.threads[t]))
  {
  }

  lemma CallStaysOnPool(s: State, e: Event)
    requires Enabled(s, e) && !e.Advance? && !e.CallAcquire?
    ensures var b := Acquiring(AfterCall(s, e)); b >= 0 ==> b == Acquiring(s.threads[e.t])
  {
  }

  /** No thread changes pools while it acquires. */
  lemma StepStaysOnPool(s: State, e: Event, t: nat)
    requires MemoryOk(s) && t < |s.threads| && !e.CallAcquire?
    ensures var b := Acquiring(Step(s, e).threads[t]); b >= 0 ==> b == Acquiring(s.threads[t])
  {
    if Enabled(s, e) {
      hide Step, Move, MemoryOk, Acquiring, AfterCall, Enabled;
      if e.Advance? {
        AdvanceIsMove(s, e.t);
        MoveStaysOnPool(s, e.t);
      } else {
        CallStep(s, e);
        CallStaysOnPool(s, e);
      }
    }
  }

  // ---- every run

  ghost function MultiInit(threads: nat): (m: Multi)
    ensures MultiOk(m)
  {
    InitMemory(PoolSizes(), threads);
    Multi(Init(PoolSizes(), threads), seq(threads, _ => 0), [])
  }

  lemma GrantIsHonoured(m: Multi, t: nat)
    requires MultiOk(m) && HandsOut(m.heap, Advance(t))
    ensures Honoured(m.heap, Granted(t, m.asked[t], m.heap.threads[t].node))
  {
    assert PcOk(m.heap, m.heap.threads[t]) && Routed(m.heap.threads[t], m.asked[t]);
  }

  lemma HonouredLater(s: State, s': State, answers: seq<Answer>)
    requires HomesKept(s, s') && forall k | 0 <= k < |answers| :: Honoured(s, answers[k])
    ensures forall k | 0 <= k < |answers| :: Honoured(s', answers[k])
  {
    forall k | 0 <= k < |answers| ensures Honoured(s', answers[k]) {
      assert Honoured(s, answers[k]);
    }
  }

  lemma InnerKeeps(m: Multi, e: Event)
    requires MultiOk(m) && !e.CallAcquire?
    ensures MultiOk(MultiStep(m, Inner(e)))
  {
    var m' := MultiStep(m, Inner(e));
    MemoryStep(m.heap, e);
    StepKeepsHomes(m.heap, e);
    forall t | 0 <= t < |m'.asked| ensures Routed(m'.heap.threads[t], m'.asked[t]) {
      StepStaysOnPool(m.heap, e, t);
      assert Routed(m.heap.threads[t], m.asked[t]);
    }
    if HandsOut(m.heap, e) { GrantIsHonoured(m, e.t); }
    assert forall k | 0 <= k < |m'.answers| :: Honoured(m.heap, m'.answers[k]);
    HonouredLater(m.heap, m'.heap, m'.answers);
  }

  lemma AcquireKeeps(m: Multi, t: nat, size: nat)
    requires MultiOk(m) && t < |m.asked| && m.heap.threads[t] == Idle && size < MAX && !Refused(size)
    ensures MultiOk(MultiStep(m, Acquire(t, size)))
  {
    var m' := MultiStep(m, Acquire(t, size));
    MemoryStep(m.heap, CallAcquire(t, FindIndex(size)));
    InTableExactly(size);
    forall u | 0 <= u < |m'.asked| ensures Routed(m'.heap.threads[u], m'.asked[u]) {
      assert Routed(m.heap.threads[u], m.asked[u]);
    }
    HonouredLater(m.heap, m'.heap, m.answers);
  }

  lemma MultiStepKeeps(m: Multi, e: MultiEvent)
    requires MultiOk(m)
    ensures MultiOk(MultiStep(m, e))
  {
    match e
    case Acquire(t, size) =>
      if t < |m.asked| && m.heap.threads[t] == Idle && size < MAX && !Refused(size) { AcquireKeeps(m, t, size); }
    case Inner(e) => if !e.CallAcquire? { InnerKeeps(m, e); }
  }

  ghost function MultiRun(m: Multi, es: seq<MultiEvent>): Multi
    requires MultiOk(m)
    decreases |es|
  {
    if es == [] then m else MultiStepKeeps(m, es[0]); MultiRun(MultiStep(m, es[0]), es[1..])
  }

  lemma {:induction false} MultiRunKeeps(m: Multi, es: seq<MultiEvent>)
    requires MultiOk(m)
    ensures MultiOk(MultiRun(m, es))
    decreases |es|
  {
    if es != [] {
      MultiStepKeeps(m, es[0]);
      MultiRunKeeps(MultiStep(m, es[0]), es[1..]);
    }
  }

  /**
   Every block ever handed out, in every schedule: it holds the bytes asked for, is the smallest class that
   does, and is 512 bytes or less than twice the request. Its header leads back to its node, and its node to
   the pool a return pushes it on.
   */
  lemma EveryGrantFits(threads: nat, es: seq<MultiEvent>, k: nat)
    requires k < |MultiRun(MultiInit(threads), es).answers| && MultiRun(MultiInit(threads), es).answers[k].Granted?
    ensures var m := MultiRun(MultiInit(threads), es); var g := m.answers[k];
      && g.node in m.heap.nodes && 1 <= g.size <= 0x40_0000
      && var v := m.heap.nodes[g.node];
      && v.capacity >= g.size && (v.capacity == 512 || v.capacity < 2 * g.size)
      && v.data in m.heap.header && m.heap.header[v.data] == g.node
      && v.pool < ENTRY_COUNT == |m.heap.pools| && Smallest(g.size, v.pool)
      && v.capacity == m.heap.pools[v.pool].memSize == ClassSize(v.pool)
  {
    MultiRunKeeps(MultiInit(threads), es);
    var m := MultiRun(MultiInit(threads), es);
    var g := m.answers[k];
    assert Honoured(m.heap, g) && NodeOk(m.heap, g.node);
    ClassFits(g.size);
    FindsSmallest(g.size);
    InTableExactly(g.size);
  }

  /** A request gets no block at all exactly when it is empty or larger than 4 MB. */
  lemma RefusedExactly(m: Multi, t: nat, size: nat)
    requires MultiOk(m) && t < |m.asked| && m.heap.threads[t] == Idle && size < MAX
    ensures MultiStep(m, Acquire(t, size)) == m <==> !(1 <= size <= 0x40_0000)
  {
    InTableExactly(size);
  }

  // ---- every request is answered

  /** The sizes of thread `t`'s answered requests, in order. */
  function SizesOf(answers: seq<Answer>, t: nat): seq<nat> {
    if answers == [] then []
    else (if answers[0].t == t then [answers[0].size] else []) + SizesOf(answers[1..], t)
  }

  lemma {:induction false} SizesJoin(a: seq<Answer>, b: seq<Answer>, t: nat)
    ensures SizesOf(a + b, t) == SizesOf(a, t) + SizesOf(b, t)
  {
    if a == [] {
      assert a + b == b;
    } else {
      SizesJoin(a[1..], b, t);
      assert (a + b)[1..] == a[1..] + b && (a + b)[0] == a[0];
      Regroup(if a[0].t == t then [a[0].size] else [], SizesOf(a[1..], t), SizesOf(b, t));
    }
  }

  /** The request thread `t` is working on. */
  function Pending(m: Multi, t: nat): seq<nat>
    requires t < |m.asked| == |m.heap.threads|
  {
    if InAcquire(m.heap.threads[t]) then [m.asked[t]] else []
  }

  /** The request thread `t` makes with this event, if it makes one that has a class. */
  function Request(m: Multi, e: MultiEvent, t: nat): seq<nat>
    requires t < |m.asked| == |m.heap.threads|
  {
    if e.Acquire? && e.t == t && m.heap.threads[t] == Idle && 1 <= e.size <= 0x40_0000 then [e.size] else []
  }

  ghost function Requests(m: Multi, es: seq<MultiEvent>, t: nat): seq<nat>
    requires MultiOk(m) && t < |m.asked|
    decreases |es|
  {
    if es == [] then []
    else
      MultiStepKeeps(m, es[0]);
      Request(m, es[0], t) + Requests(MultiStep(m, es[0]), es[1..], t)
  }

  /** An answer of thread `t` and its request agree with the thread's way through acquire. */
  lemma InnerAnswers(m: Multi, e: Event, t: nat)
    requires MultiOk(m) && !e.CallAcquire? && t < |m.asked|
    ensures var m' := MultiStep(m, Inner(e));
      && |m'.heap.threads| == |m.heap.threads|
      && SizesOf(AnswerOf(m, e), t) + Pending(m', t) == Pending(m, t)
      && (HandsOut(m.heap, e) ==> m'.heap.held == m.heap.held + multiset{m.heap.threads[e.t].node})
  {
    if e.t < |m.asked| {
      StepIsAnswered(m.heap, e);
      OneThreadMoves(m.heap, e);
      hide Step, MultiOk;
      AnswerShows(m, e, t, Step(m.heap, e));
    } else {
      OutsideStep(m.heap, e);
    }
  }

  lemma OutsideStep(s: State, e: Event)
    requires MemoryOk(s) && e.t >= |s.threads|
    ensures Step(s, e) == s
  {
  }

  lemma AnswerShows(m: Multi, e: Event, t: nat, s': State)
    requires |m.asked| == |m.heap.threads| == |s'.threads| && t < |m.asked| && e.t < |m.asked| && !e.CallAcquire?
    requires Answered(m.heap, s', e) && s'.threads == m.heap.threads[e.t := s'.threads[e.t]]
    ensures SizesOf(AnswerOf(m, e), t) + Pending(m.(heap := s'), t) == Pending(m, t)
    ensures HandsOut(m.heap, e) ==> s'.held == m.heap.held + multiset{m.heap.threads[e.t].node}
  {
    hide Obtains;
  }

  lemma RequestAnswers(m: Multi, u: nat, size: nat, t: nat)
    requires MultiOk(m) && t < |m.asked|
    ensures var m' := MultiStep(m, Acquire(u, size));
      && |m'.heap.threads| == |m.heap.threads| && |m'.asked| == |m.asked| && m'.answers == m.answers
      && Pending(m', t) == Pending(m, t) + Request(m, Acquire(u, size), t)
  {
    if size < MAX { InTableExactly(size); }
    if u < |m.asked| && m.heap.threads[u] == Idle && size < MAX && !Refused(size) {
      StepIsAnswered(m.heap, CallAcquire(u, FindIndex(size)));
      OneThreadMoves(m.heap, CallAcquire(u, FindIndex(size)));
      hide Step;
    }
  }

  /** The sizes thread `t` has asked for, by its answers and its state. */
  function Account(m: Multi, t: nat): seq<nat>
    requires t < |m.asked| == |m.heap.threads|
  {
    SizesOf(m.answers, t) + Pending(m, t)
  }

  lemma EventAnswers(m: Multi, e: MultiEvent, t: nat)
    requires MultiOk(m) && t < |m.asked|
    ensures var m' := MultiStep(m, e);
      && |m'.asked| == |m.asked| == |m'.heap.threads| == |m.heap.threads|
      && Account(m', t) == Account(m, t) + Request(m, e, t)
  {
    match e
    case Acquire(u, size) => RequestAnswers(m, u, size, t);
    case Inner(e) =>
      if !e.CallAcquire? {
        InnerAnswers(m, e, t);
        SizesJoin(m.answers, AnswerOf(m, e), t);
      }
  }

  lemma MultiIsShaped(m: Multi)
    requires MultiOk(m)
    ensures |m.asked| == |m.heap.threads|
  {
  }

  lemma Regroup(a: seq<nat>, b: seq<nat>, c: seq<nat>)
    ensures (a + b) + c == a + (b + c)
  {
  }

  /**
   Every accepted request is answered once, in order and with its own size: what thread `t` has requested is
   what it was answered, by a block or by a failed malloc, and the request it is working on.
   */
  lemma {:induction false} EveryRequestIsAnswered(m: Multi, es: seq<MultiEvent>, t: nat)
    requires MultiOk(m) && t < |m.asked|
    ensures |m.asked| == |m.heap.threads|
    ensures var m' := MultiRun(m, es);
      |m'.asked| == |m'.heap.threads| == |m.asked| && Account(m', t) == Account(m, t) + Requests(m, es, t)
    decreases |es|
  {
    MultiIsShaped(m);
    hide MultiStep, MultiOk, Account, Request;
    if es != [] {
      EventAnswers(m, es[0], t);
      MultiStepKeeps(m, es[0]);
      EveryRequestIsAnswered(MultiStep(m, es[0]), es[1..], t);
      Regroup(Account(m, t), Request(m, es[0], t), Requests(MultiStep(m, es[0]), es[1..], t));
    }
  }
}

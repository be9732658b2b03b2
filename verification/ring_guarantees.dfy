/** What lap-free runs of the ring guarantee. */
module RingGuarantees {
  import opened Bags
  import opened Options
  import opened Remainder
  import opened RingProtocol
  import opened RingSafety

  lemma InitRing(capacity: nat, threads: nat)
    requires capacity >= 1
    ensures var s := Init(capacity, threads); RingOk(s, Books(s)) && LapFree(s) && EachIndexOnce(s)
  {
    var s := Init(capacity, threads);
    var l := Ledger(multiset{}, multiset{}, multiset{});
    TicketsInit(capacity, threads);
    forall p: int ensures SlotAgrees(s, l, p) && NoLapAt(l, Size(s), p) && OrderedAt(s, l, p) {
      if p < 0 && p + capacity >= 0 { ModShift(p, Size(s)); }
    }
    InitialSlots(s.slots, capacity, 0);
    BagEmpty(Carried, s.threads);
  }

  lemma {:induction false} InitialSlots(slots: seq<nat>, capacity: nat, from: nat)
    requires forall j | 0 <= j < |slots| :: slots[j] == if from + j < capacity then from + j + 1 else 0
    ensures forall i: nat :: Bag(Stored, slots)[i] == if from <= i < from + |slots| && i < capacity then 1 else 0
  {
    if slots != [] {
      InitialSlots(slots[1..], capacity, from + 1);
    }
  }

  /**
   Exclusive ownership, any number of threads: along every lap-free run each of the indices
   0..capacity-1 is in exactly one place - one ring slot, one returning thread or one caller.
   */
  lemma {:induction false} LapFreeRunKeepsIndices(s: State, es: seq<Event>)
    requires RingOk(s, Books(s)) && EachIndexOnce(s)
    requires LapFreeRun(s, es)
    ensures RingOk(Run(s, es), Books(Run(s, es))) && EachIndexOnce(Run(s, es))
    decreases |es|
  {
    if es != [] {
      assert LapFree(Step(s, es[0]));
      RingStep(s, es[0]);
      PlacesKept(s, es[0]);
      LapFreeRunKeepsIndices(Step(s, es[0]), es[1..]);
    }
  }

  /** No index has two callers, and no caller holds an index the ring still has. */
  predicate ExclusivelyHeld(s: State) {
    forall i | i in s.held :: i < s.capacity && s.held[i] == 1 && i + 1 !in s.slots
  }

  lemma SlotCounts(slots: seq<nat>, i: nat)
    requires i + 1 in slots
    ensures i in Bag(Stored, slots)
  {
    var k :| 0 <= k < |slots| && slots[k] == i + 1;
    BagUpdate(Stored, slots, k, 0);
    assert i in Stored(slots[k]);
  }

  lemma OnceIsExclusive(s: State)
    requires EachIndexOnce(s)
    ensures ExclusivelyHeld(s)
  {
    forall i | i in s.held ensures i < s.capacity && s.held[i] == 1 && i + 1 !in s.slots {
      assert Places(s, i) == if i < s.capacity then 1 else 0;
      if i + 1 in s.slots { SlotCounts(s.slots, i); }
    }
  }

  // ---- the ring is a FIFO queue

  /**
   The queue as its users see it: free values in order, what each thread was promised by the queue,
   what each thread is bringing back, and what the callers hold. Values are index+1.
   */
  datatype Fifo = Fifo(queue: seq<nat>, promised: seq<Option<nat>>, bringing: seq<Option<nat>>, held: multiset<nat>)

  ghost function Promised(s: State, pc: Pc): Option<nat> {
    if 0 <= ReadAt(pc) < |s.deposited| then Some(s.deposited[ReadAt(pc)]) else None
  }

  function Bringing(pc: Pc): Option<nat> {
    if Unticketed(pc) >= 0 then Some(Unticketed(pc) + 1) else None
  }

  ghost function AsFifo(s: State): Fifo {
    Fifo(if s.readPos <= |s.deposited| then s.deposited[s.readPos..] else [],
         seq(|s.threads|, i requires 0 <= i < |s.threads| => Promised(s, s.threads[i])),
         seq(|s.threads|, i requires 0 <= i < |s.threads| => Bringing(s.threads[i])),
         s.held)
  }

  /** The atomic queue: one thread takes the head, hands it to its caller, starts a return, or appends. */
  ghost predicate FifoStep(a: Fifo, b: Fifo, t: nat)
    requires t < |a.promised| && t < |a.bringing|
  {
    || b == a
    || (a.queue != [] && b == a.(queue := a.queue[1..], promised := a.promised[t := Some(a.queue[0])]))
    || (a.promised[t].Some? && a.promised[t].value > 0
        && b == a.(promised := a.promised[t := None], held := a.held + multiset{a.promised[t].value - 1}))
    || (exists i: nat | i in a.held ::
          b == a.(held := a.held - multiset{i}, bringing := a.bringing[t := Some(i + 1)]))
    || (a.bringing[t].Some?
        && b == a.(queue := a.queue + [a.bringing[t].value], bringing := a.bringing[t := None]))
  }

  /** Promises to the other threads are untouched by a step of thread `t`. */
  lemma FifoMoved(s: State, s': State, t: nat)
    requires |s.deposited| == s.writePos >= s.readPos && |s'.deposited| == s'.writePos >= s'.readPos
    requires t < |s.threads| && |s'.threads| == |s.threads| && s'.threads == s.threads[t := s'.threads[t]]
    requires s.deposited <= s'.deposited
    requires forall i | 0 <= i < |s.threads| :: Remembers(s, s.threads[i])
    ensures AsFifo(s') == AsFifo(s).(queue := s'.deposited[s'.readPos..], held := s'.held,
                                     promised := AsFifo(s).promised[t := Promised(s', s'.threads[t])],
                                     bringing := AsFifo(s).bringing[t := Bringing(s'.threads[t])])
  {
    forall i | 0 <= i < |s.threads| && i != t ensures Promised(s', s.threads[i]) == Promised(s, s.threads[i]) {
      assert Remembers(s, s.threads[i]);
    }
  }

  lemma QuietFifo(s: State, e: Event)
    requires Tickets(s) && e.t < |s.threads| && Quiet(s, e)
    ensures AsFifo(Step(s, e)) == AsFifo(s)
  {
    hide Step, Books;
    assert Remembers(s, s.threads[e.t]);
    QuietStep(s, e);
    OneThreadMoves(s, e);
    FifoMoved(s, Step(s, e), e.t);
  }

  lemma CallFifo(s: State, t: nat, index: nat)
    requires Tickets(s) && t < |s.threads| && s.threads[t] == Idle && index in s.held
    ensures FifoStep(AsFifo(s), AsFifo(Step(s, CallReturn(t, index))), t)
  {
    hide Books;
    var a, s' := AsFifo(s), Step(s, CallReturn(t, index));
    FifoMoved(s, s', t);
    assert AsFifo(s') == a.(held := a.held - multiset{index}, bringing := a.bringing[t := Some(index + 1)]);
  }

  lemma ClaimReadFifo(s: State, t: nat)
    requires Tickets(s) && t < |s.threads| && s.threads[t] == CasRead(s.readPos)
    ensures FifoStep(AsFifo(s), AsFifo(Move(s, t)), t)
  {
    hide Books;
    var a, s' := AsFifo(s), Move(s, t);
    assert Remembers(s, s.threads[t]);
    FifoMoved(s, s', t);
    assert a.bringing[t] == None;
    assert AsFifo(s') == a.(queue := a.queue[1..], promised := a.promised[t := Some(a.queue[0])]);
  }

  /** What a reader is about to hand out is what the writer of its ticket deposited. */
  lemma ReaderGetsItsDeposit(s: State, t: nat)
    requires RingOk(s, Books(s)) && t < |s.threads| && s.threads[t].ClearSlot?
    ensures var pc := s.threads[t]; pc.pos < s.readPos && s.deposited[pc.pos] == pc.value != 0
  {
    hide Step, Books, Rebooked;
    assert Remembers(s, s.threads[t]);
    BooksStep(s, Advance(t));
    SlotCleared(s, t, Books(s));
  }

  lemma ClearFifo(s: State, t: nat)
    requires Shaped(s) && |s.deposited| == s.writePos >= s.readPos
    requires forall i | 0 <= i < |s.threads| :: Remembers(s, s.threads[i])
    requires t < |s.threads| && s.threads[t].ClearSlot?
    requires var pc := s.threads[t]; pc.pos < s.readPos && s.deposited[pc.pos] == pc.value != 0
    ensures FifoStep(AsFifo(s), AsFifo(Move(s, t)), t)
  {
    var a, s' := AsFifo(s), Move(s, t);
    FifoMoved(s, s', t);
    assert a.bringing[t] == None;
    assert AsFifo(s') == a.(promised := a.promised[t := None], held := a.held + multiset{a.promised[t].value - 1});
  }

  lemma ClaimWriteFifo(s: State, t: nat)
    requires Tickets(s) && t < |s.threads| && s.threads[t].CasWrite? && s.threads[t].pos == s.writePos
    ensures FifoStep(AsFifo(s), AsFifo(Move(s, t)), t)
  {
    hide Books;
    var a, s' := AsFifo(s), Move(s, t);
    FifoMoved(s, s', t);
    assert a.promised[t] == None;
    assert AsFifo(s') == a.(queue := a.queue + [a.bringing[t].value], bringing := a.bringing[t := None]);
  }

  lemma FillFifo(s: State, t: nat)
    requires Tickets(s) && t < |s.threads| && s.threads[t].FillSlot?
    ensures AsFifo(Move(s, t)) == AsFifo(s)
  {
    hide Books;
    FifoMoved(s, Move(s, t), t);
  }

  /** Every step of a lap-free run is one atomic queue operation or nothing at all. */
  lemma LapFreeRefinesFifo(s: State, e: Event)
    requires RingOk(s, Books(s)) && e.t < |s.threads|
    ensures Tickets(Step(s, e))
    ensures FifoStep(AsFifo(s), AsFifo(Step(s, e)), e.t)
  {
    TicketsStep(s, e);
    if Quiet(s, e) {
      QuietFifo(s, e);
    } else if e.CallReturn? {
      CallFifo(s, e.t, e.index);
    } else {
      match s.threads[e.t]
      case CasRead(_) => ClaimReadFifo(s, e.t);
      case ClearSlot(_, _) => ReaderGetsItsDeposit(s, e.t); ClearFifo(s, e.t);
      case CasWrite(_, _) => ClaimWriteFifo(s, e.t);
      case FillSlot(_, _) => FillFifo(s, e.t);
    }
  }

  /** Each state of `trace` follows from the one before by one step of the atomic queue. */
  ghost predicate FifoRun(trace: seq<Fifo>, es: seq<Event>) {
    && |trace| == |es| + 1
    && forall i | 0 <= i < |es| :: FifoMoves(trace[i], trace[i + 1], es[i].t)
  }

  ghost predicate FifoMoves(a: Fifo, b: Fifo, t: nat) {
    if t < |a.promised| && t < |a.bringing| then FifoStep(a, b, t) else b == a
  }

  /** The queue a new ring stands for: all indices in order, nothing promised, brought or held. */
  function FifoInit(capacity: nat, threads: nat): Fifo {
    Fifo(seq(capacity, i => i + 1), seq(threads, _ => None), seq(threads, _ => None), multiset{})
  }

  lemma InitFifo(capacity: nat, threads: nat)
    requires capacity >= 1
    ensures AsFifo(Init(capacity, threads)) == FifoInit(capacity, threads)
  {
  }

  lemma {:induction false} LapFreeRunFrom(s: State, es: seq<Event>) returns (trace: seq<Fifo>)
    requires RingOk(s, Books(s)) && LapFreeRun(s, es)
    ensures |trace| == |es| + 1 && FifoRun(trace, es) && trace[0] == AsFifo(s) && trace[|es|] == AsFifo(Run(s, es))
    decreases |es|
  {
    if es == [] {
      trace := [AsFifo(s)];
    } else {
      var s' := Step(s, es[0]);
      FifoFollows(s, es[0]);
      assert LapFree(s');
      RingStep(s, es[0]);
      hide Step, AsFifo, FifoMoves, FifoRun, RingOk, Books, LapFree;
      var rest := LapFreeRunFrom(s', es[1..]);
      trace := [AsFifo(s)] + rest;
      FifoCons(AsFifo(s), rest, es);
    }
  }

  lemma FifoCons(a: Fifo, rest: seq<Fifo>, es: seq<Event>)
    requires es != [] && |rest| == |es| && FifoRun(rest, es[1..]) && FifoMoves(a, rest[0], es[0].t)
    ensures FifoRun([a] + rest, es) && ([a] + rest)[|es|] == rest[|es[1..]|]
  {
    hide FifoMoves;
    var trace := [a] + rest;
    forall i | 0 <= i < |es| ensures FifoMoves(trace[i], trace[i + 1], es[i].t) {
      if i > 0 { assert FifoMoves(rest[i - 1], rest[i - 1 + 1], es[1..][i - 1].t); }
    }
  }

  lemma FifoFollows(s: State, e: Event)
    requires RingOk(s, Books(s))
    ensures FifoMoves(AsFifo(s), AsFifo(Step(s, e)), e.t)
  {
    if e.t < |s.threads| { LapFreeRefinesFifo(s, e); }
  }

  /** Every lap-free run of a new ring is a run of the atomic queue, one step or none for each access. */
  lemma LapFreeRunRefinesFifo(capacity: nat, threads: nat, es: seq<Event>) returns (trace: seq<Fifo>)
    requires capacity >= 1 && LapFreeRun(Init(capacity, threads), es)
    ensures FifoRun(trace, es) && trace[0] == FifoInit(capacity, threads)
    ensures trace[|es|] == AsFifo(Run(Init(capacity, threads), es))
  {
    InitRing(capacity, threads);
    InitFifo(capacity, threads);
    trace := LapFreeRunFrom(Init(capacity, threads), es);
  }

  // ---- the busy-waits

  predicate Claimed(pc: Pc) { ReadAt(pc) >= 0 || WriteAt(pc) >= 0 }

  lemma OwnerOfRead(s: State, p: nat) returns (t: nat)
    requires p in Books(s).readers
    ensures t < |s.threads| && ReadAt(s.threads[t]) == p
  {
    t := BagSource(ReadTicket, s.threads, p);
  }

  lemma OwnerOfWrite(s: State, p: nat) returns (t: nat)
    requires p in Books(s).writers
    ensures t < |s.threads| && WriteAt(s.threads[t]) == p
  {
    t := BagSource(WriteTicket, s.threads, p);
  }

  /** Two accesses of a thread whose slot is ready: load or test it, then store. */
  function Twice(t: nat): seq<Event> { [Advance(t), Advance(t)] }

  lemma ReadyRead(s: State, t: nat)
    requires Shaped(s) && t < |s.threads| && s.threads[t].LoadSlot?
    requires s.slots[Mod(s.threads[t].pos, Size(s))] != 0
    ensures var s' := Run(s, Twice(t));
      && s'.threads == s.threads[t := Idle]
      && s'.slots == s.slots[Mod(s.threads[t].pos, Size(s)) := 0]
  {
    var s1 := Step(s, Advance(t));
    assert Twice(t)[1..] == [Advance(t)] && [Advance(t)][1..] == [];
    assert Run(s, Twice(t)) == Run(s1, [Advance(t)]) == Step(s1, Advance(t));
  }

  lemma ReadyWrite(s: State, t: nat)
    requires Shaped(s) && t < |s.threads| && s.threads[t].AwaitSlot?
    requires s.slots[Mod(s.threads[t].pos, Size(s))] == 0
    ensures var s' := Run(s, Twice(t));
      && s'.threads == s.threads[t := Idle]
      && s'.slots == s.slots[Mod(s.threads[t].pos, Size(s)) := s.threads[t].index + 1]
  {
    var s1 := Step(s, Advance(t));
    assert Twice(t)[1..] == [Advance(t)] && [Advance(t)][1..] == [];
    assert Run(s, Twice(t)) == Run(s1, [Advance(t)]) == Step(s1, Advance(t));
  }

  /** The slot a waiting thread is waiting on is the way it needs it. */
  predicate SlotReady(s: State, t: nat)
    requires Shaped(s) && t < |s.threads| && (s.threads[t].LoadSlot? || s.threads[t].AwaitSlot?)
  {
    (s.slots[Mod(s.threads[t].pos, Size(s))] != 0) == s.threads[t].LoadSlot?
  }

  predicate OnlyClaimed(s: State, es: seq<Event>) {
    forall e | e in es :: e.Advance? && e.t < |s.threads| && Claimed(s.threads[e.t])
  }

  /** The one access left to a thread that is about to store. */
  lemma LastStore(s: State, t: nat)
    requires Shaped(s) && t < |s.threads| && (s.threads[t].ClearSlot? || s.threads[t].FillSlot?)
    ensures var s' := Run(s, [Advance(t)]);
      && s'.threads == s.threads[t := Idle]
      && var pc := s.threads[t];
      s'.slots == s.slots[Mod(pc.pos, Size(s)) := if pc.FillSlot? then pc.index + 1 else 0]
  {
    assert [Advance(t)][1..] == [];
    assert Run(s, [Advance(t)]) == Step(s, Advance(t));
  }

  /** A reader waits only for the writer of its own ticket, and that writer is not waiting. */
  lemma WriterFinishes(s: State, t: nat) returns (es: seq<Event>)
    requires RingOk(s, Books(s)) && t < |s.threads| && s.threads[t].LoadSlot? && !SlotReady(s, t)
    ensures |es| <= 2 && OnlyClaimed(s, es)
    ensures Run(s, es).threads[t] == s.threads[t] && SlotReady(Run(s, es), t)
  {
    hide Books, Step, Rebooked;
    var p := s.threads[t].pos;
    BooksStep(s, Advance(t));
    assert Remembers(s, s.threads[t]);
    SlotOfReader(s, Books(s), p);
    var u := OwnerOfWrite(s, p);
    if s.threads[u].FillSlot? {
      es := [Advance(u)];
      LastStore(s, u);
    } else {
      es := Twice(u);
      ReadyWrite(s, u);
    }
  }

  lemma BlockingReader(s: State, t: nat) returns (u: nat)
    requires RingOk(s, Books(s)) && t < |s.threads| && s.threads[t].AwaitSlot? && !SlotReady(s, t)
    ensures u < |s.threads| && ReadAt(s.threads[u]) == s.threads[t].pos - Size(s) >= 0
    ensures Mod(s.threads[t].pos - Size(s), Size(s)) == Mod(s.threads[t].pos, Size(s))
  {
    hide Step, Rebooked;
    var p := s.threads[t].pos;
    BooksStep(s, Advance(t));
    SlotOfWriter(s, Books(s), p);
    ModShift(p - Size(s), Size(s));
    u := OwnerOfRead(s, p - Size(s));
  }

  /** A writer waits only for the reader one lap behind, and that reader is not waiting. */
  lemma ReaderFinishes(s: State, t: nat, u: nat) returns (es: seq<Event>)
    requires Shaped(s) && t < |s.threads| && s.threads[t].AwaitSlot? && !SlotReady(s, t)
    requires u < |s.threads| && ReadAt(s.threads[u]) >= 0
    requires Mod(ReadAt(s.threads[u]), Size(s)) == Mod(s.threads[t].pos, Size(s))
    ensures |es| <= 2 && OnlyClaimed(s, es)
    ensures Run(s, es).threads[t] == s.threads[t] && SlotReady(Run(s, es), t)
  {
    if s.threads[u].ClearSlot? {
      es := [Advance(u)];
      LastStore(s, u);
    } else {
      es := Twice(u);
      ReadyRead(s, u);
    }
  }

  /**
   No spin deadlock: in a lap-free state any thread that owns a ticket is at most four accesses away
   from returning, two by the one thread it may be waiting for and two of its own; every access in the
   schedule is by a thread that owns a ticket.
   */
  lemma ClaimedOperationCompletes(s: State, t: nat) returns (es: seq<Event>)
    requires RingOk(s, Books(s)) && t < |s.threads| && Claimed(s.threads[t])
    ensures |es| <= 4 && OnlyClaimed(s, es)
    ensures Run(s, es).threads[t] == Idle
  {
    hide Books, Step;
    var pc := s.threads[t];
    if pc.ClearSlot? || pc.FillSlot? {
      es := [Advance(t)];
      LastStore(s, t);
    } else {
      var first := [];
      if !SlotReady(s, t) {
        if pc.LoadSlot? {
          first := WriterFinishes(s, t);
        } else {
          var u := BlockingReader(s, t);
          first := ReaderFinishes(s, t, u);
        }
      }
      es := first + Twice(t);
      RunAppend(s, first, Twice(t));
      if pc.LoadSlot? { ReadyRead(Run(s, first), t); } else { ReadyWrite(Run(s, first), t); }
    }
  }
}

/**
 The lock-free index ring as a step machine: one event is one atomic access by one thread.
 Atomics are sequentially consistent, a weak compare-and-swap may fail for no reason, and the two
 positions are unbounded, so a position is a ticket that is claimed at most once.
 */
module RingProtocol {
  import opened Bags
  import opened Remainder

  /** Where a thread stands inside `Next` or `Return`. */
  datatype Pc =
    | Idle
    | LoadRead                            // Next: about to load the read position
    | LoadWrite(pos: nat)                 // Next: loaded `pos`, about to load the write position
    | CheckSlot(pos: nat)                 // Next: positions differ, about to test the slot
    | CasRead(pos: nat)                   // Next: slot was in use, about to claim `pos`
    | LoadSlot(pos: nat)                  // Next: owns ticket `pos`, (re)loading the slot
    | ClearSlot(pos: nat, value: nat)     // Next: loaded a used value, about to store 0
    | LoadTail(index: nat)                // Return: about to load the write position
    | CasWrite(index: nat, pos: nat)      // Return: loaded `pos`, about to claim it
    | AwaitSlot(index: nat, pos: nat)     // Return: owns ticket `pos`, waiting for an unused slot
    | FillSlot(index: nat, pos: nat)      // Return: saw an unused slot, about to store index+1

  /**
   `capacity` indices in a ring of 2*capacity slots. `held` are the indices callers own now.
   `deposited[p]` records the value that write ticket `p` brings; no step reads it.
   */
  datatype State = State(
    capacity: nat, readPos: nat, writePos: nat, slots: seq<nat>,
    threads: seq<Pc>, held: multiset<nat>, deposited: seq<nat>)

  datatype Event =
    | CallNext(t: nat)
    | CallReturn(t: nat, index: nat)      // any thread may return an index some caller holds
    | Advance(t: nat)                     // the thread's next atomic access
    | FailCas(t: nat)                     // its weak compare-and-swap fails spuriously

  function Size(s: State): nat { 2 * s.capacity }

  function Init(capacity: nat, threads: nat): State {
    State(capacity, 0, capacity,
          seq(2 * capacity, i => if 0 <= i < capacity then i + 1 else 0),
          seq(threads, _ => Idle), multiset{}, seq(capacity, i => i + 1))
  }

  predicate Shaped(s: State) {
    s.capacity >= 1 && |s.slots| == Size(s)
  }

  function Goto(s: State, t: nat, pc: Pc): State
    requires t < |s.threads|
  {
    s.(threads := s.threads[t := pc])
  }

  /** One atomic access of thread `t`. */
  function Move(s: State, t: nat): State
    requires t < |s.threads| && Shaped(s)
  {
    var size := Size(s);
    match s.threads[t]
    case Idle => s
    case LoadRead => Goto(s, t, LoadWrite(s.readPos))
    case LoadWrite(pos) => Goto(s, t, if s.writePos == pos then Idle else CheckSlot(pos))
    case CheckSlot(pos) => Goto(s, t, if s.slots[Mod(pos, size)] == 0 then Idle else CasRead(pos))
    case CasRead(pos) =>
      if s.readPos == pos then Goto(s, t, LoadSlot(pos)).(readPos := pos + 1) else Goto(s, t, LoadRead)
    case LoadSlot(pos) =>
      var value := s.slots[Mod(pos, size)];
      if value == 0 then s else Goto(s, t, ClearSlot(pos, value))
    case ClearSlot(pos, value) =>
      Goto(s, t, Idle).(slots := s.slots[Mod(pos, size) := 0],
                        held := s.held + multiset{if value == 0 then 0 else value - 1})
    case LoadTail(index) => Goto(s, t, CasWrite(index, s.writePos))
    case CasWrite(index, pos) =>
      if s.writePos == pos then
        Goto(s, t, AwaitSlot(index, pos)).(writePos := pos + 1, deposited := s.deposited + [index + 1])
      else Goto(s, t, LoadTail(index))
    case AwaitSlot(index, pos) =>
      if s.slots[Mod(pos, size)] != 0 then s else Goto(s, t, FillSlot(index, pos))
    case FillSlot(index, pos) =>
      Goto(s, t, Idle).(slots := s.slots[Mod(pos, size) := index + 1])
  }

  /** A disabled event leaves the state alone. */
  function Step(s: State, e: Event): (s': State)
    requires Shaped(s)
    ensures Shaped(s') && s'.capacity == s.capacity && |s'.threads| == |s.threads|
  {
    if e.t >= |s.threads| then s else
    match e
    case CallNext(t) => if s.threads[t] == Idle then Goto(s, t, LoadRead) else s
    case CallReturn(t, index) =>
      if s.threads[t] == Idle && index in s.held
      then Goto(s, t, LoadTail(index)).(held := s.held - multiset{index}) else s
    case Advance(t) => Move(s, t)
    case FailCas(t) =>
      match s.threads[t]
      case CasRead(_) => Goto(s, t, LoadRead)
      case CasWrite(index, _) => Goto(s, t, LoadTail(index))
      case _ => s
  }

  function Run(s: State, es: seq<Event>): (s': State)
    requires Shaped(s)
    ensures Shaped(s') && s'.capacity == s.capacity && |s'.threads| == |s.threads|
    decreases |es|
  {
    if es == [] then s else Run(Step(s, es[0]), es[1..])
  }

  lemma {:induction false} RunAppend(s: State, a: seq<Event>, b: seq<Event>)
    requires Shaped(s)
    ensures Run(s, a + b) == Run(Run(s, a), b)
    decreases |a|
  {
    hide Step;
    if a == [] {
      assert a + b == b;
    } else {
      RunAppend(Step(s, a[0]), a[1..], b);
      assert (a + b)[1..] == a[1..] + b;
    }
  }

  // ---- who owns which ticket and which index

  /** The read ticket a thread owns, -1 for none. */
  function ReadAt(pc: Pc): (r: int) ensures r >= -1 { if pc.LoadSlot? || pc.ClearSlot? then pc.pos else -1 }

  /** The write ticket a thread owns, -1 for none. */
  function WriteAt(pc: Pc): (r: int) ensures r >= -1 { if pc.AwaitSlot? || pc.FillSlot? then pc.pos else -1 }

  /** The index of a thread in `Return` that has no write ticket yet, -1 for none. */
  function Unticketed(pc: Pc): (r: int) ensures r >= -1 { if pc.LoadTail? || pc.CasWrite? then pc.index else -1 }

  /** The index a returning thread carries; a reader's index is still in its slot. */
  function Carries(pc: Pc): (r: int) ensures r >= -1 {
    if pc.LoadTail? || pc.CasWrite? || pc.AwaitSlot? || pc.FillSlot? then pc.index else -1
  }

  function OneOrNone(v: int): multiset<nat> { if v < 0 then multiset{} else multiset{v} }

  function ReadTicket(pc: Pc): multiset<nat> { OneOrNone(ReadAt(pc)) }
  function WriteTicket(pc: Pc): multiset<nat> { OneOrNone(WriteAt(pc)) }
  function Unclaimed(pc: Pc): multiset<nat> { OneOrNone(Unticketed(pc)) }
  function Carried(pc: Pc): multiset<nat> { OneOrNone(Carries(pc)) }
  function Stored(value: nat): multiset<nat> { OneOrNone(value - 1) }

  /** Who owns what: live read tickets, live write tickets, indices in `Return` without a ticket. */
  datatype Ledger = Ledger(readers: multiset<nat>, writers: multiset<nat>, unclaimed: multiset<nat>)

  ghost function Books(s: State): Ledger {
    Ledger(Bag(ReadTicket, s.threads), Bag(WriteTicket, s.threads), Bag(Unclaimed, s.threads))
  }

  /** How a thread's move from `a` to `b` shows in one column of the ledger. */
  function Rebook(m: multiset<nat>, a: int, b: int): multiset<nat>
    requires a >= -1 && b >= -1
  {
    if a == b then m
    else if a < 0 then m + multiset{b}
    else if b < 0 then m - multiset{a}
    else m - multiset{a} + multiset{b}
  }

  function Rebooked(l: Ledger, a: Pc, b: Pc): Ledger {
    Ledger(Rebook(l.readers, ReadAt(a), ReadAt(b)),
           Rebook(l.writers, WriteAt(a), WriteAt(b)),
           Rebook(l.unclaimed, Unticketed(a), Unticketed(b)))
  }

  /** The ledger lists whatever a thread in state `pc` owns. */
  predicate Lists(l: Ledger, pc: Pc) {
    && (ReadAt(pc) >= 0 ==> ReadAt(pc) in l.readers)
    && (WriteAt(pc) >= 0 ==> WriteAt(pc) in l.writers)
    && (Unticketed(pc) >= 0 ==> Unticketed(pc) in l.unclaimed)
  }

  lemma Rebooking(f: Pc -> multiset<nat>, g: Pc -> int, s: State, t: nat, pc: Pc)
    requires t < |s.threads|
    requires f(s.threads[t]) == OneOrNone(g(s.threads[t])) && f(pc) == OneOrNone(g(pc))
    requires g(s.threads[t]) >= -1 && g(pc) >= -1
    ensures Bag(f, s.threads[t := pc]) == Rebook(Bag(f, s.threads), g(s.threads[t]), g(pc))
    ensures g(s.threads[t]) >= 0 ==> g(s.threads[t]) in Bag(f, s.threads)
  {
    BagReplace(f, s.threads, t, pc);
  }

  lemma BooksMoved(s: State, t: nat, pc: Pc)
    requires t < |s.threads|
    ensures Books(Goto(s, t, pc)) == Rebooked(Books(s), s.threads[t], pc)
    ensures Lists(Books(s), s.threads[t])
  {
    Rebooking(ReadTicket, ReadAt, s, t, pc);
    Rebooking(WriteTicket, WriteAt, s, t, pc);
    Rebooking(Unclaimed, Unticketed, s, t, pc);
  }

  // ---- tickets: every run, any number of threads, no side condition

  /** What a thread remembers about the positions it loaded or claimed. */
  ghost predicate Remembers(s: State, pc: Pc)
    requires |s.deposited| == s.writePos
  {
    match pc
    case LoadWrite(pos) => pos <= s.readPos
    case CheckSlot(pos) => pos <= s.readPos && pos < s.writePos
    case CasRead(pos) => pos <= s.readPos && pos < s.writePos
    case LoadSlot(pos) => pos < s.readPos
    case ClearSlot(pos, value) => pos < s.readPos && value != 0
    case CasWrite(_, pos) => pos <= s.writePos
    case AwaitSlot(index, pos) => pos < s.writePos && s.deposited[pos] == index + 1
    case FillSlot(index, pos) => pos < s.writePos && s.deposited[pos] == index + 1
    case _ => true
  }

  ghost predicate Balanced(s: State, l: Ledger) {
    && Shaped(s)
    && |s.deposited| == s.writePos
    && s.readPos <= s.writePos
    && |l.readers| + |s.held| + |l.unclaimed| + (s.writePos - s.readPos) == s.capacity
    && (forall p :: l.readers[p] <= if p < s.readPos then 1 else 0)
    && (forall p :: l.writers[p] <= if p < s.writePos then 1 else 0)
    && (forall t | 0 <= t < |s.threads| :: Remembers(s, s.threads[t]))
  }

  /**
   Ticket conservation: the distance between the two positions is what is neither claimed by a
   reader, held, nor on its way back; no ticket has two owners.
   */
  ghost predicate Tickets(s: State) {
    Balanced(s, Books(s))
  }

  lemma BooksInit(capacity: nat, threads: nat)
    ensures Books(Init(capacity, threads)) == Ledger(multiset{}, multiset{}, multiset{})
  {
    var s := Init(capacity, threads);
    BagEmpty(ReadTicket, s.threads);
    BagEmpty(WriteTicket, s.threads);
    BagEmpty(Unclaimed, s.threads);
  }

  lemma TicketsInit(capacity: nat, threads: nat)
    requires capacity >= 1
    ensures Tickets(Init(capacity, threads))
    ensures Books(Init(capacity, threads)) == Ledger(multiset{}, multiset{}, multiset{})
  {
    hide Books;
    BooksInit(capacity, threads);
  }

  /** Knowledge about positions survives every later change. */
  lemma RemembersLater(s: State, s': State, t: nat)
    requires |s.deposited| == s.writePos && |s'.deposited| == s'.writePos
    requires s.readPos <= s'.readPos && s.deposited <= s'.deposited
    requires |s'.threads| == |s.threads| && t < |s.threads|
    requires forall i | 0 <= i < |s.threads| && i != t :: s'.threads[i] == s.threads[i]
    requires forall i | 0 <= i < |s.threads| :: Remembers(s, s.threads[i])
    requires Remembers(s', s'.threads[t])
    ensures forall i | 0 <= i < |s'.threads| :: Remembers(s', s'.threads[i])
  {
    forall i | 0 <= i < |s'.threads| && i != t ensures Remembers(s', s'.threads[i]) {
      assert Remembers(s, s.threads[i]);
    }
  }

  /** Every step moves one thread, and the ledger follows that thread alone. */
  lemma OneThreadMoves(s: State, e: Event)
    requires Shaped(s) && e.t < |s.threads|
    ensures Step(s, e).threads == s.threads[e.t := Step(s, e).threads[e.t]]
  {
    assert s.threads[e.t := s.threads[e.t]] == s.threads;
  }

  predicate SameTickets(a: Pc, b: Pc) {
    ReadAt(a) == ReadAt(b) && WriteAt(a) == WriteAt(b) && Unticketed(a) == Unticketed(b) && Carries(a) == Carries(b)
  }

  /** A step that claims and releases nothing and stays on true knowledge. */
  lemma QuietBalanced(s: State, l: Ledger, t: nat, pc: Pc)
    requires Balanced(s, l) && t < |s.threads|
    requires SameTickets(s.threads[t], pc) && Remembers(s, pc)
    ensures Balanced(Goto(s, t, pc), Rebooked(l, s.threads[t], pc))
  {
    RemembersLater(s, Goto(s, t, pc), t);
  }

  /** The steps that leave positions, slots, held indices and tickets alone. */
  predicate Quiet(s: State, e: Event)
    requires Shaped(s) && e.t < |s.threads|
  {
    var pc := s.threads[e.t];
    match e
    case CallNext(_) => true
    case CallReturn(_, index) => !(pc == Idle && index in s.held)
    case FailCas(_) => true
    case Advance(_) =>
      !(pc.CasRead? && s.readPos == pc.pos) && !(pc.CasWrite? && s.writePos == pc.pos)
      && !pc.ClearSlot? && !pc.FillSlot?
  }

  lemma QuietStep(s: State, e: Event)
    requires Shaped(s) && e.t < |s.threads| && |s.deposited| == s.writePos >= s.readPos
    requires Quiet(s, e) && Remembers(s, s.threads[e.t])
    ensures var pc := Step(s, e).threads[e.t];
      Step(s, e) == Goto(s, e.t, pc) && SameTickets(s.threads[e.t], pc) && Remembers(s, pc)
  {
    assert s.threads[e.t := s.threads[e.t]] == s.threads;
  }

  lemma BalancedClaimRead(s: State, t: nat, l: Ledger)
    requires Balanced(s, l) && t < |s.threads| && Lists(l, s.threads[t])
    requires s.threads[t].CasRead? && s.threads[t].pos == s.readPos
    ensures Balanced(Move(s, t), Rebooked(l, s.threads[t], Move(s, t).threads[t]))
  {
    assert Remembers(s, s.threads[t]);
    RemembersLater(s, Move(s, t), t);
  }

  lemma BalancedClear(s: State, t: nat, l: Ledger)
    requires Balanced(s, l) && t < |s.threads| && Lists(l, s.threads[t])
    requires s.threads[t].ClearSlot?
    ensures Balanced(Move(s, t), Rebooked(l, s.threads[t], Move(s, t).threads[t]))
  {
    assert Remembers(s, s.threads[t]);
    RemembersLater(s, Move(s, t), t);
  }

  lemma BalancedClaimWrite(s: State, t: nat, l: Ledger)
    requires Balanced(s, l) && t < |s.threads| && Lists(l, s.threads[t])
    requires s.threads[t].CasWrite? && s.threads[t].pos == s.writePos
    ensures Balanced(Move(s, t), Rebooked(l, s.threads[t], Move(s, t).threads[t]))
  {
    assert Remembers(s, s.threads[t]);
    RemembersLater(s, Move(s, t), t);
  }

  lemma BalancedFill(s: State, t: nat, l: Ledger)
    requires Balanced(s, l) && t < |s.threads| && Lists(l, s.threads[t])
    requires s.threads[t].FillSlot?
    ensures Balanced(Move(s, t), Rebooked(l, s.threads[t], Move(s, t).threads[t]))
  {
    assert Remembers(s, s.threads[t]);
    RemembersLater(s, Move(s, t), t);
  }

  lemma BalancedCallReturn(s: State, t: nat, index: nat, l: Ledger)
    requires Balanced(s, l) && t < |s.threads|
    requires s.threads[t] == Idle && index in s.held
    ensures Balanced(Step(s, CallReturn(t, index)), Rebooked(l, Idle, LoadTail(index)))
  {
    RemembersLater(s, Step(s, CallReturn(t, index)), t);
  }

  lemma BalancedStep(s: State, e: Event, l: Ledger)
    requires Balanced(s, l) && e.t < |s.threads| && Lists(l, s.threads[e.t])
    ensures Balanced(Step(s, e), Rebooked(l, s.threads[e.t], Step(s, e).threads[e.t]))
  {
    assert Remembers(s, s.threads[e.t]);
    if Quiet(s, e) {
      QuietStep(s, e);
      QuietBalanced(s, l, e.t, Step(s, e).threads[e.t]);
    } else if e.CallReturn? {
      BalancedCallReturn(s, e.t, e.index, l);
    } else {
      match s.threads[e.t]
      case CasRead(_) => BalancedClaimRead(s, e.t, l);
      case ClearSlot(_, _) => BalancedClear(s, e.t, l);
      case CasWrite(_, _) => BalancedClaimWrite(s, e.t, l);
      case FillSlot(_, _) => BalancedFill(s, e.t, l);
    }
  }

  lemma BooksStep(s: State, e: Event)
    requires Shaped(s) && e.t < |s.threads|
    ensures Books(Step(s, e)) == Rebooked(Books(s), s.threads[e.t], Step(s, e).threads[e.t])
    ensures Lists(Books(s), s.threads[e.t])
  {
    var pc := Step(s, e).threads[e.t];
    BooksMoved(s, e.t, pc);
    OneThreadMoves(s, e);
  }

  lemma TicketsStep(s: State, e: Event)
    requires Tickets(s)
    ensures Tickets(Step(s, e))
  {
    if e.t < |s.threads| {
      BooksStep(s, e);
      BalancedStep(s, e, Books(s));
    }
  }

  lemma {:induction false} TicketsRun(s: State, es: seq<Event>)
    requires Tickets(s)
    ensures Tickets(Run(s, es))
    decreases |es|
  {
    if es != [] {
      TicketsStep(s, es[0]);
      TicketsRun(Step(s, es[0]), es[1..]);
    }
  }
}

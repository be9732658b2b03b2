/**
 How much concurrency the ring stands with the bounded positions of the code: one thread, or two on a ring of one
 index. Below the limit it stands what the ring with unbounded positions does.
 */
module RingWrapSafety {
  import opened Bags
  import opened Remainder
  import opened RingProtocol
  import opened RingSafety
  import opened RingGuarantees
  import opened RingLaps
  import opened RingDoubleHandOut
  import opened RingWrap
  import opened RingWrapDouble
  import opened RingWrapSingle

  // ---- one thread

  /** The store to come finds its slot as it was tested. */
  predicate Prepared(s: State, pc: Pc)
    requires Shaped(s)
  {
    match pc
    case ClearSlot(pos, value) => s.slots[Mod(pos, Size(s))] == value != 0
    case FillSlot(_, pos) => s.slots[Mod(pos, Size(s))] == 0
    case _ => true
  }

  /** The invariant of a thread on its own, for any capacity. */
  ghost predicate AloneOk(s: State) {
    && Shaped(s) && |s.threads| <= 1 && EachIndexOnce(s)
    && forall t | 0 <= t < |s.threads| :: Prepared(s, s.threads[t])
  }

  lemma PreparedNext(s: State, e: Event)
    requires Shaped(s) && e.t < |s.threads| && Prepared(s, s.threads[e.t])
    ensures Prepared(Step(s, e), Step(s, e).threads[e.t])
  {
  }

  lemma PreparedStoresMoveOneIndex(s: State, e: Event)
    requires Shaped(s) && e.t < |s.threads| && Prepared(s, s.threads[e.t])
    ensures forall i: nat :: Places(Step(s, e), i) == Places(s, i)
  {
    hide Step, MovesOneIndex;
    if e.Advance? && (s.threads[e.t].ClearSlot? || s.threads[e.t].FillSlot?) {
      StoreMovesOneIndex(s, e.t);
    } else {
      OtherMovesOneIndex(s, e);
    }
    PlacesFollow(s, e);
  }

  lemma AloneStep(s: State, e: Event)
    requires AloneOk(s)
    ensures AloneOk(Step(s, e))
  {
    if e.t < |s.threads| {
      hide Step, Places;
      PreparedNext(s, e);
      PreparedStoresMoveOneIndex(s, e);
    } else {
      OutsideStep(s, e);
    }
  }

  // ---- one index, at most two threads: only the parity of a position matters, and the wrap keeps it

  /** Whether thread `t` carries the index between its caller and a slot. */
  function Carrying(s: State, t: nat): nat {
    if t < |s.threads| && Carries(s.threads[t]) >= 0 then 1 else 0
  }

  predicate HasWriteTicket(s: State, t: nat) { t < |s.threads| && WriteAt(s.threads[t]) >= 0 }

  /** The slot of the read ticket of thread `t`, -1 for none. */
  function ReadingSlot(s: State, t: nat): (i: int)
    ensures i >= -1
  {
    if t < |s.threads| && ReadAt(s.threads[t]) >= 0 then Mod(ReadAt(s.threads[t]), 2) else -1
  }

  /** `home` is the slot that holds the index, or that it comes to next. */
  predicate ThreadFits(s: State, home: nat, pc: Pc)
    requires |s.slots| == 2 && home < 2
  {
    && Carries(pc) <= 0
    && (WriteAt(pc) >= 0 ==> Mod(WriteAt(pc), 2) == home)
    && (pc.ClearSlot? ==> pc.value == 1 && Mod(pc.pos, 2) == home && s.slots[home] == 1)
  }

  /** No reader, one reader at home, or one at home and one at the other slot; the read position is next. */
  predicate ReadersFit(home: nat, next: nat, a: int, c: int) {
    || (a == -1 && c == -1 && next == home)
    || (a == home && c == -1 && next == 1 - home)
    || (a == -1 && c == home && next == 1 - home)
    || (a == home && c == 1 - home && next == home)
    || (a == 1 - home && c == home && next == home)
  }

  predicate SingleOk(s: State, home: nat) {
    && Shaped(s) && s.capacity == 1 && |s.threads| <= 2 && home < 2
    && s.slots[1 - home] == 0
    // the index is in one place: its slot, a thread or a caller
    && s.slots[home] + Carrying(s, 0) + Carrying(s, 1) + |s.held| == 1
    && (s.held == multiset{} || s.held == multiset{0})
    // the write position points at home until the index has its ticket
    && Mod(s.writePos, 2) ==
         (if s.slots[home] == 1 || HasWriteTicket(s, 0) || HasWriteTicket(s, 1) then 1 - home else home)
    && ReadersFit(home, Mod(s.readPos, 2), ReadingSlot(s, 0), ReadingSlot(s, 1))
    && forall t | 0 <= t < |s.threads| :: ThreadFits(s, home, s.threads[t])
  }

  /** The index changes its home when it is taken. */
  function NextHome(s: State, e: Event, home: nat): (h: nat)
    requires home < 2
    ensures h < 2
  {
    if e.Advance? && e.t < |s.threads| && s.threads[e.t].ClearSlot? then 1 - home else home
  }

  lemma Flip(p: nat)
    ensures Mod(p + 1, 2) == 1 - Mod(p, 2)
  {
    ModClash(p, p + 1, 2);
  }

  lemma SingleClaimRead(s: State, t: nat, home: nat)
    requires SingleOk(s, home) && t < |s.threads| && s.threads[t] == CasRead(s.readPos)
    ensures SingleOk(Step(s, Advance(t)), home)
  {
    hide Mod;
    Flip(s.readPos);
    assert ThreadFits(s, home, s.threads[t]);
  }

  lemma SingleClear(s: State, t: nat, home: nat)
    requires SingleOk(s, home) && t < |s.threads| && s.threads[t].ClearSlot?
    ensures SingleOk(Step(s, Advance(t)), 1 - home)
  {
    hide Mod;
    assert ThreadFits(s, home, s.threads[t]);
    assert |s.held| == 0 && s.held + multiset{0} == multiset{0};
  }

  lemma SingleClaimWrite(s: State, t: nat, home: nat)
    requires SingleOk(s, home) && t < |s.threads| && s.threads[t].CasWrite? && s.threads[t].pos == s.writePos
    ensures SingleOk(Step(s, Advance(t)), home)
  {
    hide Mod;
    Flip(s.writePos);
    assert ThreadFits(s, home, s.threads[t]);
  }

  lemma SingleFill(s: State, t: nat, home: nat)
    requires SingleOk(s, home) && t < |s.threads| && s.threads[t].FillSlot?
    ensures SingleOk(Step(s, Advance(t)), home)
  {
    hide Mod;
    assert ThreadFits(s, home, s.threads[t]);
  }

  lemma SingleCallReturn(s: State, t: nat, index: nat, home: nat)
    requires SingleOk(s, home) && t < |s.threads| && s.threads[t] == Idle && index in s.held
    ensures SingleOk(Step(s, CallReturn(t, index)), home)
  {
    hide Mod;
    assert s.held - multiset{index} == multiset{};
  }

  /** A quiet step moves one thread, which keeps its tickets; a slot is loaded as it is. */
  lemma QuietPc(s: State, e: Event)
    requires Shaped(s) && e.t < |s.threads| && Quiet(s, e)
    ensures var a, b := s.threads[e.t], Step(s, e).threads[e.t];
      && Step(s, e) == Goto(s, e.t, b) && SameTickets(a, b)
      && (b.ClearSlot? ==> b == a || (ReadAt(a) == b.pos && s.slots[Mod(b.pos, Size(s))] == b.value != 0))
  {
    assert s.threads[e.t := s.threads[e.t]] == s.threads;
  }

  lemma SingleGoto(s: State, t: nat, pc: Pc, home: nat)
    requires SingleOk(s, home) && t < |s.threads| && SameTickets(s.threads[t], pc) && ThreadFits(s, home, pc)
    ensures SingleOk(Goto(s, t, pc), home)
  {
    hide Mod;
  }

  lemma SingleQuiet(s: State, e: Event, home: nat)
    requires SingleOk(s, home) && e.t < |s.threads| && Quiet(s, e)
    ensures SingleOk(Step(s, e), home)
  {
    hide Mod, Step, Quiet;
    assert ThreadFits(s, home, s.threads[e.t]);
    QuietPc(s, e);
    SingleGoto(s, e.t, Step(s, e).threads[e.t], home);
  }

  lemma SingleIsShaped(s: State, home: nat)
    requires SingleOk(s, home)
    ensures Shaped(s)
  {
  }

  lemma SingleStep(s: State, e: Event, home: nat)
    requires SingleOk(s, home)
    ensures Shaped(s) && SingleOk(Step(s, e), NextHome(s, e, home))
  {
    SingleIsShaped(s, home);
    hide Step, SingleOk;
    if e.t >= |s.threads| {
      OutsideStep(s, e);
    } else if e.Advance? && s.threads[e.t].ClearSlot? {
      SingleClear(s, e.t, home);
    } else if Quiet(s, e) {
      SingleQuiet(s, e, home);
    } else if e.CallReturn? {
      SingleCallReturn(s, e.t, e.index, home);
    } else {
      match s.threads[e.t]
      case CasRead(_) => SingleClaimRead(s, e.t, home);
      case CasWrite(_, _) => SingleClaimWrite(s, e.t, home);
      case FillSlot(_, _) => SingleFill(s, e.t, home);
    }
  }

  // ---- every run with bounded positions

  /** Zeroing a position that is at an even limit keeps its parity. */
  lemma SingleZeroed(b: Bounded, t: nat, home: nat)
    requires Formed(b) && SingleOk(b.ring, home) && t < |b.wraps| && AtLimit(b, t) && Mod(b.limit, 2) == 0
    ensures SingleOk(Zeroed(b, t).ring, home)
  {
    assert Mod(0, 2) == 0;
    hide Mod;
  }

  lemma AloneZeroed(b: Bounded, t: nat)
    requires Formed(b) && AloneOk(b.ring) && t < |b.wraps|
    ensures AloneOk(Zeroed(b, t).ring)
  {
    SamePlaces(b.ring, Zeroed(b, t).ring);
  }

  /** A step is a step of the ring, moves a thread in its wrap, or makes a position at the limit 0. */
  lemma BoundedStepKinds(b: Bounded, e: Event)
    requires Formed(b)
    ensures var s' := BoundedStep(b, e).ring;
      || s' == b.ring
      || s' == Step(b.ring, e)
      || (e.t < |b.wraps| && AtLimit(b, e.t) && s' == Zeroed(b, e.t).ring)
  {
    hide Step;
  }

  lemma {:induction false} AloneBoundedRun(b: Bounded, es: seq<Event>)
    requires Formed(b) && AloneOk(b.ring)
    ensures AloneOk(BoundedRun(b, es).ring)
    decreases |es|
  {
    if es != [] {
      hide Step, BoundedStep, AloneOk, AtLimit, Zeroed;
      BoundedStepKinds(b, es[0]);
      AloneStep(b.ring, es[0]);
      if es[0].t < |b.wraps| { AloneZeroed(b, es[0].t); }
      AloneBoundedRun(BoundedStep(b, es[0]), es[1..]);
    }
  }

  lemma {:induction false} SingleBoundedRun(b: Bounded, es: seq<Event>, home: nat) returns (end: nat)
    requires Formed(b) && SingleOk(b.ring, home) && Mod(b.limit, 2) == 0
    ensures SingleOk(BoundedRun(b, es).ring, end)
    decreases |es|
  {
    if es == [] {
      end := home;
    } else {
      hide Step, BoundedStep, SingleOk, AtLimit, Zeroed, Mod;
      BoundedStepKinds(b, es[0]);
      SingleStep(b.ring, es[0], home);
      var s' := BoundedStep(b, es[0]).ring;
      var next := if s' == Step(b.ring, es[0]) then NextHome(b.ring, es[0], home) else home;
      if s' != b.ring && s' != Step(b.ring, es[0]) { SingleZeroed(b, es[0].t, home); }
      end := SingleBoundedRun(BoundedStep(b, es[0]), es[1..], next);
    }
  }

  lemma SingleIsExclusive(s: State, home: nat)
    requires SingleOk(s, home)
    ensures ExclusivelyHeld(s)
  {
    hide Mod;
  }

  // ---- exactly when

  /** Whatever the schedule, no index ever has two callers, wraps included. */
  ghost predicate BoundedExclusive(capacity: nat, threads: nat, limit: nat)
    requires capacity >= 1
  {
    forall es: seq<Event> :: ExclusivelyHeld(BoundedRun(BoundedInit(capacity, threads, limit), es).ring)
  }

  lemma AloneIsExclusive(capacity: nat, threads: nat, limit: nat)
    requires capacity >= 1 && threads <= 1
    ensures BoundedExclusive(capacity, threads, limit)
  {
    var b := BoundedInit(capacity, threads, limit);
    InitRing(capacity, threads);
    forall es: seq<Event> ensures ExclusivelyHeld(BoundedRun(b, es).ring) {
      AloneBoundedRun(b, es);
      OnceIsExclusive(BoundedRun(b, es).ring);
    }
  }

  lemma InitSingle(threads: nat)
    requires threads <= 2
    ensures SingleOk(Init(1, threads), 0)
  {
    assert Mod(0, 2) == 0 && Mod(1, 2) == 1;
  }

  lemma PairOnSingleIsExclusive(threads: nat, laps: nat)
    requires threads <= 2
    ensures BoundedExclusive(1, threads, Laps(laps, 2))
  {
    var b := BoundedInit(1, threads, Laps(laps, 2));
    InitSingle(threads);
    ModLaps(0, laps, 2);
    assert Mod(0, 2) == 0;
    forall es: seq<Event> ensures ExclusivelyHeld(BoundedRun(b, es).ring) {
      var end := SingleBoundedRun(b, es, 0);
      SingleIsExclusive(BoundedRun(b, es).ring, end);
    }
  }

  /**
   Exactly when the ring keeps its promise in every schedule of the code, wraps included: with a single thread,
   or with two threads and a single index. The limit is any multiple of the ring size.
   */
  lemma BoundedExclusiveExactly(capacity: nat, threads: nat, laps: nat)
    requires capacity >= 1 && laps >= 1
    ensures BoundedExclusive(capacity, threads, Laps(laps, 2 * capacity))
            <==> (threads <= 1 || (threads == 2 && capacity == 1))
  {
    var limit := Laps(laps, 2 * capacity);
    if threads <= 1 {
      AloneIsExclusive(capacity, threads, limit);
    } else if threads == 2 && capacity == 1 {
      PairOnSingleIsExclusive(threads, laps);
    } else if capacity == 1 {
      var es := TurnHandsOutTwice(threads, laps);
      assert !ExclusivelyHeld(BoundedRun(BoundedInit(capacity, threads, limit), es).ring);
    } else {
      var es, index := WrapHandsOutTwice(capacity, threads, laps);
      assert !ExclusivelyHeld(BoundedRun(BoundedInit(capacity, threads, limit), es).ring);
    }
  }

  /** With fewer than limit - capacity returns, two threads or one index are enough for any schedule. */
  lemma SmallAndFewIsExclusive(capacity: nat, threads: nat, limit: nat, es: seq<Event>)
    requires capacity >= 1 && (threads <= 2 || capacity == 1) && capacity + Returns(es) < limit
    ensures ExclusivelyHeld(BoundedRun(BoundedInit(capacity, threads, limit), es).ring)
  {
    hide Run, BoundedRun;
    FewReturnsNeverWrap(capacity, threads, limit, es);
    ExclusiveExactlyWhenSmall(capacity, threads);
  }
}

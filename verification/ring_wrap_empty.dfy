/**
 Empty with the bounded positions of the code: a thread on its own runs the ring as a queue, wraps included, and is
 told Empty exactly when the ring holds nothing; with a second thread it may not be.
 */
module RingWrapEmpty {
  import opened Remainder
  import opened RingProtocol
  import opened RingSafety
  import opened RingDoubleHandOut
  import opened RingAnswers
  import opened RingWrap
  import opened RingWrapAlone
  import opened RingWrapAnswers
  import C = ConcurrentIndexers

  /** No index is in the ring. */
  predicate NothingStored(s: State) { forall i | 0 <= i < |s.slots| :: s.slots[i] == 0 }

  // ---- a thread on its own

  /** Where the queue starts: at the read ticket in use, if any. */
  function Front(s: State, pc: Pc): nat { if ReadAt(pc) >= 0 then ReadAt(pc) else s.readPos }

  /** Where the next index goes: to the write ticket in use, if any. */
  function Rear(s: State, pc: Pc): nat { if WriteAt(pc) >= 0 then WriteAt(pc) else s.writePos }

  /** What the thread at `pc` knows and owns. */
  predicate Knows(s: State, pc: Pc, free: seq<nat>, limit: nat) {
    && (ReadAt(pc) >= 0 ==> s.readPos == ReadAt(pc) + 1 && ReadAt(pc) != limit && free != [])
    && (WriteAt(pc) >= 0 ==> s.writePos == WriteAt(pc) + 1 && WriteAt(pc) != limit)
    && (pc.LoadWrite? || pc.CheckSlot? || pc.CasRead? ==> pc.pos == s.readPos != limit)
    && (pc.CasRead? ==> free != [])
    && (pc.CasWrite? ==> pc.pos == s.writePos != limit)
    && (pc.ClearSlot? ==> pc.value > 0)
  }

  /** The ring of a thread on its own holds the queue `free`. */
  ghost predicate Solo(b: Bounded, free: seq<nat>, laps: nat) {
    && Formed(b) && |b.wraps| == 1 && laps > 0 && b.limit == Laps(laps, Size(b.ring))
    && var s, pc := b.ring, b.ring.threads[0];
    && |free| + |s.held| + (if Carries(pc) >= 0 then 1 else 0) == s.capacity
    && C.RingHolds(s.slots, Front(s, pc), free)
    && C.PositionsAgree(Front(s, pc), Rear(s, pc), |free|, b.limit)
    && Knows(s, pc, free, b.limit)
  }

  /** The queue after an event. */
  function NextFree(b: Bounded, e: Event, free: seq<nat>): seq<nat>
    requires Formed(b)
  {
    if e.Advance? && e.t < |b.wraps| && b.wraps[e.t] == Out then
      match b.ring.threads[e.t]
      case ClearSlot(_, _) => if free == [] then [] else free[1..]
      case FillSlot(index, _) => free + [index]
      case _ => free
    else free
  }

  lemma SoloClear(b: Bounded, free: seq<nat>, laps: nat)
    requires Solo(b, free, laps) && b.ring.threads[0].ClearSlot?
    ensures free != [] && Solo(b.(ring := Move(b.ring, 0)), free[1..], laps)
  {
    hide Mod, Laps;
    C.RingTakes(b.ring.slots, b.ring.threads[0].pos, free);
    hide C.RingHolds;
  }

  lemma SoloFill(b: Bounded, free: seq<nat>, laps: nat)
    requires Solo(b, free, laps) && b.ring.threads[0].FillSlot?
    ensures Solo(b.(ring := Move(b.ring, 0)), free + [b.ring.threads[0].index], laps)
  {
    hide Mod, Laps;
    var s, pc := b.ring, b.ring.threads[0];
    C.TailSlot(s.readPos, pc.pos, |free|, laps, Size(s));
    C.RingPuts(s.slots, s.readPos, free, pc.index);
    hide C.RingHolds;
  }

  /** The test of the slot at the front tells whether the queue is empty. */
  lemma FrontSlot(s: State, free: seq<nat>)
    requires Shaped(s) && C.RingHolds(s.slots, s.readPos, free)
    ensures s.slots[Mod(s.readPos, Size(s))] == 0 <==> free == []
  {
    hide Mod;
    assert C.RingAt(s.slots, s.readPos, free, 0);
  }

  lemma SoloMove(b: Bounded, free: seq<nat>, laps: nat)
    requires Solo(b, free, laps) && !AtLimit(b, 0)
    requires !b.ring.threads[0].ClearSlot? && !b.ring.threads[0].FillSlot?
    ensures Solo(b.(ring := Move(b.ring, 0)), free, laps)
  {
    if b.ring.threads[0].CheckSlot? { FrontSlot(b.ring, free); }
    hide Mod, Laps, C.RingHolds, C.PositionsAgree;
  }

  lemma SoloCall(b: Bounded, e: Event, free: seq<nat>, laps: nat)
    requires Solo(b, free, laps) && e.t == 0 && !e.Advance?
    ensures Solo(b.(ring := Step(b.ring, e)), free, laps)
  {
    hide Mod, Laps, C.RingHolds, C.PositionsAgree;
  }

  lemma SoloZeroed(b: Bounded, free: seq<nat>, laps: nat)
    requires Solo(b, free, laps) && AtLimit(b, 0)
    ensures Solo(Zeroed(b, 0), free, laps)
  {
    LimitIsLarge(laps, Size(b.ring));
    hide Mod, Laps;
    if b.ring.threads[0].LoadRead? { C.RingWraps(b.ring.slots, b.ring.readPos, free, laps); }
    hide C.RingHolds;
  }

  lemma LimitIsLarge(laps: nat, size: nat)
    requires laps > 0
    ensures Laps(laps, size) >= size
  {
  }

  lemma SoloWrapping(b: Bounded, free: seq<nat>, laps: nat, wrap: Wrap)
    requires Solo(b, free, laps)
    ensures Solo(Wrapping(b, 0, wrap), free, laps)
  {
    hide Mod, Laps, C.RingHolds, C.PositionsAgree;
  }

  lemma SoloStep(b: Bounded, e: Event, free: seq<nat>, laps: nat)
    requires Solo(b, free, laps)
    ensures Formed(b) && Solo(BoundedStep(b, e), NextFree(b, e, free), laps)
  {
    SoloIsFormed(b, free, laps);
    hide Solo, Move;
    if e.t == 0 {
      SoloWrapping(b, free, laps, Reload);
      SoloWrapping(b, free, laps, Swap);
      SoloWrapping(b, free, laps, Out);
      if !e.Advance? {
        SoloCall(b, e, free, laps);
      } else if b.wraps[0] == Out {
        if !AtLimit(b, 0) { SoloAccess(b, free, laps); }
      } else if b.wraps[0] == Swap && AtLimit(b, 0) {
        SoloZeroed(Wrapping(b, 0, Out), free, laps);
      }
    }
  }

  lemma SoloAccess(b: Bounded, free: seq<nat>, laps: nat)
    requires Solo(b, free, laps) && Formed(b) && |b.wraps| == 1 && !AtLimit(b, 0) && b.wraps[0] == Out
    ensures Solo(b.(ring := Move(b.ring, 0)), NextFree(b, Advance(0), free), laps)
  {
    hide Solo, Move;
    if b.ring.threads[0].ClearSlot? {
      SoloClear(b, free, laps);
    } else if b.ring.threads[0].FillSlot? {
      SoloFill(b, free, laps);
    } else {
      SoloMove(b, free, laps);
    }
  }

  lemma SoloIsFormed(b: Bounded, free: seq<nat>, laps: nat)
    requires Solo(b, free, laps)
    ensures Formed(b) && |b.wraps| == 1
  {
  }

  lemma {:induction false} SoloRun(b: Bounded, es: seq<Event>, free: seq<nat>, laps: nat) returns (end: seq<nat>)
    requires Solo(b, free, laps)
    ensures Formed(b) && Solo(BoundedRun(b, es), end, laps)
    decreases |es|
  {
    SoloIsFormed(b, free, laps);
    hide Solo, BoundedStep;
    if es == [] {
      end := free;
    } else {
      SoloStep(b, es[0], free, laps);
      end := SoloRun(BoundedStep(b, es[0]), es[1..], NextFree(b, es[0], free), laps);
    }
  }

  /** Every slot is some number of places after the read position. */
  lemma {:induction false} SlotIsReached(read: nat, i: nat, size: nat) returns (k: nat)
    requires i < size
    ensures k < size && Mod(read + k, size) == i
  {
    if read == 0 {
      k := i;
    } else {
      var j := SlotIsReached(read - 1, i, size);
      if j > 0 {
        k := j - 1;
      } else {
        k := size - 1;
        ModShift(read - 1, size);
      }
    }
  }

  lemma EmptyRing(s: State)
    requires Shaped(s) && C.RingHolds(s.slots, s.readPos, [])
    ensures NothingStored(s)
  {
    forall i | 0 <= i < |s.slots| ensures s.slots[i] == 0 {
      var k := SlotIsReached(s.readPos, i, |s.slots|);
      assert C.RingAt(s.slots, s.readPos, [], k);
    }
  }

  lemma SoloSaysTheTruth(b: Bounded, free: seq<nat>, laps: nat)
    requires Solo(b, free, laps) && Formed(b) && |b.wraps| == 1 && SaysEmpty(b.ring, 0)
    ensures NothingStored(b.ring)
  {
    LimitIsLarge(laps, Size(b.ring));
    FrontSlot(b.ring, free);
    hide Mod, Laps, C.RingHolds;
    assert free == [];
    EmptyRing(b.ring);
  }

  // ---- exactly when

  ghost predicate BoundedEmptyIsTrue(capacity: nat, threads: nat, limit: nat)
    requires capacity >= 1
  {
    forall es: seq<Event>, e: Event | e.t < threads ::
      var b := BoundedRun(BoundedInit(capacity, threads, limit), es);
      AnswersEmpty(b.ring, BoundedStep(b, e).ring, e.t) ==> NothingStored(b.ring)
  }

  lemma InitSolo(capacity: nat, laps: nat)
    requires capacity >= 1 && laps >= 1
    ensures Solo(BoundedInit(capacity, 1, Laps(laps, 2 * capacity)), seq(capacity, i => i), laps)
  {
    LimitIsLarge(laps, 2 * capacity);
    hide Laps;
    var slots, free := Init(capacity, 1).slots, seq(capacity, i => i);
    forall k: nat | k < |slots| ensures C.RingAt(slots, 0, free, k) {}
  }

  /** Thread 0 has loaded both positions and is about to test slot 0; thread 1 takes index 0 and returns it. */
  lemma BoundedSpurious(capacity: nat, threads: nat, limit: nat) returns (es: seq<Event>)
    requires capacity >= 1 && threads >= 2 && limit >= 2 * capacity
    ensures var b := BoundedRun(BoundedInit(capacity, threads, limit), es);
      && SaysEmpty(b.ring, 0) && b.ring.slots[capacity] == 1
      && forall u | 1 <= u < |b.wraps| :: b.ring.threads[u] == Idle
  {
    var b := BoundedInit(capacity, threads, limit);
    hide BoundedRun, Mod, SaysEmpty;
    var stall := BoundedStall(b);
    var rest := TakeAndGive(BoundedRun(b, stall));
    es := stall + rest;
    BoundedAppend(b, stall, rest);
    UnusedSaysEmpty(BoundedRun(BoundedRun(b, stall), rest));
  }

  /** Thread 1 takes index 0 from slot 0 and returns it to the first unused slot. */
  lemma TakeAndGive(b: Bounded) returns (es: seq<Event>)
    requires AtRest(b, 1) && b.limit >= Size(b.ring) && b.ring.readPos == 0 && b.ring.writePos == b.ring.capacity
    requires b.ring.slots[0] == 1 && b.ring.slots[b.ring.capacity] == 0 && b.ring.held == multiset{}
    ensures var b' := BoundedRun(b, es);
      && b'.wraps == b.wraps && b'.ring.threads == b.ring.threads
      && b'.ring.slots[0] == 0 && b'.ring.slots[b.ring.capacity] == 1
  {
    var c := b.ring.capacity;
    assert Mod(0, 2 * c) == 0 && Mod(c, 2 * c) == c;
    hide BoundedRun, Mod;
    var take := TakeAlone(b, 1);
    var b1 := BoundedRun(b, take);
    assert b1.ring.held == multiset{0};
    var give := GiveAlone(b1, 1, 0);
    es := take + give;
    BoundedAppend(b, take, give);
  }

  lemma UnusedSaysEmpty(b: Bounded)
    requires Formed(b) && |b.wraps| > 0 && b.wraps[0] == Out && b.ring.threads[0] == CheckSlot(0)
    requires b.ring.slots[0] == 0
    ensures SaysEmpty(b.ring, 0)
  {
  }

  lemma BoundedStall(b: Bounded) returns (es: seq<Event>)
    requires AtRest(b, 0) && b.ring.readPos == 0 && b.ring.writePos != 0
    ensures BoundedRun(b, es) == b.(ring := Goto(b.ring, 0, CheckSlot(0)))
  {
    hide BoundedRun, BoundedStep, Step, Mod;
    var first := EnterNext(b, 0);
    var b0 := BoundedRun(b, first);
    LoadsTwo(b0);
    es := first + Accesses(0, 2);
    BoundedAppend(b, first, Accesses(0, 2));
  }

  lemma LoadsTwo(b: Bounded)
    requires Formed(b) && |b.wraps| > 0 && b.wraps[0] == Out && b.limit != 0
    requires b.ring.threads[0] == LoadRead && b.ring.readPos == 0 && b.ring.writePos != 0
    ensures BoundedRun(b, Accesses(0, 2)) == b.(ring := Goto(b.ring, 0, CheckSlot(0)))
  {
    var s1, s2 := Goto(b.ring, 0, LoadWrite(0)), Goto(b.ring, 0, CheckSlot(0));
    assert Step(b.ring, Advance(0)) == s1 && Step(s1, Advance(0)) == s2;
    hide Step, BoundedStep;
    Plain(b, 0, s1);
    Plain(b.(ring := s1), 0, s2);
    BoundedAccess(b, 0, 2);
    OneAccess(b.(ring := s1), 0);
  }

  /**
   Exactly when Empty can be believed with the bounded positions of the code: with one thread at most, whatever
   the capacity and the limit.
   */
  lemma BoundedEmptyExactly(capacity: nat, threads: nat, laps: nat)
    requires capacity >= 1 && laps >= 1
    ensures BoundedEmptyIsTrue(capacity, threads, Laps(laps, 2 * capacity)) <==> threads <= 1
  {
    var limit := Laps(laps, 2 * capacity);
    LimitIsLarge(laps, 2 * capacity);
    if threads == 1 {
      InitSolo(capacity, laps);
      SoloIsTrue(capacity, laps);
    } else if threads >= 2 {
      var es := BoundedSpurious(capacity, threads, limit);
      EveryBoundedCallIsAnswered(capacity, threads, limit, es, Advance(0));
      hide BoundedRun, BoundedStep, Answered, AnswersEmpty, SaysEmpty;
      var b := BoundedRun(BoundedInit(capacity, threads, limit), es);
      assert AnswersEmpty(b.ring, BoundedStep(b, Advance(0)).ring, 0) && !NothingStored(b.ring);
    }
  }

  lemma SoloIsTrue(capacity: nat, laps: nat)
    requires capacity >= 1 && Solo(BoundedInit(capacity, 1, Laps(laps, 2 * capacity)), seq(capacity, i => i), laps)
    ensures BoundedEmptyIsTrue(capacity, 1, Laps(laps, 2 * capacity))
  {
    var b := BoundedInit(capacity, 1, Laps(laps, 2 * capacity));
    hide Solo, NothingStored, SaysEmpty, Laps, AnswersEmpty, Answered, BoundedRun, BoundedStep;
    forall es: seq<Event>, e: Event
      | e.t < 1 && AnswersEmpty(BoundedRun(b, es).ring, BoundedStep(BoundedRun(b, es), e).ring, e.t)
      ensures NothingStored(BoundedRun(b, es).ring)
    {
      EveryBoundedCallIsAnswered(capacity, 1, Laps(laps, 2 * capacity), es, e);
      var end := SoloRun(b, es, seq(capacity, i => i), laps);
      SoloSaysTheTruth(BoundedRun(b, es), end, laps);
    }
  }
}

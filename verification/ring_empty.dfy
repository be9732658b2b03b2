/** When a concurrent `Next` says that nothing is free: the first test never lies, the second one can. */
module RingEmpty {
  import opened Remainder
  import opened RingProtocol
  import opened RingSafety
  import opened RingGuarantees
  import opened RingAnswers
  import opened RingLaps
  import opened RingDoubleHandOut

  /** Equal positions: the queue is empty at that moment, in every run with or without laps. */
  lemma EqualPositionsMeanEmpty(s: State, t: nat)
    requires Tickets(s) && t < |s.threads| && s.threads[t].LoadWrite? && SaysEmpty(s, t)
    ensures s.readPos == s.writePos && AsFifo(s).queue == []
  {
    assert Remembers(s, s.threads[t]);
  }

  /**
   An unused slot: somebody claimed the position since it was loaded, or its writer has yet to store. As long as
   nobody has claimed the position, the test fails exactly while that writer is free to store.
   */
  lemma UnusedSlotHasAReason(s: State, t: nat)
    requires RingOk(s, Books(s)) && t < |s.threads| && s.threads[t].CheckSlot?
    ensures var pos := s.threads[t].pos;
      && (SaysEmpty(s, t) ==> pos < s.readPos || Writing(Books(s), pos))
      && (pos == s.readPos ==>
            (SaysEmpty(s, t) <==> Writing(Books(s), pos) && !Reading(Books(s), pos - Size(s))))
  {
    hide Books;
    assert Remembers(s, s.threads[t]);
    assert SlotAgrees(s, Books(s), s.threads[t].pos);
  }

  // ---- exactly when Empty can be believed

  /** Whatever the schedule, a `Next` that returns without an index does so while nothing is free. */
  ghost predicate EmptyIsTrue(capacity: nat, threads: nat)
    requires capacity >= 1
  {
    forall es: seq<Event>, e: Event | e.t < threads ::
      var s := Run(Init(capacity, threads), es);
      AnswersEmpty(s, Step(s, e), e.t) ==> AsFifo(s).queue == []
  }

  /** The spurious Empty: thread 0 tests a slot that thread 1 has emptied, while an index is free. */
  lemma EmptyCanBeSpurious(capacity: nat, threads: nat) returns (es: seq<Event>)
    requires capacity >= 1 && threads >= 2
    ensures var s := Run(Init(capacity, threads), es);
      SaysEmpty(s, 0) && s.threads[0] == CheckSlot(0) && AsFifo(s).queue != []
      && forall u | 1 <= u < |s.threads| :: s.threads[u] == Idle
  {
    hide Step, Run;
    var stall := StallAtTest(capacity, threads);
    var s := Run(Init(capacity, threads), stall);
    var take := NextAlone(s, 1);
    var s1 := Run(s, take);
    assert s1.held == multiset{0};
    var give := ReturnAlone(s1, 1, 0);
    es := stall + (take + give);
    RunAppend(Init(capacity, threads), stall, take + give);
    RunAppend(s, take, give);
  }

  /** Thread 0 has loaded both positions and is about to test slot 0. */
  lemma StallAtTest(capacity: nat, threads: nat) returns (es: seq<Event>)
    requires capacity >= 1 && threads >= 2
    ensures Run(Init(capacity, threads), es) == Goto(Init(capacity, threads), 0, CheckSlot(0))
  {
    var s := Init(capacity, threads);
    var s1, s2, s3 := Goto(s, 0, LoadRead), Goto(s, 0, LoadWrite(0)), Goto(s, 0, CheckSlot(0));
    assert Step(s, CallNext(0)) == s1 && Step(s1, Advance(0)) == s2 && Step(s2, Advance(0)) == s3;
    hide Step, Run;
    es := [CallNext(0)] + Accesses(0, 2);
    RunCons(s, CallNext(0), Accesses(0, 2));
    RunCons(s1, Advance(0), Accesses(0, 1));
    RunCons(s2, Advance(0), Accesses(0, 0));
    RunNothing(s3);
  }

  /** A thread on its own never works with an old read position. */
  ghost predicate UpToDate(s: State) {
    |s.threads| <= 1 && forall t | 0 <= t < |s.threads| ::
      s.threads[t].LoadWrite? || s.threads[t].CheckSlot? || s.threads[t].CasRead? ==> s.threads[t].pos == s.readPos
  }

  /** A read position is loaded current, and carried along unchanged. */
  predicate KeepsPosition(s: State, s': State, a: Pc, b: Pc) {
    b.LoadWrite? || b.CheckSlot? || b.CasRead? ==>
      s'.readPos == s.readPos
      && (b.pos == s.readPos || ((a.LoadWrite? || a.CheckSlot? || a.CasRead?) && a.pos == b.pos))
  }

  lemma MoveLoads(s: State, t: nat)
    requires Shaped(s) && t < |s.threads|
    ensures KeepsPosition(s, Move(s, t), s.threads[t], Move(s, t).threads[t])
  {
  }

  lemma LoadedPosition(s: State, e: Event)
    requires Shaped(s) && e.t < |s.threads|
    ensures KeepsPosition(s, Step(s, e), s.threads[e.t], Step(s, e).threads[e.t])
  {
    hide Move;
    if e.Advance? { MoveLoads(s, e.t); }
  }

  lemma UpToDateStep(s: State, e: Event)
    requires Shaped(s) && UpToDate(s)
    ensures UpToDate(Step(s, e))
  {
    if e.t < |s.threads| {
      hide Step;
      LoadedPosition(s, e);
    }
  }

  lemma {:induction false} AloneRun(s: State, es: seq<Event>)
    requires RingOk(s, Books(s)) && UpToDate(s)
    ensures RingOk(Run(s, es), Books(Run(s, es))) && UpToDate(Run(s, es))
    decreases |es|
  {
    if es != [] {
      SmallStepIsLapFree(s, es[0]);
      RingStep(s, es[0]);
      UpToDateStep(s, es[0]);
      AloneRun(Step(s, es[0]), es[1..]);
    }
  }

  lemma AloneSaysTheTruth(s: State, t: nat)
    requires RingOk(s, Books(s)) && UpToDate(s) && t < |s.threads| && SaysEmpty(s, t)
    ensures AsFifo(s).queue == []
  {
    hide Books;
    if s.threads[t].LoadWrite? {
      EqualPositionsMeanEmpty(s, t);
    } else {
      UnusedSlotHasAReason(s, t);
      var u := OwnerOfWrite(s, s.threads[t].pos);
    }
  }

  /** Exactly when Empty always means that nothing is free: with one thread at most, whatever the capacity. */
  lemma EmptyIsTrueExactlyWhenAlone(capacity: nat, threads: nat)
    requires capacity >= 1
    ensures EmptyIsTrue(capacity, threads) <==> threads <= 1
  {
    hide Step, Run, AnswersEmpty, Answered, SaysEmpty;
    var s := Init(capacity, threads);
    if threads <= 1 {
      InitRing(capacity, threads);
      forall es: seq<Event>, e: Event | e.t < threads && AnswersEmpty(Run(s, es), Step(Run(s, es), e), e.t)
        ensures AsFifo(Run(s, es)).queue == []
      {
        EveryCallIsAnswered(capacity, threads, es, e);
        AloneRun(s, es);
        AloneSaysTheTruth(Run(s, es), e.t);
      }
    } else {
      var es := EmptyCanBeSpurious(capacity, threads);
      EveryCallIsAnswered(capacity, threads, es, Advance(0));
      assert AnswersEmpty(Run(s, es), Step(Run(s, es), Advance(0)), 0) && AsFifo(Run(s, es)).queue != [];
    }
  }
}

/** How a call on the ring ends: what `Next` answers and what `Return` has done, in every state. */
module RingAnswers {
  import opened Remainder
  import opened RingProtocol

  predicate InNext(pc: Pc) {
    pc.LoadRead? || pc.LoadWrite? || pc.CheckSlot? || pc.CasRead? || pc.LoadSlot? || pc.ClearSlot?
  }

  predicate InReturn(pc: Pc) { pc.LoadTail? || pc.CasWrite? || pc.AwaitSlot? || pc.FillSlot? }

  /** The next access of thread `t` finds nothing to take: equal positions, or an unused slot. */
  predicate SaysEmpty(s: State, t: nat)
    requires Shaped(s) && t < |s.threads|
  {
    match s.threads[t]
    case LoadWrite(pos) => s.writePos == pos
    case CheckSlot(pos) => s.slots[Mod(pos, Size(s))] == 0
    case _ => false
  }

  /** Between `s` and `s'` the call of `Next` by thread `t` has returned without an index. */
  predicate AnswersEmpty(s: State, s': State, t: nat)
    requires t < |s.threads| == |s'.threads|
  {
    InNext(s.threads[t]) && s'.threads[t] == Idle && s'.held == s.held
  }

  /** ... has returned the index of its slot: the slot is unused now, and one caller more has that index. */
  predicate AnswersIndex(s: State, s': State, t: nat)
    requires Shaped(s) && t < |s.threads| == |s'.threads|
  {
    && s.threads[t].ClearSlot? && s'.threads[t] == Idle && s.threads[t].value > 0
    && s'.held == s.held + multiset{s.threads[t].value - 1}
    && s'.slots == s.slots[Mod(s.threads[t].pos, Size(s)) := 0]
  }

  /** ... the call of `Return` has returned: its own index is in the slot of its own ticket. */
  predicate HasReturned(s: State, s': State, t: nat)
    requires Shaped(s) && t < |s.threads| == |s'.threads|
  {
    && s.threads[t].FillSlot? && s'.threads[t] == Idle && s'.held == s.held
    && s'.slots == s.slots[Mod(s.threads[t].pos, Size(s)) := s.threads[t].index + 1]
  }

  /** A loaded value is a used slot's. */
  predicate LoadedUsed(pc: Pc) { pc.ClearSlot? ==> pc.value > 0 }

  ghost predicate AllLoadedUsed(s: State) { forall t | 0 <= t < |s.threads| :: LoadedUsed(s.threads[t]) }

  lemma LoadedStaysUsed(s: State, e: Event)
    requires Shaped(s) && AllLoadedUsed(s)
    ensures AllLoadedUsed(Step(s, e))
  {
    if e.t < |s.threads| {
      assert LoadedUsed(s.threads[e.t]);
      LoadedNext(s, e);
      OneThreadMoves(s, e);
      hide Step, LoadedUsed;
    }
  }

  lemma LoadedNext(s: State, e: Event)
    requires Shaped(s) && e.t < |s.threads| && LoadedUsed(s.threads[e.t])
    ensures LoadedUsed(Step(s, e).threads[e.t])
  {
  }

  // ---- Next

  /** The thread goes on, and nothing of its call shows yet. */
  predicate GoesOn(s: State, s': State, t: nat)
    requires t < |s.threads| == |s'.threads|
  {
    s'.held == s.held && s'.slots == s.slots && s'.threads[t] != Idle
    && (InNext(s'.threads[t]) <==> InNext(s.threads[t])) && (InReturn(s'.threads[t]) <==> InReturn(s.threads[t]))
  }

  lemma MoveOfNext(s: State, t: nat)
    requires Shaped(s) && t < |s.threads| && InNext(s.threads[t]) && LoadedUsed(s.threads[t])
    ensures var s' := Move(s, t);
      if SaysEmpty(s, t) then AnswersEmpty(s, s', t) && s'.slots == s.slots
      else if s.threads[t].ClearSlot? then AnswersIndex(s, s', t)
      else GoesOn(s, s', t)
  {
  }

  lemma MoveOfReturn(s: State, t: nat)
    requires Shaped(s) && t < |s.threads| && InReturn(s.threads[t])
    ensures if s.threads[t].FillSlot? then HasReturned(s, Move(s, t), t)
            else GoesOn(s, Move(s, t), t) && Carries(Move(s, t).threads[t]) == Carries(s.threads[t])
  {
  }

  lemma CallOrFailure(s: State, e: Event)
    requires Shaped(s) && e.t < |s.threads| && !e.Advance? && s.threads[e.t] != Idle
    ensures GoesOn(s, Step(s, e), e.t) && Carries(Step(s, e).threads[e.t]) == Carries(s.threads[e.t])
  {
  }

  /**
   A thread inside `Next` leaves it exactly by an access of its own that finds nothing and answers Empty, or by one
   that hands out the index of its slot.
   */
  predicate NextAnswered(s: State, s': State, e: Event)
    requires Shaped(s) && e.t < |s.threads| == |s'.threads|
  {
    if e.Advance? && SaysEmpty(s, e.t) then AnswersEmpty(s, s', e.t) && s'.slots == s.slots
    else if e.Advance? && s.threads[e.t].ClearSlot? then AnswersIndex(s, s', e.t)
    else GoesOn(s, s', e.t)
  }

  lemma NextEnds(s: State, e: Event)
    requires Shaped(s) && e.t < |s.threads| && InNext(s.threads[e.t]) && LoadedUsed(s.threads[e.t])
    ensures NextAnswered(s, Step(s, e), e)
    ensures AnswersEmpty(s, Step(s, e), e.t) <==> e.Advance? && SaysEmpty(s, e.t)
  {
    hide Move;
    if e.Advance? {
      MoveOfNext(s, e.t);
    } else {
      hide Step;
      CallOrFailure(s, e);
    }
  }

  /** A thread inside `Return` leaves it exactly by storing its own index in the slot of its own ticket. */
  predicate ReturnAnswered(s: State, s': State, e: Event)
    requires Shaped(s) && e.t < |s.threads| == |s'.threads|
  {
    if e.Advance? && s.threads[e.t].FillSlot? then HasReturned(s, s', e.t)
    else GoesOn(s, s', e.t) && Carries(s'.threads[e.t]) == Carries(s.threads[e.t])
  }

  lemma ReturnEnds(s: State, e: Event)
    requires Shaped(s) && e.t < |s.threads| && InReturn(s.threads[e.t])
    ensures ReturnAnswered(s, Step(s, e), e)
  {
    hide Move;
    if e.Advance? {
      MoveOfReturn(s, e.t);
    } else {
      hide Step;
      CallOrFailure(s, e);
    }
  }

  /** A thread between calls starts one or does nothing, and `Return` starts with an index some caller holds. */
  lemma CallStarts(s: State, e: Event)
    requires Shaped(s) && e.t < |s.threads| && s.threads[e.t] == Idle
    ensures var s' := Step(s, e);
      && s'.slots == s.slots
      && (InNext(s'.threads[e.t]) <==> e.CallNext?)
      && (InReturn(s'.threads[e.t]) <==> e.CallReturn? && e.index in s.held)
      && (InReturn(s'.threads[e.t]) ==> Carries(s'.threads[e.t]) == e.index && s'.held == s.held - multiset{e.index})
      && (!InReturn(s'.threads[e.t]) ==> s'.held == s.held)
  {
  }

  /** The claim of a position that was lost to another thread, or failed for no reason. */
  predicate ClaimFails(s: State, e: Event)
    requires e.t < |s.threads|
  {
    match s.threads[e.t]
    case CasRead(pos) => e.FailCas? || (e.Advance? && s.readPos != pos)
    case CasWrite(_, pos) => e.FailCas? || (e.Advance? && s.writePos != pos)
    case _ => false
  }

  /** A failed claim changes nothing but its thread, which starts over with a fresh load of the position. */
  lemma FailedClaimStartsOver(s: State, e: Event)
    requires Shaped(s) && e.t < |s.threads| && ClaimFails(s, e)
    ensures Step(s, e) ==
            Goto(s, e.t, if InNext(s.threads[e.t]) then LoadRead else LoadTail(Carries(s.threads[e.t])))
  {
  }

  // ---- over runs

  lemma {:induction false} LoadedInRuns(s: State, es: seq<Event>)
    requires Shaped(s) && AllLoadedUsed(s)
    ensures AllLoadedUsed(Run(s, es))
    decreases |es|
  {
    hide Step, LoadedUsed;
    if es != [] {
      LoadedStaysUsed(s, es[0]);
      LoadedInRuns(Step(s, es[0]), es[1..]);
    }
  }

  /** How the event `e` of thread `e.t` may show: start a call, go on, or end the call as its kind of call ends. */
  predicate Answered(s: State, s': State, e: Event)
    requires Shaped(s) && e.t < |s.threads| == |s'.threads|
  {
    var a, b := s.threads[e.t], s'.threads[e.t];
    if InNext(a) then NextAnswered(s, s', e)
    else if InReturn(a) then ReturnAnswered(s, s', e)
    else
      && s'.slots == s.slots
      && (InNext(b) <==> e.CallNext?) && (InReturn(b) <==> e.CallReturn? && e.index in s.held)
      && (if InReturn(b) then Carries(b) == e.index && s'.held == s.held - multiset{e.index} else s'.held == s.held)
  }

  lemma StepIsAnswered(s: State, e: Event)
    requires Shaped(s) && e.t < |s.threads| && LoadedUsed(s.threads[e.t])
    ensures Answered(s, Step(s, e), e)
  {
    hide Step, LoadedUsed, NextAnswered, ReturnAnswered;
    if InNext(s.threads[e.t]) {
      NextEnds(s, e);
    } else if InReturn(s.threads[e.t]) {
      ReturnEnds(s, e);
    } else {
      CallStarts(s, e);
    }
  }

  /** Every event of every run: no call ends in any other way, and an empty ring is the only reason for Empty. */
  lemma EveryCallIsAnswered(capacity: nat, threads: nat, es: seq<Event>, e: Event)
    requires capacity >= 1 && e.t < threads
    ensures var s := Run(Init(capacity, threads), es);
      && Answered(s, Step(s, e), e)
      && (AnswersEmpty(s, Step(s, e), e.t) <==> e.Advance? && SaysEmpty(s, e.t))
  {
    LoadedInRuns(Init(capacity, threads), es);
    hide Step, Run, Answered;
    var s := Run(Init(capacity, threads), es);
    StepIsAnswered(s, e);
    EmptyExactly(s, e);
  }

  lemma EmptyExactly(s: State, e: Event)
    requires Shaped(s) && e.t < |s.threads| && LoadedUsed(s.threads[e.t])
    ensures AnswersEmpty(s, Step(s, e), e.t) <==> e.Advance? && SaysEmpty(s, e.t)
  {
    hide Step;
    if InNext(s.threads[e.t]) { NextEnds(s, e); }
  }
}

/** How a call ends on the ring with bounded positions, and that an undisturbed one does. */
module RingWrapAnswers {
  import opened Remainder
  import opened RingProtocol
  import opened RingAnswers
  import opened RingDoubleHandOut
  import opened RingWrap
  import opened RingWrapAlone

  /** A thread in WrapOnOverflow is inside a call that is about to load its position. */
  predicate WrapsOk(b: Bounded) {
    Formed(b) && forall t | 0 <= t < |b.wraps| && b.wraps[t] != Out ::
      b.ring.threads[t].LoadRead? || b.ring.threads[t].LoadTail?
  }

  lemma StepOfOne(b: Bounded, e: Event)
    requires WrapsOk(b) && e.t < |b.wraps|
    ensures var b' := BoundedStep(b, e);
      && b'.wraps == b.wraps[e.t := b'.wraps[e.t]]
      && b'.ring.threads == b.ring.threads[e.t := b'.ring.threads[e.t]]
      && (b'.wraps[e.t] != Out ==> b'.ring.threads[e.t] == b.ring.threads[e.t]
                                   && (b.ring.threads[e.t].LoadRead? || b.ring.threads[e.t].LoadTail?))
  {
    assert b.wraps[e.t := b.wraps[e.t]] == b.wraps;
    assert b.ring.threads[e.t := b.ring.threads[e.t]] == b.ring.threads;
    OneThreadMoves(b.ring, e);
    hide Step;
  }

  lemma WrapsStep(b: Bounded, e: Event)
    requires WrapsOk(b)
    ensures WrapsOk(BoundedStep(b, e))
  {
    if e.t < |b.wraps| {
      hide BoundedStep;
      StepOfOne(b, e);
    }
  }

  /** A thread that is wrapping, or starts to, only goes on. */
  lemma WrappingGoesOn(b: Bounded, e: Event)
    requires WrapsOk(b) && e.t < |b.wraps|
    requires b.wraps[e.t] != Out || (e.Advance? && AtLimit(b, e.t))
    ensures GoesOn(b.ring, BoundedStep(b, e).ring, e.t) && !SaysEmpty(b.ring, e.t)
    ensures BoundedStep(b, e).ring.threads[e.t] == b.ring.threads[e.t]
    ensures b.ring.threads[e.t].LoadRead? || b.ring.threads[e.t].LoadTail?
  {
    hide Step;
  }

  lemma BoundedStepIsAnswered(b: Bounded, e: Event)
    requires WrapsOk(b) && e.t < |b.wraps| && LoadedUsed(b.ring.threads[e.t])
    ensures var s, s' := b.ring, BoundedStep(b, e).ring;
      && Answered(s, s', e)
      && (AnswersEmpty(s, s', e.t) <==> e.Advance? && SaysEmpty(s, e.t))
  {
    hide Step;
    if b.wraps[e.t] != Out || (e.Advance? && AtLimit(b, e.t)) {
      WrappingGoesOn(b, e);
    } else {
      StepIsAnswered(b.ring, e);
      EmptyExactly(b.ring, e);
      hide Answered, AnswersEmpty, SaysEmpty;
    }
  }

  lemma BoundedLoadedUsed(b: Bounded, e: Event)
    requires WrapsOk(b) && AllLoadedUsed(b.ring)
    ensures AllLoadedUsed(BoundedStep(b, e).ring)
  {
    LoadedStaysUsed(b.ring, e);
    hide Step, LoadedUsed;
  }

  lemma {:induction false} CallsInRuns(b: Bounded, es: seq<Event>)
    requires WrapsOk(b) && AllLoadedUsed(b.ring)
    ensures WrapsOk(BoundedRun(b, es)) && AllLoadedUsed(BoundedRun(b, es).ring)
    decreases |es|
  {
    if es != [] {
      hide BoundedStep, LoadedUsed;
      WrapsStep(b, es[0]);
      BoundedLoadedUsed(b, es[0]);
      CallsInRuns(BoundedStep(b, es[0]), es[1..]);
    }
  }

  /** Every event of every run with the bounded positions of the code. */
  lemma EveryBoundedCallIsAnswered(capacity: nat, threads: nat, limit: nat, es: seq<Event>, e: Event)
    requires capacity >= 1 && e.t < threads
    ensures var b := BoundedRun(BoundedInit(capacity, threads, limit), es);
      && Answered(b.ring, BoundedStep(b, e).ring, e)
      && (AnswersEmpty(b.ring, BoundedStep(b, e).ring, e.t) <==> e.Advance? && SaysEmpty(b.ring, e.t))
  {
    CallsInRuns(BoundedInit(capacity, threads, limit), es);
    hide BoundedStep, BoundedRun, Answered, AnswersEmpty, SaysEmpty;
    BoundedStepIsAnswered(BoundedRun(BoundedInit(capacity, threads, limit), es), e);
  }

  // ---- an undisturbed call gets to its ticket or its end

  /** Accesses from a fresh load to the claim, the wrap included. */
  function FromLoad(position: nat, limit: nat, claim: nat): nat { if position == limit then claim + 3 else claim }

  /** At most how many accesses of its own a thread in `Next` is away from its claim or its end. */
  function NextWork(b: Bounded, t: nat): nat
    requires Formed(b) && t < |b.wraps|
  {
    var r := b.ring.readPos;
    match b.wraps[t]
    case Reload => if r == b.limit then 6 else 5
    case Swap => if r == b.limit then 5 else 6
    case Out =>
      match b.ring.threads[t]
      case LoadRead => FromLoad(r, b.limit, 4)
      case LoadWrite(pos) => 3 + if pos == r then 0 else FromLoad(r, b.limit, 4)
      case CheckSlot(pos) => 2 + if pos == r then 0 else FromLoad(r, b.limit, 4)
      case CasRead(pos) => 1 + if pos == r then 0 else FromLoad(r, b.limit, 4)
      case _ => 0
  }

  function ReturnWork(b: Bounded, t: nat): nat
    requires Formed(b) && t < |b.wraps|
  {
    var w := b.ring.writePos;
    match b.wraps[t]
    case Reload => if w == b.limit then 4 else 3
    case Swap => if w == b.limit then 3 else 4
    case Out =>
      match b.ring.threads[t]
      case LoadTail(_) => FromLoad(w, b.limit, 2)
      case CasWrite(_, pos) => 1 + if pos == w then 0 else FromLoad(w, b.limit, 2)
      case _ => 0
  }

  /** Inside a call and without a ticket. */
  predicate Seeking(pc: Pc) { (InNext(pc) && ReadAt(pc) < 0) || (InReturn(pc) && WriteAt(pc) < 0) }

  function Work(b: Bounded, t: nat): nat
    requires Formed(b) && t < |b.wraps|
  {
    if InNext(b.ring.threads[t]) then NextWork(b, t) else ReturnWork(b, t)
  }

  lemma WrapWorks(b: Bounded, t: nat)
    requires WrapsOk(b) && b.limit > 0 && t < |b.wraps| && (b.wraps[t] != Out || AtLimit(b, t))
    ensures var b' := BoundedStep(b, Advance(t));
      b'.ring.threads == b.ring.threads && Work(b', t) < Work(b, t) <= 10
  {
    hide Step;
  }

  lemma AccessWorks(b: Bounded, t: nat)
    requires WrapsOk(b) && b.limit > 0 && t < |b.wraps| && b.wraps[t] == Out && !AtLimit(b, t)
    requires Seeking(b.ring.threads[t])
    ensures var b' := BoundedStep(b, Advance(t));
      Work(b, t) <= 10 && (Seeking(b'.ring.threads[t]) ==> Work(b', t) < Work(b, t))
  {
  }

  lemma SeekingWorks(b: Bounded, t: nat)
    requires WrapsOk(b) && b.limit > 0 && t < |b.wraps| && Seeking(b.ring.threads[t])
    ensures var b' := BoundedStep(b, Advance(t));
      Work(b, t) <= 10 && (Seeking(b'.ring.threads[t]) ==> Work(b', t) < Work(b, t))
  {
    hide BoundedStep, Work;
    if b.wraps[t] != Out || AtLimit(b, t) { WrapWorks(b, t); } else { AccessWorks(b, t); }
  }

  /**
   Whatever the others have done before, a thread that is left alone inside a call has claimed its position or
   ended its call after at most ten accesses of its own.
   */
  lemma {:induction false} SeekingEnds(b: Bounded, t: nat) returns (k: nat)
    requires WrapsOk(b) && b.limit > 0 && t < |b.wraps| && Seeking(b.ring.threads[t])
    ensures k <= Work(b, t) + 1 <= 11
    ensures !Seeking(BoundedRun(b, Accesses(t, k)).ring.threads[t])
    decreases Work(b, t)
  {
    hide BoundedStep, Work, BoundedRun;
    SeekingWorks(b, t);
    WrapsStep(b, Advance(t));
    var b' := BoundedStep(b, Advance(t));
    if Seeking(b'.ring.threads[t]) {
      var j := SeekingEnds(b', t);
      k := j + 1;
    } else {
      k := 1;
      BoundedNothing(b');
    }
    BoundedAccess(b, t, k);
  }
}

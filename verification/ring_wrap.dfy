/**
 The ring with the bounded positions of the code: a thread that loads a position equal to `limit` first moves
 it back to 0, in accesses of its own, and then loads again. Until that happens for the first time the ring is
 the ring with unbounded positions.
 */
module RingWrap {
  import opened Bags
  import opened Remainder
  import opened RingProtocol
  import opened RingSafety
  import opened RingGuarantees
  import opened RingLaps

  /** Where a thread stands inside WrapOnOverflow. */
  datatype Wrap =
    | Out           // not in it
    | Reload        // about to load the position again
    | Swap          // loaded the limit, about to replace it by 0

  /**
   A thread in WrapOnOverflow will load its position from the start afterwards, so its place in the ring is
   `LoadRead` or `LoadTail` meanwhile; that also tells which of the positions it wraps.
   */
  datatype Bounded = Bounded(limit: nat, ring: State, wraps: seq<Wrap>)

  function BoundedInit(capacity: nat, threads: nat, limit: nat): Bounded {
    Bounded(limit, Init(capacity, threads), seq(threads, _ => Out))
  }

  predicate Formed(b: Bounded) {
    Shaped(b.ring) && |b.wraps| == |b.ring.threads|
  }

  /** The next access of thread `t` is a load of a position that has reached the limit, or concerns its wrap. */
  predicate AtLimit(b: Bounded, t: nat)
    requires t < |b.ring.threads|
  {
    match b.ring.threads[t]
    case LoadRead => b.ring.readPos == b.limit
    case LoadTail(_) => b.ring.writePos == b.limit
    case _ => false
  }

  function Wrapping(b: Bounded, t: nat, wrap: Wrap): Bounded
    requires t < |b.wraps|
  {
    b.(wraps := b.wraps[t := wrap])
  }

  /** The position thread `t` wants to load becomes 0. */
  function Zeroed(b: Bounded, t: nat): Bounded
    requires t < |b.ring.threads|
  {
    if b.ring.threads[t].LoadRead? then b.(ring := b.ring.(readPos := 0)) else b.(ring := b.ring.(writePos := 0))
  }

  /** One atomic access of thread `t`. */
  function BoundedMove(b: Bounded, t: nat): Bounded
    requires Formed(b) && t < |b.wraps|
  {
    match b.wraps[t]
    case Out => if AtLimit(b, t) then Wrapping(b, t, Reload) else b.(ring := Step(b.ring, Advance(t)))
    case Reload => Wrapping(b, t, if AtLimit(b, t) then Swap else Out)
    case Swap => if AtLimit(b, t) then Zeroed(Wrapping(b, t, Out), t) else Wrapping(b, t, Reload)
  }

  /** Calls are as before; a weak compare-and-swap can also fail while a position is being wrapped. */
  function BoundedStep(b: Bounded, e: Event): (b': Bounded)
    requires Formed(b)
    ensures Formed(b') && b'.limit == b.limit && b'.ring.capacity == b.ring.capacity
    ensures |b'.wraps| == |b.wraps|
  {
    if e.t >= |b.wraps| then b
    else if e.Advance? then BoundedMove(b, e.t)
    else if b.wraps[e.t] == Out then b.(ring := Step(b.ring, e))
    else if e.FailCas? && b.wraps[e.t] == Swap then Wrapping(b, e.t, Reload)
    else b
  }

  function BoundedRun(b: Bounded, es: seq<Event>): (b': Bounded)
    requires Formed(b)
    ensures Formed(b') && b'.limit == b.limit && b'.ring.capacity == b.ring.capacity
    ensures |b'.wraps| == |b.wraps|
    decreases |es|
  {
    if es == [] then b else BoundedRun(BoundedStep(b, es[0]), es[1..])
  }

  lemma BoundedNothing(b: Bounded)
    requires Formed(b)
    ensures BoundedRun(b, []) == b
  {
  }

  lemma BoundedCons(b: Bounded, e: Event, rest: seq<Event>)
    requires Formed(b)
    ensures BoundedRun(b, [e] + rest) == BoundedRun(BoundedStep(b, e), rest)
  {
    hide BoundedStep;
    assert ([e] + rest)[1..] == rest;
  }

  lemma {:induction false} BoundedAppend(b: Bounded, a: seq<Event>, c: seq<Event>)
    requires Formed(b)
    ensures BoundedRun(b, a + c) == BoundedRun(BoundedRun(b, a), c)
    decreases |a|
  {
    hide BoundedStep;
    if a == [] {
      assert a + c == c;
    } else {
      BoundedAppend(BoundedStep(b, a[0]), a[1..], c);
      assert (a + c)[1..] == a[1..] + c;
    }
  }

  // ---- until a position reaches the limit

  predicate NobodyWraps(b: Bounded) { forall t | 0 <= t < |b.wraps| :: b.wraps[t] == Out }

  lemma StepBelowLimit(b: Bounded, e: Event)
    requires Formed(b) && (e.t < |b.wraps| ==> b.wraps[e.t] == Out && !AtLimit(b, e.t))
    ensures BoundedStep(b, e) == b.(ring := Step(b.ring, e))
  {
    hide Step;
    if e.t >= |b.wraps| { OutsideStep(b.ring, e); }
  }

  lemma OutsideStep(s: State, e: Event)
    requires Shaped(s) && e.t >= |s.threads|
    ensures Step(s, e) == s
  {
  }

  lemma WriteOnlyGrows(s: State, e: Event)
    requires Shaped(s)
    ensures s.writePos <= Step(s, e).writePos
  {
  }

  lemma {:induction false} WriteOnlyGrowsInRuns(s: State, es: seq<Event>)
    requires Shaped(s)
    ensures s.writePos <= Run(s, es).writePos
    decreases |es|
  {
    hide Step;
    if es != [] {
      WriteOnlyGrows(s, es[0]);
      WriteOnlyGrowsInRuns(Step(s, es[0]), es[1..]);
    }
  }

  lemma BelowLimit(b: Bounded, t: nat)
    requires Formed(b) && Tickets(b.ring) && b.ring.writePos < b.limit && t < |b.wraps|
    ensures !AtLimit(b, t)
  {
    hide Books;
  }

  /**
   A run that leaves the unbounded write position below the limit is the same run with bounded positions, so
   that everything proved of the one holds of the other.
   */
  lemma {:induction false} SameBelowLimit(b: Bounded, es: seq<Event>)
    requires Formed(b) && NobodyWraps(b) && Tickets(b.ring) && Run(b.ring, es).writePos < b.limit
    ensures BoundedRun(b, es) == b.(ring := Run(b.ring, es))
    decreases |es|
  {
    if es != [] {
      hide Step, BoundedStep, Tickets;
      WriteOnlyGrowsInRuns(b.ring, es);
      if es[0].t < |b.wraps| { BelowLimit(b, es[0].t); }
      StepBelowLimit(b, es[0]);
      TicketsStep(b.ring, es[0]);
      SameBelowLimit(BoundedStep(b, es[0]), es[1..]);
    }
  }

  // ---- a limit on the calls that keeps the positions below theirs

  /** How many calls of `Return` a run starts, at most. */
  function Returns(es: seq<Event>): nat {
    if es == [] then 0 else (if es[0].CallReturn? then 1 else 0) + Returns(es[1..])
  }

  /** The write position plus the returns that will still move it. */
  ghost function Reach(s: State): nat { s.writePos + |Books(s).unclaimed| }

  lemma ReachGrows(s: State, e: Event)
    requires Shaped(s)
    ensures Reach(Step(s, e)) <= Reach(s) + if e.CallReturn? then 1 else 0
  {
    if e.t < |s.threads| {
      BooksStep(s, e);
      hide Books;
      ReachOfThread(s, e, Books(s).unclaimed);
    }
  }

  /** A return is unclaimed from its call to its claim of the write position. */
  lemma UnclaimedMoves(s: State, e: Event)
    requires Shaped(s) && e.t < |s.threads|
    ensures var a, b, s' := Unticketed(s.threads[e.t]), Unticketed(Step(s, e).threads[e.t]), Step(s, e);
      || (s'.writePos == s.writePos && a == b)
      || (s'.writePos == s.writePos && a < 0 && e.CallReturn?)
      || (s'.writePos == s.writePos + 1 && a >= 0 && b < 0)
  {
  }

  lemma ReachOfThread(s: State, e: Event, m: multiset<nat>)
    requires Shaped(s) && e.t < |s.threads|
    requires Unticketed(s.threads[e.t]) >= 0 ==> Unticketed(s.threads[e.t]) in m
    ensures var s' := Step(s, e);
      s'.writePos + |Rebook(m, Unticketed(s.threads[e.t]), Unticketed(s'.threads[e.t]))|
        <= s.writePos + |m| + if e.CallReturn? then 1 else 0
  {
    hide Step, Unticketed;
    UnclaimedMoves(s, e);
  }

  lemma {:induction false} ReachInRuns(s: State, es: seq<Event>)
    requires Shaped(s)
    ensures Reach(Run(s, es)) <= Reach(s) + Returns(es)
    decreases |es|
  {
    hide Step, Reach;
    if es != [] {
      ReachGrows(s, es[0]);
      ReachInRuns(Step(s, es[0]), es[1..]);
    }
  }

  /** As long as fewer than limit - capacity returns were called, no position has wrapped. */
  lemma FewReturnsNeverWrap(capacity: nat, threads: nat, limit: nat, es: seq<Event>)
    requires capacity >= 1 && capacity + Returns(es) < limit
    ensures BoundedRun(BoundedInit(capacity, threads, limit), es).ring == Run(Init(capacity, threads), es)
  {
    TicketsInit(capacity, threads);
    ReachInRuns(Init(capacity, threads), es);
    SameBelowLimit(BoundedInit(capacity, threads, limit), es);
  }
}

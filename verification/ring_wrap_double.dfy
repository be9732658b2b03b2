/** The wrap of the positions can hand one index to two callers, with two threads or with a single index. */
module RingWrapDouble {
  import opened Remainder
  import opened RingProtocol
  import opened RingDoubleHandOut
  import opened RingWrap
  import opened RingWrapAlone

  // ---- two threads, two or more indices

  /** Positions `read` to `write` have used slots, and from there up to `end` unused ones. */
  ghost predicate Belt(slots: seq<nat>, read: nat, write: nat, end: nat) {
    && |slots| > 0 && read <= write <= end <= read + |slots|
    && (forall p: nat | read <= p < write :: UsedAt(slots, p))
    && (forall p: nat | write <= p < end :: UnusedAt(slots, p))
  }

  predicate UsedAt(slots: seq<nat>, p: nat) requires |slots| > 0 { slots[Mod(p, |slots|)] != 0 }
  predicate UnusedAt(slots: seq<nat>, p: nat) requires |slots| > 0 { slots[Mod(p, |slots|)] == 0 }

  /** Less than a lap away, a store to one slot is not seen. */
  lemma StoreElsewhere(slots: seq<nat>, p: nat, q: nat, value: nat)
    requires |slots| > 0 && p != q && p < q + |slots| && q < p + |slots|
    ensures slots[Mod(p, |slots|) := value][Mod(q, |slots|)] == slots[Mod(q, |slots|)]
  {
    hide Mod;
    if p < q { ModClash(p, q, |slots|); } else { ModClash(q, p, |slots|); }
  }

  lemma BeltTakes(slots: seq<nat>, read: nat, write: nat, end: nat)
    requires Belt(slots, read, write, end) && read < write
    ensures Belt(slots[Mod(read, |slots|) := 0], read + 1, write, end)
  {
    hide Mod;
    var slots' := slots[Mod(read, |slots|) := 0];
    forall p: nat | read + 1 <= p < write ensures UsedAt(slots', p) {
      assert UsedAt(slots, p);
      StoreElsewhere(slots, read, p, 0);
    }
    forall p: nat | write <= p < end ensures UnusedAt(slots', p) {
      assert UnusedAt(slots, p);
      if p < read + |slots| { StoreElsewhere(slots, read, p, 0); }
    }
  }

  lemma BeltGives(slots: seq<nat>, read: nat, write: nat, end: nat, value: nat)
    requires Belt(slots, read, write, end) && write < end && value != 0
    ensures Belt(slots[Mod(write, |slots|) := value], read, write + 1, end)
  {
    hide Mod;
    var slots' := slots[Mod(write, |slots|) := value];
    forall p: nat | read <= p < write ensures UsedAt(slots', p) {
      assert UsedAt(slots, p);
      StoreElsewhere(slots, write, p, value);
    }
    forall p: nat | write + 1 <= p < end ensures UnusedAt(slots', p) {
      assert UnusedAt(slots, p);
      StoreElsewhere(slots, write, p, value);
    }
  }

  /** A slot that was just cleared is the next unused one at the far end. */
  lemma BeltMovesOn(slots: seq<nat>, read: nat, write: nat, end: nat)
    requires Belt(slots, read + 1, write, end) && end == read + |slots| && slots[Mod(read, |slots|)] == 0
    ensures Belt(slots, read + 1, write, end + 1)
  {
    hide Mod;
    ModShift(read, |slots|);
    forall p: nat | write <= p < end + 1 ensures UnusedAt(slots, p) {
      if p < end { assert UnusedAt(slots, p); }
    }
  }

  /** Thread 1 is between calls, nobody is wrapping, and no position is past the limit. */
  ghost predicate OnBelt(b: Bounded, read: nat, write: nat, end: nat) {
    && AtRest(b, 1) && NobodyWraps(b)
    && b.ring.readPos == read && b.ring.writePos == write
    && Belt(b.ring.slots, read, write, end)
  }

  /** What thread 1 does leaves the others, their wraps and the size of the ring alone. */
  predicate SameOthers(b: Bounded, b': Bounded) {
    && b'.limit == b.limit && b'.wraps == b.wraps && b'.ring.threads == b.ring.threads
    && b'.ring.capacity == b.ring.capacity
  }

  /** The slots of the earlier positions of the lap that ends at `end` are untouched. */
  ghost predicate EarlierKept(slots: seq<nat>, slots': seq<nat>, read: nat, end: nat) {
    |slots'| == |slots| > 0 && forall p: nat | p < read && end <= p + |slots| :: KeptAt(slots, slots', p)
  }

  predicate KeptAt(slots: seq<nat>, slots': seq<nat>, p: nat)
    requires |slots'| == |slots| > 0
  {
    slots'[Mod(p, |slots|)] == slots[Mod(p, |slots|)]
  }

  lemma StoreKeepsEarlier(slots: seq<nat>, p: nat, value: nat, read: nat, end: nat)
    requires |slots| > 0 && read <= p < end
    ensures EarlierKept(slots, slots[Mod(p, |slots|) := value], read, end)
  {
    hide Mod;
    var slots' := slots[Mod(p, |slots|) := value];
    forall q: nat | q < read && end <= q + |slots| ensures KeptAt(slots, slots', q) {
      StoreElsewhere(slots, p, q, value);
    }
  }

  lemma TakeOnBelt(b: Bounded, read: nat, write: nat, end: nat) returns (es: seq<Event>, index: nat)
    requires OnBelt(b, read, write, end) && read < write && read != b.limit
    ensures var b' := BoundedRun(b, es);
      && OnBelt(b', read + 1, write, end) && SameOthers(b, b')
      && EarlierKept(b.ring.slots, b'.ring.slots, read, end)
      && b'.ring.slots[Mod(read, Size(b.ring))] == 0
      && b'.ring.held == b.ring.held + multiset{index}
  {
    hide BoundedRun, Mod;
    assert UsedAt(b.ring.slots, read);
    index := b.ring.slots[Mod(read, Size(b.ring))] - 1;
    BeltTakes(b.ring.slots, read, write, end);
    StoreKeepsEarlier(b.ring.slots, read, 0, read, end);
    es := TakeAlone(b, 1);
  }

  lemma GiveOnBelt(b: Bounded, read: nat, write: nat, end: nat, index: nat) returns (es: seq<Event>)
    requires OnBelt(b, read, write, end) && write < end && write != b.limit && index in b.ring.held
    ensures var b' := BoundedRun(b, es);
      && OnBelt(b', read, write + 1, end) && SameOthers(b, b')
      && EarlierKept(b.ring.slots, b'.ring.slots, read, end)
      && b'.ring.held == b.ring.held - multiset{index}
  {
    hide BoundedRun, Mod;
    assert UnusedAt(b.ring.slots, write);
    BeltGives(b.ring.slots, read, write, end, index + 1);
    StoreKeepsEarlier(b.ring.slots, write, index + 1, read, end);
    es := GiveAlone(b, 1, index);
  }

  lemma KeptTwice(a: seq<nat>, b: seq<nat>, c: seq<nat>, read: nat, end: nat)
    requires EarlierKept(a, b, read, end) && EarlierKept(b, c, read + 1, end)
    ensures EarlierKept(a, c, read, end)
  {
    hide Mod;
    forall p: nat | p < read && end <= p + |a| ensures KeptAt(a, c, p) {
      assert KeptAt(a, b, p) && KeptAt(b, c, p);
    }
  }

  /** Thread 1 takes the oldest index and returns it. */
  lemma AroundOnBelt(b: Bounded, read: nat, write: nat, end: nat) returns (es: seq<Event>)
    requires OnBelt(b, read, write, end) && read < write < end && read != b.limit && write != b.limit
    ensures var b' := BoundedRun(b, es);
      && OnBelt(b', read + 1, write + 1, end) && SameOthers(b, b')
      && EarlierKept(b.ring.slots, b'.ring.slots, read, end)
      && b'.ring.held == b.ring.held
  {
    BeltIsFormed(b, read, write, end);
    hide BoundedRun, OnBelt, Mod, EarlierKept;
    var first, index := TakeOnBelt(b, read, write, end);
    var b1 := BoundedRun(b, first);
    var second := GiveOnBelt(b1, read + 1, write, end, index);
    KeptTwice(b.ring.slots, b1.ring.slots, BoundedRun(b1, second).ring.slots, read, end);
    es := first + second;
    BoundedAppend(b, first, second);
    assert b.ring.held + multiset{index} - multiset{index} == b.ring.held;
  }

  /** Thread 1 takes the oldest index and returns it, in a ring that nobody else uses: the belt moves on. */
  lemma AroundFreely(b: Bounded, read: nat, write: nat) returns (es: seq<Event>)
    requires OnBelt(b, read, write, read + Size(b.ring)) && read < write < read + Size(b.ring)
    requires read != b.limit && write != b.limit
    ensures var b' := BoundedRun(b, es);
      OnBelt(b', read + 1, write + 1, read + 1 + Size(b.ring)) && SameOthers(b, b') && b'.ring.held == b.ring.held
  {
    BeltIsFormed(b, read, write, read + Size(b.ring));
    hide BoundedRun, Mod, EarlierKept, Belt, OnBelt;
    var end := read + Size(b.ring);
    var first, index := TakeOnBelt(b, read, write, end);
    var b1 := BoundedRun(b, first);
    LongerBelt(b1, read, write);
    var second := GiveOnBelt(b1, read + 1, write, end + 1, index);
    es := first + second;
    BoundedAppend(b, first, second);
    assert b.ring.held + multiset{index} - multiset{index} == b.ring.held;
  }

  lemma LongerBelt(b: Bounded, read: nat, write: nat)
    requires OnBelt(b, read + 1, write, read + Size(b.ring)) && b.ring.slots[Mod(read, Size(b.ring))] == 0
    ensures OnBelt(b, read + 1, write, read + Size(b.ring) + 1)
  {
    BeltMovesOn(b.ring.slots, read, write, read + Size(b.ring));
  }

  lemma InitOnBelt(capacity: nat, threads: nat, limit: nat)
    requires capacity >= 1 && threads >= 2 && limit > 0
    ensures OnBelt(BoundedInit(capacity, threads, limit), 0, capacity, 2 * capacity)
  {
    var slots := Init(capacity, threads).slots;
    forall p: nat | 0 <= p < capacity ensures UsedAt(slots, p) {}
    forall p: nat | capacity <= p < 2 * capacity ensures UnusedAt(slots, p) {}
  }

  /** Thread 1 turns the ring until the last lap before the limit. */
  lemma {:induction false} TurnTo(b: Bounded, read: nat, goal: nat) returns (es: seq<Event>)
    requires b.ring.capacity >= 1 && OnBelt(b, read, read + b.ring.capacity, read + Size(b.ring))
    requires read <= goal && goal + b.ring.capacity <= b.limit
    ensures var b' := BoundedRun(b, es);
      && OnBelt(b', goal, goal + b.ring.capacity, goal + Size(b.ring)) && SameOthers(b, b')
      && b'.ring.held == b.ring.held
    decreases goal - read
  {
    if read == goal {
      es := [];
      BoundedNothing(b);
    } else {
      hide BoundedRun, OnBelt;
      assert Formed(b) by { BeltIsFormed(b, read, read + b.ring.capacity, read + Size(b.ring)); }
      var first := AroundFreely(b, read, read + b.ring.capacity);
      var rest := TurnTo(BoundedRun(b, first), read + 1, goal);
      es := first + rest;
      BoundedAppend(b, first, rest);
    }
  }

  lemma BeltIsFormed(b: Bounded, read: nat, write: nat, end: nat)
    requires OnBelt(b, read, write, end)
    ensures Formed(b)
  {
  }

  /** Thread 1 turns the ring until the write position is at the limit. */
  lemma {:induction false} TurnToLimit(b: Bounded, read: nat, write: nat) returns (es: seq<Event>)
    requires OnBelt(b, read, write, b.limit) && read < write
    ensures var b' := BoundedRun(b, es);
      && OnBelt(b', read + (b.limit - write), b.limit, b.limit) && SameOthers(b, b')
      && EarlierKept(b.ring.slots, b'.ring.slots, read, b.limit)
    decreases b.limit - write
  {
    if write == b.limit {
      es := [];
      BoundedNothing(b);
    } else {
      BeltIsFormed(b, read, write, b.limit);
      var first := AroundOnBelt(b, read, write, b.limit);
      hide BoundedRun, OnBelt, EarlierKept;
      var b1 := BoundedRun(b, first);
      var rest := TurnToLimit(b1, read + 1, write + 1);
      es := first + rest;
      BoundedAppend(b, first, rest);
      KeptTwice(b.ring.slots, b1.ring.slots, BoundedRun(b1, rest).ring.slots, read, b.limit);
    }
  }

  /** Thread 1 takes everything up to the limit. */
  lemma {:induction false} TakeToLimit(b: Bounded, read: nat) returns (es: seq<Event>)
    requires OnBelt(b, read, b.limit, b.limit)
    ensures var b' := BoundedRun(b, es);
      && OnBelt(b', b.limit, b.limit, b.limit) && SameOthers(b, b')
      && EarlierKept(b.ring.slots, b'.ring.slots, read, b.limit)
    decreases b.limit - read
  {
    if read == b.limit {
      es := [];
      BoundedNothing(b);
    } else {
      BeltIsFormed(b, read, b.limit, b.limit);
      var first, index := TakeOnBelt(b, read, b.limit, b.limit);
      hide BoundedRun, OnBelt, EarlierKept;
      var b1 := BoundedRun(b, first);
      var rest := TakeToLimit(b1, read + 1);
      es := first + rest;
      BoundedAppend(b, first, rest);
      KeptTwice(b.ring.slots, b1.ring.slots, BoundedRun(b1, rest).ring.slots, read, b.limit);
    }
  }

  /** Thread 0 stops before clearing the slot of position `p`; thread 1 has the rest of the ring. */
  ghost predicate Stopped(b: Bounded, p: nat, value: nat) {
    && Formed(b) && |b.wraps| >= 2 && value != 0
    && b.ring.threads[0] == ClearSlot(p, value) && b.ring.slots[Mod(p, Size(b.ring))] == value
  }

  lemma StopFirstReader(b: Bounded, p: nat) returns (es: seq<Event>, value: nat)
    requires OnBelt(b, p, p + b.ring.capacity, p + Size(b.ring)) && AtRest(b, 0)
    requires b.ring.capacity >= 1 && p < b.limit
    ensures var b' := BoundedRun(b, es);
      && Stopped(b', p, value) && OnBelt(b', p + 1, p + b.ring.capacity, p + Size(b.ring))
      && b'.limit == b.limit && b'.ring.capacity == b.ring.capacity
  {
    hide BoundedRun, Mod;
    assert UsedAt(b.ring.slots, p);
    value := b.ring.slots[Mod(p, Size(b.ring))];
    es := NextToClear(b, 0);
    ShorterBelt(b.ring.slots, p, p + b.ring.capacity, p + Size(b.ring));
  }

  lemma ShorterBelt(slots: seq<nat>, read: nat, write: nat, end: nat)
    requires Belt(slots, read, write, end) && read < write
    ensures Belt(slots, read + 1, write, end)
  {
    hide Mod;
  }

  lemma StillStopped(b: Bounded, b': Bounded, p: nat, value: nat)
    requires Stopped(b, p, value) && Formed(b') && SameOthers(b, b')
    requires EarlierKept(b.ring.slots, b'.ring.slots, p + 1, p + Size(b.ring))
    ensures Stopped(b', p, value)
  {
    hide Mod;
    assert KeptAt(b.ring.slots, b'.ring.slots, p);
  }

  /** The state in question: the next read position is 0, not equal to the write position, its slot not cleared. */
  lemma WrapMeetsStopped(b: Bounded, p: nat, value: nat)
    requires OnBelt(b, b.limit, b.limit, b.limit) && Stopped(b, p, value) && Mod(p, Size(b.ring)) == 0
    ensures AtRest(b, 1) && NobodyWraps(b) && PastPositions(b) && Tested(b) == 0
    ensures b.ring.slots[0] == value > 0 && b.ring.threads[0] == ClearSlot(p, value)
  {
    assert Mod(0, Size(b.ring)) == 0;
    hide Belt;
  }

  /**
   With both positions at the limit and thread 0 stopped a lap before it, the read position wraps, is no longer
   equal to the write position, and its slot is the one thread 0 has yet to clear.
   */
  lemma HandOutAgain(b: Bounded, p: nat, value: nat) returns (es: seq<Event>)
    requires OnBelt(b, b.limit, b.limit, b.limit) && Stopped(b, p, value) && Mod(p, Size(b.ring)) == 0
    ensures value > 0 && BoundedRun(b, es).ring.held[value - 1] >= 2
  {
    WrapMeetsStopped(b, p, value);
    hide BoundedRun, Mod, OnBelt, Stopped, PastPositions, Tested;
    var first := TakeAlone(b, 1);
    var b1 := BoundedRun(b, first);
    ClearAlone(b1, 0);
    es := first + Accesses(0, 1);
    BoundedAppend(b, first, Accesses(0, 1));
  }

  /** The state before the wrap: both positions at the limit, thread 0 stopped at the last lap. */
  lemma StopAtLimit(b: Bounded, p: nat) returns (es: seq<Event>, value: nat)
    requires OnBelt(b, p, p + b.ring.capacity, p + Size(b.ring)) && AtRest(b, 0)
    requires b.ring.capacity >= 2 && b.limit == p + Size(b.ring)
    ensures var b' := BoundedRun(b, es);
      && Stopped(b', p, value) && OnBelt(b', b'.limit, b'.limit, b'.limit)
      && b'.limit == b.limit && b'.ring.capacity == b.ring.capacity
  {
    BeltIsFormed(b, p, p + b.ring.capacity, p + Size(b.ring));
    hide BoundedRun, OnBelt, Mod, Stopped, EarlierKept;
    var first;
    first, value := StopFirstReader(b, p);
    var b1 := BoundedRun(b, first);
    var second := TurnToLimit(b1, p + 1, p + b.ring.capacity);
    var b2 := BoundedRun(b1, second);
    StillStopped(b1, b2, p, value);
    var third := TakeToLimit(b2, p + 1 + b.ring.capacity);
    var b3 := BoundedRun(b2, third);
    LessKept(b2.ring.slots, b3.ring.slots, p + 1, p + 1 + b.ring.capacity, b.limit);
    StillStopped(b2, b3, p, value);
    es := first + (second + third);
    BoundedAppend(b, first, second + third);
    BoundedAppend(b1, second, third);
  }

  lemma LessKept(slots: seq<nat>, slots': seq<nat>, low: nat, high: nat, end: nat)
    requires low <= high && EarlierKept(slots, slots', high, end)
    ensures EarlierKept(slots, slots', low, end)
  {
    hide Mod;
    forall p: nat | p < low && end <= p + |slots| ensures KeptAt(slots, slots', p) {
      assert KeptAt(slots, slots', p);
    }
  }

  lemma LastLap(capacity: nat, laps: nat)
    requires capacity >= 1 && laps >= 1
    ensures var size, p := 2 * capacity, Laps(laps - 1, 2 * capacity);
      Laps(laps, size) == p + size && Mod(p, size) == 0
  {
    ModLaps(0, laps - 1, 2 * capacity);
  }

  lemma InitBounded(capacity: nat, threads: nat, limit: nat)
    requires capacity >= 1 && threads >= 1 && limit > 0
    ensures var b := BoundedInit(capacity, threads, limit);
      Formed(b) && AtRest(b, 0) && b.limit == limit && b.ring.capacity == capacity
  {
  }

  lemma StillAtRest(b: Bounded, b': Bounded, t: nat)
    requires AtRest(b, t) && Formed(b') && SameOthers(b, b')
    ensures AtRest(b', t) && b'.limit == b.limit && b'.ring.capacity == b.ring.capacity
  {
  }

  lemma FromBelt(b: Bounded, p: nat) returns (es: seq<Event>, index: nat)
    requires OnBelt(b, 0, b.ring.capacity, Size(b.ring)) && AtRest(b, 0)
    requires b.ring.capacity >= 2 && b.limit == p + Size(b.ring) && Mod(p, Size(b.ring)) == 0
    ensures BoundedRun(b, es).ring.held[index] >= 2
  {
    hide BoundedRun, OnBelt, Stopped, Mod, AtRest, SameOthers;
    BeltIsFormed(b, 0, b.ring.capacity, Size(b.ring));
    var first := TurnTo(b, 0, p);
    var b1 := BoundedRun(b, first);
    StillAtRest(b, b1, 0);
    var second, value := StopAtLimit(b1, p);
    var b2 := BoundedRun(b1, second);
    var third := HandOutAgain(b2, p, value);
    es, index := first + (second + third), value - 1;
    BoundedAppend(b, first, second + third);
    BoundedAppend(b1, second, third);
  }

  /** Two threads and two indices: at the wrap one index gets two callers, whatever the limit. */
  lemma WrapHandsOutTwice(capacity: nat, threads: nat, laps: nat) returns (es: seq<Event>, index: nat)
    requires capacity >= 2 && threads >= 2 && laps >= 1
    ensures BoundedRun(BoundedInit(capacity, threads, Laps(laps, 2 * capacity)), es).ring.held[index] >= 2
  {
    hide BoundedRun, OnBelt, Mod, BoundedInit, AtRest, Laps;
    LastLap(capacity, laps);
    InitBounded(capacity, threads, Laps(laps, 2 * capacity));
    InitOnBelt(capacity, threads, Laps(laps, 2 * capacity));
    es, index := FromBelt(BoundedInit(capacity, threads, Laps(laps, 2 * capacity)), Laps(laps - 1, 2 * capacity));
  }
}

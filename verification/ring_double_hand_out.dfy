/**
 The converse: with three threads and two indices there is a run that hands one index to two callers,
 for every larger pool and every larger number of threads.
 */
module RingDoubleHandOut {
  import opened Bags
  import opened Remainder
  import opened RingProtocol
  import opened RingSafety
  import opened RingGuarantees
  import opened RingLaps

  lemma RunCons(s: State, e: Event, rest: seq<Event>)
    requires Shaped(s)
    ensures Run(s, [e] + rest) == Run(Step(s, e), rest)
  {
    assert ([e] + rest)[1..] == rest;
  }

  /** `k` accesses of thread `t` in a row. */
  function Accesses(t: nat, k: nat): seq<Event> {
    if k == 0 then [] else [Advance(t)] + Accesses(t, k - 1)
  }

  /** A state in which an undisturbed `Next` claims the read position. */
  predicate CanTake(s: State) {
    Shaped(s) && s.readPos != s.writePos && s.slots[Mod(s.readPos, Size(s))] != 0
  }

  /** The undisturbed accesses of `Next` up to the slot store. */
  lemma NextAlmost(s: State, t: nat) returns (es: seq<Event>)
    requires CanTake(s) && t < |s.threads| && s.threads[t] == Idle
    ensures Run(s, es) == Goto(s, t, ClearSlot(s.readPos, s.slots[Mod(s.readPos, Size(s))])).(readPos := s.readPos + 1)
  {
    var s1 := Goto(s, t, LoadRead);
    var s2 := Goto(s, t, LoadWrite(s.readPos));
    var s3 := Goto(s, t, CheckSlot(s.readPos));
    var s4 := Goto(s, t, CasRead(s.readPos));
    var s5 := Goto(s, t, LoadSlot(s.readPos)).(readPos := s.readPos + 1);
    var s6 := Goto(s, t, ClearSlot(s.readPos, s.slots[Mod(s.readPos, Size(s))])).(readPos := s.readPos + 1);
    assert Step(s, CallNext(t)) == s1 && Step(s1, Advance(t)) == s2 && Step(s2, Advance(t)) == s3;
    assert Step(s3, Advance(t)) == s4 && Step(s4, Advance(t)) == s5 && Step(s5, Advance(t)) == s6;
    hide Step, Run;
    es := [CallNext(t)] + Accesses(t, 5);
    RunCons(s, CallNext(t), Accesses(t, 5));
    RunCons(s1, Advance(t), Accesses(t, 4));
    RunCons(s2, Advance(t), Accesses(t, 3));
    RunCons(s3, Advance(t), Accesses(t, 2));
    RunCons(s4, Advance(t), Accesses(t, 1));
    RunCons(s5, Advance(t), Accesses(t, 0));
    RunNothing(s6);
  }

  /** An undisturbed `Next`: clears the slot and hands its index to the caller. */
  lemma NextAlone(s: State, t: nat) returns (es: seq<Event>)
    requires CanTake(s) && t < |s.threads| && s.threads[t] == Idle
    ensures var i := Mod(s.readPos, Size(s));
      Run(s, es) == s.(readPos := s.readPos + 1, slots := s.slots[i := 0], held := s.held + multiset{s.slots[i] - 1})
  {
    var first := NextAlmost(s, t);
    es := first + [Advance(t)];
    RunAppend(s, first, [Advance(t)]);
    RunCons(Run(s, first), Advance(t), []);
    assert [Advance(t)] + [] == [Advance(t)];
    assert s.threads[t := Idle] == s.threads;
  }

  /** The undisturbed accesses of `Return` up to the slot test. */
  lemma ReturnAlmost(s: State, t: nat, index: nat) returns (es: seq<Event>)
    requires Shaped(s) && t < |s.threads| && s.threads[t] == Idle && index in s.held
    ensures Run(s, es) == Goto(s, t, AwaitSlot(index, s.writePos)).(
      writePos := s.writePos + 1, deposited := s.deposited + [index + 1], held := s.held - multiset{index})
  {
    es := [CallReturn(t, index)] + Accesses(t, 2);
    var s1 := Goto(s, t, LoadTail(index)).(held := s.held - multiset{index});
    var s2 := Goto(s1, t, CasWrite(index, s.writePos));
    RunCons(s, CallReturn(t, index), Accesses(t, 2));
    RunCons(s1, Advance(t), Accesses(t, 1));
    RunCons(s2, Advance(t), Accesses(t, 0));
  }

  /** A writer whose slot is unused stores its index. */
  lemma FillAlone(s: State, t: nat)
    requires Shaped(s) && t < |s.threads| && s.threads[t].AwaitSlot?
    requires s.slots[Mod(s.threads[t].pos, Size(s))] == 0
    ensures var pc := s.threads[t];
      Run(s, Twice(t)) == Goto(s, t, Idle).(slots := s.slots[Mod(pc.pos, Size(s)) := pc.index + 1])
  {
    hide Run;
    var s1 := Goto(s, t, FillSlot(s.threads[t].index, s.threads[t].pos));
    assert Step(s, Advance(t)) == s1;
    RunCons(s, Advance(t), [Advance(t)]);
    RunCons(s1, Advance(t), []);
    RunNothing(Step(s1, Advance(t)));
    assert [Advance(t)] + [Advance(t)] == Twice(t) && [Advance(t)] + [] == [Advance(t)];
  }

  lemma RunNothing(s: State)
    requires Shaped(s)
    ensures Run(s, []) == s
  {
  }

  /** An undisturbed `Return` into an unused slot. */
  lemma ReturnAlone(s: State, t: nat, index: nat) returns (es: seq<Event>)
    requires Shaped(s) && t < |s.threads| && s.threads[t] == Idle && index in s.held
    requires s.slots[Mod(s.writePos, Size(s))] == 0
    ensures Run(s, es) == s.(writePos := s.writePos + 1, deposited := s.deposited + [index + 1],
                             held := s.held - multiset{index}, slots := s.slots[Mod(s.writePos, Size(s)) := index + 1])
  {
    hide Run, Step, Accesses;
    var first := ReturnAlmost(s, t, index);
    es := first + Twice(t);
    RunAppend(s, first, Twice(t));
    FillAlone(Run(s, first), t);
    assert s.threads[t := Idle] == s.threads;
  }

  /** Thread 0 has loaded index 0 from slot 0 and not cleared it; `k` indices have gone around since. */
  predicate Stalled(s: State, k: nat) {
    && Shaped(s) && s.capacity >= 2 && |s.threads| >= 3
    && s.threads[0] == ClearSlot(0, 1) && s.threads[1] == Idle && s.threads[2] == Idle
    && k <= s.capacity && s.readPos == 1 + k && s.writePos == s.capacity + k && s.held == multiset{}
    && s.slots[0] == 1
    && (forall p | 1 + k <= p < s.capacity + k :: s.slots[p] != 0)
    && (forall p | s.capacity + k <= p < Size(s) :: s.slots[p] == 0)
  }

  lemma StallFirstReader(capacity: nat, threads: nat) returns (es: seq<Event>)
    requires capacity >= 2 && threads >= 3
    ensures Stalled(Run(Init(capacity, threads), es), 0)
  {
    es := NextAlmost(Init(capacity, threads), 0);
  }

  /** Thread 1 takes an index and returns it. */
  lemma GoAround(s: State, k: nat) returns (es: seq<Event>)
    requires Stalled(s, k) && k < s.capacity
    ensures Stalled(Run(s, es), k + 1) && Run(s, es).capacity == s.capacity
  {
    hide Run, Step;
    var i := s.slots[1 + k] - 1;
    var first := NextAlone(s, 1);
    var s1 := Run(s, first);
    assert s1.held == multiset{i};
    var second := ReturnAlone(s1, 1, i);
    es := first + second;
    RunAppend(s, first, second);
  }

  lemma {:induction false} GoAllAround(s: State, k: nat) returns (es: seq<Event>)
    requires Stalled(s, k)
    ensures Stalled(Run(s, es), s.capacity) && Run(s, es).capacity == s.capacity
    decreases s.capacity - k
  {
    if k == s.capacity {
      es := [];
    } else {
      var first := GoAround(s, k);
      var rest := GoAllAround(Run(s, first), k + 1);
      es := first + rest;
      RunAppend(s, first, rest);
    }
  }

  /** Thread 1 owns the write ticket of slot 0 one lap later; the indices before it are still there. */
  predicate Lapped(s: State) {
    && Shaped(s) && s.capacity >= 2 && |s.threads| >= 3
    && s.threads[0] == ClearSlot(0, 1) && s.threads[2] == Idle
    && 0 < s.readPos <= Size(s) < s.writePos
    && s.slots[0] == 1
    && (forall p | s.readPos <= p < Size(s) :: s.slots[p] != 0)
  }

  lemma ClaimOneLapAhead(s: State) returns (es: seq<Event>)
    requires Stalled(s, s.capacity)
    ensures Lapped(Run(s, es))
  {
    hide Run, Step;
    var i := s.slots[1 + s.capacity] - 1;
    var first := NextAlone(s, 1);
    var s1 := Run(s, first);
    assert s1.held == multiset{i};
    var second := ReturnAlmost(s1, 1, i);
    es := first + second;
    RunAppend(s, first, second);
  }

  /** Thread 2 takes everything up to and including the lapped ticket, then thread 0 resumes. */
  lemma {:induction false} TakeTwice(s: State) returns (es: seq<Event>)
    requires Lapped(s)
    ensures Run(s, es).held[0] >= 2
    decreases Size(s) - s.readPos
  {
    var first := NextAlone(s, 2);
    var s1 := Run(s, first);
    var rest;
    if s.readPos < Size(s) {
      rest := TakeTwice(s1);
    } else {
      assert Mod(Size(s), Size(s)) == 0;
      rest := [Advance(0)];
      RunCons(s1, Advance(0), []);
      assert [Advance(0)] + [] == rest;
      assert 0 in s1.held;
    }
    es := first + rest;
    RunAppend(s, first, rest);
  }

  /** With three threads and two indices, index 0 can get two callers. */
  lemma IndexHandedOutTwice(capacity: nat, threads: nat) returns (es: seq<Event>)
    requires capacity >= 2 && threads >= 3
    ensures Run(Init(capacity, threads), es).held[0] >= 2
  {
    var s := Init(capacity, threads);
    var a := StallFirstReader(capacity, threads);
    var b := GoAllAround(Run(s, a), 0);
    var c := ClaimOneLapAhead(Run(Run(s, a), b));
    var d := TakeTwice(Run(Run(Run(s, a), b), c));
    es := a + (b + (c + d));
    RunAppend(s, a, b + (c + d));
    RunAppend(Run(s, a), b, c + d);
    RunAppend(Run(Run(s, a), b), c, d);
  }

  /** Whatever the schedule, no index ever has two callers. */
  ghost predicate AlwaysExclusive(capacity: nat, threads: nat)
    requires capacity >= 1
  {
    forall es: seq<Event> :: ExclusivelyHeld(Run(Init(capacity, threads), es))
  }

  /** Exactly when the ring keeps its promise in every schedule. */
  lemma ExclusiveExactlyWhenSmall(capacity: nat, threads: nat)
    requires capacity >= 1
    ensures AlwaysExclusive(capacity, threads) <==> (threads <= 2 || capacity == 1)
  {
    var s := Init(capacity, threads);
    if threads <= 2 || capacity == 1 {
      InitRing(capacity, threads);
      TicketsInit(capacity, threads);
      forall es: seq<Event> ensures ExclusivelyHeld(Run(s, es)) {
        SmallRunIsSafe(s, es);
        OnceIsExclusive(Run(s, es));
      }
    } else {
      var es := IndexHandedOutTwice(capacity, threads);
      assert !ExclusivelyHeld(Run(s, es));
    }
  }
}

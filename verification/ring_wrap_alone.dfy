/** What one thread's undisturbed calls do to the ring with bounded positions, wrap included. */
module RingWrapAlone {
  import opened Remainder
  import opened RingProtocol
  import opened RingDoubleHandOut
  import opened RingWrap

  /** A position as the next load that does not wrap finds it. */
  function Normal(position: nat, limit: nat): nat { if position == limit then 0 else position }

  /** Thread `t` is between calls. */
  predicate AtRest(b: Bounded, t: nat) {
    Formed(b) && t < |b.wraps| && b.ring.threads[t] == Idle && b.wraps[t] == Out && b.limit > 0
  }

  /** An access that is not about the limit is an access of the ring. */
  lemma Plain(b: Bounded, t: nat, s: State)
    requires Formed(b) && t < |b.wraps| && b.wraps[t] == Out && !AtLimit(b, t)
    requires Step(b.ring, Advance(t)) == s
    ensures BoundedStep(b, Advance(t)) == b.(ring := s)
  {
    hide Step;
  }

  lemma BoundedAccess(b: Bounded, t: nat, k: nat)
    requires Formed(b) && k > 0
    ensures BoundedRun(b, Accesses(t, k)) == BoundedRun(BoundedStep(b, Advance(t)), Accesses(t, k - 1))
  {
    BoundedCons(b, Advance(t), Accesses(t, k - 1));
  }

  lemma OneAccess(b: Bounded, t: nat)
    requires Formed(b)
    ensures BoundedRun(b, Accesses(t, 1)) == BoundedStep(b, Advance(t))
  {
    BoundedAccess(b, t, 1);
    BoundedNothing(BoundedStep(b, Advance(t)));
  }

  /** The wrap, undisturbed: load the limit, load it again, replace it by 0. */
  lemma WrapAlone(b: Bounded, t: nat)
    requires Formed(b) && t < |b.wraps| && b.wraps[t] == Out && AtLimit(b, t)
    ensures BoundedRun(b, Accesses(t, 3)) == Zeroed(b, t)
  {
    var b1, b2 := Wrapping(b, t, Reload), Wrapping(b, t, Swap);
    assert BoundedStep(b, Advance(t)) == b1 && BoundedStep(b1, Advance(t)) == b2;
    assert b.wraps[t := Out] == b.wraps;
    assert BoundedStep(b2, Advance(t)) == Zeroed(b, t);
    hide BoundedStep;
    BoundedAccess(b, t, 3);
    BoundedAccess(b1, t, 2);
    OneAccess(b2, t);
  }

  /** `Next` up to a read position that is not at the limit. */
  lemma EnterNext(b: Bounded, t: nat) returns (es: seq<Event>)
    requires AtRest(b, t)
    ensures BoundedRun(b, es) ==
            b.(ring := Goto(b.ring, t, LoadRead).(readPos := Normal(b.ring.readPos, b.limit)))
  {
    var b1 := b.(ring := Goto(b.ring, t, LoadRead));
    assert BoundedStep(b, CallNext(t)) == b1;
    hide BoundedStep;
    var rest := [];
    if AtLimit(b1, t) {
      rest := Accesses(t, 3);
      WrapAlone(b1, t);
    } else {
      BoundedNothing(b1);
    }
    es := [CallNext(t)] + rest;
    BoundedCons(b, CallNext(t), rest);
  }

  /** `Return` up to a write position that is not at the limit. */
  lemma EnterReturn(b: Bounded, t: nat, index: nat) returns (es: seq<Event>)
    requires AtRest(b, t) && index in b.ring.held
    ensures BoundedRun(b, es) ==
            b.(ring := Goto(b.ring, t, LoadTail(index)).(writePos := Normal(b.ring.writePos, b.limit),
                                                         held := b.ring.held - multiset{index}))
  {
    var b1 := b.(ring := Goto(b.ring, t, LoadTail(index)).(held := b.ring.held - multiset{index}));
    assert BoundedStep(b, CallReturn(t, index)) == b1;
    hide BoundedStep;
    var rest := [];
    if AtLimit(b1, t) {
      rest := Accesses(t, 3);
      WrapAlone(b1, t);
    } else {
      BoundedNothing(b1);
    }
    es := [CallReturn(t, index)] + rest;
    BoundedCons(b, CallReturn(t, index), rest);
  }

  /** The three loads of `Next`, when the positions differ. */
  lemma Loads(b: Bounded, t: nat)
    requires Formed(b) && t < |b.wraps| && b.wraps[t] == Out && b.ring.threads[t] == LoadRead
    requires b.ring.readPos != b.limit && b.ring.readPos != b.ring.writePos
    ensures var s := b.ring;
      BoundedRun(b, Accesses(t, 3)) ==
        b.(ring := Goto(s, t, if s.slots[Mod(s.readPos, Size(s))] == 0 then Idle else CasRead(s.readPos)))
  {
    var s, r := b.ring, b.ring.readPos;
    var s1, s2 := Goto(s, t, LoadWrite(r)), Goto(s, t, CheckSlot(r));
    var s3 := Goto(s, t, if s.slots[Mod(r, Size(s))] == 0 then Idle else CasRead(r));
    assert Step(s, Advance(t)) == s1 && Step(s1, Advance(t)) == s2 && Step(s2, Advance(t)) == s3;
    hide Step, BoundedStep;
    Plain(b, t, s1);
    Plain(b.(ring := s1), t, s2);
    Plain(b.(ring := s2), t, s3);
    BoundedAccess(b, t, 3);
    BoundedAccess(b.(ring := s1), t, 2);
    OneAccess(b.(ring := s2), t);
  }

  /** The slot the next `Next` of an undisturbed thread tests. */
  function Tested(b: Bounded): (i: nat)
    requires Formed(b)
    ensures i < |b.ring.slots|
  {
    Mod(Normal(b.ring.readPos, b.limit), Size(b.ring))
  }

  /** An undisturbed `Next` gets past the position test. */
  predicate PastPositions(b: Bounded) { Normal(b.ring.readPos, b.limit) != b.ring.writePos }

  /** Up to the claim of the read position. */
  lemma NextToClaim(b: Bounded, t: nat) returns (es: seq<Event>)
    requires AtRest(b, t) && PastPositions(b) && b.ring.slots[Tested(b)] != 0
    ensures var r := Normal(b.ring.readPos, b.limit);
      BoundedRun(b, es) == b.(ring := Goto(b.ring, t, CasRead(r)).(readPos := r))
  {
    hide BoundedRun, BoundedStep;
    var first := EnterNext(b, t);
    Loads(BoundedRun(b, first), t);
    es := first + Accesses(t, 3);
    BoundedAppend(b, first, Accesses(t, 3));
  }

  /** An undisturbed `Next` that finds the slot unused: only the wrap remains. */
  lemma NextFindsNothing(b: Bounded, t: nat) returns (es: seq<Event>)
    requires AtRest(b, t) && PastPositions(b) && b.ring.slots[Tested(b)] == 0
    ensures BoundedRun(b, es) == b.(ring := b.ring.(readPos := Normal(b.ring.readPos, b.limit)))
  {
    hide BoundedRun, BoundedStep;
    var first := EnterNext(b, t);
    Loads(BoundedRun(b, first), t);
    es := first + Accesses(t, 3);
    BoundedAppend(b, first, Accesses(t, 3));
    assert b.ring.threads[t := Idle] == b.ring.threads;
  }

  /** The claim of the read position, when it is still the one loaded. */
  lemma ClaimAlone(b: Bounded, t: nat)
    requires Formed(b) && t < |b.wraps| && b.wraps[t] == Out && b.ring.threads[t] == CasRead(b.ring.readPos)
    ensures var r := b.ring.readPos;
      BoundedRun(b, Accesses(t, 1)) == b.(ring := Goto(b.ring, t, LoadSlot(r)).(readPos := r + 1))
  {
    var r := b.ring.readPos;
    var s := Goto(b.ring, t, LoadSlot(r)).(readPos := r + 1);
    assert Step(b.ring, Advance(t)) == s;
    hide Step, BoundedStep;
    Plain(b, t, s);
    OneAccess(b, t);
  }

  lemma LoadAlone(b: Bounded, t: nat)
    requires Formed(b) && t < |b.wraps| && b.wraps[t] == Out && b.ring.threads[t].LoadSlot?
    requires b.ring.slots[Mod(b.ring.threads[t].pos, Size(b.ring))] != 0
    ensures var p := b.ring.threads[t].pos;
      BoundedRun(b, Accesses(t, 1)) ==
        b.(ring := Goto(b.ring, t, ClearSlot(p, b.ring.slots[Mod(p, Size(b.ring))])))
  {
    var p := b.ring.threads[t].pos;
    var s := Goto(b.ring, t, ClearSlot(p, b.ring.slots[Mod(p, Size(b.ring))]));
    assert Step(b.ring, Advance(t)) == s;
    hide Step, BoundedStep;
    Plain(b, t, s);
    OneAccess(b, t);
  }

  lemma ClearAlone(b: Bounded, t: nat)
    requires Formed(b) && t < |b.wraps| && b.wraps[t] == Out
    requires b.ring.threads[t].ClearSlot? && b.ring.threads[t].value != 0
    ensures var s, pc := b.ring, b.ring.threads[t];
      BoundedRun(b, Accesses(t, 1)) ==
        b.(ring := Goto(s, t, Idle).(slots := s.slots[Mod(pc.pos, Size(s)) := 0],
                                     held := s.held + multiset{pc.value - 1}))
  {
    var pc := b.ring.threads[t];
    var s := Goto(b.ring, t, Idle).(slots := b.ring.slots[Mod(pc.pos, Size(b.ring)) := 0],
                                    held := b.ring.held + multiset{pc.value - 1});
    assert Step(b.ring, Advance(t)) == s;
    hide Step, BoundedStep;
    Plain(b, t, s);
    OneAccess(b, t);
  }

  /** An undisturbed `Next` up to its slot store. */
  lemma NextToClear(b: Bounded, t: nat) returns (es: seq<Event>)
    requires AtRest(b, t) && PastPositions(b) && b.ring.slots[Tested(b)] != 0
    ensures var r := Normal(b.ring.readPos, b.limit);
      BoundedRun(b, es) ==
        b.(ring := Goto(b.ring, t, ClearSlot(r, b.ring.slots[Tested(b)])).(readPos := r + 1))
  {
    hide BoundedRun, BoundedStep;
    var first := NextToClaim(b, t);
    var b1 := BoundedRun(b, first);
    ClaimAlone(b1, t);
    var b2 := BoundedRun(b1, Accesses(t, 1));
    LoadAlone(b2, t);
    es := first + (Accesses(t, 1) + Accesses(t, 1));
    BoundedAppend(b, first, Accesses(t, 1) + Accesses(t, 1));
    BoundedAppend(b1, Accesses(t, 1), Accesses(t, 1));
  }

  /** An undisturbed `Next` that hands out the index of the slot it tests. */
  lemma TakeAlone(b: Bounded, t: nat) returns (es: seq<Event>)
    requires AtRest(b, t) && PastPositions(b) && b.ring.slots[Tested(b)] != 0
    ensures var s, i := b.ring, Tested(b);
      BoundedRun(b, es) ==
        b.(ring := s.(readPos := Normal(s.readPos, b.limit) + 1, slots := s.slots[i := 0],
                      held := s.held + multiset{s.slots[i] - 1}))
  {
    hide BoundedRun, BoundedStep;
    var first := NextToClear(b, t);
    ClearAlone(BoundedRun(b, first), t);
    es := first + Accesses(t, 1);
    BoundedAppend(b, first, Accesses(t, 1));
    assert b.ring.threads[t := Idle] == b.ring.threads;
  }

  /** The slot the next undisturbed `Return` fills. */
  function Filled(b: Bounded): (i: nat)
    requires Formed(b)
    ensures i < |b.ring.slots|
  {
    Mod(Normal(b.ring.writePos, b.limit), Size(b.ring))
  }

  /** The claim of the write position, undisturbed. */
  lemma ClaimsTail(b: Bounded, t: nat, index: nat)
    requires Formed(b) && t < |b.wraps| && b.wraps[t] == Out && b.ring.threads[t] == LoadTail(index)
    requires b.ring.writePos != b.limit
    ensures var s, w := b.ring, b.ring.writePos;
      BoundedRun(b, Accesses(t, 2)) ==
        b.(ring := Goto(s, t, AwaitSlot(index, w)).(writePos := w + 1, deposited := s.deposited + [index + 1]))
  {
    var s, w := b.ring, b.ring.writePos;
    var s1 := Goto(s, t, CasWrite(index, w));
    var s2 := Goto(s, t, AwaitSlot(index, w)).(writePos := w + 1, deposited := s.deposited + [index + 1]);
    assert Step(s, Advance(t)) == s1 && Step(s1, Advance(t)) == s2;
    hide Step, BoundedStep;
    Plain(b, t, s1);
    Plain(b.(ring := s1), t, s2);
    BoundedAccess(b, t, 2);
    OneAccess(b.(ring := s1), t);
  }

  /** The slot store of `Return`, undisturbed. */
  lemma Stores(b: Bounded, t: nat, index: nat, w: nat)
    requires Formed(b) && t < |b.wraps| && b.wraps[t] == Out && b.ring.threads[t] == AwaitSlot(index, w)
    requires b.ring.slots[Mod(w, Size(b.ring))] == 0
    ensures var s := b.ring;
      BoundedRun(b, Accesses(t, 2)) ==
        b.(ring := Goto(s, t, Idle).(slots := s.slots[Mod(w, Size(s)) := index + 1]))
  {
    var s := b.ring;
    var s1 := Goto(s, t, FillSlot(index, w));
    var s2 := Goto(s, t, Idle).(slots := s.slots[Mod(w, Size(s)) := index + 1]);
    assert Step(s, Advance(t)) == s1 && Step(s1, Advance(t)) == s2;
    hide Step, BoundedStep;
    Plain(b, t, s1);
    Plain(b.(ring := s1), t, s2);
    BoundedAccess(b, t, 2);
    OneAccess(b.(ring := s1), t);
  }

  /** An undisturbed `Return` into an unused slot. */
  lemma GiveAlone(b: Bounded, t: nat, index: nat) returns (es: seq<Event>)
    requires AtRest(b, t) && index in b.ring.held && b.ring.slots[Filled(b)] == 0
    ensures var s, i := b.ring, Filled(b);
      BoundedRun(b, es) ==
        b.(ring := s.(writePos := Normal(s.writePos, b.limit) + 1, deposited := s.deposited + [index + 1],
                      slots := s.slots[i := index + 1], held := s.held - multiset{index}))
  {
    hide BoundedRun, BoundedStep;
    var first := EnterReturn(b, t, index);
    var b1 := BoundedRun(b, first);
    ClaimsTail(b1, t, index);
    Stores(BoundedRun(b1, Accesses(t, 2)), t, index, b1.ring.writePos);
    es := first + (Accesses(t, 2) + Accesses(t, 2));
    BoundedAppend(b, first, Accesses(t, 2) + Accesses(t, 2));
    BoundedAppend(b1, Accesses(t, 2), Accesses(t, 2));
    assert b.ring.threads[t := Idle] == b.ring.threads;
  }
}

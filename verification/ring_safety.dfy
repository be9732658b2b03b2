/**
 Lap-free runs of the ring: no thread claims a ticket while the owner of the ticket one lap behind is
 still between its claim and its slot store. In such runs every index is in exactly one place, the
 ring is a FIFO queue, and the two busy-waits cannot deadlock.
 */
module RingSafety {
  import opened Bags
  import opened Remainder
  import opened RingProtocol

  predicate Reading(l: Ledger, p: int) { p >= 0 && p in l.readers }
  predicate Writing(l: Ledger, p: int) { p >= 0 && p in l.writers }

  /** Position `p` and the position one lap ahead are not both being read, nor both being written. */
  predicate NoLapAt(l: Ledger, size: nat, p: int) {
    !(Reading(l, p) && Reading(l, p + size)) && !(Writing(l, p) && Writing(l, p + size))
  }

  ghost predicate NoLap(l: Ledger, size: nat) {
    forall p: int :: NoLapAt(l, size, p)
  }

  ghost predicate LapFree(s: State) {
    NoLap(Books(s), Size(s))
  }

  /** Every state of the run is lap-free. */
  ghost predicate LapFreeRun(s: State, es: seq<Event>)
    requires Shaped(s)
    decreases |es|
  {
    LapFree(s) && (es != [] ==> LapFreeRun(Step(s, es[0]), es[1..]))
  }

  // ---- the ring invariant

  /** What the slot of position `p` holds, where `p` is the last position claimed for that slot. */
  ghost function SlotValue(s: State, l: Ledger, p: int): nat
    requires |s.deposited| == s.writePos && p < s.writePos
  {
    if p < 0 then 0
    else if Writing(l, p) then
      if Reading(l, p - Size(s)) then s.deposited[p - Size(s)] else 0
    else if p < s.readPos && !Reading(l, p) then 0
    else s.deposited[p]
  }

  ghost predicate SlotAgrees(s: State, l: Ledger, p: int)
    requires Shaped(s) && |s.deposited| == s.writePos
  {
    s.writePos - Size(s) <= p < s.writePos ==> s.slots[Mod(p, Size(s))] == SlotValue(s, l, p)
  }

  /**
   Live tickets are at most a lap old; a ticket whose slot has been claimed again one lap later still
   has that later writer waiting; a ticket read before it is written still has its reader waiting.
   */
  ghost predicate OrderedAt(s: State, l: Ledger, p: int) {
    && (Reading(l, p) ==>
          s.readPos - Size(s) <= p < s.readPos && (p + Size(s) < s.writePos ==> Writing(l, p + Size(s))))
    && (Writing(l, p) ==>
          s.writePos - Size(s) <= p < s.writePos && (p < s.readPos ==> Reading(l, p)))
  }

  /** What a thread that is about to store knows about the ticket holders of its slot. */
  ghost predicate Poised(s: State, l: Ledger, pc: Pc) {
    match pc
    case ClearSlot(pos, value) => pos < |s.deposited| && value == s.deposited[pos] && !Writing(l, pos)
    case FillSlot(_, pos) => !Reading(l, pos - Size(s))
    case _ => true
  }

  ghost predicate RingOk(s: State, l: Ledger) {
    && Balanced(s, l)
    && NoLap(l, Size(s))
    && (forall p: int :: OrderedAt(s, l, p))
    && (forall p: int :: SlotAgrees(s, l, p))
    && (forall p | 0 <= p < s.writePos :: s.deposited[p] != 0)
    && (forall t | 0 <= t < |s.threads| :: Poised(s, l, s.threads[t]))
  }

  /** The slot of an unfinished read is readable exactly when its writer is done. */
  lemma SlotOfReader(s: State, l: Ledger, p: nat)
    requires RingOk(s, l) && Reading(l, p)
    ensures s.readPos - Size(s) <= p < s.readPos
    ensures s.slots[Mod(p, Size(s))] == if Writing(l, p) then 0 else s.deposited[p]
  {
    var size := Size(s);
    assert OrderedAt(s, l, p) && OrderedAt(s, l, p + size);
    assert NoLapAt(l, size, p) && NoLapAt(l, size, p - size);
    assert SlotAgrees(s, l, p) && SlotAgrees(s, l, p + size);
    ModShift(p, size);
  }

  /** The slot of an unfinished write is unused exactly when the reader one lap behind is done. */
  lemma SlotOfWriter(s: State, l: Ledger, p: nat)
    requires RingOk(s, l) && Writing(l, p)
    ensures s.writePos - Size(s) <= p < s.writePos
    ensures s.slots[Mod(p, Size(s))] == if Reading(l, p - Size(s)) then s.deposited[p - Size(s)] else 0
    ensures Reading(l, p - Size(s)) ==> s.slots[Mod(p, Size(s))] != 0
  {
    assert OrderedAt(s, l, p);
    assert SlotAgrees(s, l, p);
  }

  // ---- preservation, step kind by step kind

  /** What the other threads know stays true when tickets are only claimed at the positions. */
  lemma PoisedLater(s: State, l: Ledger, s': State, l': Ledger, t: nat)
    requires |s.deposited| == s.writePos <= s.readPos + s.capacity
    requires s.deposited <= s'.deposited && s'.capacity == s.capacity >= 1
    requires |s'.threads| == |s.threads| && t < |s.threads|
    requires forall i | 0 <= i < |s.threads| && i != t :: s'.threads[i] == s.threads[i]
    requires forall i | 0 <= i < |s.threads| :: Remembers(s, s.threads[i])
    requires forall i | 0 <= i < |s.threads| :: Poised(s, l, s.threads[i])
    requires forall p: int :: Reading(l', p) ==> Reading(l, p) || p == s.readPos
    requires forall p: int :: Writing(l', p) ==> Writing(l, p) || p == s.writePos
    requires Poised(s', l', s'.threads[t])
    ensures forall i | 0 <= i < |s'.threads| :: Poised(s', l', s'.threads[i])
  {
    forall i | 0 <= i < |s'.threads| && i != t ensures Poised(s', l', s'.threads[i]) {
      assert Remembers(s, s.threads[i]) && Poised(s, l, s.threads[i]);
    }
  }

  lemma QuietRing(s: State, e: Event, l: Ledger)
    requires RingOk(s, l) && e.t < |s.threads| && Lists(l, s.threads[e.t])
    requires Quiet(s, e)
    ensures RingOk(Step(s, e), l) && Rebooked(l, s.threads[e.t], Step(s, e).threads[e.t]) == l
  {
    var a, b := s.threads[e.t], Step(s, e).threads[e.t];
    assert Remembers(s, a) && Poised(s, l, a);
    QuietStep(s, e);
    QuietBalanced(s, l, e.t, b);
    QuietPoised(s, e, l);
    QuietKeeps(s, l, e.t, b);
  }

  lemma QuietPoised(s: State, e: Event, l: Ledger)
    requires RingOk(s, l) && e.t < |s.threads| && Lists(l, s.threads[e.t])
    requires Quiet(s, e)
    ensures Poised(s, l, Step(s, e).threads[e.t])
  {
    var a := s.threads[e.t];
    assert Poised(s, l, a);
    if e.Advance? && a.LoadSlot? {
      SlotOfReader(s, l, a.pos);
    } else if e.Advance? && a.AwaitSlot? {
      SlotOfWriter(s, l, a.pos);
    }
  }

  lemma QuietKeeps(s: State, l: Ledger, t: nat, pc: Pc)
    requires RingOk(s, l) && t < |s.threads| && Poised(s, l, pc) && Balanced(Goto(s, t, pc), l)
    ensures RingOk(Goto(s, t, pc), l)
  {
    var s' := Goto(s, t, pc);
    forall p: int ensures OrderedAt(s', l, p) && SlotAgrees(s', l, p) {
      assert OrderedAt(s, l, p) && SlotAgrees(s, l, p);
    }
    forall i | 0 <= i < |s'.threads| ensures Poised(s', l, s'.threads[i]) {
      assert Poised(s, l, if i == t then pc else s.threads[i]);
    }
  }

  lemma ReadClaimedPositions(s: State, l: Ledger, s': State, l': Ledger)
    requires RingOk(s, l) && Shaped(s') && NoLap(l', Size(s))
    requires s' == s.(readPos := s.readPos + 1, threads := s'.threads)
    requires l'.writers == l.writers && forall p: int :: Reading(l', p) == (Reading(l, p) || p == s.readPos)
    ensures forall p: int :: OrderedAt(s', l', p)
    ensures forall p: int :: SlotAgrees(s', l', p)
  {
    forall p: int ensures OrderedAt(s', l', p) && SlotAgrees(s', l', p) {
      assert OrderedAt(s, l, p) && SlotAgrees(s, l, p) && NoLapAt(l', Size(s), p);
    }
  }

  lemma ReadClaimed(s: State, t: nat, l: Ledger)
    requires RingOk(s, l) && t < |s.threads|
    requires s.threads[t] == CasRead(s.readPos)
    requires NoLap(Rebooked(l, s.threads[t], Move(s, t).threads[t]), Size(s))
    ensures RingOk(Move(s, t), Rebooked(l, s.threads[t], Move(s, t).threads[t]))
  {
    var l' := Rebooked(l, s.threads[t], Move(s, t).threads[t]);
    var s' := Move(s, t);
    BalancedClaimRead(s, t, l);
    assert forall p: int :: Reading(l', p) == (Reading(l, p) || p == s.readPos);
    PoisedLater(s, l, s', l', t);
    ReadClaimedPositions(s, l, s', l');
  }

  lemma SlotClearedPositions(s: State, l: Ledger, pos: nat, s': State, l': Ledger)
    requires RingOk(s, l) && Shaped(s') && Reading(l, pos) && !Writing(l, pos)
    requires s' == s.(slots := s.slots[Mod(pos, Size(s)) := 0], threads := s'.threads, held := s'.held)
    requires l'.writers == l.writers && forall p: int :: Reading(l', p) == (Reading(l, p) && p != pos)
    ensures NoLap(l', Size(s))
    ensures forall p: int :: OrderedAt(s', l', p)
    ensures forall p: int :: SlotAgrees(s', l', p)
  {
    hide Mod;
    var size := Size(s);
    assert OrderedAt(s, l, pos);
    ModShift(pos, size);
    forall p: int ensures NoLapAt(l', size, p) && OrderedAt(s', l', p) && SlotAgrees(s', l', p) {
      assert NoLapAt(l, size, p) && OrderedAt(s, l, p) && SlotAgrees(s, l, p);
      if s.writePos - size <= p < pos { ModClash(p, pos, size); }
      if pos < p < pos + size { ModClash(pos, p, size); }
      if pos + size < p < s.writePos { ModClash(pos + size, p, size); }
    }
  }

  lemma SlotCleared(s: State, t: nat, l: Ledger)
    requires RingOk(s, l) && t < |s.threads| && s.threads[t].ClearSlot? && Lists(l, s.threads[t])
    ensures RingOk(Move(s, t), Rebooked(l, s.threads[t], Move(s, t).threads[t]))
    ensures s.slots[Mod(s.threads[t].pos, Size(s))] == s.threads[t].value == s.deposited[s.threads[t].pos] != 0
  {
    var pos: nat := s.threads[t].pos;
    var l' := Rebooked(l, s.threads[t], Move(s, t).threads[t]);
    var s' := Move(s, t);
    assert Remembers(s, s.threads[t]) && Poised(s, l, s.threads[t]);
    BalancedClear(s, t, l);
    SlotOfReader(s, l, pos);
    assert l.readers[pos] <= 1;
    assert forall p: int :: Reading(l', p) == (Reading(l, p) && p != pos);
    PoisedLater(s, l, s', l', t);
    SlotClearedPositions(s, l, pos, s', l');
  }

  /** A newly claimed write finds its slot unused unless the reader one lap behind is still there. */
  lemma FreshWriteSlot(s: State, l: Ledger)
    requires RingOk(s, l) && !Writing(l, s.writePos - Size(s))
    ensures var p := s.writePos - Size(s);
      s.slots[Mod(s.writePos, Size(s))] == if Reading(l, p) then s.deposited[p] else 0
  {
    var p := s.writePos - Size(s);
    assert SlotAgrees(s, l, p);
    ModShift(p, Size(s));
  }

  lemma WriteClaimedPositions(s: State, l: Ledger, s': State, l': Ledger)
    requires RingOk(s, l) && Shaped(s') && |s'.deposited| == s'.writePos && NoLap(l', Size(s))
    requires s'.capacity == s.capacity && s'.readPos == s.readPos && s'.slots == s.slots
    requires s'.writePos == s.writePos + 1 && s.deposited <= s'.deposited
    requires l'.readers == l.readers && forall p: int :: Writing(l', p) == (Writing(l, p) || p == s.writePos)
    ensures forall p: int :: OrderedAt(s', l', p)
    ensures forall p: int :: SlotAgrees(s', l', p)
  {
    var size := Size(s);
    assert NoLapAt(l', size, s.writePos - size);
    FreshWriteSlot(s, l);
    forall p: int ensures OrderedAt(s', l', p) && SlotAgrees(s', l', p) {
      assert NoLapAt(l', size, p);
      assert OrderedAt(s, l, p) && SlotAgrees(s, l, p);
    }
  }

  lemma WriteClaimed(s: State, t: nat, l: Ledger)
    requires RingOk(s, l) && t < |s.threads| && Lists(l, s.threads[t])
    requires s.threads[t].CasWrite? && s.threads[t].pos == s.writePos
    requires NoLap(Rebooked(l, s.threads[t], Move(s, t).threads[t]), Size(s))
    ensures RingOk(Move(s, t), Rebooked(l, s.threads[t], Move(s, t).threads[t]))
  {
    var l' := Rebooked(l, s.threads[t], Move(s, t).threads[t]);
    var s' := Move(s, t);
    BalancedClaimWrite(s, t, l);
    assert forall p: int :: Writing(l', p) == (Writing(l, p) || p == s.writePos);
    PoisedLater(s, l, s', l', t);
    WriteClaimedPositions(s, l, s', l');
  }

  lemma SlotFilledPositions(s: State, l: Ledger, pos: nat, s': State, l': Ledger)
    requires RingOk(s, l) && Shaped(s') && Writing(l, pos) && pos < s.writePos && !Reading(l, pos - Size(s))
    requires s' == s.(slots := s.slots[Mod(pos, Size(s)) := s.deposited[pos]], threads := s'.threads)
    requires l'.readers == l.readers && forall p: int :: Writing(l', p) == (Writing(l, p) && p != pos)
    ensures NoLap(l', Size(s))
    ensures forall p: int :: OrderedAt(s', l', p)
    ensures forall p: int :: SlotAgrees(s', l', p)
  {
    hide Mod;
    var size := Size(s);
    assert OrderedAt(s, l, pos);
    forall p: int ensures NoLapAt(l', size, p) && OrderedAt(s', l', p) && SlotAgrees(s', l', p) {
      assert NoLapAt(l, size, p) && OrderedAt(s, l, p) && SlotAgrees(s, l, p);
      if s.writePos - size <= p < pos { ModClash(p, pos, size); }
      if pos < p < s.writePos { ModClash(pos, p, size); }
    }
  }

  lemma SlotFilled(s: State, t: nat, l: Ledger)
    requires RingOk(s, l) && t < |s.threads| && s.threads[t].FillSlot? && Lists(l, s.threads[t])
    ensures RingOk(Move(s, t), Rebooked(l, s.threads[t], Move(s, t).threads[t]))
    ensures s.slots[Mod(s.threads[t].pos, Size(s))] == 0
  {
    var pos: nat := s.threads[t].pos;
    var l' := Rebooked(l, s.threads[t], Move(s, t).threads[t]);
    var s' := Move(s, t);
    assert Remembers(s, s.threads[t]) && Poised(s, l, s.threads[t]);
    BalancedFill(s, t, l);
    SlotOfWriter(s, l, pos);
    assert l.writers[pos] <= 1;
    assert forall p: int :: Writing(l', p) == (Writing(l, p) && p != pos);
    PoisedLater(s, l, s', l', t);
    SlotFilledPositions(s, l, pos, s', l');
  }

  lemma RingStepWith(s: State, e: Event, l: Ledger)
    requires RingOk(s, l) && e.t < |s.threads| && Lists(l, s.threads[e.t])
    requires NoLap(Rebooked(l, s.threads[e.t], Step(s, e).threads[e.t]), Size(s))
    ensures RingOk(Step(s, e), Rebooked(l, s.threads[e.t], Step(s, e).threads[e.t]))
  {
    if Quiet(s, e) {
      QuietRing(s, e, l);
    } else if e.CallReturn? {
      ReturnCalled(s, e.t, e.index, l);
    } else {
      match s.threads[e.t]
      case CasRead(_) => ReadClaimed(s, e.t, l);
      case ClearSlot(_, _) => SlotCleared(s, e.t, l);
      case CasWrite(_, _) => WriteClaimed(s, e.t, l);
      case FillSlot(_, _) => SlotFilled(s, e.t, l);
    }
  }

  /** The ring invariant is kept by every step that does not let one thread lap another. */
  lemma RingStep(s: State, e: Event)
    requires RingOk(s, Books(s)) && LapFree(Step(s, e))
    ensures RingOk(Step(s, e), Books(Step(s, e)))
  {
    if e.t < |s.threads| {
      BooksStep(s, e);
      RingStepWith(s, e, Books(s));
    }
  }

  lemma ReturnCalled(s: State, t: nat, index: nat, l: Ledger)
    requires RingOk(s, l) && t < |s.threads|
    requires s.threads[t] == Idle && index in s.held
    ensures RingOk(Step(s, CallReturn(t, index)), Rebooked(l, Idle, LoadTail(index)))
  {
    var s' := Step(s, CallReturn(t, index));
    var l' := Rebooked(l, Idle, LoadTail(index));
    BalancedCallReturn(s, t, index, l);
    assert forall p: int :: Reading(l', p) == Reading(l, p) && Writing(l', p) == Writing(l, p);
    forall p: int ensures NoLapAt(l', Size(s), p) && OrderedAt(s', l', p) && SlotAgrees(s', l', p) {
      assert NoLapAt(l, Size(s), p) && OrderedAt(s, l, p) && SlotAgrees(s, l, p);
    }
    PoisedLater(s, l, s', l', t);
  }

  // ---- every index is in exactly one place

  /** How many places index `i` is in: ring slots, returning threads, callers. */
  ghost function Places(s: State, i: nat): nat {
    Bag(Stored, s.slots)[i] + Bag(Carried, s.threads)[i] + s.held[i]
  }

  ghost predicate EachIndexOnce(s: State) {
    forall i: nat :: Places(s, i) == if i < s.capacity then 1 else 0
  }

  lemma PlacesMoved(s: State, t: nat, pc: Pc, slot: nat, value: nat, held: multiset<nat>)
    requires t < |s.threads| && slot < |s.slots|
    requires Around(value, pc, held) == Around(s.slots[slot], s.threads[t], s.held)
    ensures var s' := Goto(s, t, pc).(slots := s.slots[slot := value], held := held);
      forall i: nat :: Places(s', i) == Places(s, i)
  {
    BagUpdate(Stored, s.slots, slot, value);
    BagUpdate(Carried, s.threads, t, pc);
    var s' := Goto(s, t, pc).(slots := s.slots[slot := value], held := held);
    AddUp(Bag(Stored, s'.slots), Stored(s.slots[slot]), Bag(Stored, s.slots), Stored(value),
          Bag(Carried, s'.threads), Carried(s.threads[t]), Bag(Carried, s.threads), Carried(pc), s.held, held);
  }

  lemma AddUp(a: multiset<nat>, b: multiset<nat>, c: multiset<nat>, d: multiset<nat>,
              f: multiset<nat>, g: multiset<nat>, h: multiset<nat>, k: multiset<nat>,
              was: multiset<nat>, now: multiset<nat>)
    requires a + b == c + d && f + g == h + k && d + k + now == b + g + was
    ensures forall i: nat :: a[i] + f[i] + now[i] == c[i] + h[i] + was[i]
  {
    forall i: nat ensures a[i] + f[i] + now[i] == c[i] + h[i] + was[i] {
      assert (a + b)[i] == (c + d)[i] && (f + g)[i] == (h + k)[i] && (d + k + now)[i] == (b + g + was)[i];
    }
  }

  /** The slot a step may write. */
  function SlotOf(s: State, e: Event): (slot: nat)
    requires Shaped(s) && e.t < |s.threads|
    ensures slot < |s.slots|
  {
    var pc := s.threads[e.t];
    if pc.ClearSlot? || pc.FillSlot? then Mod(pc.pos, Size(s)) else 0
  }

  /** The indices in one slot, with one thread and with the callers. */
  function Around(slot: nat, pc: Pc, held: multiset<nat>): multiset<nat> {
    Stored(slot) + Carried(pc) + held
  }

  lemma QuietAround(s: State, e: Event)
    requires Shaped(s) && e.t < |s.threads| && Quiet(s, e)
    ensures var s' := Step(s, e);
      s'.slots == s.slots && s'.held == s.held && Carried(s'.threads[e.t]) == Carried(s.threads[e.t])
  {
  }

  lemma ClearAround(value: nat, pos: nat, held: multiset<nat>)
    requires value != 0
    ensures Around(0, Idle, held + multiset{value - 1}) == Around(value, ClearSlot(pos, value), held)
  {
  }

  lemma FillAround(index: nat, pos: nat, held: multiset<nat>)
    ensures Around(index + 1, Idle, held) == Around(0, FillSlot(index, pos), held)
  {
  }

  lemma CallAround(slot: nat, index: nat, held: multiset<nat>)
    requires index in held
    ensures Around(slot, LoadTail(index), held - multiset{index}) == Around(slot, Idle, held)
  {
    PutBack(Stored(slot), index, held);
  }

  lemma PutBack(a: multiset<nat>, index: nat, held: multiset<nat>)
    requires index in held
    ensures a + multiset{index} + (held - multiset{index}) == a + multiset{} + held
  {
  }

  /** A step moves at most one index between its thread, its slot and the callers. */
  ghost predicate MovesOneIndex(s: State, e: Event)
    requires Shaped(s) && e.t < |s.threads|
  {
    var s', i := Step(s, e), SlotOf(s, e);
    && s'.slots == s.slots[i := s'.slots[i]]
    && Around(s'.slots[i], s'.threads[e.t], s'.held) == Around(s.slots[i], s.threads[e.t], s.held)
  }

  lemma SlotStoreMovesOneIndex(s: State, t: nat)
    requires RingOk(s, Books(s)) && t < |s.threads|
    requires s.threads[t].ClearSlot? || s.threads[t].FillSlot?
    ensures MovesOneIndex(s, Advance(t))
  {
    RingSlotIsReady(s, t);
    StoreMovesOneIndex(s, t);
  }

  lemma RingSlotIsReady(s: State, t: nat)
    requires RingOk(s, Books(s)) && t < |s.threads|
    requires s.threads[t].ClearSlot? || s.threads[t].FillSlot?
    ensures var pc := s.threads[t]; var value := s.slots[Mod(pc.pos, Size(s))];
      if pc.ClearSlot? then value == pc.value != 0 else value == 0
  {
    hide Step, Rebooked;
    BooksStep(s, Advance(t));
    if s.threads[t].ClearSlot? { SlotCleared(s, t, Books(s)); } else { SlotFilled(s, t, Books(s)); }
  }

  lemma StoreMovesOneIndex(s: State, t: nat)
    requires Shaped(s) && t < |s.threads|
    requires s.threads[t].ClearSlot? || s.threads[t].FillSlot?
    requires var pc := s.threads[t]; var value := s.slots[Mod(pc.pos, Size(s))];
      if pc.ClearSlot? then value == pc.value != 0 else value == 0
    ensures MovesOneIndex(s, Advance(t))
  {
    var a := s.threads[t];
    if a.ClearSlot? { ClearAround(a.value, a.pos, s.held); } else { FillAround(a.index, a.pos, s.held); }
  }

  lemma OtherMovesOneIndex(s: State, e: Event)
    requires Shaped(s) && e.t < |s.threads|
    requires e.Advance? ==> !s.threads[e.t].ClearSlot? && !s.threads[e.t].FillSlot?
    ensures MovesOneIndex(s, e)
  {
    hide Step, Around, SlotOf;
    var slot := SlotOf(s, e);
    assert s.slots[slot := s.slots[slot]] == s.slots;
    if Quiet(s, e) {
      QuietAround(s, e);
      SameAround(s.slots[slot], s.threads[e.t], Step(s, e).threads[e.t], s.held);
    } else if e.CallReturn? {
      CallAround(s.slots[slot], e.index, s.held);
      CallStep(s, e.t, e.index);
    } else {
      ClaimAround(s, e.t);
      SameAround(s.slots[slot], s.threads[e.t], Step(s, e).threads[e.t], s.held);
    }
  }

  lemma SameAround(slot: nat, a: Pc, b: Pc, held: multiset<nat>)
    requires Carried(a) == Carried(b)
    ensures Around(slot, a, held) == Around(slot, b, held)
  {
  }

  lemma CallStep(s: State, t: nat, index: nat)
    requires Shaped(s) && t < |s.threads| && s.threads[t] == Idle && index in s.held
    ensures var s' := Step(s, CallReturn(t, index));
      s'.slots == s.slots && s'.threads[t] == LoadTail(index) && s'.held == s.held - multiset{index}
  {
  }

  /** A claim of a ticket moves no index. */
  lemma ClaimAround(s: State, t: nat)
    requires Shaped(s) && t < |s.threads|
    requires s.threads[t].CasRead? || s.threads[t].CasWrite?
    ensures var s' := Step(s, Advance(t));
      s'.slots == s.slots && s'.held == s.held && Carried(s'.threads[t]) == Carried(s.threads[t])
  {
  }

  lemma PlacesKept(s: State, e: Event)
    requires RingOk(s, Books(s))
    ensures forall i: nat :: Places(Step(s, e), i) == Places(s, i)
  {
    if e.t < |s.threads| {
      if e.Advance? && (s.threads[e.t].ClearSlot? || s.threads[e.t].FillSlot?) {
        SlotStoreMovesOneIndex(s, e.t);
      } else {
        OtherMovesOneIndex(s, e);
      }
      PlacesFollow(s, e);
    }
  }

  lemma PlacesFollow(s: State, e: Event)
    requires Shaped(s) && e.t < |s.threads| && MovesOneIndex(s, e)
    ensures forall i: nat :: Places(Step(s, e), i) == Places(s, i)
  {
    hide Step, Around;
    OneThreadMoves(s, e);
    var s', slot := Step(s, e), SlotOf(s, e);
    PlacesMoved(s, e.t, s'.threads[e.t], slot, s'.slots[slot], s'.held);
    SamePlaces(Goto(s, e.t, s'.threads[e.t]).(slots := s'.slots, held := s'.held), s');
  }

  lemma SamePlaces(s: State, s': State)
    requires s.slots == s'.slots && s.threads == s'.threads && s.held == s'.held
    ensures forall i: nat :: Places(s, i) == Places(s', i)
  {
  }
}

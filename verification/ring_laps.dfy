/**
 When can one thread lap another? Never with at most two threads, never in a pool of one index; with
 three threads and two indices it can, and then one index gets two callers.
 */
module RingLaps {
  import opened Bags
  import opened Remainder
  import opened RingProtocol
  import opened RingSafety
  import opened RingGuarantees

  /** Too few threads or too few indices for a lap. */
  predicate Small(s: State) { |s.threads| <= 2 || s.capacity == 1 }

  /** A reader a whole lap behind implies a writer waiting for it at the read position. */
  lemma StaleReaderNeedsRoom(s: State, t: nat)
    requires RingOk(s, Books(s)) && s.readPos < s.writePos
    requires Reading(Books(s), s.readPos - Size(s))
    requires t < |s.threads| && !Claimed(s.threads[t])
    ensures !Small(s)
  {
    var l, r := Books(s), s.readPos;
    assert OrderedAt(s, l, r - Size(s));
    var u := OwnerOfRead(s, r - Size(s));
    var v := OwnerOfWrite(s, r);
    assert l.readers[r - Size(s)] >= 1;
    NonEmpty(l.readers, r - Size(s));
  }

  lemma NonEmpty(m: multiset<nat>, v: nat)
    requires v in m
    ensures |m| >= 1
  {
  }

  lemma OwnsWhatItCarries(s: State, t: nat)
    requires Shaped(s) && t < |s.threads| && s.threads[t].CasWrite?
    ensures |Books(s).unclaimed| >= 1
  {
    BooksMoved(s, t, s.threads[t]);
    NonEmpty(Books(s).unclaimed, s.threads[t].index);
  }

  /** A writer a whole lap behind implies a reader waiting for it. */
  lemma StaleWriterNeedsRoom(s: State, t: nat)
    requires RingOk(s, Books(s))
    requires Writing(Books(s), s.writePos - Size(s))
    requires t < |s.threads| && s.threads[t].CasWrite?
    ensures !Small(s)
  {
    hide Books;
    var p := s.writePos - Size(s);
    assert OrderedAt(s, Books(s), p);
    var u := OwnerOfWrite(s, p);
    var v := OwnerOfRead(s, p);
    OwnsWhatItCarries(s, t);
    NonEmpty(Books(s).readers, p);
  }

  lemma ShrinkingKeepsNoLap(l: Ledger, l': Ledger, size: nat)
    requires NoLap(l, size) && l'.readers <= l.readers && l'.writers <= l.writers
    ensures NoLap(l', size)
  {
    forall p: int ensures NoLapAt(l', size, p) {
      assert NoLapAt(l, size, p);
    }
  }

  lemma RingIsLapFree(s: State, l: Ledger)
    requires RingOk(s, l)
    ensures NoLap(l, Size(s))
  {
  }

  lemma GrowingReaders(s: State, l: Ledger, l': Ledger)
    requires RingOk(s, l) && l'.writers == l.writers && l'.readers == l.readers + multiset{s.readPos}
    requires !Reading(l, s.readPos - Size(s))
    ensures NoLap(l', Size(s))
  {
    forall p: int ensures NoLapAt(l', Size(s), p) {
      assert NoLapAt(l, Size(s), p) && OrderedAt(s, l, p) && OrderedAt(s, l, p + Size(s));
    }
  }

  lemma GrowingWriters(s: State, l: Ledger, l': Ledger)
    requires RingOk(s, l) && l'.readers == l.readers && l'.writers == l.writers + multiset{s.writePos}
    requires !Writing(l, s.writePos - Size(s))
    ensures NoLap(l', Size(s))
  {
    forall p: int ensures NoLapAt(l', Size(s), p) {
      assert NoLapAt(l, Size(s), p) && OrderedAt(s, l, p) && OrderedAt(s, l, p + Size(s));
    }
  }

  predicate ClaimsRead(s: State, e: Event)
    requires e.t < |s.threads|
  {
    e.Advance? && s.threads[e.t] == CasRead(s.readPos)
  }

  predicate ClaimsWrite(s: State, e: Event)
    requires e.t < |s.threads|
  {
    e.Advance? && s.threads[e.t].CasWrite? && s.threads[e.t].pos == s.writePos
  }

  /** Tickets are only claimed at the two positions; any other step keeps or gives up what its thread has. */
  predicate TicketsMove(s: State, e: Event, a: Pc, b: Pc)
    requires e.t < |s.threads|
  {
    if ClaimsRead(s, e) then ReadAt(a) == -1 && ReadAt(b) == s.readPos && WriteAt(a) == WriteAt(b) == -1
    else if ClaimsWrite(s, e) then WriteAt(a) == -1 && WriteAt(b) == s.writePos && ReadAt(a) == ReadAt(b) == -1
    else (ReadAt(b) == ReadAt(a) || ReadAt(b) == -1) && (WriteAt(b) == WriteAt(a) || WriteAt(b) == -1)
  }

  lemma MoveTickets(s: State, t: nat)
    requires Shaped(s) && t < |s.threads|
    ensures TicketsMove(s, Advance(t), s.threads[t], Move(s, t).threads[t]) && s.readPos <= Move(s, t).readPos
  {
  }

  lemma NextTickets(s: State, e: Event)
    requires Shaped(s) && e.t < |s.threads|
    ensures TicketsMove(s, e, s.threads[e.t], Step(s, e).threads[e.t]) && s.readPos <= Step(s, e).readPos
  {
    hide Move;
    if e.Advance? { MoveTickets(s, e.t); }
  }

  lemma StepWithoutStale(s: State, e: Event, l: Ledger)
    requires RingOk(s, l) && e.t < |s.threads| && Lists(l, s.threads[e.t])
    requires ClaimsRead(s, e) ==> !Reading(l, s.readPos - Size(s))
    requires ClaimsWrite(s, e) ==> !Writing(l, s.writePos - Size(s))
    ensures NoLap(Rebooked(l, s.threads[e.t], Step(s, e).threads[e.t]), Size(s))
  {
    hide Step, RingOk, NoLap;
    RingIsShaped(s, l);
    var l' := Rebooked(l, s.threads[e.t], Step(s, e).threads[e.t]);
    NextTickets(s, e);
    if ClaimsRead(s, e) {
      GrowingReaders(s, l, l');
    } else if ClaimsWrite(s, e) {
      GrowingWriters(s, l, l');
    } else {
      assert NoLap(l, Size(s)) by { RingIsLapFree(s, l); }
      ShrinkingKeepsNoLap(l, l', Size(s));
    }
  }

  /** With at most two threads, or a single index, no step lets one thread lap another. */
  lemma SmallStepIsLapFree(s: State, e: Event)
    requires RingOk(s, Books(s)) && Small(s)
    ensures LapFree(Step(s, e))
  {
    if e.t < |s.threads| {
      StaleNeedsRoom(s, e);
      BooksStep(s, e);
      StepWithoutStale(s, e, Books(s));
      SizeKept(s, e);
    }
  }

  lemma SizeKept(s: State, e: Event)
    requires Shaped(s)
    ensures Size(Step(s, e)) == Size(s)
  {
  }

  lemma StaleNeedsRoom(s: State, e: Event)
    requires RingOk(s, Books(s)) && Small(s) && e.t < |s.threads|
    ensures ClaimsRead(s, e) ==> !Reading(Books(s), s.readPos - Size(s))
    ensures ClaimsWrite(s, e) ==> !Writing(Books(s), s.writePos - Size(s))
  {
    hide Books;
    assert Remembers(s, s.threads[e.t]);
    if ClaimsRead(s, e) && Reading(Books(s), s.readPos - Size(s)) { StaleReaderNeedsRoom(s, e.t); }
    if ClaimsWrite(s, e) && Writing(Books(s), s.writePos - Size(s)) { StaleWriterNeedsRoom(s, e.t); }
  }

  lemma {:induction false} SmallRunIsLapFree(s: State, es: seq<Event>)
    requires RingOk(s, Books(s)) && LapFree(s) && Small(s)
    ensures LapFreeRun(s, es)
    decreases |es|
  {
    if es != [] {
      SmallStepIsLapFree(s, es[0]);
      RingStep(s, es[0]);
      SmallRunIsLapFree(Step(s, es[0]), es[1..]);
    }
  }

  // ---- the reader's busy-wait is never entered

  /** Whoever is past the slot test has a slot that its writer already filled. */
  ghost predicate CalmThread(s: State, l: Ledger, pc: Pc) {
    && (pc == CasRead(s.readPos) ==> !Writing(l, s.readPos))
    && (pc.LoadSlot? ==> !Writing(l, pc.pos))
  }

  ghost predicate Calm(s: State) {
    forall t | 0 <= t < |s.threads| :: CalmThread(s, Books(s), s.threads[t])
  }

  lemma CalmOthers(s: State, l: Ledger, s': State, l': Ledger, pc: Pc)
    requires |s.deposited| == s.writePos && Remembers(s, pc) && CalmThread(s, l, pc)
    requires s.readPos <= s'.readPos && s.readPos <= s.writePos
    requires forall p: int :: Writing(l', p) ==> Writing(l, p) || p == s.writePos
    requires pc.CasRead? ==> pc.pos <= s.readPos
    ensures CalmThread(s', l', pc)
  {
  }

  lemma TestedSlotIsFilled(s: State, l: Ledger)
    requires RingOk(s, l) && !Reading(l, s.readPos - Size(s))
    requires s.slots[Mod(s.readPos, Size(s))] != 0
    ensures !Writing(l, s.readPos)
  {
    if Writing(l, s.readPos) { SlotOfWriter(s, l, s.readPos); }
  }

  /** A thread gets past the slot test only by testing, and claims the read position only by its claim. */
  lemma NextCalm(s: State, e: Event)
    requires Shaped(s) && e.t < |s.threads|
    ensures var a, b, s' := s.threads[e.t], Step(s, e).threads[e.t], Step(s, e);
      && (b.CasRead? ==> s'.readPos == s.readPos
                         && (b == a || (a == CheckSlot(b.pos) && s.slots[Mod(b.pos, Size(s))] != 0)))
      && (b.LoadSlot? ==> b == a || (a == CasRead(s.readPos) && b.pos == s.readPos))
  {
  }

  lemma SameWriters(l: Ledger, a: Pc, b: Pc)
    requires WriteAt(a) == WriteAt(b)
    ensures Rebooked(l, a, b).writers == l.writers
  {
  }

  lemma CalmMover(s: State, e: Event, l: Ledger)
    requires Shaped(s) && e.t < |s.threads| && CalmThread(s, l, s.threads[e.t])
    requires s.threads[e.t] == CheckSlot(s.readPos) && s.slots[Mod(s.readPos, Size(s))] != 0 ==> !Writing(l, s.readPos)
    ensures var b := Step(s, e).threads[e.t]; CalmThread(Step(s, e), Rebooked(l, s.threads[e.t], b), b)
  {
    hide Step, Rebooked;
    var b := Step(s, e).threads[e.t];
    NextCalm(s, e);
    if b.CasRead? || b.LoadSlot? { SameWriters(l, s.threads[e.t], b); }
  }

  lemma WritersOnlyGrowAtTail(s: State, e: Event, l: Ledger)
    requires Shaped(s) && e.t < |s.threads|
    ensures forall p: int :: Writing(Rebooked(l, s.threads[e.t], Step(s, e).threads[e.t]), p)
                             ==> Writing(l, p) || p == s.writePos
    ensures s.readPos <= Step(s, e).readPos
  {
    hide Step;
    NextTickets(s, e);
  }

  /** A thread about to be past the slot test finds its writer done. */
  lemma TestFindsFilled(s: State, t: nat)
    requires RingOk(s, Books(s)) && Small(s) && t < |s.threads|
    ensures s.threads[t] == CheckSlot(s.readPos) && s.slots[Mod(s.readPos, Size(s))] != 0 ==>
              !Writing(Books(s), s.readPos)
  {
    hide Books;
    assert Remembers(s, s.threads[t]);
    if s.threads[t] == CheckSlot(s.readPos) && s.slots[Mod(s.readPos, Size(s))] != 0 {
      if Reading(Books(s), s.readPos - Size(s)) { StaleReaderNeedsRoom(s, t); }
      TestedSlotIsFilled(s, Books(s));
    }
  }

  lemma CalmAll(s: State, l: Ledger, s': State, l': Ledger, t: nat)
    requires RingOk(s, l) && t < |s.threads| == |s'.threads| && s'.threads == s.threads[t := s'.threads[t]]
    requires forall u | 0 <= u < |s.threads| :: CalmThread(s, l, s.threads[u])
    requires CalmThread(s', l', s'.threads[t])
    requires s.readPos <= s'.readPos && forall p: int :: Writing(l', p) ==> Writing(l, p) || p == s.writePos
    ensures forall u | 0 <= u < |s'.threads| :: CalmThread(s', l', s'.threads[u])
  {
    forall u | 0 <= u < |s'.threads| && u != t ensures CalmThread(s', l', s'.threads[u]) {
      assert Remembers(s, s.threads[u]);
      CalmOthers(s, l, s', l', s.threads[u]);
    }
  }

  lemma CalmStepAt(s: State, e: Event)
    requires RingOk(s, Books(s)) && Small(s) && Calm(s) && e.t < |s.threads|
    ensures Calm(Step(s, e))
  {
    hide Step, Books, Rebooked, CalmThread, RingOk;
    RingIsShaped(s, Books(s));
    BooksStep(s, e);
    OneThreadMoves(s, e);
    WritersOnlyGrowAtTail(s, e, Books(s));
    TestFindsFilled(s, e.t);
    CalmMover(s, e, Books(s));
    CalmAll(s, Books(s), Step(s, e), Books(Step(s, e)), e.t);
  }

  lemma RingIsShaped(s: State, l: Ledger)
    requires RingOk(s, l)
    ensures Shaped(s)
  {
  }

  lemma CalmStep(s: State, e: Event)
    requires RingOk(s, Books(s)) && Small(s) && Calm(s)
    ensures Calm(Step(s, e))
  {
    if e.t < |s.threads| { CalmStepAt(s, e); }
  }

  /** Every reader that loads its slot finds it in use, so the wait loop runs zero times. */
  ghost predicate NoReaderWaits(s: State)
    requires Shaped(s)
  {
    forall t | 0 <= t < |s.threads| && s.threads[t].LoadSlot? :: SlotReady(s, t)
  }

  lemma CalmReadersNeverWait(s: State)
    requires RingOk(s, Books(s)) && Calm(s)
    ensures NoReaderWaits(s)
  {
    forall t | 0 <= t < |s.threads| && s.threads[t].LoadSlot? ensures SlotReady(s, t) {
      BooksMoved(s, t, s.threads[t]);
      assert CalmThread(s, Books(s), s.threads[t]) && Remembers(s, s.threads[t]);
      SlotOfReader(s, Books(s), s.threads[t].pos);
    }
  }

  /**
   No side condition: every run of at most two threads, and every run of any number of threads on a pool of
   one index, is lap-free, keeps every index in exactly one place and never enters the reader's wait.
   */
  lemma {:induction false} SmallRunIsSafe(s: State, es: seq<Event>)
    requires RingOk(s, Books(s)) && EachIndexOnce(s) && Small(s) && Calm(s)
    ensures LapFreeRun(s, es)
    ensures EachIndexOnce(Run(s, es)) && NoReaderWaits(Run(s, es))
    decreases |es|
  {
    if es == [] {
      CalmReadersNeverWait(s);
    } else {
      SmallStepIsLapFree(s, es[0]);
      RingStep(s, es[0]);
      PlacesKept(s, es[0]);
      CalmStep(s, es[0]);
      SmallRunIsSafe(Step(s, es[0]), es[1..]);
    }
  }
}

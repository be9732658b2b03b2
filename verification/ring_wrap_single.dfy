/**
 A ring of one index: three threads and one full turn of the positions let two threads claim read positions
 that they loaded a turn ago, and the index gets two callers.
 */
module RingWrapSingle {
  import opened Remainder
  import opened RingProtocol
  import opened RingDoubleHandOut
  import opened RingWrap
  import opened RingWrapAlone

  /** Everything but history: one index, three or more threads, the first three at `a`, `c` and `d`. */
  ghost predicate At(b: Bounded, a: Pc, c: Pc, d: Pc, read: nat, write: nat, slots: seq<nat>, held: multiset<nat>) {
    && Formed(b) && b.ring.capacity == 1 && |b.wraps| >= 3 && NobodyWraps(b)
    && b.ring.threads[0] == a && b.ring.threads[1] == c && b.ring.threads[2] == d
    && b.ring.readPos == read && b.ring.writePos == write && b.ring.slots == slots && b.ring.held == held
    && b.limit >= 2 && Mod(b.limit, 2) == 0
  }

  lemma InitAt(threads: nat, laps: nat)
    requires threads >= 3 && laps >= 1
    ensures At(BoundedInit(1, threads, Laps(laps, 2)), Idle, Idle, Idle, 0, 1, [1, 0], multiset{})
  {
    ModLaps(0, laps, 2);
    assert Mod(0, 2) == 0;
    assert Init(1, threads).slots == [1, 0];
  }

  lemma Halves()
    ensures Mod(0, 2) == 0 && Mod(1, 2) == 1 && Mod(2, 2) == 0
  {
  }

  /** Thread 0 loads read position 0 and stops before claiming it. */
  lemma StallFirst(b: Bounded) returns (es: seq<Event>)
    requires At(b, Idle, Idle, Idle, 0, 1, [1, 0], multiset{})
    ensures At(BoundedRun(b, es), CasRead(0), Idle, Idle, 0, 1, [1, 0], multiset{})
    ensures BoundedRun(b, es).limit == b.limit
  {
    hide BoundedRun, Mod;
    Halves();
    es := NextToClaim(b, 0);
  }

  /** Thread 1 takes the index and returns it to slot 1. */
  lemma Around(b: Bounded) returns (es: seq<Event>)
    requires At(b, CasRead(0), Idle, Idle, 0, 1, [1, 0], multiset{})
    ensures At(BoundedRun(b, es), CasRead(0), Idle, Idle, 1, 2, [0, 1], multiset{})
    ensures BoundedRun(b, es).limit == b.limit
  {
    hide BoundedRun, Mod;
    Halves();
    var first := TakeAlone(b, 1);
    var b1 := BoundedRun(b, first);
    assert b1.ring.slots == [0, 0] && b1.ring.held == multiset{0};
    var second := GiveAlone(b1, 1, 0);
    es := first + second;
    BoundedAppend(b, first, second);
  }

  /** Thread 2 loads read position 1 and stops before claiming it. */
  lemma StallSecond(b: Bounded) returns (es: seq<Event>)
    requires At(b, CasRead(0), Idle, Idle, 1, 2, [0, 1], multiset{})
    ensures At(BoundedRun(b, es), CasRead(0), Idle, CasRead(1), 1, 2, [0, 1], multiset{})
    ensures BoundedRun(b, es).limit == b.limit
  {
    hide BoundedRun, Mod;
    Halves();
    es := NextToClaim(b, 2);
  }

  /** Thread 1 takes the index from slot 1. */
  lemma TakeSecond(b: Bounded) returns (es: seq<Event>)
    requires At(b, CasRead(0), Idle, CasRead(1), 1, 2, [0, 1], multiset{})
    ensures At(BoundedRun(b, es), CasRead(0), Idle, CasRead(1), 2, 2, [0, 0], multiset{0})
    ensures BoundedRun(b, es).limit == b.limit
  {
    hide BoundedRun, Mod;
    Halves();
    es := TakeAlone(b, 1);
  }

  /** Thread 1 returns the index and takes it again. */
  lemma Turn(b: Bounded, k: nat) returns (es: seq<Event>)
    requires At(b, CasRead(0), Idle, CasRead(1), k, k, [0, 0], multiset{0}) && k < b.limit
    ensures At(BoundedRun(b, es), CasRead(0), Idle, CasRead(1), k + 1, k + 1, [0, 0], multiset{0})
    ensures BoundedRun(b, es).limit == b.limit
  {
    hide BoundedRun, Mod;
    var i := Mod(k, 2);
    var first := GiveAlone(b, 1, 0);
    var b1 := BoundedRun(b, first);
    assert b1.ring.slots == [0, 0][i := 1] && b1.ring.held == multiset{};
    var second := TakeAlone(b1, 1);
    assert [0, 0][i := 1][i := 0] == [0, 0];
    es := first + second;
    BoundedAppend(b, first, second);
  }

  lemma {:induction false} TurnToLimit(b: Bounded, k: nat) returns (es: seq<Event>)
    requires At(b, CasRead(0), Idle, CasRead(1), k, k, [0, 0], multiset{0}) && k <= b.limit
    ensures At(BoundedRun(b, es), CasRead(0), Idle, CasRead(1), b.limit, b.limit, [0, 0], multiset{0})
    ensures BoundedRun(b, es).limit == b.limit
    decreases b.limit - k
  {
    if k == b.limit {
      es := [];
      BoundedNothing(b);
    } else {
      var first := Turn(b, k);
      hide BoundedRun;
      var rest := TurnToLimit(BoundedRun(b, first), k + 1);
      es := first + rest;
      BoundedAppend(b, first, rest);
    }
  }

  /** Thread 1 finds nothing but wraps the read position, and the two stalled claims succeed. */
  lemma ClaimBoth(b: Bounded) returns (es: seq<Event>)
    requires At(b, CasRead(0), Idle, CasRead(1), b.limit, b.limit, [0, 0], multiset{0})
    ensures At(BoundedRun(b, es), LoadSlot(0), Idle, LoadSlot(1), 2, b.limit, [0, 0], multiset{0})
    ensures BoundedRun(b, es).limit == b.limit
  {
    hide BoundedRun, Mod;
    Halves();
    var first := NextFindsNothing(b, 1);
    var b1 := BoundedRun(b, first);
    ClaimAlone(b1, 0);
    var b2 := BoundedRun(b1, Accesses(0, 1));
    ClaimAlone(b2, 2);
    es := first + (Accesses(0, 1) + Accesses(2, 1));
    BoundedAppend(b, first, Accesses(0, 1) + Accesses(2, 1));
    BoundedAppend(b1, Accesses(0, 1), Accesses(2, 1));
  }

  /** Thread 1 returns the index to slot 0, and thread 0 loads it. */
  lemma GiveAndLoad(b: Bounded) returns (es: seq<Event>)
    requires At(b, LoadSlot(0), Idle, LoadSlot(1), 2, b.limit, [0, 0], multiset{0})
    ensures At(BoundedRun(b, es), ClearSlot(0, 1), Idle, LoadSlot(1), 2, 1, [1, 0], multiset{})
    ensures BoundedRun(b, es).limit == b.limit
  {
    hide BoundedRun, Mod;
    Halves();
    var first := GiveAlone(b, 1, 0);
    var b1 := BoundedRun(b, first);
    LoadAlone(b1, 0);
    es := first + Accesses(0, 1);
    BoundedAppend(b, first, Accesses(0, 1));
  }

  /** Thread 1 finds slot 0 used at the read position two claims further on, and takes the index as well. */
  lemma TakeTwice(b: Bounded) returns (es: seq<Event>)
    requires At(b, ClearSlot(0, 1), Idle, LoadSlot(1), 2, 1, [1, 0], multiset{})
    ensures BoundedRun(b, es).ring.held[0] >= 2
  {
    hide BoundedRun, Mod;
    Halves();
    var first := TakeAlone(b, 1);
    var b1 := BoundedRun(b, first);
    ClearAlone(b1, 0);
    es := first + Accesses(0, 1);
    BoundedAppend(b, first, Accesses(0, 1));
  }

  /** One index and three threads: after a turn of the positions the index gets two callers. */
  lemma TurnHandsOutTwice(threads: nat, laps: nat) returns (es: seq<Event>)
    requires threads >= 3 && laps >= 1
    ensures BoundedRun(BoundedInit(1, threads, Laps(laps, 2)), es).ring.held[0] >= 2
  {
    InitAt(threads, laps);
    hide BoundedRun, BoundedInit, Laps;
    var b := BoundedInit(1, threads, Laps(laps, 2));
    var a1 := StallFirst(b);
    var b1 := BoundedRun(b, a1);
    var a2 := Around(b1);
    var b2 := BoundedRun(b1, a2);
    var a3 := StallSecond(b2);
    var b3 := BoundedRun(b2, a3);
    var a4 := TakeSecond(b3);
    var b4 := BoundedRun(b3, a4);
    var a5 := TurnToLimit(b4, 2);
    var b5 := BoundedRun(b4, a5);
    var a6 := FinishTurn(b5);
    es := a1 + (a2 + (a3 + (a4 + (a5 + a6))));
    BoundedAppend(b, a1, a2 + (a3 + (a4 + (a5 + a6))));
    BoundedAppend(b1, a2, a3 + (a4 + (a5 + a6)));
    BoundedAppend(b2, a3, a4 + (a5 + a6));
    BoundedAppend(b3, a4, a5 + a6);
    BoundedAppend(b4, a5, a6);
  }

  lemma FinishTurn(b: Bounded) returns (es: seq<Event>)
    requires At(b, CasRead(0), Idle, CasRead(1), b.limit, b.limit, [0, 0], multiset{0})
    ensures BoundedRun(b, es).ring.held[0] >= 2
  {
    hide BoundedRun;
    var first := ClaimBoth(b);
    var b1 := BoundedRun(b, first);
    var second := GiveAndLoad(b1);
    var b2 := BoundedRun(b1, second);
    var third := TakeTwice(b2);
    es := first + (second + third);
    BoundedAppend(b, first, second + third);
    BoundedAppend(b1, second, third);
  }
}

/**
 The lock-free indexer run one operation at a time, with its real slots and its bounded positions.
 A position runs up to `maxPositionSize`, the largest multiple of the ring size the machine can hold,
 and wraps to 0 at the start of the next operation that finds it there; the two wrap separately.
 */
module ConcurrentIndexers {
  import opened Remainder
  import opened IndexerSpec

  class AtomicPosition {
    var value: nat

    constructor (initial: nat)
      ensures value == initial
    {
      value := initial;
    }

    method Load() returns (r: nat)
      ensures r == value
    {
      r := value;
    }

    /** Compare-and-swap without spurious failure. */
    method CompareExchange(expected: nat, desired: nat) returns (modified: bool)
      modifies this
      ensures modified == (old(value) == expected)
      ensures value == if modified then desired else old(value)
    {
      modified := value == expected;
      if modified {
        value := desired;
      }
    }
  }

  /** How two wrapping positions `q` apart can stand to each other. */
  predicate PositionsAgree(read: nat, write: nat, q: nat, max: nat) {
    && read <= max && write <= max
    && (|| read + q == write
        || read + q == write + max              // only the write position has wrapped
        || (read == 0 && q == 0 && write == max))  // only the read position has wrapped
  }

  /** What the slot `k` places after the read position holds, by the queue. */
  function Expected(free: seq<nat>, k: nat): nat { if k < |free| then free[k] + 1 else 0 }

  /** The slot `k` places after `read` is the `k`-th oldest free index plus one, or unused. */
  predicate RingAt(slots: seq<nat>, read: nat, free: seq<nat>, k: nat)
    requires |slots| > 0
  {
    slots[Mod(read + k, |slots|)] == Expected(free, k)
  }

  /** The ring from `read` on: the free indices plus one, then unused slots. */
  ghost predicate RingHolds(slots: seq<nat>, read: nat, free: seq<nat>)
    requires |slots| > 0
  {
    |free| <= |slots| && forall k: nat | k < |slots| :: RingAt(slots, read, free, k)
  }

  lemma RingWraps(slots: seq<nat>, read: nat, free: seq<nat>, laps: nat)
    requires |slots| > 0 && RingHolds(slots, read, free) && read == Laps(laps, |slots|)
    ensures RingHolds(slots, 0, free)
  {
    forall k: nat | k < |slots| ensures RingAt(slots, 0, free, k) {
      assert RingAt(slots, read, free, k);
      ModLaps(k, laps, |slots|);
    }
  }

  lemma ExpectedNext(free: seq<nat>, k: nat)
    requires free != []
    ensures Expected(free[1..], k) == Expected(free, k + 1)
  {
  }

  /** One place further on, the slots are the same but for the one just cleared. */
  lemma SlotAfterTake(slots: seq<nat>, read: nat, k: nat)
    requires k < |slots|
    ensures slots[Mod(read, |slots|) := 0][Mod(read + 1 + k, |slots|)] ==
            if k + 1 < |slots| then slots[Mod(read + 1 + k, |slots|)] else 0
  {
    hide Mod;
    if k + 1 < |slots| {
      ModClash(read, read + 1 + k, |slots|);
    } else {
      ModShift(read, |slots|);
    }
  }

  lemma RingTakesAt(slots: seq<nat>, read: nat, free: seq<nat>, k: nat)
    requires |slots| > 0 && free != [] && |free| <= |slots| && k < |slots|
    requires k + 1 < |slots| ==> slots[Mod(read + (k + 1), |slots|)] == Expected(free, k + 1)
    ensures RingAt(slots[Mod(read, |slots|) := 0], read + 1, free[1..], k)
  {
    hide Mod, Expected;
    SlotAfterTake(slots, read, k);
    ExpectedNext(free, k);
    if k + 1 == |slots| { BeyondTheQueue(free, k + 1); }
  }

  lemma RingSlot(slots: seq<nat>, read: nat, free: seq<nat>, k: nat)
    requires |slots| > 0 && RingHolds(slots, read, free) && k < |slots|
    ensures slots[Mod(read + k, |slots|)] == Expected(free, k)
  {
    hide Mod;
    assert RingAt(slots, read, free, k);
  }

  lemma BeyondTheQueue(free: seq<nat>, k: nat)
    requires k >= |free|
    ensures Expected(free, k) == 0
  {
  }

  lemma RingTakesEach(slots: seq<nat>, read: nat, free: seq<nat>, k: nat)
    requires |slots| > 0 && RingHolds(slots, read, free) && free != [] && k < |slots|
    ensures RingAt(slots[Mod(read, |slots|) := 0], read + 1, free[1..], k)
  {
    RingIsShort(slots, read, free);
    hide Mod, Expected, RingAt, RingHolds;
    if k + 1 < |slots| { RingSlot(slots, read, free, k + 1); }
    RingTakesAt(slots, read, free, k);
  }

  lemma RingIsShort(slots: seq<nat>, read: nat, free: seq<nat>)
    requires |slots| > 0 && RingHolds(slots, read, free)
    ensures |free| <= |slots|
  {
  }

  lemma MakeRing(slots: seq<nat>, read: nat, free: seq<nat>)
    requires |slots| > 0 && |free| <= |slots| && forall k: nat | k < |slots| :: RingAt(slots, read, free, k)
    ensures RingHolds(slots, read, free)
  {
    hide RingAt;
  }

  lemma RingTakes(slots: seq<nat>, read: nat, free: seq<nat>)
    requires |slots| > 0 && RingHolds(slots, read, free) && free != []
    ensures RingHolds(slots[Mod(read, |slots|) := 0], read + 1, free[1..])
    ensures slots[Mod(read, |slots|)] == free[0] + 1
  {
    RingHead(slots, read, free);
    RingIsShort(slots, read, free);
    hide Mod, RingAt, RingHolds;
    var slots', read', free' := slots[Mod(read, |slots|) := 0], read + 1, free[1..];
    forall k: nat | k < |slots| ensures RingAt(slots', read', free', k) {
      RingTakesEach(slots, read, free, k);
    }
    MakeRing(slots', read', free');
  }

  lemma RingHead(slots: seq<nat>, read: nat, free: seq<nat>)
    requires |slots| > 0 && RingHolds(slots, read, free) && free != []
    ensures slots[Mod(read, |slots|)] == free[0] + 1
  {
    hide Mod;
    RingSlot(slots, read, free, 0);
  }

  lemma RingPuts(slots: seq<nat>, read: nat, free: seq<nat>, index: nat)
    requires |slots| > 0 && RingHolds(slots, read, free) && |free| < |slots|
    ensures RingHolds(slots[Mod(read + |free|, |slots|) := index + 1], read, free + [index])
    ensures slots[Mod(read + |free|, |slots|)] == 0
  {
    var size, q := |slots|, |free|;
    var slots' := slots[Mod(read + q, size) := index + 1];
    assert RingAt(slots, read, free, q);
    forall k: nat | k < size ensures RingAt(slots', read, free + [index], k) {
      assert RingAt(slots, read, free, k);
      if k < q { ModClash(read + k, read + q, size); }
      if k > q { ModClash(read + q, read + k, size); }
    }
  }

  /** The next write goes to the slot after the youngest free index, wrapped or not. */
  lemma TailSlot(read: nat, write: nat, q: nat, laps: nat, size: nat)
    requires size > 0 && PositionsAgree(read, write, q, Laps(laps, size)) && write != Laps(laps, size)
    ensures Mod(write, size) == Mod(read + q, size)
    ensures PositionsAgree(read, write + 1, q + 1, Laps(laps, size))
  {
    ModLaps(write, laps, size);
  }

  class ConcurrentIndexer {
    const readPos: AtomicPosition
    const writePos: AtomicPosition
    const indices: array<nat>
    const size: nat
    const maxPositionSize: nat
    ghost const laps: nat         // how many laps fit below maxPositionSize
    ghost var free: seq<nat>      // the free indices, oldest first

    ghost predicate Valid()
      reads this, readPos, writePos, indices
    {
      && readPos != writePos
      && indices.Length == size && size % 2 == 0 && size > 0
      && laps > 0 && maxPositionSize == Laps(laps, size)
      && FreeList(free, size / 2) && |free| <= size / 2
      && PositionsAgree(readPos.value, writePos.value, |free|, maxPositionSize)
      && RingHolds(indices[..], readPos.value, free)
    }

    function Capacity(): nat { size / 2 }

    /** Any machine maximum that can hold one lap. */
    constructor (poolSize: nat, machineMax: nat)
      requires poolSize >= 1 && machineMax >= 2 * poolSize
      ensures Valid() && Capacity() == poolSize && fresh(readPos) && fresh(writePos) && fresh(indices)
      ensures free == seq(poolSize, i => i)
      ensures maxPositionSize <= machineMax < maxPositionSize + size
    {
      size := poolSize * 2;
      maxPositionSize := (machineMax / (poolSize * 2)) * (poolSize * 2);
      laps := machineMax / (poolSize * 2);
      readPos := new AtomicPosition(0);
      writePos := new AtomicPosition(poolSize);
      indices := new nat[poolSize * 2](_ => 0);
      free := seq(poolSize, i => i);
      new;
      LargestMultiple(machineMax, size);
      var i := 0;
      while i < poolSize
        invariant 0 <= i <= poolSize
        invariant forall k | 0 <= k < i :: indices[k] == k + 1
        invariant forall k | i <= k < size :: indices[k] == 0
        invariant readPos.value == 0 && writePos.value == poolSize && readPos != writePos
        invariant free == seq(poolSize, j => j)
      {
        indices[i] := i + 1;
        i := i + 1;
      }
      assert forall k: nat | k < size :: RingAt(indices[..], 0, free, k);
    }

    /** Moves a position that has reached `limit` back to 0. */
    static method WrapOnOverflow(position: AtomicPosition, limit: nat)
      requires limit > 0
      modifies position
      ensures position.value == if old(position.value) == limit then 0 else old(position.value)
    {
      var curPos := position.Load();
      if curPos == limit {
        var modified := position.CompareExchange(curPos, 0);  // alone, the first attempt succeeds
      }
    }

    method SlotOf(position: nat) returns (i: nat)
      requires size > 0
      ensures i == Mod(position, size)
    {
      ModIsRemainder(position, size);
      i := position % size;
    }

    /** Hands out the oldest free index; `Empty` exactly when no index is free. */
    method Next() returns (r: IndexHolder)
      requires Valid()
      modifies this`free, readPos, indices
      ensures Valid()
      ensures old(free) == [] ==> r == Empty && free == []
      ensures old(free) != [] ==> r == Holding(old(free)[0]) && free == old(free)[1..]
      ensures NextSpec(Elements(old(free)), r, Elements(free))
    {
      while true
        invariant Valid() && free == old(free) && indices[..] == old(indices[..])
        decreases readPos.value == maxPositionSize
      {
        var curReadPos := readPos.Load();
        if curReadPos == maxPositionSize {
          WrapOnOverflow(readPos, maxPositionSize);
          RingWraps(indices[..], curReadPos, free, laps);
        } else {
          var curWritePos := writePos.Load();
          if curReadPos == curWritePos {
            return Empty;
          }
          var curReadIndex := SlotOf(curReadPos);
          assert RingAt(indices[..], curReadPos, free, 0);
          if indices[curReadIndex] == 0 {
            return Empty;
          }
          var modified := readPos.CompareExchange(curReadPos, curReadPos + 1);
          if modified {
            var index := indices[curReadIndex];
            assert index != 0;  // the wait for the writer ends at once
            RingTakes(indices[..], curReadPos, free);
            TakeHead(free, Capacity());
            indices[curReadIndex] := 0;
            free := free[1..];
            return Holding(index - 1);
          }
        }
      }
    }

    /** Takes back an index its caller holds; it is handed out again after all indices free now. */
    method Return(index: nat)
      requires Valid() && index < Capacity() && index !in free
      modifies this`free, writePos, indices
      ensures Valid()
      ensures free == old(free) + [index]
      ensures ReturnSpec(Elements(old(free)), index, Elements(free))
    {
      assert |free| < Capacity() by { HolderLeavesRoom(free, Capacity()); }
      while true
        invariant Valid() && free == old(free) && indices[..] == old(indices[..]) && |free| < Capacity()
        decreases writePos.value == maxPositionSize
      {
        var curWritePos := writePos.Load();
        if curWritePos == maxPositionSize {
          WrapOnOverflow(writePos, maxPositionSize);
        } else {
          TailSlot(readPos.value, curWritePos, |free|, laps, size);
          var modified := writePos.CompareExchange(curWritePos, curWritePos + 1);
          if modified {
            var curWriteIndex := SlotOf(curWritePos);
            Deposit(curWriteIndex, index);
            PutBack(old(free), Capacity(), index);
            return;
          }
        }
      }
    }

    /** The slot store of `Return`; the wait before it ends at once because the slot is unused. */
    method Deposit(slot: nat, index: nat)
      requires indices.Length == size > 0
      requires |free| < size && RingHolds(indices[..], readPos.value, free)
      requires slot == Mod(readPos.value + |free|, size)
      modifies this`free, indices
      ensures free == old(free) + [index] && RingHolds(indices[..], readPos.value, free)
    {
      ghost var slots: seq<nat> := indices[..];
      RingPuts(slots, readPos.value, free, index);
      assert indices[slot] == 0;
      indices[slot] := index + 1;
      free := free + [index];
      assert indices[..] == slots[slot := index + 1];
    }
  }
}

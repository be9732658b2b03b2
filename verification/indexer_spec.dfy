/** What both indexers promise: they hand out each of the indices 0..capacity-1 to one holder at a time. */
module IndexerSpec {

  datatype IndexHolder = Empty | Holding(value: nat)

  /** No index twice, none out of range. */
  predicate FreeList(free: seq<nat>, capacity: nat) {
    && (forall i | 0 <= i < |free| :: free[i] < capacity)
    && (forall i, j | 0 <= i < j < |free| :: free[i] != free[j])
  }

  /** The indices 0..capacity-1. */
  function Range(capacity: nat): (r: set<nat>)
    ensures forall i: nat :: i in r <==> i < capacity
    ensures |r| == capacity
  {
    if capacity == 0 then {} else Range(capacity - 1) + {capacity - 1}
  }

  function Elements(free: seq<nat>): set<nat> { set x | x in free }

  /** The indices the callers hold. */
  function Held(free: seq<nat>, capacity: nat): set<nat> { Range(capacity) - Elements(free) }

  /** `Next` empties nothing but one free index, and fails only when there is none. */
  ghost predicate NextSpec(free: set<nat>, result: IndexHolder, free': set<nat>) {
    match result
    case Empty => free == {} && free' == {}
    case Holding(i) => i in free && free' == free - {i}
  }

  ghost predicate ReturnSpec(free: set<nat>, index: nat, free': set<nat>) {
    index !in free && free' == free + {index}
  }

  lemma {:induction false} DistinctSize(free: seq<nat>)
    requires forall i, j | 0 <= i < j < |free| :: free[i] != free[j]
    ensures |Elements(free)| == |free|
  {
    if free == [] {
      assert Elements(free) == {};
    } else {
      DistinctSize(free[1..]);
      assert Elements(free) == Elements(free[1..]) + {free[0]};
      assert free[0] !in Elements(free[1..]);
    }
  }

  lemma SubsetSize(a: set<nat>, b: set<nat>)
    requires a <= b
    ensures |a| <= |b|
    ensures a != b ==> |a| < |b|
  {
    assert b == a + (b - a) && |b| == |a| + |b - a|;
    if b - a == {} {
      assert a == b;
    }
  }

  /** Whoever holds an index keeps the free list below capacity: why `Return` always finds room. */
  lemma HolderLeavesRoom(free: seq<nat>, capacity: nat)
    requires FreeList(free, capacity)
    ensures |free| <= capacity
    ensures |Held(free, capacity)| == capacity - |free|
    ensures forall i: nat | i < capacity && i !in free :: |free| < capacity
  {
    DistinctSize(free);
    assert Elements(free) <= Range(capacity);
    SubsetSize(Elements(free), Range(capacity));
    assert Range(capacity) == Elements(free) + Held(free, capacity);
    forall i: nat | i < capacity && i !in free ensures |free| < capacity {
      assert i in Held(free, capacity);
    }
  }

  /** Removing the head of a free list is `Next`; what is left is a free list. */
  lemma TakeHead(free: seq<nat>, capacity: nat)
    requires FreeList(free, capacity) && free != []
    ensures FreeList(free[1..], capacity)
    ensures NextSpec(Elements(free), Holding(free[0]), Elements(free[1..]))
  {
    assert free == [free[0]] + free[1..];
  }

  /** Adding a held index at either end is `Return`. */
  lemma PutBack(free: seq<nat>, capacity: nat, index: nat)
    requires FreeList(free, capacity) && index < capacity && index !in free
    ensures FreeList(free + [index], capacity) && FreeList([index] + free, capacity)
    ensures ReturnSpec(Elements(free), index, Elements(free + [index]))
    ensures ReturnSpec(Elements(free), index, Elements([index] + free))
  {
  }
}

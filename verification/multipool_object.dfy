/** The multipool as an object over fourteen pools, used by one thread at a time. */
module MultipoolObjects {
  import opened SizeClasses
  import opened MemPools

  /** Releasing one pool leaves the nodes and blocks of another alone. */
  lemma OthersUntouched(p: MemPool, q: MemPool)
    requires p.Valid() && q.Valid() && p != q
    ensures q !in Releases(p.list)
    ensures forall n | n in q.list :: n !in Releases(p.list) && n.data !in Releases(p.list)
  {
    ReleasesOnce(p.list);
    forall n | n in q.list ensures n !in Releases(p.list) && n.data !in Releases(p.list) {
      assert q.Homed(n);
      forall m | m in p.list ensures n != m && n.data != m.data { assert p.Homed(m); }
    }
  }

  /** `live` is what was allocated at `start` without the objects freed since. */
  ghost predicate Without(live: set<object>, start: set<object>, gone: seq<object?>) {
    live == set o | o in start && o !in gone
  }

  lemma WithoutMore(live: set<object>, middle: set<object>, start: set<object>, a: seq<object?>, b: seq<object?>)
    requires Without(middle, start, a) && Without(live, middle, b)
    ensures Without(live, start, a + b)
  {
  }

  ghost function NodesOf(pools: seq<MemPool>): set<object>
    reads pools
  {
    set p: MemPool, n: MemNode | p in pools && n in p.list :: n
  }

  /** What releasing `pools` one after the other frees, in order: the list of each, then the pool. */
  ghost function Everything(pools: seq<MemPool>): seq<object?>
    reads pools, NodesOf(pools)
  {
    if pools == [] then [] else
      assert forall n | n in pools[0].list :: n in NodesOf(pools);
      assert NodesOf(pools[1..]) <= NodesOf(pools);
      OfPool(pools[0]) + Everything(pools[1..])
  }

  function Flat(parts: seq<seq<object?>>): seq<object?> {
    if parts == [] then [] else parts[0] + Flat(parts[1..])
  }

  lemma FlatMore(parts: seq<seq<object?>>, i: nat, gone: seq<object?>)
    requires i < |parts| && gone + Flat(parts[i..]) == Flat(parts)
    ensures (gone + parts[i]) + Flat(parts[i + 1..]) == Flat(parts)
  {
    assert parts[i..][1..] == parts[i + 1..];
    assert gone + (parts[i] + Flat(parts[i + 1..])) == (gone + parts[i]) + Flat(parts[i + 1..]);
  }

  lemma FlatNothing(parts: seq<seq<object?>>)
    requires parts == []
    ensures Flat(parts) == []
  {
  }

  ghost function Parts(pools: seq<MemPool>): (parts: seq<seq<object?>>)
    reads pools, NodesOf(pools)
    ensures |parts| == |pools| && forall i | 0 <= i < |pools| :: parts[i] == PartAt(pools, i)
  {
    seq(|pools|, i requires 0 <= i < |pools| reads pools, NodesOf(pools) => PartAt(pools, i))
  }

  ghost function PartAt(pools: seq<MemPool>, i: nat): seq<object?>
    requires i < |pools|
    reads pools, NodesOf(pools)
  {
    assert forall n | n in pools[i].list :: n in NodesOf(pools);
    OfPool(pools[i])
  }

  lemma {:induction false} EverythingIsFlat(pools: seq<MemPool>)
    ensures Everything(pools) == Flat(Parts(pools))
  {
    if pools != [] {
      EverythingIsFlat(pools[1..]);
      hide OfPool;
      assert Parts(pools)[1..] == Parts(pools[1..]);
    }
  }

  ghost function OfPool(p: MemPool): seq<object?>
    reads p, p.list
  {
    Releases(p.list) + [p]
  }

  lemma OfPoolOnce(p: MemPool)
    requires p.Valid()
    ensures Distinct(OfPool(p)) && null !in OfPool(p)
  {
    ReleasesOnce(p.list);
    DistinctJoin(Releases(p.list), [p]);
  }

  lemma NotShared(p: MemPool, q: MemPool, o: object)
    requires p.Valid() && q.Valid() && p != q && o in OfPool(p)
    ensures o !in OfPool(q)
  {
    OthersUntouched(p, q);
    OthersUntouched(q, p);
    ReleasesOnce(q.list);
  }

  lemma DistinctJoin<T>(a: seq<T>, b: seq<T>)
    requires Distinct(a) && Distinct(b) && forall x | x in a :: x !in b
    ensures Distinct(a + b)
  {
    forall i, k | 0 <= i < k < |a + b| ensures (a + b)[i] != (a + b)[k] {
      if i < |a| <= k { assert a[i] in a && b[k - |a|] in b; }
    }
  }

  lemma OwnerAmong(pools: seq<MemPool>, o: object) returns (p: MemPool)
    requires Distinct(pools) && (forall p | p in pools :: p.Valid()) && o in Everything(pools)
    ensures p in pools && o in OfPool(p)
    decreases |pools|, 1
  {
    EverythingOnce(pools);
    p :| p in pools && o in OfPool(p);
  }

  /** Different pools share nothing, so nothing is freed twice. */
  lemma {:induction false} EverythingOnce(pools: seq<MemPool>)
    requires Distinct(pools) && forall p | p in pools :: p.Valid()
    ensures Distinct(Everything(pools)) && null !in Everything(pools)
    ensures forall o: object :: o in Everything(pools) <==> exists p | p in pools :: o in OfPool(p)
    decreases |pools|, 0
  {
    if pools != [] {
      var p, rest := pools[0], pools[1..];
      EverythingOnce(rest);
      OfPoolOnce(p);
      hide OfPool;
      assert pools == [p] + rest;
      forall o: object | o in OfPool(p) ensures o !in Everything(rest) {
        if o in Everything(rest) {
          var q := OwnerAmong(rest, o);
          NotShared(p, q, o);
        }
      }
      DistinctJoin(OfPool(p), Everything(rest));
    }
  }

  /** A node is listed by its home pool or by none. */
  lemma ListedAtHome(p: MemPool, n: MemNode)
    requires p.Valid() && n.pool != p
    ensures n !in p.list
  {
    forall m | m in p.list ensures m.pool == p { assert p.Homed(m); }
  }

  /** Neither the list nor a counter of a pool has changed. */
  twostate predicate Same(p: MemPool)
    reads p
  {
    unchanged(p)
  }

  class Multipool {
    const pools: seq<MemPool>
    ghost var outside: set<Block>     // the blocks its callers have

    /** A block of this multipool that is not in the list of its pool. */
    ghost predicate Away(d: Block)
      reads d.header, pools
    {
      var n := d.header;
      n.data == d && n.pool != null && n.pool in pools && n !in n.pool.list && n.pool.Homed(n)
    }

    ghost function Headers(): set<object>
      reads this
    {
      set d | d in outside :: d.header
    }

    ghost predicate Valid()
      reads this, pools, NodesOf(pools), Headers()
    {
      && |pools| == ENTRY_COUNT && Distinct(pools)
      && (forall i | 0 <= i < |pools| :: pools[i].memSize == ClassSize(i))
      && (forall p | p in pools :: assert forall n | n in p.list :: n in NodesOf(pools); p.Valid())
      && (forall d | d in outside :: assert d.header in Headers(); Away(d))
    }

    /** All that belongs to the multipool, listed or away, is allocated memory. */
    ghost predicate Allocated(heap: Heap)
      reads this, pools, NodesOf(pools), heap
    {
      && this in heap.live
      && (forall p | p in pools ::
            p in heap.live && (assert forall n | n in p.list :: n in NodesOf(pools); p.Allocated(heap)))
      && (forall d | d in outside :: d in heap.live && d.header in heap.live)
    }

    constructor (heap: Heap)
      modifies heap
      ensures Valid() && Allocated(heap) && outside == {}
      ensures fresh(pools) && forall p | p in pools :: p.list == []
      ensures forall o :: o in heap.live <==> o in old(heap.live) || o in pools || o == this
    {
      var made: seq<MemPool> := [];
      var size := 512;
      Pow2Of9();
      for i := 0 to ENTRY_COUNT
        invariant |made| == i && size == ClassSize(i) && fresh(made) && Distinct(made)
        invariant forall k | 0 <= k < i :: made[k].Valid() && made[k].memSize == ClassSize(k) && made[k].list == []
        invariant forall o :: o in heap.live <==> o in old(heap.live) || o in made
      {
        var pool := MemPool.Alloc(heap, size);
        made := made + [pool];
        size := 2 * size;
      }
      pools, outside := made, {};
      new;
      heap.live := heap.live + {this};
    }

    /** A listed block is not away. */
    lemma ListedIsInside(p: MemPool)
      requires Valid() && p in pools
      ensures forall n | n in p.list :: n.data !in outside
    {
      forall n, d | n in p.list && d in outside ensures n.data != d {
        assert p.Homed(n) && Away(d);
      }
    }

    /**
     The top block of the pool of the smallest class that fits, or a new one of that class when the pool is
     empty; NULL when no class fits or malloc fails.
     */
    method Acquire(heap: Heap, size: nat, misses: nat, nodeOk: bool, blockOk: bool) returns (data: Block?)
      requires Valid() && Allocated(heap) && size < MAX
      modifies heap, pools, this`outside
      ensures Valid() && Allocated(heap)
      ensures data == null ==> outside == old(outside)
      ensures data != null ==> data !in old(outside) && outside == old(outside) + {data}
      ensures !(1 <= size <= 0x40_0000) ==>
        data == null && heap.live == old(heap.live) && forall p | p in pools :: Same(p)
      ensures 1 <= size <= 0x40_0000 ==>
        && var i := FindIndex(size);
        && Smallest(size, i) && i < ENTRY_COUNT
        && (forall k | 0 <= k < ENTRY_COUNT && k != i :: Same(pools[k]))
        && (old(pools[i].list) != [] ==>
              && data == old(pools[i].list[0].data) && pools[i].list == old(pools[i].list)[1..]
              && pools[i].numAvailable == (old(pools[i].numAvailable) - 1) % MAX
              && pools[i].numAllocs == old(pools[i].numAllocs)
              && heap.live == old(heap.live) && heap.freed == old(heap.freed))
        && (old(pools[i].list) == [] ==>
              && pools[i].list == [] && (data == null <==> !(nodeOk && blockOk))
              && (data != null ==> fresh(data)) && pools[i].numAvailable == old(pools[i].numAvailable)
              && pools[i].numAllocs ==
                 (if data == null then old(pools[i].numAllocs) else (old(pools[i].numAllocs) + 1) % MAX)
              && heap.live == old(heap.live) + if data == null then {} else {data, data.header})
      ensures data != null ==>
        && size <= data.size && (data.size == 512 || data.size < 2 * size)
        && FindIndex(size) < ENTRY_COUNT && data.header.pool == pools[FindIndex(size)]
    {
      var index := FindIndex(size);
      InTableExactly(size);
      if index >= ENTRY_COUNT { return null; }
      ClassFits(size);
      FindsSmallest(size);
      data := AcquireFrom(heap, index, misses, nodeOk, blockOk);
    }

    method AcquireFrom(heap: Heap, i: nat, misses: nat, nodeOk: bool, blockOk: bool) returns (data: Block?)
      requires Valid() && Allocated(heap) && i < ENTRY_COUNT
      modifies heap, pools, this`outside
      ensures Valid() && Allocated(heap)
      ensures data == null ==> outside == old(outside)
      ensures data != null ==> data !in old(outside) && outside == old(outside) + {data}
      ensures data != null ==> data.header.pool == pools[i] && data.size == ClassSize(i)
      ensures forall k | 0 <= k < ENTRY_COUNT && k != i :: Same(pools[k])
      ensures old(pools[i].list) != [] ==>
        && data == old(pools[i].list[0].data) && pools[i].list == old(pools[i].list)[1..]
        && pools[i].numAvailable == (old(pools[i].numAvailable) - 1) % MAX
        && pools[i].numAllocs == old(pools[i].numAllocs)
        && heap.live == old(heap.live) && heap.freed == old(heap.freed)
      ensures old(pools[i].list) == [] ==>
        && pools[i].list == [] && (data == null <==> !(nodeOk && blockOk))
        && (data != null ==> fresh(data)) && pools[i].numAvailable == old(pools[i].numAvailable)
        && pools[i].numAllocs ==
           (if data == null then old(pools[i].numAllocs) else (old(pools[i].numAllocs) + 1) % MAX)
        && heap.live == old(heap.live) + if data == null then {} else {data, data.header}
    {
      hide ClassSize;
      ListedIsInside(pools[i]);
      data := pools[i].Acquire(heap, misses, nodeOk, blockOk);
      if data != null { outside := outside + {data}; }
    }

    /** A block goes back on top of its own pool; the multipool is as good as before it was acquired. */
    method Return(data: Block, heap: Heap, misses: nat)
      requires Valid() && Allocated(heap) && data in outside
      modifies pools, data.header, this`outside
      ensures Valid() && Allocated(heap) && outside == old(outside) - {data}
      ensures data.header.pool == old(data.header.pool) && data.header.pool != null
      ensures data.header.pool.list == [data.header] + old(data.header.pool.list)
      ensures data.header.pool.numAvailable == (old(data.header.pool.numAvailable) + 1) % MAX
      ensures data.header.pool.numAllocs == old(data.header.pool.numAllocs)
      ensures forall p | p in pools && p != data.header.pool :: Same(p)
    {
      assert Away(data);
      forall p | p in pools && p != data.header.pool ensures data.header !in p.list { ListedAtHome(p, data.header); }
      MemPool.Return(data, heap, misses);
      outside := outside - {data};
    }

    /** The pools from `i` on are still as they were built. */
    ghost predicate Intact(heap: Heap, i: nat)
      reads pools, NodesOf(pools), heap
    {
      forall k | i <= k < |pools| ::
        pools[k] in heap.live &&
        (assert forall n | n in pools[k].list :: n in NodesOf(pools); pools[k].Valid() && pools[k].Allocated(heap))
    }

    /** One pass of the loop in multipool_free. */
    method FreeNext(heap: Heap, i: nat)
      requires |pools| == ENTRY_COUNT && Distinct(pools) && i < |pools| && Intact(heap, i)
      modifies heap, pools[i]
      ensures Intact(heap, i + 1)
      ensures heap.freed == old(heap.freed) + old(OfPool(pools[i]))
      ensures forall k | i < k < |pools| :: OfPool(pools[k]) == old(OfPool(pools[k]))
      ensures Without(heap.live, old(heap.live), old(OfPool(pools[i])))
    {
      forall k | i < k < |pools| { OthersUntouched(pools[i], pools[k]); }
      pools[i].Free(heap);
    }

    lemma PartsMakeEverything(heap: Heap)
      requires Valid() && Allocated(heap)
      ensures Intact(heap, 0) && Flat(Parts(pools)) == Everything(pools)
      ensures forall k | 0 <= k < |pools| :: OfPool(pools[k]) == Parts(pools)[k]
      ensures this !in Everything(pools) && Distinct(Everything(pools) + [this])
    {
      ThisIsNoPart();
      EverythingIsFlat(pools);
    }

    /** multipool_free: what it owns is freed, each object once and nothing else; blocks away are left alone. */
    method FreeAll(heap: Heap)
      requires Valid() && Allocated(heap)
      modifies heap, pools
      ensures heap.freed == old(heap.freed) + old(Everything(pools)) + [this]
      ensures Distinct(old(Everything(pools)) + [this])
      ensures Without(heap.live, old(heap.live), old(Everything(pools)) + [this])
    {
      PartsMakeEverything(heap);
      hide Everything, OfPool, Flat, Without, Intact;
      ghost var parts, gone: seq<object?> := Parts(pools), [];
      assert parts[0..] == parts;
      for i := 0 to ENTRY_COUNT
        invariant Intact(heap, i) && forall k | i <= k < ENTRY_COUNT :: OfPool(pools[k]) == parts[k]
        invariant heap.freed == old(heap.freed) + gone && gone + Flat(parts[i..]) == Flat(parts)
        invariant Without(heap.live, old(heap.live), gone)
      {
        FlatMore(parts, i, gone);
        ghost var before := heap.live;
        FreeNext(heap, i);
        WithoutMore(heap.live, before, old(heap.live), gone, parts[i]);
        gone := gone + parts[i];
      }
      FlatNothing(parts[ENTRY_COUNT..]);
      assert gone + [] == gone;
      FreeSelf(heap, gone, old(heap.live));
    }

    method FreeSelf(heap: Heap, ghost gone: seq<object?>, ghost start: set<object>)
      requires Without(heap.live, start, gone) && this in start && this !in gone
      modifies heap
      ensures heap.freed == old(heap.freed) + [this] && Without(heap.live, start, gone + [this])
    {
      heap.Free(this);
    }

    /** The multipool's own struct is none of the objects of its pools. */
    lemma ThisIsNoPart()
      requires Valid()
      ensures this !in Everything(pools) && Distinct(Everything(pools) + [this])
    {
      EverythingOnce(pools);
      if this in Everything(pools) {
        var p := OwnerAmong(pools, this);
        ReleasesOnce(p.list);
      }
      DistinctJoin(Everything(pools), [this]);
    }
  }
}

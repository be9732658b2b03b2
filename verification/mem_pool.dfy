/**
 One memory pool as linked objects on a heap that knows what is allocated, used by one thread at a time:
 a stack of nodes, and the release of everything in it. Freeing anything twice, or following a freed node,
 would break a precondition.
 */
module MemPools {
  import opened SizeClasses

  /** The memory behind malloc and free. */
  class Heap {
    var live: set<object>
    ghost var freed: seq<object>

    method Free(o: object)
      requires o in live
      modifies this
      ensures live == old(live) - {o} && freed == old(freed) + [o]
    {
      live, freed := live - {o}, freed + [o];
    }
  }

  /** A data block: its header names the node that owns it. */
  class Block {
    const header: MemNode
    const size: nat

    constructor (header: MemNode, size: nat)
      ensures this.header == header && this.size == size
    {
      this.header, this.size := header, size;
    }
  }

  class MemNode {
    var next: MemNode?
    var data: Block?
    var pool: MemPool?

    constructor ()
      ensures next == null
    {
      next, data, pool := null, null, null;
    }

    /** free_poolable_mem: the block first, then the node itself. */
    method FreePoolable(heap: Heap)
      requires this in heap.live && data != null && data in heap.live
      modifies heap
      ensures heap.live == old(heap.live) - {data, this}
      ensures heap.freed == old(heap.freed) + [data, this]
    {
      heap.Free(data);
      heap.Free(this);
    }

    method Next(heap: Heap) returns (node: MemNode?)
      requires this in heap.live
      ensures node == next
    {
      node := next;
    }
  }

  /** What releasing the nodes of `list` frees, in order: each node's block, then the node. */
  ghost function Releases(list: seq<MemNode>): (objects: seq<object?>)
    reads list
    ensures |objects| == 2 * |list|
  {
    if list == [] then [] else [list[0].data, list[0]] + Releases(list[1..])
  }

  /** `list` is what following the links from `head` yields. */
  ghost predicate Linked(head: MemNode?, list: seq<MemNode>)
    reads list
  {
    if list == [] then head == null else head == list[0] && Linked(list[0].next, list[1..])
  }

  ghost predicate Distinct<T>(s: seq<T>) { forall i, k | 0 <= i < k < |s| :: s[i] != s[k] }

  /** The node and its block belong together. */
  ghost predicate Paired(node: MemNode)
    reads node
  {
    node.data != null && node.data.header == node
  }

  /** The first node shares nothing with the others. */
  lemma Apart(list: seq<MemNode>)
    requires list != [] && Distinct(list) && forall n | n in list :: Paired(n)
    ensures Distinct(list[1..])
    ensures forall n | n in list[1..] :: n != list[0] && n.data != list[0].data
  {
    forall n | n in list[1..] ensures n != list[0] && n.data != list[0].data {
      var i :| 1 <= i < |list| && list[i] == n;
      assert Paired(list[i]) && Paired(list[0]);
    }
  }

  /** No object is released twice. */
  lemma {:induction false} ReleasesOnce(list: seq<MemNode>)
    requires Distinct(list) && forall n | n in list :: Paired(n)
    ensures Distinct(Releases(list)) && null !in Releases(list)
    ensures forall o: object :: o in Releases(list) <==> (exists n | n in list :: o == n || o == n.data)
  {
    if list != [] {
      Apart(list);
      ReleasesOnce(list[1..]);
      assert list == [list[0]] + list[1..] && Paired(list[0]);
      var a: object, b: object, rest := list[0].data, list[0], Releases(list[1..]);
      assert a !in rest && b !in rest && a != b;
      assert Releases(list) == [a, b] + rest;
    }
  }

  /** `k` wrapping decrements. */
  function Less(x: nat, k: nat): nat { (x - k) % MAX }

  lemma LessOnce(x: nat, k: nat)
    ensures Less(x, k + 1) == (Less(x, k) - 1) % MAX
  {
  }

  class MemPool {
    var head: MemNode?
    var memSize: nat
    var numAllocs: nat
    var numAvailable: nat
    ghost var list: seq<MemNode>

    /** A node whose home is this pool. */
    ghost predicate Homed(n: MemNode)
      reads this, n
    {
      Paired(n) && n.pool == this && n.data.size == memSize
    }

    ghost predicate Valid()
      reads this, list
    {
      && Linked(head, list) && Distinct(list) && (forall n | n in list :: Homed(n))
      && numAllocs < MAX && numAvailable < MAX
    }

    /** Everything in the list is allocated memory. */
    ghost predicate Allocated(heap: Heap)
      reads this, list, heap
    {
      forall n | n in list :: n in heap.live && n.data in heap.live
    }

    constructor (size: nat)
      ensures Valid() && list == [] && memSize == size && numAllocs == 0 && numAvailable == 0
    {
      head, memSize, numAllocs, numAvailable, list := null, size, 0, 0, [];
    }

    /** alloc_mem_pool, when malloc succeeds. */
    static method Alloc(heap: Heap, size: nat) returns (pool: MemPool)
      modifies heap
      ensures fresh(pool) && pool.Valid() && pool.list == [] && pool.memSize == size
      ensures pool.numAllocs == 0 && pool.numAvailable == 0
      ensures heap.live == old(heap.live) + {pool} && heap.freed == old(heap.freed)
    {
      pool := new MemPool(size);
      heap.live := heap.live + {pool};
    }

    /** Both allocations may fail; a node without a block is freed again. */
    method TryAllocData(heap: Heap, nodeOk: bool, blockOk: bool) returns (data: Block?)
      requires Valid() && this as object != heap
      modifies heap, this`numAllocs
      ensures data == null <==> !(nodeOk && blockOk)
      ensures data == null ==> heap.live == old(heap.live) && numAllocs == old(numAllocs)
      ensures data != null ==>
        && fresh(data) && fresh(data.header) && data.header.data == data && Homed(data.header)
        && heap.live == old(heap.live) + {data, data.header}
        && numAllocs == (old(numAllocs) + 1) % MAX
      ensures nodeOk && !blockOk ==> |heap.freed| == |old(heap.freed)| + 1
      ensures nodeOk == blockOk ==> heap.freed == old(heap.freed)
    {
      data := null;
      if nodeOk {
        var node := new MemNode();
        heap.live := heap.live + {node};
        if !blockOk {
          heap.Free(node);
        } else {
          data := new Block(node, memSize);
          heap.live := heap.live + {data};
          node.data, node.pool := data, this;
          numAllocs := (numAllocs + 1) % MAX;
        }
      }
    }

    /** The compare-and-swap of acquire that succeeds, and the count after it. */
    method SwingHead(next: MemNode?)
      requires Valid() && list != [] && next == list[0].next
      modifies this
      ensures Valid() && list == old(list)[1..] && memSize == old(memSize) && numAllocs == old(numAllocs)
      ensures numAvailable == (old(numAvailable) - 1) % MAX
      ensures Homed(old(list)[0]) && old(list)[0] !in list
    {
      Apart(list);
      assert Homed(list[0]) && forall n | n in list[1..] :: n in list;
      head, list := next, list[1..];
      numAvailable := (numAvailable - 1) % MAX;
    }

    /** The newest free block, or a new one when there is none; `misses` compare-and-swaps fail on the way. */
    method Acquire(heap: Heap, misses: nat, nodeOk: bool, blockOk: bool) returns (data: Block?)
      requires Valid() && Allocated(heap)
      modifies heap, this
      ensures Valid() && Allocated(heap) && memSize == old(memSize)
      ensures old(list) != [] ==>
        && data == old(list[0].data) && list == old(list)[1..] && heap.live == old(heap.live)
        && numAvailable == (old(numAvailable) - 1) % MAX && numAllocs == old(numAllocs)
      ensures old(list) != [] || nodeOk == blockOk ==> heap.freed == old(heap.freed)
      ensures old(list) == [] ==>
        && list == [] && numAvailable == old(numAvailable) && (data == null <==> !(nodeOk && blockOk))
        && numAllocs == (if data == null then old(numAllocs) else (old(numAllocs) + 1) % MAX)
        && heap.live == old(heap.live) + if data == null then {} else {data, data.header}
      ensures old(list) == [] && data != null ==> fresh(data) && fresh(data.header)
      ensures data != null ==> data in heap.live && data.header in heap.live
      ensures data != null ==> data.header.data == data && Homed(data.header) && data.header !in list
    {
      var left := misses;
      while true
        invariant Valid() && Allocated(heap) && heap.live == old(heap.live) && heap.freed == old(heap.freed)
        invariant list == old(list) && head == old(head) && memSize == old(memSize)
        invariant numAllocs == old(numAllocs) && numAvailable == old(numAvailable)
        decreases left
      {
        var previous := head;
        if previous == null {
          data := TryAllocData(heap, nodeOk, blockOk);
          return;
        }
        var next := previous.Next(heap);
        if left == 0 {
          SwingHead(next);
          data := previous.data;
          return;
        }
        left := left - 1;
      }
    }

    /** pool_mem_return: the block's header leads to its node, and the node to the pool it goes back to. */
    static method Return(data: Block, heap: Heap, misses: nat)
      requires data.header.pool != null && data.header in heap.live && data in heap.live && data.header.data == data
      requires data.header.pool.Valid() && data.header.pool.Allocated(heap)
      requires data.header !in data.header.pool.list && data.header.pool.Homed(data.header)
      modifies data.header, data.header.pool
      ensures var pool := old(data.header.pool);
        && pool.Valid() && pool.Allocated(heap) && data.header.data == data && data.header.pool == pool
        && pool.list == [data.header] + old(pool.list) && pool.memSize == old(pool.memSize)
        && pool.numAvailable == (old(pool.numAvailable) + 1) % MAX && pool.numAllocs == old(pool.numAllocs)
    {
      var node := data.header;
      var pool: MemPool := node.pool;
      var left := misses;
      while true
        invariant node.data == data && node.pool == pool && pool.list == old(pool.list) && pool.head == old(pool.head)
        invariant pool.memSize == old(pool.memSize) && pool.numAllocs == old(pool.numAllocs)
        invariant pool.numAvailable == old(pool.numAvailable)
        invariant pool.Valid()
        decreases left
      {
        var previous := pool.head;
        node.next := previous;
        if left == 0 {
          pool.head, pool.list := node, [node] + pool.list;
          pool.numAvailable := (pool.numAvailable + 1) % MAX;
          assert pool.list[1..] == old(pool.list);
          return;
        }
        left := left - 1;
      }
    }

    /** One pass of the loop in pool_mem_free_all: unlink the head, release it, count it out. */
    method FreeHead(heap: Heap)
      requires Valid() && Allocated(heap) && list != []
      modifies this, heap
      ensures Valid() && Allocated(heap) && list == old(list)[1..]
      ensures memSize == old(memSize) && numAllocs == old(numAllocs)
      ensures numAvailable == (old(numAvailable) - 1) % MAX
      ensures heap.freed == old(heap.freed) + [old(list[0].data), old(list)[0]]
      ensures heap.live == old(heap.live) - {old(list[0].data), old(list)[0]}
    {
      Apart(list);
      var node := head;
      head := node.Next(heap);
      node.FreePoolable(heap);
      numAvailable := (numAvailable - 1) % MAX;
      list := list[1..];
    }

    /** pool_mem_free_all: every listed node and its block exactly once, nothing else, and an empty pool. */
    method FreeAll(heap: Heap)
      requires Valid() && Allocated(heap)
      modifies this, heap
      ensures Valid() && list == [] && head == null
      ensures memSize == old(memSize) && numAllocs == old(numAllocs)
      ensures numAvailable == Less(old(numAvailable), |old(list)|)
      ensures heap.freed == old(heap.freed) + old(Releases(list)) && Distinct(old(Releases(list)))
      ensures forall o :: o in heap.live <==> o in old(heap.live) && o !in old(Releases(list))
    {
      ReleasesOnce(list);
      ghost var total, gone, dead, k := Releases(list), [], {}, 0;
      while head != null
        invariant Valid() && Allocated(heap) && memSize == old(memSize) && numAllocs == old(numAllocs)
        invariant |list| + k == |old(list)| && numAvailable == Less(old(numAvailable), k)
        invariant heap.freed == old(heap.freed) + gone && gone + Releases(list) == total
        invariant heap.live == old(heap.live) - dead && forall o :: o in dead <==> o in gone
        decreases |list|
      {
        ghost var last: seq<object>, rest := [list[0].data, list[0]], Releases(list[1..]);
        assert gone + (last + rest) == (gone + last) + rest;
        dead := dead + {list[0].data, list[0]};
        LessOnce(old(numAvailable), k);
        FreeHead(heap);
        gone, k := gone + last, k + 1;
      }
      assert gone + [] == gone;
    }

    /** free_mem_pool: the pool itself goes last. */
    method Free(heap: Heap)
      requires Valid() && Allocated(heap) && this in heap.live
      modifies this, heap
      ensures heap.freed == old(heap.freed) + old(Releases(list)) + [this]
      ensures forall o :: o in heap.live <==> o in old(heap.live) && o != this && o !in old(Releases(list))
    {
      ReleasesOnce(list);
      FreeAll(heap);
      heap.Free(this);
    }
  }
}

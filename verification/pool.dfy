/**
 The fixed-size pool and its handles. A handle returns its item when it is destroyed; moving a handle
 leaves the old one empty. A pointer to an item is its position in the pool's container.
 */
module Pools {
  import opened Options
  import opened PoolSpec
  import opened IndexerSpec
  import opened MutexIndexers
  import opened ConcurrentIndexers
  import opened Indexers

  /** Which allocator a pool is built with. */
  datatype Kind = Mutex | Ring(machineMax: nat)

  /** What a handle runs when it is destroyed. */
  datatype Callback<T(!new)> = NoOp | ReturnTo(pool: Pool<T>)

  /** The accounts of a pool: every index is either free or held, and takes are returns plus holdings. */
  ghost predicate Accounts(free: seq<nat>, held: set<nat>, capacity: nat, taken: seq<nat>, returned: seq<nat>) {
    && FreeList(free, capacity)
    && (forall i: nat :: i in held <==> i < capacity && i !in free)
    && multiset(taken) == multiset(returned) + multiset(held)
  }

  lemma AccountsOpen(free: seq<nat>, capacity: nat)
    requires FreeList(free, capacity) && |free| == capacity
    ensures Accounts(free, {}, capacity, [], [])
  {
    HolderLeavesRoom(free, capacity);
  }

  lemma AccountsTake(free: seq<nat>, held: set<nat>, capacity: nat, taken: seq<nat>, returned: seq<nat>)
    requires Accounts(free, held, capacity, taken, returned) && free != []
    ensures free[0] < capacity && free[0] !in held
    ensures Accounts(free[1..], held + {free[0]}, capacity, taken + [free[0]], returned)
  {
    assert free == [free[0]] + free[1..];
    assert multiset(held + {free[0]}) == multiset(held) + multiset{free[0]};
  }

  lemma AccountsReturn(free: seq<nat>, held: set<nat>, capacity: nat, taken: seq<nat>, returned: seq<nat>, index: nat)
    requires Accounts(free, held, capacity, taken, returned) && index in held
    ensures index < capacity && index !in free
    ensures Accounts([index] + free, held - {index}, capacity, taken, returned + [index])
    ensures Accounts(free + [index], held - {index}, capacity, taken, returned + [index])
  {
    assert multiset(held - {index}) + multiset{index} == multiset(held);
  }

  /** Free and held indices add up to the pool. */
  lemma AccountsAddUp(free: seq<nat>, held: set<nat>, capacity: nat, taken: seq<nat>, returned: seq<nat>)
    requires Accounts(free, held, capacity, taken, returned)
    ensures |free| + |held| == capacity && |taken| == |returned| + |held|
  {
    HolderLeavesRoom(free, capacity);
    assert held == Held(free, capacity);
    assert |multiset(taken)| == |multiset(returned)| + |multiset(held)|;
  }

  lemma AccountsClose(free: seq<nat>, held: set<nat>, capacity: nat, taken: seq<nat>, returned: seq<nat>)
    requires Accounts(free, held, capacity, taken, returned) && held == {}
    ensures |free| == capacity && multiset(taken) == multiset(returned)
  {
    AccountsAddUp(free, held, capacity, taken, returned);
  }

  class PoolItem<T(!new)> {
    var onDestroy: Callback<T>
    var item: Option<nat>
    var index: nat
    var empty: bool

    constructor (onDestroy: Callback<T>, item: Option<nat>, index: nat)
      ensures this.onDestroy == onDestroy && this.item == item && this.index == index
      ensures empty == item.None?
    {
      this.onDestroy := onDestroy;
      this.item := item;
      this.index := index;
      this.empty := item.None?;
    }

    /** Move construction: the new handle takes over, the old one becomes empty but keeps its index. */
    constructor MoveFrom(moved: PoolItem<T>)
      modifies moved
      ensures onDestroy == old(moved.onDestroy) && item == old(moved.item)
      ensures index == old(moved.index) && empty == old(moved.empty)
      ensures moved.onDestroy == NoOp && moved.item == None && moved.empty && moved.index == old(moved.index)
    {
      item := moved.item;
      empty := moved.empty;
      index := moved.index;
      onDestroy := moved.onDestroy;
      new;
      moved.item := None;
      moved.empty := true;
      moved.onDestroy := NoOp;
    }
  }

  class Pool<T(!new)> {
    const items: array<T>
    const indexer: Indexer
    const reset: T -> T                       // the item's own Reset, or the pool's reset callback
    const initial: T                          // a default-constructed item
    ghost var handles: set<PoolItem<T>>       // handles that exist: taken or moved to, not yet destroyed
    ghost var holder: map<nat, PoolItem<T>>   // which handle owns an index
    ghost var taken: seq<nat>                 // every index handed out so far
    ghost var returned: seq<nat>              // every index the indexer was given back

    ghost function Repr(): set<object>
      reads this
    {
      {this, items} + indexer.Repr() + handles
    }

    /** A default-constructed item, or one that was reset after its last use. */
    ghost predicate Clean(v: T) { v == initial || exists u: T :: v == reset(u) }

    /** An empty handle does nothing; a full one owns its index and points at that item. */
    ghost predicate HandleOk(h: PoolItem<T>)
      reads this, h
    {
      match h.onDestroy
      case NoOp => h.empty && h.item == None
      case ReturnTo(p) =>
        p == this && !h.empty && h.item == Some(h.index) && h.index in holder && holder[h.index] == h
    }

    ghost predicate Separate()
      reads this
    {
      && this !in indexer.Repr() && (items as object) !in indexer.Repr()
      && (forall h | h in handles :: (h as object) !in indexer.Repr())
    }

    /** The handles: each is sound, and each held index has its handle. */
    ghost predicate HandlesOk()
      reads this, items, handles
    {
      && Separate()
      && (forall h | h in handles :: HandleOk(h))
      && (forall i | i in holder ::
            holder[i] in handles && holder[i].onDestroy == ReturnTo(this) && holder[i].index == i)
    }

    ghost predicate Valid()
      reads this, items, indexer.Repr(), handles
    {
      && HandlesOk()
      && indexer.Valid() && items.Length == indexer.Capacity()
      && Accounts(indexer.Free(), holder.Keys, items.Length, taken, returned)
      && (forall i | i in indexer.Free() :: Clean(items[i]))
    }

    /** Builds the allocator and the items; a ring needs an index and a machine maximum that holds one lap. */
    constructor (numItems: nat, kind: Kind, reset: T -> T, initial: T)
      requires kind.Ring? ==> 1 <= numItems && 2 * numItems <= kind.machineMax
      ensures Valid() && handles == {} && taken == [] && returned == []
      ensures items.Length == numItems && this.reset == reset && this.initial == initial
      ensures indexer.Locked? <==> kind.Mutex?
      ensures indexer.Free() == seq(numItems, i => i)
      ensures fresh(items) && fresh(this) && fresh(indexer.Repr())
    {
      match kind {
        case Mutex =>
          var m := new MutexIndexer(numItems);
          this.indexer := Locked(m);
        case Ring(machineMax) =>
          var c := new ConcurrentIndexer(numItems, machineMax);
          this.indexer := LockFree(c);
      }
      this.reset := reset;
      this.initial := initial;
      items := new T[numItems](_ => initial);
      handles, holder, taken, returned := {}, map[], [], [];
      new;
      AccountsOpen(this.indexer.Free(), numItems);
      assert holder.Keys == {};
    }

    /** Hands out an item, as it is: empty exactly when no index is free. No item and no other handle changes. */
    method Take() returns (h: PoolItem<T>)
      requires Valid()
      modifies this, indexer.Repr()
      ensures Valid() && fresh(h) && handles == old(handles) + {h}
      ensures h.empty == (old(indexer.Free()) == [])
      ensures returned == old(returned) && items[..] == old(items[..])
      ensures forall g | g in old(handles) :: unchanged(g)
      ensures h.empty ==> taken == old(taken) && indexer.Free() == [] && holder == old(holder)
      ensures !h.empty ==>
        && h.index == old(indexer.Free())[0] && h.index < items.Length && h.item == Some(h.index)
        && taken == old(taken) + [h.index] && indexer.Free() == old(indexer.Free())[1..]
        && Clean(items[h.index]) && holder == old(holder)[h.index := h]
    {
      ghost var free := indexer.Free();
      var next := indexer.Next();
      match next {
        case Empty =>
          h := HandOutEmpty();
        case Holding(index) =>
          h := HandOut(index, free);
      }
    }

    method HandOutEmpty() returns (h: PoolItem<T>)
      requires Valid()
      modifies this
      ensures Valid() && fresh(h) && handles == old(handles) + {h} && h.empty && holder == old(holder)
      ensures taken == old(taken) && returned == old(returned) && indexer.Free() == old(indexer.Free())
    {
      hide Accounts;
      h := new PoolItem(NoOp, None, 0);
      EnrolEmpty(h);
    }

    /** Records a new empty handle. */
    ghost method EnrolEmpty(h: PoolItem<T>)
      requires HandlesOk() && h.onDestroy == NoOp && h.empty && h.item == None && (h as object) !in indexer.Repr()
      modifies this`handles
      ensures HandlesOk() && handles == old(handles) + {h}
    {
      handles := handles + {h};
    }

    /** Wraps an index just removed from the free indices in a full handle. */
    method HandOut(index: nat, ghost free: seq<nat>) returns (h: PoolItem<T>)
      requires HandlesOk() && indexer.Valid() && items.Length == indexer.Capacity()
      requires Accounts(free, holder.Keys, items.Length, taken, returned)
      requires free != [] && index == free[0] && indexer.Free() == free[1..]
      requires forall i | i in free :: i < items.Length && Clean(items[i])
      modifies this
      ensures Valid() && fresh(h) && handles == old(handles) + {h}
      ensures !h.empty && h.index == index < items.Length && h.item == Some(index)
      ensures taken == old(taken) + [index] && returned == old(returned)
      ensures indexer.Free() == free[1..] && Clean(items[index]) && holder == old(holder)[index := h]
    {
      AccountsTake(free, holder.Keys, items.Length, taken, returned);
      h := new PoolItem(ReturnTo(this), Some(index), index);
      Enrol(h);
    }

    /** Records a new full handle. */
    ghost method Enrol(h: PoolItem<T>)
      requires HandlesOk() && h !in handles && h.index !in holder && (h as object) !in indexer.Repr()
      requires h.onDestroy == ReturnTo(this) && !h.empty && h.item == Some(h.index)
      modifies this
      ensures HandlesOk() && handles == old(handles) + {h}
      ensures holder == old(holder)[h.index := h] && holder.Keys == old(holder.Keys) + {h.index}
      ensures taken == old(taken) + [h.index] && returned == old(returned)
    {
      handles := handles + {h};
      holder := holder[h.index := h];
      taken := taken + [h.index];
    }

    /** Move-constructs a handle from another one. */
    method MoveItem(h: PoolItem<T>) returns (moved: PoolItem<T>)
      requires Valid() && h in handles
      modifies this, h
      ensures Valid() && fresh(moved) && handles == old(handles) + {moved}
      ensures h.empty && moved.empty == old(h.empty) && moved.index == old(h.index)
      ensures holder.Keys == old(holder.Keys) && taken == old(taken) && returned == old(returned)
      ensures holder == if moved.empty then old(holder) else old(holder)[moved.index := moved]
      ensures indexer.Free() == old(indexer.Free()) && items[..] == old(items[..])
    {
      assert (h as object) !in indexer.Repr();
      moved := MoveHandle(h);
      assert indexer.Valid() && indexer.Free() == old(indexer.Free());
    }

    method MoveHandle(h: PoolItem<T>) returns (moved: PoolItem<T>)
      requires HandlesOk() && h in handles
      modifies this`handles, this`holder, h
      ensures HandlesOk() && fresh(moved) && handles == old(handles) + {moved}
      ensures h.empty && moved.empty == old(h.empty) && moved.index == old(h.index)
      ensures holder.Keys == old(holder.Keys)
      ensures holder == if moved.empty then old(holder) else old(holder)[moved.index := moved]
    {
      moved := new PoolItem.MoveFrom(h);
      handles := handles + {moved};
      if moved.onDestroy.ReturnTo? {
        holder := holder[moved.index := moved];
      }
    }

    /** The user writes to a held item through the handle's pointer. */
    method Write(h: PoolItem<T>, v: T)
      requires Valid() && h in handles && !h.empty
      modifies items
      ensures Valid() && items[..] == old(items[..])[h.index := v]
    {
      items[h.item.value] := v;
    }

    /** The callback of a full handle: reset the item, then give its index back. */
    method ReturnToPool(h: PoolItem<T>)
      requires Valid() && h in handles && h.onDestroy == ReturnTo(this)
      modifies this, items, indexer.Repr()
      ensures Valid() && handles == old(handles) - {h}
      ensures returned == old(returned) + [h.index] && taken == old(taken)
      ensures holder == old(holder) - {h.index}
      ensures items[..] == old(items[..])[h.index := reset(old(items[h.index]))]
      ensures indexer.Free() ==
              if indexer.Locked? then [h.index] + old(indexer.Free()) else old(indexer.Free()) + [h.index]
    {
      HeldIndex(h);
      items[h.item.value] := reset(items[h.item.value]);
      GiveBack(h);
    }

    /** A full handle's index is in range and not free. */
    lemma HeldIndex(h: PoolItem<T>)
      requires Valid() && h in handles && h.onDestroy == ReturnTo(this)
      ensures h.index in holder && h.index < items.Length && h.index !in indexer.Free()
      ensures h.item == Some(h.index)
    {
      assert HandleOk(h);
    }

    /** The index of a handle whose item is reset goes back to the allocator. */
    method GiveBack(h: PoolItem<T>)
      requires Valid() && h in handles && h.onDestroy == ReturnTo(this)
      requires h.index < items.Length && Clean(items[h.index])
      modifies this, indexer.Repr()
      ensures Valid() && handles == old(handles) - {h}
      ensures returned == old(returned) + [h.index] && taken == old(taken)
      ensures holder == old(holder) - {h.index} && items[..] == old(items[..])
      ensures indexer.Free() ==
              if indexer.Locked? then [h.index] + old(indexer.Free()) else old(indexer.Free()) + [h.index]
    {
      HeldIndex(h);
      AccountsReturn(indexer.Free(), holder.Keys, items.Length, taken, returned, h.index);
      hide Accounts;
      indexer.Return(h.index);
      Drop(h);
    }

    /** Forgets a full handle. */
    ghost method Drop(h: PoolItem<T>)
      requires HandlesOk() && h in handles && h.onDestroy == ReturnTo(this)
      modifies this
      ensures HandlesOk() && handles == old(handles) - {h}
      ensures holder == old(holder) - {h.index}
      ensures returned == old(returned) + [h.index] && taken == old(taken)
    {
      handles := handles - {h};
      holder := holder - {h.index};
      returned := returned + [h.index];
    }

    /** The destructor of a handle runs its callback: the item is reset and its index returned, or nothing is. */
    method Destroy(h: PoolItem<T>)
      requires Valid() && h in handles
      modifies this, items, indexer.Repr()
      ensures Valid() && handles == old(handles) - {h} && taken == old(taken)
      ensures old(h.empty) ==>
        && returned == old(returned) && holder == old(holder)
        && items[..] == old(items[..]) && indexer.Free() == old(indexer.Free())
      ensures !old(h.empty) ==>
        && returned == old(returned) + [h.index] && holder == old(holder) - {h.index}
        && items[..] == old(items[..])[h.index := reset(old(items[h.index]))]
        && indexer.Free() ==
           if indexer.Locked? then [h.index] + old(indexer.Free()) else old(indexer.Free()) + [h.index]
    {
      match h.onDestroy {
        case NoOp => handles := handles - {h};
        case ReturnTo(pool) => pool.ReturnToPool(h);
      }
    }
  }

  /** `hs` lists the pool's handles, each once. */
  ghost predicate Lists<X>(hs: seq<X>, handles: set<X>) {
    && (forall i, j | 0 <= i < j < |hs| :: hs[i] != hs[j])
    && (forall h | h in hs :: h in handles)
    && (forall h | h in handles :: h in hs)
  }

  lemma ListsMore<X>(hs: seq<X>, handles: set<X>, h: X)
    requires Lists(hs, handles) && h !in handles
    ensures Lists(hs + [h], handles + {h})
  {
  }

  lemma ListedHandle<X>(hs: seq<X>, handles: set<X>, k: nat)
    requires Lists(hs, handles) && k < |hs|
    ensures hs[k] in handles
  {
  }

  lemma ListsLess<X>(hs: seq<X>, handles: set<X>, k: nat)
    requires Lists(hs, handles) && k < |hs|
    ensures hs[k] in handles && Lists(Without(hs, k), handles - {hs[k]})
  {
    var rest := Without(hs, k);
    forall h | h in handles - {hs[k]} ensures h in rest {
      var i :| 0 <= i < |hs| && hs[i] == h;
      assert rest[if i < k then i else i - 1] == h;
    }
  }

  /** The index a handle holds. */
  function IndexOf<T(!new)>(h: PoolItem<T>): Option<nat>
    reads h
  {
    if h.empty then None else Some(h.index)
  }

  ghost function IndicesOf<T(!new)>(hs: seq<PoolItem<T>>): (indices: seq<Option<nat>>)
    reads hs
    ensures |indices| == |hs| && forall k | 0 <= k < |hs| :: indices[k] == IndexOf(hs[k])
  {
    seq(|hs|, k requires 0 <= k < |hs| reads hs => IndexOf(hs[k]))
  }

  /** The pool and the handles `hs` of its program, as the program sees them. */
  ghost function DeskOf<T(!new)>(pool: Pool<T>, hs: seq<PoolItem<T>>): Desk<T>
    requires pool.indexer.Valid()
    reads pool, pool.items, pool.indexer.Repr(), hs
  {
    Desk(pool.indexer.Locked?, pool.indexer.Free(), pool.items[..], IndicesOf(hs))
  }

  lemma MoreIndices<T(!new)>(hs: seq<PoolItem<T>>, h: PoolItem<T>)
    ensures IndicesOf(hs + [h]) == IndicesOf(hs) + [IndexOf(h)]
  {
  }

  method PerformTake<T(!new)>(pool: Pool<T>, hs: seq<PoolItem<T>>) returns (hs': seq<PoolItem<T>>)
    requires pool.Valid() && Lists(hs, pool.handles)
    modifies pool.Repr()
    ensures pool.Valid() && Lists(hs', pool.handles) && fresh(pool.handles - old(pool.handles))
    ensures DeskOf(pool, hs') == DeskStep(old(DeskOf(pool, hs)), TakeOne, pool.reset)
  {
    assert forall j | 0 <= j < |hs| :: hs[j] in pool.handles;
    hide Lists, Accounts;
    var h := pool.Take();
    assert IndicesOf(hs) == old(IndicesOf(hs));
    MoreIndices(hs, h);
    ListsMore(hs, old(pool.handles), h);
    hs' := hs + [h];
  }

  /** Moves the k-th handle: it is empty now, the new one has what it had, the others stay. */
  method MoveNth<T(!new)>(pool: Pool<T>, k: nat, hs: seq<PoolItem<T>>) returns (h: PoolItem<T>)
    requires pool.Valid() && Lists(hs, pool.handles) && k < |hs|
    modifies pool, hs[k]
    ensures pool.Valid() && fresh(h) && pool.handles == old(pool.handles) + {h}
    ensures IndicesOf(hs) == old(IndicesOf(hs))[k := None] && IndexOf(h) == old(IndicesOf(hs))[k]
    ensures pool.indexer.Free() == old(pool.indexer.Free()) && pool.items[..] == old(pool.items[..])
  {
    assert hs[k] in pool.handles && forall j | 0 <= j < |hs| && j != k :: hs[j] != hs[k];
    hide Lists, Accounts;
    h := pool.MoveItem(hs[k]);
  }

  method PerformMove<T(!new)>(pool: Pool<T>, k: nat, hs: seq<PoolItem<T>>) returns (hs': seq<PoolItem<T>>)
    requires pool.Valid() && Lists(hs, pool.handles) && k < |hs|
    modifies pool.Repr()
    ensures pool.Valid() && Lists(hs', pool.handles) && fresh(pool.handles - old(pool.handles))
    ensures DeskOf(pool, hs') == DeskStep(old(DeskOf(pool, hs)), MoveAt(k), pool.reset)
  {
    ListedHandle(hs, pool.handles, k);
    hide Lists, Accounts, IndicesOf, DeskStep;
    ghost var was, desk := pool.handles, DeskOf(pool, hs);
    var h := MoveNth(pool, k, hs);
    MoreIndices(hs, h);
    ListsMore(hs, was, h);
    hs' := hs + [h];
    MovedDesk(desk, k, pool.reset);
  }

  lemma MovedDesk<T>(d: Desk<T>, k: nat, reset: T -> T)
    requires k < |d.handles|
    ensures DeskStep(d, MoveAt(k), reset) == d.(handles := d.handles[k := None] + [d.handles[k]])
  {
  }

  lemma WrittenDesk<T>(d: Desk<T>, k: nat, v: T, reset: T -> T)
    requires k < |d.handles| && d.handles[k].Some? && d.handles[k].value < |d.items|
    ensures DeskStep(d, WriteAt(k, v), reset) == d.(items := d.items[d.handles[k].value := v])
  {
  }

  method PerformWrite<T(!new)>(pool: Pool<T>, k: nat, v: T, hs: seq<PoolItem<T>>)
    requires pool.Valid() && Lists(hs, pool.handles) && k < |hs| && !hs[k].empty
    modifies pool.items
    ensures pool.Valid() && pool.handles == old(pool.handles)
    ensures DeskOf(pool, hs) == DeskStep(old(DeskOf(pool, hs)), WriteAt(k, v), pool.reset)
  {
    ListedHandle(hs, pool.handles, k);
    hide Lists, Accounts, DeskStep;
    pool.HeldIndex(hs[k]);
    ghost var desk := DeskOf(pool, hs);
    pool.Write(hs[k], v);
    assert IndicesOf(hs) == desk.handles;
    hide IndicesOf;
    WrittenDesk(desk, k, v, pool.reset);
  }

  lemma FewerIndices<T(!new)>(hs: seq<PoolItem<T>>, k: nat)
    requires k < |hs|
    ensures IndicesOf(Without(hs, k)) == Without(IndicesOf(hs), k)
  {
  }

  /** Destroys the k-th handle: what it holds is reset and free again, the others stay. */
  method DropNth<T(!new)>(pool: Pool<T>, k: nat, hs: seq<PoolItem<T>>)
    requires pool.Valid() && k < |hs| && hs[k] in pool.handles
    modifies pool, pool.items, pool.indexer.Repr()
    ensures pool.Valid() && pool.handles == old(pool.handles) - {hs[k]}
    ensures old(IndexOf(hs[k])) == None ==>
      pool.items[..] == old(pool.items[..]) && pool.indexer.Free() == old(pool.indexer.Free())
    ensures old(IndexOf(hs[k])).Some? ==>
      && var i := old(IndexOf(hs[k])).value;
      && i < pool.items.Length && pool.items[..] == old(pool.items[..])[i := pool.reset(old(pool.items[..])[i])]
      && pool.indexer.Free() ==
         if pool.indexer.Locked? then [i] + old(pool.indexer.Free()) else old(pool.indexer.Free()) + [i]
  {
    pool.Destroy(hs[k]);
  }

  lemma DroppedDesk<T>(d: Desk<T>, k: nat, reset: T -> T)
    requires k < |d.handles|
    ensures var left := d.(handles := Without(d.handles, k));
      DeskStep(d, DropAt(k), reset) ==
        match d.handles[k]
        case None => left
        case Some(i) =>
          left.(free := if d.locked then [i] + d.free else d.free + [i],
                items := if i < |d.items| then d.items[i := reset(d.items[i])] else d.items)
  {
  }

  method PerformDrop<T(!new)>(pool: Pool<T>, k: nat, hs: seq<PoolItem<T>>) returns (hs': seq<PoolItem<T>>)
    requires pool.Valid() && Lists(hs, pool.handles) && k < |hs|
    modifies pool.Repr()
    ensures pool.Valid() && Lists(hs', pool.handles) && pool.handles <= old(pool.handles)
    ensures |hs'| == |hs| - 1
    ensures DeskOf(pool, hs') == DeskStep(old(DeskOf(pool, hs)), DropAt(k), pool.reset)
  {
    ListsLess(hs, pool.handles, k);
    FewerIndices(hs, k);
    assert forall j | 0 <= j < |hs| :: hs[j] in pool.handles;
    hide Lists, Accounts, DeskStep;
    ghost var desk := DeskOf(pool, hs);
    DropNth(pool, k, hs);
    hs' := Without(hs, k);
    assert IndicesOf(hs') == desk.(handles := Without(desk.handles, k)).handles;
    hide IndicesOf, Without;
    DroppedDesk(desk, k, pool.reset);
  }

  /** One step of a program over its handles `hs`: exactly the step of the desk. */
  method Perform<T(!new)>(pool: Pool<T>, op: Op<T>, hs: seq<PoolItem<T>>) returns (hs': seq<PoolItem<T>>)
    requires pool.Valid() && Lists(hs, pool.handles)
    modifies pool.Repr()
    ensures pool.Valid() && Lists(hs', pool.handles)
    ensures op.DropAt? && op.k < |hs| ==> |hs'| == |hs| - 1
    ensures fresh(pool.handles - old(pool.handles))
    ensures DeskOf(pool, hs') == DeskStep(old(DeskOf(pool, hs)), op, pool.reset)
  {
    hs' := hs;
    match op
    case TakeOne => hs' := PerformTake(pool, hs);
    case MoveAt(k) => if k < |hs| { hs' := PerformMove(pool, k, hs); }
    case WriteAt(k, v) => if k < |hs| && !hs[k].empty { PerformWrite(pool, k, v, hs); }
    case DropAt(k) => if k < |hs| { hs' := PerformDrop(pool, k, hs); }
  }

  /** A program from its first handle on: the pool goes through the run of the desk. */
  method PerformAll<T(!new)>(pool: Pool<T>, program: seq<Op<T>>) returns (hs: seq<PoolItem<T>>)
    requires pool.Valid() && pool.handles == {}
    modifies pool.Repr()
    ensures pool.Valid() && Lists(hs, pool.handles) && fresh(pool.handles)
    ensures DeskOf(pool, hs) == DeskRun(old(DeskOf(pool, [])), program, pool.reset)
  {
    hs := [];
    ghost var start := DeskOf(pool, hs);
    assert IndicesOf(hs) == [];
    for pc := 0 to |program|
      invariant pool.Valid() && Lists(hs, pool.handles) && fresh(pool.handles)
      invariant DeskRun(DeskOf(pool, hs), program[pc..], pool.reset) == DeskRun(start, program, pool.reset)
    {
      hs := Perform(pool, program[pc], hs);
      assert program[pc..][1..] == program[pc + 1..];
    }
    assert program[|program|..] == [];
  }

  /**
   Any program over one pool: takes, moves, writes and destroys its handles in any order, then destroys
   what is left. Every take of an index is matched by exactly one return of it and the pool is full again.
   */
  method RunProgram<T(!new)>(pool: Pool<T>, program: seq<Op<T>>)
    requires pool.Valid() && pool.handles == {} && pool.taken == [] && pool.returned == []
    modifies pool.Repr()
    ensures pool.Valid() && pool.handles == {}
    ensures multiset(pool.taken) == multiset(pool.returned)
    ensures |pool.indexer.Free()| == pool.items.Length
  {
    var hs := PerformAll(pool, program);
    while hs != []
      invariant pool.Valid() && Lists(hs, pool.handles) && fresh(pool.handles)
      decreases |hs|
    {
      var n := |hs|;
      hs := Perform(pool, DropAt(n - 1), hs);
    }
    AccountsClose(pool.indexer.Free(), pool.holder.Keys, pool.items.Length, pool.taken, pool.returned);
  }
}

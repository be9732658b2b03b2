/** Either indexer, chosen when the pool is built; both keep the same promise. */
module Indexers {
  import opened IndexerSpec
  import opened MutexIndexers
  import opened ConcurrentIndexers

  datatype Indexer = Locked(m: MutexIndexer) | LockFree(c: ConcurrentIndexer)
  {
    ghost function Repr(): set<object> {
      match this
      case Locked(m) => {m, m.indices}
      case LockFree(c) => {c, c.readPos, c.writePos, c.indices}
    }

    ghost predicate Valid()
      reads Repr()
    {
      match this
      case Locked(m) => m.Valid()
      case LockFree(c) => c.Valid()
    }

    function Capacity(): nat {
      match this
      case Locked(m) => m.indices.Length
      case LockFree(c) => c.Capacity()
    }

    /** The free indices, in the order they will be handed out if none is returned. */
    ghost function Free(): seq<nat>
      requires Valid()
      reads Repr()
    {
      match this
      case Locked(m) => m.free
      case LockFree(c) => c.free
    }

    method Next() returns (r: IndexHolder)
      requires Valid()
      modifies Repr()
      ensures Valid()
      ensures old(Free()) == [] ==> r == Empty && Free() == []
      ensures old(Free()) != [] ==> r == Holding(old(Free())[0]) && Free() == old(Free())[1..]
    {
      match this
      case Locked(m) => r := m.Next();
      case LockFree(c) => r := c.Next();
    }

    /** Either end: the locked indexer is a stack, the ring a queue. */
    method Return(index: nat)
      requires Valid() && index < Capacity() && index !in Free()
      modifies Repr()
      ensures Valid()
      ensures Free() == if Locked? then [index] + old(Free()) else old(Free()) + [index]
    {
      match this
      case Locked(m) => m.Return(index);
      case LockFree(c) => c.Return(index);
    }
  }
}

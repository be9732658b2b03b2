/** The indexer behind a mutex: a stack of free indices in the suffix of a vector. */
module MutexIndexers {
  import opened IndexerSpec

  class MutexIndexer {
    const indices: array<nat>
    var indexPos: nat
    ghost var free: seq<nat>   // the free indices, next one first

    /** Only the suffix from `indexPos` means anything; the prefix holds stale values. */
    ghost predicate Valid()
      reads this, indices
    {
      && indexPos <= indices.Length && free == indices[indexPos..]
      && FreeList(free, indices.Length)
    }

    constructor (maxSize: nat)
      ensures Valid() && fresh(indices) && indices.Length == maxSize
      ensures free == seq(maxSize, i => i)
    {
      indices := new nat[maxSize];
      indexPos := 0;
      free := seq(maxSize, i => i);
      new;
      for i := 0 to maxSize
        invariant indexPos == 0 && free == seq(maxSize, j => j) && forall k | 0 <= k < i :: indices[k] == k
      {
        indices[i] := i;
      }
      assert indices[..] == free;
    }

    /** Pops the free stack; `Empty` exactly when nothing is free. */
    method Next() returns (r: IndexHolder)
      requires Valid()
      modifies this
      ensures Valid()
      ensures old(free) == [] ==> r == Empty && free == []
      ensures old(free) != [] ==> r == Holding(old(free)[0]) && free == old(free)[1..]
      ensures NextSpec(Elements(old(free)), r, Elements(free))
    {
      if indexPos == indices.Length {
        return Empty;
      }
      TakeHead(free, indices.Length);
      var index := indices[indexPos];
      indexPos := indexPos + 1;
      free := free[1..];
      return Holding(index);
    }

    /** Pushes an index its caller holds. */
    method Return(index: nat)
      requires Valid() && index < indices.Length && index !in free
      modifies this, indices
      ensures Valid()
      ensures free == [index] + old(free)
      ensures ReturnSpec(Elements(old(free)), index, Elements(free))
    {
      assert |free| < indices.Length by { HolderLeavesRoom(free, indices.Length); }
      indexPos := indexPos - 1;
      indices[indexPos] := index;
      assert indices[indexPos..] == [index] + free;
      free := [index] + free;
      PutBack(old(free), indices.Length, index);
    }
  }
}

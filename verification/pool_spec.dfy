/** A pool as its users see it: which indices are free, what the items are, and what each handle holds. */
module PoolSpec {
  import opened Options

  /** `handles[k]` is the index the k-th handle holds; a locked pool reuses the index returned last. */
  datatype Desk<T> = Desk(locked: bool, free: seq<nat>, items: seq<T>, handles: seq<Option<nat>>)

  /** What a program can do with its handles; `k` picks one of those it has. */
  datatype Op<T> = TakeOne | MoveAt(k: nat) | WriteAt(k: nat, value: T) | DropAt(k: nat)

  function Without<X>(s: seq<X>, k: nat): seq<X>
    requires k < |s|
  {
    s[..k] + s[k + 1..]
  }

  function DeskStep<T>(d: Desk<T>, op: Op<T>, reset: T -> T): Desk<T> {
    match op
    case TakeOne =>
      if d.free == [] then d.(handles := d.handles + [None])
      else d.(free := d.free[1..], handles := d.handles + [Some(d.free[0])])
    case MoveAt(k) =>
      if k >= |d.handles| then d else d.(handles := d.handles[k := None] + [d.handles[k]])
    case WriteAt(k, v) =>
      if k < |d.handles| && d.handles[k].Some? && d.handles[k].value < |d.items|
      then d.(items := d.items[d.handles[k].value := v]) else d
    case DropAt(k) =>
      if k >= |d.handles| then d
      else
        var left := d.(handles := Without(d.handles, k));
        match d.handles[k]
        case None => left
        case Some(i) =>
          left.(free := if d.locked then [i] + d.free else d.free + [i],
                items := if i < |d.items| then d.items[i := reset(d.items[i])] else d.items)
  }

  function DeskRun<T>(d: Desk<T>, ops: seq<Op<T>>, reset: T -> T): Desk<T>
    decreases |ops|
  {
    if ops == [] then d else DeskRun(DeskStep(d, ops[0], reset), ops[1..], reset)
  }

  // ---- an index has one owner

  /** How many of the handles hold index `i`. */
  function Holders(handles: seq<Option<nat>>, i: nat): nat {
    if handles == [] then 0 else (if handles[0] == Some(i) then 1 else 0) + Holders(handles[1..], i)
  }

  function Frees(free: seq<nat>, i: nat): nat { multiset(free)[i] }

  /** Each index is free or with one handle. */
  ghost predicate OneOwner<T>(d: Desk<T>) {
    forall i: nat :: Frees(d.free, i) + Holders(d.handles, i) == if i < |d.items| then 1 else 0
  }

  lemma {:induction false} HoldersJoin(a: seq<Option<nat>>, b: seq<Option<nat>>, i: nat)
    ensures Holders(a + b, i) == Holders(a, i) + Holders(b, i)
  {
    if a == [] {
      assert a + b == b;
    } else {
      assert (a + b)[1..] == a[1..] + b;
      HoldersJoin(a[1..], b, i);
    }
  }

  lemma {:induction false} HoldersSplit(handles: seq<Option<nat>>, k: nat, i: nat)
    requires k < |handles|
    ensures Holders(handles, i) == Holders(Without(handles, k), i) + if handles[k] == Some(i) then 1 else 0
    ensures Holders(handles[k := None], i) == Holders(Without(handles, k), i)
  {
    if k == 0 {
      assert Without(handles, 0) == handles[1..];
      assert handles[0 := None][1..] == handles[1..];
    } else {
      HoldersSplit(handles[1..], k - 1, i);
      assert Without(handles, k)[1..] == Without(handles[1..], k - 1);
      assert handles[k := None][1..] == handles[1..][k - 1 := None];
    }
  }

  lemma {:induction false} HolderAmong(handles: seq<Option<nat>>, i: nat)
    ensures Holders(handles, i) > 0 <==> Some(i) in handles
  {
    if handles != [] {
      HolderAmong(handles[1..], i);
      assert handles == [handles[0]] + handles[1..];
    }
  }

  lemma OneOwnerStep<T>(d: Desk<T>, op: Op<T>, reset: T -> T)
    requires OneOwner(d)
    ensures OneOwner(DeskStep(d, op, reset)) && |DeskStep(d, op, reset).items| == |d.items|
  {
    var d' := DeskStep(d, op, reset);
    forall i: nat
      ensures Frees(d'.free, i) + Holders(d'.handles, i) == if i < |d'.items| then 1 else 0
    {
      assert Frees(d.free, i) + Holders(d.handles, i) == if i < |d.items| then 1 else 0;
      OwnersOf(d, op, reset, i);
    }
  }

  /** An operation moves an index between the free ones and the handles. */
  predicate SameOwners<T>(d: Desk<T>, d': Desk<T>, i: nat) {
    && |d'.items| == |d.items|
    && Frees(d'.free, i) + Holders(d'.handles, i) == Frees(d.free, i) + Holders(d.handles, i)
  }

  lemma OwnersOfTake<T>(d: Desk<T>, reset: T -> T, i: nat)
    ensures SameOwners(d, DeskStep(d, TakeOne, reset), i)
  {
    if d.free == [] {
      HoldersJoin(d.handles, [None], i);
    } else {
      HoldersJoin(d.handles, [Some(d.free[0])], i);
      assert d.free == [d.free[0]] + d.free[1..];
    }
  }

  lemma OwnersOfMove<T>(d: Desk<T>, k: nat, reset: T -> T, i: nat)
    ensures SameOwners(d, DeskStep(d, MoveAt(k), reset), i)
  {
    if k < |d.handles| {
      HoldersJoin(d.handles[k := None], [d.handles[k]], i);
      HoldersSplit(d.handles, k, i);
    }
  }

  lemma OwnersOfDrop<T>(d: Desk<T>, k: nat, reset: T -> T, i: nat)
    ensures SameOwners(d, DeskStep(d, DropAt(k), reset), i)
  {
    if k < |d.handles| { HoldersSplit(d.handles, k, i); }
  }

  lemma OwnersOf<T>(d: Desk<T>, op: Op<T>, reset: T -> T, i: nat)
    ensures SameOwners(d, DeskStep(d, op, reset), i)
  {
    match op
    case TakeOne => OwnersOfTake(d, reset, i);
    case MoveAt(k) => OwnersOfMove(d, k, reset, i);
    case WriteAt(_, _) =>
    case DropAt(k) => OwnersOfDrop(d, k, reset, i);
  }

  // ---- an item belongs to its holder

  /** The operation writes to item `i` through its handle, or destroys that handle. */
  predicate Touches<T>(d: Desk<T>, op: Op<T>, i: nat) {
    match op
    case WriteAt(k, _) => k < |d.handles| && d.handles[k] == Some(i)
    case DropAt(k) => k < |d.handles| && d.handles[k] == Some(i)
    case _ => false
  }

  /** Item `i` changes only through a handle that holds it. */
  lemma OnlyItsHolderChangesIt<T>(d: Desk<T>, op: Op<T>, reset: T -> T, i: nat)
    requires i < |d.items|
    ensures var d' := DeskStep(d, op, reset);
      && |d'.items| == |d.items|
      && (d'.items[i] != d.items[i] ==> Touches(d, op, i))
      && (op.WriteAt? && Touches(d, op, i) ==> d'.items[i] == op.value)
      && (op.DropAt? && Touches(d, op, i) ==> d'.items[i] == reset(d.items[i]))
  {
  }

  lemma HeldUntilDropped<T>(d: Desk<T>, op: Op<T>, reset: T -> T, i: nat)
    requires Some(i) in d.handles && !(op.DropAt? && Touches(d, op, i))
    ensures Some(i) in DeskStep(d, op, reset).handles
  {
    var j :| 0 <= j < |d.handles| && d.handles[j] == Some(i);
    var hs := DeskStep(d, op, reset).handles;
    match op
    case TakeOne => assert hs[j] == Some(i);
    case MoveAt(k) => if k < |d.handles| { assert hs[if k == j then |d.handles| else j] == Some(i); }
    case WriteAt(_, _) =>
    case DropAt(k) => if k < |d.handles| { assert hs[if j < k then j else j - 1] == Some(i); }
  }

  ghost predicate Untouched<T>(d: Desk<T>, ops: seq<Op<T>>, reset: T -> T, i: nat)
    decreases |ops|
  {
    ops != [] ==> !Touches(d, ops[0], i) && Untouched(DeskStep(d, ops[0], reset), ops[1..], reset, i)
  }

  /** A held item keeps what it is, and its holder, until its holder writes to it or is destroyed. */
  lemma {:induction false} KeptUntilTouched<T>(d: Desk<T>, ops: seq<Op<T>>, reset: T -> T, i: nat)
    requires OneOwner(d) && i < |d.items| && Some(i) in d.handles && Untouched(d, ops, reset, i)
    ensures var d' := DeskRun(d, ops, reset);
      OneOwner(d') && |d'.items| == |d.items| && d'.items[i] == d.items[i] && Some(i) in d'.handles
    decreases |ops|
  {
    if ops != [] {
      hide DeskStep, OneOwner, Touches;
      OneOwnerStep(d, ops[0], reset);
      OnlyItsHolderChangesIt(d, ops[0], reset, i);
      UntouchedIsNoDrop(d, ops[0], i);
      HeldUntilDropped(d, ops[0], reset, i);
      KeptUntilTouched(DeskStep(d, ops[0], reset), ops[1..], reset, i);
    }
  }

  lemma UntouchedIsNoDrop<T>(d: Desk<T>, op: Op<T>, i: nat)
    requires !Touches(d, op, i)
    ensures !(op.DropAt? && Touches(d, op, i))
  {
  }

  /** What the holder of an item last wrote is still there when its handle is destroyed, and is what is reset. */
  lemma LastWriteIsReset<T>(d: Desk<T>, k: nat, v: T, ops: seq<Op<T>>, last: nat, reset: T -> T)
    requires OneOwner(d) && k < |d.handles| && d.handles[k].Some? && d.handles[k].value < |d.items|
    requires var i := d.handles[k].value; var d1 := DeskStep(d, WriteAt(k, v), reset);
      Untouched(d1, ops, reset, i) && Touches(DeskRun(d1, ops, reset), DropAt(last), i)
    ensures var i := d.handles[k].value;
      var d2 := DeskRun(DeskStep(d, WriteAt(k, v), reset), ops, reset);
      var d3 := DeskStep(d2, DropAt(last), reset);
      && |d2.items| == |d3.items| == |d.items| && d2.items[i] == v && d3.items[i] == reset(v)
  {
    var i := d.handles[k].value;
    var d1 := DeskStep(d, WriteAt(k, v), reset);
    assert Some(i) in d1.handles by { assert d1.handles[k] == Some(i); }
    OneOwnerStep(d, WriteAt(k, v), reset);
    KeptUntilTouched(d1, ops, reset, i);
    OnlyItsHolderChangesIt(DeskRun(d1, ops, reset), DropAt(last), reset, i);
  }
}

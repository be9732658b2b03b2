/** Summing a multiset-valued function over a sequence: who holds what, over all threads or all slots. */
module Bags {

  /** The multiset sum of `f` over `ts`. */
  ghost function Bag<T, V>(f: T -> multiset<V>, ts: seq<T>): multiset<V> {
    if ts == [] then multiset{} else f(ts[0]) + Bag(f, ts[1..])
  }

  /** Changing one element changes the sum by that element's contribution only. */
  lemma {:induction false} BagUpdate<T, V>(f: T -> multiset<V>, ts: seq<T>, i: nat, t: T)
    requires i < |ts|
    ensures Bag(f, ts[i := t]) + f(ts[i]) == Bag(f, ts) + f(t)
    ensures f(ts[i]) <= Bag(f, ts)
  {
    if i > 0 {
      BagUpdate(f, ts[1..], i - 1, t);
      assert ts[i := t][1..] == ts[1..][i - 1 := t];
      assert ts[1..][i - 1] == ts[i];
      var first, rest, rest' := f(ts[0]), Bag(f, ts[1..]), Bag(f, ts[1..][i - 1 := t]);
      assert rest' + f(ts[i]) == rest + f(t);
      assert (first + rest') + f(ts[i]) == first + (rest' + f(ts[i])) == first + (rest + f(t)) == (first + rest) + f(t);
    } else {
      assert ts[i := t][1..] == ts[1..];
    }
  }

  /** The same in the form "take away the old contribution, add the new one". */
  lemma BagReplace<T, V>(f: T -> multiset<V>, ts: seq<T>, i: nat, t: T)
    requires i < |ts|
    ensures Bag(f, ts[i := t]) == Bag(f, ts) - f(ts[i]) + f(t)
    ensures f(ts[i]) <= Bag(f, ts)
  {
    BagUpdate(f, ts, i, t);
    Rearrange(Bag(f, ts[i := t]), f(ts[i]), Bag(f, ts), f(t));
  }

  lemma Rearrange<V>(a: multiset<V>, b: multiset<V>, c: multiset<V>, d: multiset<V>)
    requires a + b == c + d && b <= c
    ensures a == c - b + d
  {
    assert a == (a + b) - b;
    assert (c + d) - b == c - b + d;
  }

  /** Two distinct elements contribute separately. */
  lemma {:induction false} BagTwo<T, V>(f: T -> multiset<V>, ts: seq<T>, i: nat, j: nat)
    requires i < j < |ts|
    ensures f(ts[i]) + f(ts[j]) <= Bag(f, ts)
  {
    if i > 0 {
      BagTwo(f, ts[1..], i - 1, j - 1);
    } else {
      BagUpdate(f, ts[1..], j - 1, ts[j]);
    }
  }

  /** Whatever is in the sum was contributed by some element. */
  lemma {:induction false} BagSource<T, V>(f: T -> multiset<V>, ts: seq<T>, v: V) returns (i: nat)
    requires v in Bag(f, ts)
    ensures i < |ts| && v in f(ts[i])
  {
    if v in f(ts[0]) {
      i := 0;
    } else {
      var k := BagSource(f, ts[1..], v);
      i := k + 1;
    }
  }

  /** Elements that contribute nothing sum to nothing. */
  lemma {:induction false} BagEmpty<T, V>(f: T -> multiset<V>, ts: seq<T>)
    requires forall t | t in ts :: f(t) == multiset{}
    ensures Bag(f, ts) == multiset{}
  {
    if ts != [] {
      BagEmpty(f, ts[1..]);
    }
  }
}

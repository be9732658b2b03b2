/** The remainder by repeated subtraction, so that proofs about ring slots stay linear. */
module Remainder {

  /** `p % size`, for negative `p` the non-negative remainder. */
  function Mod(p: int, size: nat): (r: nat)
    requires size > 0
    ensures r < size
    decreases if p < 0 then size - p else p
  {
    if p < 0 then Mod(p + size, size)
    else if p < size then p
    else Mod(p - size, size)
  }

  /** `Mod` is the remainder the program computes. */
  lemma ModIsRemainder(p: nat, size: nat)
    requires size > 0
    ensures Mod(p, size) == p % size
  {
    var k := Quotient(p, size);
    Euclid(k, Mod(p, size), size);
  }

  lemma {:induction false} Quotient(p: nat, size: nat) returns (k: nat)
    requires size > 0
    ensures p == k * size + Mod(p, size)
  {
    if p < size {
      k := 0;
    } else {
      var j := Quotient(p - size, size);
      k := j + 1;
      Peel(k, size);
    }
  }

  lemma Euclid(k: nat, r: nat, size: nat)
    requires r < size
    ensures (k * size + r) % size == r
  {
    var n := k * size + r;
    UniqueRemainder(n / size, n % size, k, r, size);
  }

  /** Division with remainder has one answer. */
  lemma {:induction false} UniqueRemainder(a: nat, b: nat, k: nat, r: nat, size: nat)
    requires b < size && r < size && a * size + b == k * size + r
    ensures a == k && b == r
  {
    if a > 0 && k > 0 {
      Peel(a, size);
      Peel(k, size);
      UniqueRemainder(a - 1, b, k - 1, r, size);
    } else if a > 0 {
      Peel(a, size);
    } else if k > 0 {
      Peel(k, size);
    }
  }

  lemma Peel(a: nat, size: nat)
    requires a > 0
    ensures a * size == (a - 1) * size + size && (a - 1) * size >= 0
  {
  }

  /** One lap further is the same slot. */
  lemma ModShift(p: int, size: nat)
    requires size > 0
    ensures Mod(p + size, size) == Mod(p, size)
  {
  }

  /** Less than a lap apart are different slots. */
  lemma {:induction false} ModClash(p: int, q: int, size: nat)
    requires size > 0 && p < q < p + size
    ensures Mod(p, size) != Mod(q, size)
    decreases if p < 0 then size - p else p
  {
    if p < 0 {
      ModShift(p, size);
      ModShift(q, size);
      ModClash(p + size, q + size, size);
    } else if p >= size {
      ModClash(p - size, q - size, size);
    }
  }

  /** `laps * size`, by repeated addition. */
  function Laps(laps: nat, size: nat): (r: nat)
    ensures laps > 0 ==> r >= size
  {
    if laps == 0 then 0 else Laps(laps - 1, size) + size
  }

  lemma {:induction false} LapsIsProduct(laps: nat, size: nat)
    ensures Laps(laps, size) == laps * size
  {
    if laps > 0 {
      LapsIsProduct(laps - 1, size);
      Peel(laps, size);
    }
  }

  /** Any number of laps further is the same slot. */
  lemma {:induction false} ModLaps(p: int, laps: nat, size: nat)
    requires size > 0
    ensures Mod(p + Laps(laps, size), size) == Mod(p, size)
  {
    if laps > 0 {
      ModLaps(p, laps - 1, size);
      ModShift(p + Laps(laps - 1, size), size);
    }
  }

  /** The largest multiple of `size` that is at most `m`. */
  lemma LargestMultiple(m: nat, size: nat)
    requires 0 < size <= m
    ensures m / size > 0 && (m / size) * size == Laps(m / size, size)
    ensures Laps(m / size, size) <= m < Laps(m / size, size) + size
  {
    LapsIsProduct(m / size, size);
  }
}

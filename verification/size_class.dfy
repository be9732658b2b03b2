/** The size classes of the multipool: 32-bit shift and count-leading-zeros against "least class that fits". */
module SizeClasses {

  const MAX: nat := 0x1_0000_0000
  const MIN_BITS: nat := 9        // the smallest class has 2^9 bytes
  const ENTRY_COUNT: nat := 14

  function Pow2(n: nat): (p: nat)
    ensures p >= 1
  {
    if n == 0 then 1 else 2 * Pow2(n - 1)
  }

  /** Leading zeros of `x` as a `width`-bit number. */
  function LeadingZeros(x: nat, width: nat): (n: nat)
    ensures n <= width
  {
    if width == 0 || x >= Pow2(width - 1) then 0 else 1 + LeadingZeros(x, width - 1)
  }

  function ShiftRight(x: nat, n: nat): nat {
    if n == 0 then x else ShiftRight(x, n - 1) / 2
  }

  /** `size - 1` wraps: size 0, whose result the source calls undefined, is treated like 2^32. */
  function FindIndex(size: nat): nat
    requires size < MAX
  {
    BitCount(ShiftRight((size - 1) % MAX, MIN_BITS))
  }

  /** Bits of a 32-bit value, by its leading zeros. */
  function BitCount(value: nat): nat { if value == 0 then 0 else 32 - LeadingZeros(value, 32) }

  function ClassSize(i: nat): nat { Pow2(MIN_BITS + i) }

  /** Class `i` is the smallest that holds `size` bytes. */
  predicate Smallest(size: nat, i: nat) {
    size <= ClassSize(i) && forall k: nat | k < i :: ClassSize(k) < size
  }

  // ---- powers of two

  lemma {:induction false} Pow2Monotone(a: nat, b: nat)
    requires a <= b
    ensures Pow2(a) <= Pow2(b)
    decreases b
  {
    if a < b { Pow2Monotone(a, b - 1); }
  }

  lemma {:induction false} Pow2Adds(a: nat, b: nat)
    ensures Pow2(a + b) == Pow2(a) * Pow2(b)
  {
    if a > 0 { Pow2Adds(a - 1, b); }
  }

  lemma {:induction false} ShiftDivides(x: nat, n: nat)
    ensures ShiftRight(x, n) * Pow2(n) <= x < (ShiftRight(x, n) + 1) * Pow2(n)
  {
    if n > 0 {
      ShiftDivides(x, n - 1);
      var q, p := ShiftRight(x, n - 1), Pow2(n - 1);
      var h := q / 2;
      Halves(q, h, p, x);
    }
  }

  lemma Halves(q: nat, h: nat, p: nat, x: nat)
    requires h == q / 2 && q * p <= x < (q + 1) * p
    ensures h * (2 * p) <= x < (h + 1) * (2 * p)
  {
    assert h * (2 * p) == (2 * h) * p && (h + 1) * (2 * p) == (2 * h + 2) * p;
    TimesMonotone(2 * h, q, p);
    TimesMonotone(q + 1, 2 * h + 2, p);
  }

  lemma {:induction false} TimesMonotone(a: nat, b: nat, p: nat)
    requires a <= b
    ensures a * p <= b * p
  {
    assert b * p == a * p + (b - a) * p;
  }

  /** The highest set bit is where count-leading-zeros says it is. */
  lemma {:induction false} LeadingZerosBracket(x: nat, width: nat)
    requires 0 < x < Pow2(width)
    ensures LeadingZeros(x, width) < width
    ensures Pow2(width - LeadingZeros(x, width) - 1) <= x < Pow2(width - LeadingZeros(x, width))
  {
    if x < Pow2(width - 1) { LeadingZerosBracket(x, width - 1); }
  }

  // ---- the formula

  lemma Pow2Of9()
    ensures Pow2(9) == 512
  {
    assert Pow2(5) == 32;
  }

  lemma Pow2Of32()
    ensures Pow2(32) == MAX
  {
    Pow2Of9();
    Pow2Adds(9, 9);
    Pow2Adds(18, 9);
    Pow2Adds(27, 5);
  }

  lemma ScaledBracket(x: nat, value: nat, i: nat)
    requires i >= 1 && Pow2(i - 1) <= value < Pow2(i)
    requires value * Pow2(MIN_BITS) <= x < (value + 1) * Pow2(MIN_BITS)
    ensures ClassSize(i - 1) <= x < ClassSize(i)
  {
    Pow2Adds(i, MIN_BITS);
    Pow2Adds(i - 1, MIN_BITS);
    TimesMonotone(value + 1, Pow2(i), Pow2(MIN_BITS));
    TimesMonotone(Pow2(i - 1), value, Pow2(MIN_BITS));
  }

  lemma ShiftShrinks(x: nat, n: nat)
    ensures ShiftRight(x, n) <= x
  {
  }

  lemma BitCountBracket(value: nat)
    requires 0 < value < MAX
    ensures BitCount(value) >= 1 && Pow2(BitCount(value) - 1) <= value < Pow2(BitCount(value))
  {
    Pow2Of32();
    LeadingZerosBracket(value, 32);
  }

  lemma ShiftedSize(size: nat) returns (value: nat)
    requires 1 <= size < MAX
    ensures FindIndex(size) == BitCount(value) && value < MAX
    ensures value * Pow2(MIN_BITS) <= size - 1 < (value + 1) * Pow2(MIN_BITS)
  {
    value := ShiftRight(size - 1, MIN_BITS);
    ShiftDivides(size - 1, MIN_BITS);
    ShiftShrinks(size - 1, MIN_BITS);
  }

  /** The class found is the smallest that fits, for every size of at least one byte. */
  lemma FindsSmallest(size: nat)
    requires 1 <= size < MAX
    ensures Smallest(size, FindIndex(size))
  {
    var value := ShiftedSize(size);
    if value != 0 {
      var i := BitCount(value);
      BitCountBracket(value);
      ScaledBracket(size - 1, value, i);
      forall k: nat | k < i ensures ClassSize(k) < size {
        Pow2Monotone(MIN_BITS + k, MIN_BITS + i - 1);
      }
    }
  }

  lemma OneSmallest(size: nat, i: nat, k: nat)
    requires Smallest(size, i) && Smallest(size, k)
    ensures i == k
  {
  }

  /** Shift and leading zeros compute exactly the smallest class. */
  lemma FindIndexIsSmallest(size: nat, i: nat)
    requires 1 <= size < MAX
    ensures FindIndex(size) == i <==> Smallest(size, i)
  {
    FindsSmallest(size);
    if Smallest(size, i) { OneSmallest(size, i, FindIndex(size)); }
  }

  lemma FindIndexIsMonotone(a: nat, b: nat)
    requires 1 <= a <= b < MAX
    ensures FindIndex(a) <= FindIndex(b)
  {
    FindsSmallest(a);
    FindsSmallest(b);
  }

  lemma Pow2Of22()
    ensures ClassSize(ENTRY_COUNT - 1) == 0x40_0000
  {
    Pow2Of9();
    assert Pow2(4) == 16;
    Pow2Adds(9, 9);
    Pow2Adds(18, 4);
  }

  /** A size has a class of its own exactly up to 4 MB; the size 0 has none. */
  lemma InTableExactly(size: nat)
    requires size < MAX
    ensures FindIndex(size) < ENTRY_COUNT <==> 1 <= size <= 0x40_0000
  {
    Pow2Of22();
    if size >= 1 {
      FindsSmallest(size);
      if size <= ClassSize(ENTRY_COUNT - 1) {
      } else if FindIndex(size) < ENTRY_COUNT {
        Pow2Monotone(MIN_BITS + FindIndex(size), MIN_BITS + ENTRY_COUNT - 1);
      }
    } else {
      SizeZero();
    }
  }

  lemma SizeZero()
    ensures FindIndex(0) == 23
  {
    var x: nat := MAX - 1;
    ShiftDivides(x, MIN_BITS);
    Pow2Of9();
    Pow2Of32();
    var value := ShiftRight(x, MIN_BITS);
    assert value == 0x7f_ffff;
    LeadingZerosBracket(value, 32);
    Pow2Adds(9, 9);
    Pow2Adds(18, 5);
    assert Pow2(5) == 32 && Pow2(23) == 0x80_0000 && Pow2(22) == 0x40_0000;
    OneBracket(value, 32 - LeadingZeros(value, 32), 23);
  }

  lemma OneBracket(x: nat, a: nat, b: nat)
    requires a > 0 && b > 0 && Pow2(a - 1) <= x < Pow2(a) && Pow2(b - 1) <= x < Pow2(b)
    ensures a == b
  {
    if a < b { Pow2Monotone(a, b - 1); }
    if b < a { Pow2Monotone(b, a - 1); }
  }

  /** A block of the class found holds the size, and wastes less than half unless it is the smallest. */
  lemma ClassFits(size: nat)
    requires 1 <= size < MAX
    ensures var capacity := ClassSize(FindIndex(size));
      capacity >= size && (capacity == 512 || capacity < 2 * size)
  {
    FindsSmallest(size);
    Pow2Of9();
    var i := FindIndex(size);
    if i > 0 {
      assert ClassSize(i - 1) < size;
      assert ClassSize(i) == 2 * ClassSize(i - 1);
    }
  }
}

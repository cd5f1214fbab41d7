/** How many entries a `robin_hood::detail::Table` of a given size may hold. */
module RobinHoodHashing {
  import opened Words
  import opened RobinHoodLayout

  const INITIAL_NUM_ELEMENTS: nat := 8
  const INITIAL_INFO_INC: nat := 32
  const INITIAL_INFO_HASH_SHIFT: nat := 59

  /** Number of entries a table of `n` buckets may hold. */
  function CalcMaxNumElementsAllowed(maxLoad: nat, n: nat): (r: nat)
  {
    if n <= (WORD - 1) / 100 then Times(n, maxLoad) / 100 else Times(n / 100, maxLoad)
  }

  function CalcNumElementsWithBuffer(maxLoad: nat, n: nat): (r: nat)
    ensures r >= n
  {
    n + Min(CalcMaxNumElementsAllowed(maxLoad, n), MAX_INFO)
  }

  /** Never more than the load factor allows: the largest such number unless `100 * n` might overflow, and then
      short of it by less than `maxLoad` entries. */
  lemma LoadFactor(maxLoad: nat, n: nat)
    requires 10 < maxLoad < 100 && n < WORD
    ensures (var r := CalcMaxNumElementsAllowed(maxLoad, n);
             && 100 * r <= n * maxLoad
             && (100 * n < WORD ==> n * maxLoad < 100 * (r + 1))
             && n * maxLoad < 100 * (r + maxLoad))
  {
    TimesIsProduct(n, maxLoad);
    TimesIsProduct(n / 100, maxLoad);
    var q := n / 100;
    MulAtLeast(n, 100 * q, maxLoad);
    MulAtLeast(100 * q + 99, n, maxLoad);
    assert (100 * q) * maxLoad == 100 * (q * maxLoad);
    Distribute(q, maxLoad);
  }

  /** Doubling a table of at least eight buckets strictly raises what it may hold. */
  lemma DoublingAllowsMore(maxLoad: nat, n: nat)
    requires 10 < maxLoad < 100 && n >= INITIAL_NUM_ELEMENTS
    ensures CalcMaxNumElementsAllowed(maxLoad, 2 * n) > CalcMaxNumElementsAllowed(maxLoad, n)
  {
    TimesIsProduct(n, maxLoad);
    TimesIsProduct(2 * n, maxLoad);
    TimesIsProduct(n / 100, maxLoad);
    TimesIsProduct(2 * n / 100, maxLoad);
    if 2 * n <= (WORD - 1) / 100 {
      ScaledDouble(maxLoad, n);
    } else {
      DoublingCoarse(maxLoad, n);
    }
  }

  lemma ScaledDouble(maxLoad: nat, n: nat)
    requires 10 < maxLoad < 100 && n >= INITIAL_NUM_ELEMENTS
    ensures (2 * n) * maxLoad / 100 > n * maxLoad / 100
  {
    var x := n * maxLoad;
    assert x >= 8 * maxLoad >= 88;
    assert (2 * n) * maxLoad == 2 * x;
  }

  lemma DoublingCoarse(maxLoad: nat, n: nat)
    requires 10 < maxLoad < 100 && n >= 1000
    ensures (2 * n / 100) * maxLoad > n * maxLoad / 100
    ensures (2 * n / 100) * maxLoad > (n / 100) * maxLoad
  {
    var a, b := 2 * n / 100, n / 100;
    MulAtLeast(a, b + 2, maxLoad);
    MulAtLeast(100 * b + 99, n, maxLoad);
    Distribute(b, maxLoad);
    assert n * maxLoad / 100 <= b * maxLoad + maxLoad;
  }

  lemma MulAtLeast(x: nat, y: nat, m: nat)
    requires x >= y
    ensures x * m >= y * m
  {
  }

  lemma Distribute(b: nat, m: nat)
    ensures (b + 2) * m == b * m + 2 * m
    ensures (100 * b + 99) * m == 100 * (b * m) + 99 * m
  {
    assert (100 * b) * m == 100 * (b * m);
  }

  // ----- the sizes a table may have -----

  const LARGEST_SIZE: nat := 0x8000_0000_0000_0000

  function Max(a: nat, b: nat): (r: nat)
  {
    if a < b then b else a
  }

  /** The smallest number of buckets that holds `c` entries. */
  ghost predicate SmallestFor(maxLoad: nat, c: nat, size: nat) {
    && IsPow2(size) && size >= INITIAL_NUM_ELEMENTS && c <= CalcMaxNumElementsAllowed(maxLoad, size)
    && HalfTooSmall(maxLoad, c, size)
  }

  /** Half of `size` buckets, if the table may have that few, would not hold `c` entries. */
  ghost predicate HalfTooSmall(maxLoad: nat, c: nat, size: nat) {
    size == INITIAL_NUM_ELEMENTS || exists half :: size == 2 * half && CalcMaxNumElementsAllowed(maxLoad, half) < c
  }

  /** A power of two that fits in a word is at most half of one, and doubling the largest wraps to zero. */
  lemma HalfWord(x: nat)
    requires IsPow2(x) && x <= LARGEST_SIZE
    ensures x < LARGEST_SIZE ==> 2 * x <= LARGEST_SIZE
    ensures (2 * x) % WORD == if x == LARGEST_SIZE then 0 else 2 * x
  {
    var n: nat :| x == Pow2(n);
    LargestIsPow2();
    if n < 63 {
      Pow2Monotone(n + 1, 63);
    } else {
      Pow2Monotone(63, n);
    }
  }

  /** Among powers of two from eight on, larger sizes hold more. */
  lemma {:induction false} LargerAllowsMore(maxLoad: nat, a: nat, b: nat)
    requires 10 < maxLoad < 100 && Pow2(a) >= INITIAL_NUM_ELEMENTS && a <= b
    ensures CalcMaxNumElementsAllowed(maxLoad, Pow2(a)) <= CalcMaxNumElementsAllowed(maxLoad, Pow2(b))
    decreases b
  {
    if a < b {
      LargerAllowsMore(maxLoad, a, b - 1);
      Pow2Monotone(a, b - 1);
      DoublingAllowsMore(maxLoad, Pow2(b - 1));
    }
  }

  /** Some size that fits in 64 bits holds `c` entries. */
  ghost predicate SomeSizeHolds(maxLoad: nat, c: nat) {
    exists n: nat :: IsPow2(n) && INITIAL_NUM_ELEMENTS <= n < WORD && c <= CalcMaxNumElementsAllowed(maxLoad, n)
  }

  lemma NoSizeHolds(maxLoad: nat, c: nat, largest: nat)
    requires 10 < maxLoad < 100 && largest == LARGEST_SIZE
    requires CalcMaxNumElementsAllowed(maxLoad, largest) < c
    ensures !SomeSizeHolds(maxLoad, c)
  {
    LargestIsPow2();
    forall n: nat | IsPow2(n) && INITIAL_NUM_ELEMENTS <= n < WORD
      ensures CalcMaxNumElementsAllowed(maxLoad, n) <= CalcMaxNumElementsAllowed(maxLoad, largest)
    {
      var a: nat :| n == Pow2(a);
      if a > 63 {
        Pow2Monotone(64, a);
      } else {
        LargerAllowsMore(maxLoad, a, 63);
      }
    }
  }

  lemma LargestIsPow2()
    ensures Pow2(63) == LARGEST_SIZE
  {
    Pow2At59();
    assert Pow2(61) == 4 * Pow2(59);
    assert Pow2(63) == 4 * Pow2(61);
  }
}

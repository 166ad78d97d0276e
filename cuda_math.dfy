/** Integer helpers shared by the CUDA launch code (`include/math.h`). */
module CudaMath {

  /** Number of values of the device code's `uint32` type. */
  const UINT32_LIMIT: nat := 0x1_0000_0000

  /** Number of values of the `uint64` type. */
  const UINT64_LIMIT: nat := 0x1_0000_0000_0000_0000

  /** `uint32` arithmetic: the value kept by a 32-bit register. */
  function Wrap32(x: nat): (r: nat)
    ensures r < UINT32_LIMIT
    ensures x < UINT32_LIMIT ==> r == x
  {
    x % UINT32_LIMIT
  }

  /** `ceil_divide`: the quotient rounded up. The source asserts that both
      operands are positive. */
  function CeilDivide(x: nat, d: nat): (r: nat)
    requires x > 0 && d > 0
    ensures r >= 1
    ensures r * d >= x && (r - 1) * d < x
    ensures r == x / d <==> x % d == 0
  {
    CeilDivideIsCeiling(x, d);
    x / d + (if x % d != 0 then 1 else 0)
  }

  /** The quotient-plus-carry expression lies between `x` and `x + d`. */
  lemma CeilDivideIsCeiling(x: nat, d: nat)
    requires x > 0 && d > 0
    ensures var r := x / d + (if x % d != 0 then 1 else 0);
      r >= 1 && r * d >= x && (r - 1) * d < x
  {
    var q, m := x / d, x % d;
    assert x == q * d + m;
    if m != 0 {
      assert (q + 1) * d == q * d + d;
    } else {
      assert (q - 1) * d == q * d - d;
    }
  }

  /** The result is the only integer with the ceiling property. */
  lemma CeilDivideUnique(x: nat, d: nat, r: int)
    requires x > 0 && d > 0
    requires r * d >= x && (r - 1) * d < x
    ensures r == CeilDivide(x, d)
  {
    var c := CeilDivide(x, d);
    if r < c {
      assert r <= c - 1;
      MulMonotone(r, c - 1, d);
    } else if r > c {
      assert c <= r - 1;
      MulMonotone(c, r - 1, d);
    }
  }

  lemma MulMonotone(a: int, b: int, d: nat)
    requires a <= b
    ensures a * d <= b * d
  {
    assert b * d - a * d == (b - a) * d;
  }

  /** A mixed-radix pair `hi * base + lo` with `lo < base` determines both digits. */
  lemma {:induction false} MixedRadixUnique(hi1: nat, lo1: nat, hi2: nat, lo2: nat, base: nat)
    requires lo1 < base && lo2 < base
    requires hi1 * base + lo1 == hi2 * base + lo2
    ensures hi1 == hi2 && lo1 == lo2
  {
    if hi1 < hi2 {
      assert (hi1 + 1) * base == hi1 * base + base;
      MulMonotone(hi1 + 1, hi2, base);
    } else if hi2 < hi1 {
      assert (hi2 + 1) * base == hi2 * base + base;
      MulMonotone(hi2 + 1, hi1, base);
    }
  }

  /** Division and remainder by `base` recover the digits of a mixed-radix pair. */
  lemma MixedRadixDecode(hi: nat, lo: nat, base: nat)
    ensures lo < base ==> (base * hi + lo) / base == hi && (base * hi + lo) % base == lo
  {
    if lo < base {
      var x := base * hi + lo;
      assert x == (x / base) * base + x % base;
      MixedRadixUnique(x / base, x % base, hi, lo, base);
    }
  }

  /** A mixed-radix pair with `hi < count` stays below `count * base`. */
  lemma MixedRadixBound(hi: nat, lo: nat, count: nat, base: nat)
    requires hi < count && lo < base
    ensures hi * base + lo < count * base
  {
    MulMonotone(hi + 1, count, base);
    assert (hi + 1) * base == hi * base + base;
  }

  /** A multiple of `c` leaves no remainder. */
  lemma MultipleModZero(q: nat, c: nat)
    requires c > 0
    ensures (c * q) % c == 0 && (c * q) / c == q
  {
    var x := c * q;
    assert x == (x / c) * c + x % c;
    assert x == q * c + 0;
    MixedRadixUnique(x / c, x % c, q, 0, c);
  }
}

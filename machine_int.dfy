/** The fixed-width C arithmetic the firmware relies on: uint8_t and uint32_t
    values, the wrap-around of `++`/`--` on a uint32_t, the reinterpretation of
    a uint32_t difference as an int32_t, and C's signed division, which
    truncates toward zero (Dafny's `/` on `int` is Euclidean). */
module MachineInt {

  const UINT32_MODULUS: int := 0x1_0000_0000
  const INT32_MIN: int := -0x8000_0000
  const INT32_MAX: int := 0x7FFF_FFFF

  newtype u8 = x: int | 0 <= x < 0x100
  newtype u32 = x: int | 0 <= x < 0x1_0000_0000

  function Abs(x: int): (a: nat)
    ensures a == x || a == -x
  {
    if x < 0 then -x else x
  }

  /** `x++` on a uint32_t: wraps from 2^32 - 1 to 0. */
  function Inc(x: u32): (r: u32)
    ensures r as int == (x as int + 1) % UINT32_MODULUS
    ensures x as int < UINT32_MODULUS - 1 ==> r == x + 1
  {
    if x as int == UINT32_MODULUS - 1 then 0 else x + 1
  }

  /** `x--` on a uint32_t: wraps from 0 to 2^32 - 1. */
  function Dec(x: u32): (r: u32)
    ensures r as int == (x as int - 1) % UINT32_MODULUS
    ensures 0 < x ==> r == x - 1
  {
    if x == 0 then (UINT32_MODULUS - 1) as u32 else x - 1
  }

  lemma IncDecInverse(x: u32)
    ensures Dec(Inc(x)) == x && Inc(Dec(x)) == x
  {
  }

  /** The uint32_t reached from `x` by `steps` increments (or, for a negative
      count, decrements). */
  function Offset(x: u32, steps: int): (r: u32)
    ensures steps == 0 ==> r == x
    ensures steps == 1 ==> r == Inc(x)
    ensures steps == -1 ==> r == Dec(x)
  {
    ((x as int + steps) % UINT32_MODULUS) as u32
  }

  /** Offsets compose by adding their step counts. */
  lemma OffsetAdd(x: u32, a: int, b: int)
    ensures Offset(Offset(x, a), b) == Offset(x, a + b)
  {
    var y := (x as int + a) % UINT32_MODULUS;
    var q := (x as int + a) / UINT32_MODULUS;
    assert y == x as int + a - q * UINT32_MODULUS;
    assert (y + b) % UINT32_MODULUS == (x as int + a + b) % UINT32_MODULUS;
  }

  /** `a - b` on two uint32_t values, reduced modulo 2^32. */
  function Sub(a: u32, b: u32): (r: u32)
    ensures r as int == (a as int - b as int) % UINT32_MODULUS
  {
    if a >= b then a - b else (a as int - b as int + UINT32_MODULUS) as u32
  }

  /** The int32_t that a uint32_t bit pattern stands for (two's complement). */
  function AsInt32(x: u32): (r: int)
    ensures INT32_MIN <= r <= INT32_MAX
    ensures r % UINT32_MODULUS == x as int
  {
    if x as int <= INT32_MAX then x as int else x as int - UINT32_MODULUS
  }

  /** `int32_t d = a - b;` for uint32_t operands: exact whenever both operands
      fit in an int32_t, which is the case for ADC samples. */
  function SignedDifference(a: u32, b: u32): (d: int)
    ensures a as int <= INT32_MAX && b as int <= INT32_MAX ==> d == a as int - b as int
  {
    AsInt32(Sub(a, b))
  }

  /** C's `a / b` for int operands and a positive divisor: the quotient is
      rounded toward zero. */
  function TruncDiv(a: int, b: int): (q: int)
    requires b > 0
    ensures Abs(q) * b <= Abs(a) < (Abs(q) + 1) * b
    ensures a >= 0 ==> q >= 0
    ensures a <= 0 ==> q <= 0
  {
    if a >= 0 then a / b else -((-a) / b)
  }

  /** A quotient of a numerator at most `k` divisors large is at most `k` in
      size, and is zero exactly when the numerator is smaller than one
      divisor. */
  lemma QuotientWithinScale(a: int, b: int, k: nat)
    requires b > 0 && Abs(a) <= k * b
    ensures Abs(TruncDiv(a, b)) <= k
    ensures TruncDiv(a, b) == 0 <==> Abs(a) < b
  {
    var q := Abs(TruncDiv(a, b));
    if q > k {
      MulMonotone(k + 1, q, b);
    }
    if q >= 1 {
      MulMonotone(1, q, b);
    }
  }

  lemma MulMonotone(x: int, y: int, m: nat)
    requires x <= y
    ensures x * m <= y * m
  {
  }

  /** Truncation is symmetric about zero, unlike Dafny's Euclidean division. */
  lemma TruncDivOdd(a: int, b: int)
    requires b > 0
    ensures TruncDiv(-a, b) == -TruncDiv(a, b)
  {
  }

  /** C's quotient against Dafny's Euclidean one: they agree for a
      non-negative numerator or an exact division, and otherwise C's is one
      larger, rounded up toward zero rather than down. */
  lemma TruncDivVersusEuclidean(a: int, b: int)
    requires b > 0
    ensures TruncDiv(a, b) == if a >= 0 || a % b == 0 then a / b else a / b + 1
  {
    if a < 0 {
      var q, r := a / b, a % b;
      assert a == b * q + r && 0 <= r < b;
      if r == 0 {
        DivUnique(-a, b, -q, 0);
      } else {
        DivUnique(-a, b, -q - 1, b - r);
      }
    }
  }

  /** Quotient and remainder of Euclidean division are unique. */
  lemma DivUnique(n: int, b: int, q: int, r: int)
    requires b > 0 && n == b * q + r && 0 <= r < b
    ensures n / b == q
  {
    var q', r' := n / b, n % b;
    assert n == b * q' + r' && 0 <= r' < b;
    assert b * (q - q') == r' - r;
    if q' < q {
      MulMonotone(1, q - q', b);
    } else if q < q' {
      MulMonotone(1, q' - q, b);
    }
  }
}

/**
 * Fixed-width integers of the contracts, written over Dafny's unbounded `int`.
 *
 * Every storage field keeps its Solidity width through a subset type; every
 * arithmetic step that the contracts perform without an overflow check is
 * written out as an explicit wrap (`U32`, `U160`, `U256`, `I56`), and every step
 * that reverts on overflow is written out as an explicit test by the caller.
 */
module Numeric {

  const TWO_16: int := 0x1_0000
  const TWO_32: int := 0x1_0000_0000
  const TWO_55: int := 0x80_0000_0000_0000
  const TWO_56: int := 0x100_0000_0000_0000
  const TWO_96: int := 0x1_0000_0000_0000_0000_0000_0000
  const TWO_127: int := 0x8000_0000_0000_0000_0000_0000_0000_0000
  const TWO_128: int := 0x1_0000_0000_0000_0000_0000_0000_0000_0000
  const TWO_160: int := 0x1_0000_0000_0000_0000_0000_0000_0000_0000_0000_0000
  const TWO_256: int := 0x1_0000_0000_0000_0000_0000_0000_0000_0000_0000_0000_0000_0000_0000_0000_0000_0000

  const MAX_UINT128: int := TWO_128 - 1
  const MAX_UINT160: int := TWO_160 - 1
  const MAX_UINT256: int := TWO_256 - 1

  type Uint16 = x: int | 0 <= x < TWO_16
  type Uint32 = x: int | 0 <= x < TWO_32
  type Uint128 = x: int | 0 <= x < TWO_128
  type Uint160 = x: int | 0 <= x < TWO_160
  type Uint256 = x: int | 0 <= x < TWO_256
  type Int24 = x: int | -0x80_0000 <= x < 0x80_0000
  type Int56 = x: int | -TWO_55 <= x < TWO_55
  type Int128 = x: int | -TWO_127 <= x < TWO_127

  /** The outcome of a contract call: a value, or a revert with its reason string ("" for a bare require or a panic). */
  datatype Result<T> = Ok(value: T) | Revert(reason: string)

  /** Unchecked uint32 arithmetic. */
  function U32(x: int): Uint32 { x % TWO_32 }

  /** Unchecked uint160 arithmetic. */
  function U160(x: int): Uint160 { x % TWO_160 }

  /** Unchecked uint256 arithmetic. */
  function U256(x: int): Uint256 { x % TWO_256 }

  /** Unchecked int56 arithmetic (two's complement wrap). */
  function I56(x: int): Int56 { (x + TWO_55) % TWO_56 - TWO_55 }

  /** The uint160 cast leaves a value that already fits unchanged. */
  lemma U160Fits(x: int)
    requires 0 <= x < TWO_160
    ensures U160(x) == x
  {
  }

  /** Signed division as the EVM does it: the quotient is truncated toward zero. */
  function Quot(a: int, b: int): (q: int)
    requires b != 0
    ensures a >= 0 && b > 0 ==> q == a / b
    ensures (a >= 0) == (b > 0) || a == 0 ==> q >= 0
    ensures (a >= 0) != (b > 0) ==> q <= 0
    ensures var r := a - q * b;
      && (a >= 0 ==> 0 <= r)
      && (a <= 0 ==> r <= 0)
      && (if r < 0 then -r else r) < (if b < 0 then -b else b)
  {
    var n := (if a < 0 then -a else a) / (if b < 0 then -b else b);
    TruncatedRemainder(a, b, n);
    if (a < 0) == (b < 0) then n else -n
  }

  /**
   * The remainder left by the truncated quotient takes the sign of the dividend and is smaller
   * than the divisor in magnitude.
   */
  lemma TruncatedRemainder(a: int, b: int, n: int)
    requires b != 0 && n == (if a < 0 then -a else a) / (if b < 0 then -b else b)
    ensures var q := if (a < 0) == (b < 0) then n else -n;
      var r := a - q * b;
      && (a >= 0 ==> 0 <= r)
      && (a <= 0 ==> r <= 0)
      && (if r < 0 then -r else r) < (if b < 0 then -b else b)
  {
    var A := if a < 0 then -a else a;
    var B := if b < 0 then -b else b;
    var m := A % B;
    assert A == B * n + m;
    assert 0 <= m < B;
    if (a < 0) == (b < 0) {
      if b > 0 {
        assert n * b == B * n;
      } else {
        assert n * b == -(B * n);
      }
    } else {
      if b > 0 {
        assert -n * b == -(B * n);
      } else {
        assert -n * b == B * n;
      }
    }
  }

  /** Unsigned division rounded up (UnsafeMath.divRoundingUp); the EVM's division by zero yields 0. */
  function DivRoundingUp(x: int, y: nat): (r: int)
    ensures x >= 0 && y > 0 ==> 0 <= r <= x
  {
    if y == 0 then 0
    else
      CeilStep(x, y);
      x / y + (if x % y > 0 then 1 else 0)
  }

  /** The result of `DivRoundingUp` is the ceiling of x / y: the least r with r * y >= x. */
  lemma DivRoundingUpBracket(x: int, y: nat)
    requires x >= 0 && y > 0
    ensures var r := DivRoundingUp(x, y);
      r * y >= x && (r == 0 || (r - 1) * y < x) && r <= x && (x > 0 ==> r >= 1)
  {
    CeilStep(x, y);
  }

  lemma CeilStep(x: int, y: int)
    requires y > 0
    ensures var r := x / y + (if x % y > 0 then 1 else 0);
      x >= 0 ==> r * y >= x && (r == 0 || (r - 1) * y < x) && 0 <= r <= x
  {
    if x >= 0 {
      var q := x / y;
      var m := x % y;
      assert x == y * q + m;
      assert (q + 1) * y == y * q + y;
      assert (q - 1) * y == y * q - y;
      MulMonotone(q, 1, y);
      MulMonotone(q, if m > 0 then 2 else 1, y);
    }
  }

  // ---- Small facts about multiplication and division used across the modules ----

  lemma MulMonotone(a: int, x: int, y: int)
    requires 0 <= a && x <= y
    ensures a * x <= a * y
  {
  }

  /** The rearrangements of a product of three factors. */
  lemma MulAssoc(a: int, b: int, c: int)
    ensures a * (b * c) == (a * b) * c == (a * c) * b == b * (a * c) == c * (a * b)
  {
  }

  lemma MulNonneg(a: int, b: int)
    requires 0 <= a && 0 <= b
    ensures 0 <= a * b
  {
  }

  lemma MulSign(a: int, x: int)
    requires 0 < a
    ensures x >= 1 ==> a * x >= a
    ensures x <= -1 ==> a * x <= -a
  {
  }

  lemma DivOfProduct(a: int, b: int)
    requires 0 < a && 0 <= b
    ensures (a * b) / a == b && (a * b) % a == 0
  {
    var q := (a * b) / a;
    assert a * b == a * q + (a * b) % a;
    assert a * (b - q) == (a * b) % a;
    MulSign(a, b - q);
  }

  lemma DivBelow(m: int, a: int, b: int)
    requires 0 < a && 0 <= m && m < a * b
    ensures m / a < b
  {
    var q := m / a;
    assert m == a * q + m % a;
    MulMonotone(a, b, if q >= b then q else b);
  }

  lemma DivBounds(x: int, d: int)
    requires 0 <= x && 0 < d
    ensures 0 <= x / d <= x
  {
    DivAntitone(x, 1, d);
  }

  /** Floor division is characterised by its bracket. */
  lemma DivUnique(x: int, d: int, q: int)
    requires 0 < d && 0 <= x && d * q <= x < d * (q + 1)
    ensures x / d == q
  {
    var q' := x / d;
    assert x == d * q' + x % d;
    MulSign(d, q - q');
    MulSign(d, q' - q);
    assert d * (q - q') == d * q - d * q';
  }

  /** Floor division is antitone in the denominator. */
  lemma DivAntitone(x: int, d: int, e: int)
    requires 0 <= x && 0 < d <= e
    ensures x / e <= x / d
  {
    assert x == d * (x / d) + x % d;
    assert x == e * (x / e) + x % e;
    MulMonotone(x / e, d, e);
    MulSign(d, x / e - x / d);
    assert d * (x / e - x / d) == d * (x / e) - d * (x / d);
  }

  /** Floor division is monotone in the numerator. */
  lemma DivMonotone(x: int, y: int, d: int)
    requires 0 < d && 0 <= x <= y
    ensures x / d <= y / d
  {
    assert x == d * (x / d) + x % d;
    assert y == d * (y / d) + y % d;
    MulSign(d, x / d - y / d);
    assert d * (x / d - y / d) == d * (x / d) - d * (y / d);
  }
}

/**
 * LiquidityMath: adding a signed int128 liquidity delta to an unsigned uint128
 * liquidity value, reverting 'LS' on underflow and 'LA' on overflow.
 */
module LiquidityMath {
  import opened Numeric

  /**
   * `addDelta`, as the contract computes it: the sum is taken modulo 2^128 and the
   * overflow is detected by comparing the wrapped result with `x`.
   */
  function AddDelta(x: Uint128, y: Int128): (r: Result<Uint128>)
    ensures r.Ok? <==> 0 <= x + y <= MAX_UINT128
    ensures r.Ok? ==> r.value == x + y
    ensures x + y < 0 ==> r == Revert("LS")
    ensures x + y > MAX_UINT128 ==> r == Revert("LA")
  {
    if y < 0 then
      var z := (x - -(y as int)) % TWO_128;
      if z < x then Ok(z) else Revert("LS")
    else
      var z := (x + y) % TWO_128;
      if z >= x then Ok(z) else Revert("LA")
  }

  /** Adding then removing the same delta gives the value back. */
  lemma AddDeltaInverse(x: Uint128, y: Int128)
    requires AddDelta(x, y).Ok? && y > -TWO_127
    ensures AddDelta(AddDelta(x, y).value, -y) == Ok(x)
  {
  }

  /** The values of test/LiquidityMath.spec.ts. */
  lemma AddDeltaExamples()
    ensures AddDelta(1, 0) == Ok(1)
    ensures AddDelta(1, -1) == Ok(0)
    ensures AddDelta(1, 1) == Ok(2)
    ensures AddDelta(TWO_128 - 15, 15) == Revert("LA")
    ensures AddDelta(0, -1) == Revert("LS")
    ensures AddDelta(3, -4) == Revert("LS")
  {
  }
}

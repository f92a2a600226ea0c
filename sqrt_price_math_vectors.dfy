/**
 * The concrete values of test/SqrtPriceMath.spec.ts, evaluated on the model.
 * A price of 2^96 is the square root of a 1:1 price; 2^104 is that of 2^16.
 */
module SqrtPriceMathVectors {
  import opened Numeric
  import opened SqrtPriceMath

  const E17: int := 100_000_000_000_000_000
  const E18: int := 1_000_000_000_000_000_000
  /** The square root of a 1.21 price in Q64.96, rounded down. */
  const SQRT_1_21: int := 87150978765690771352898345369

  /** getNextSqrtPriceFromInput reverts on a zero price, a zero liquidity, and a token1 amount that pushes the price past 160 bits. */
  lemma NextPriceFromInputRevertVectors()
    ensures NextPriceFromInput(0, 0, E17, false).Revert?
    ensures NextPriceFromInput(1, 0, E17, true).Revert?
    ensures NextPriceFromInput(MAX_UINT160, 1024, 1024, false).Revert?
  {
  }

  /** getNextSqrtPriceFromInput returns the price itself for a zero amount of either token. */
  lemma NextPriceFromInputZeroVectors()
    ensures NextPriceFromInput(Q96, E17, 0, true) == Ok(Q96)
    ensures NextPriceFromInput(Q96, E17, 0, false) == Ok(Q96)
  {
  }

  /** A token0 amount of 2^255 at price 1 and liquidity 1 still fits the exact formula, and lands on price 1. */
  lemma NextPriceFromInputHalfWordVector()
    ensures NextPriceFromInput(1, 1, TWO_256 / 2, true) == Ok(1)
  {
    assert DivRoundingUp(1 * Q96 * 1, 1 * Q96 + TWO_256 / 2 * 1) == 1;
  }

  /** A token0 amount of half a word at price 1:1 and liquidity 1 takes the overflow-safe form and lands on price 1. */
  lemma NextPriceFromInputHugeToken0Vector()
    ensures NextPriceFromInput(Q96, 1, MAX_UINT256 / 2, true) == Ok(1)
  {
    var amount := 57896044618658097711785492504343953926634992332820282019728792003956564819967;
    assert amount == MAX_UINT256 / 2;
    assert 1 * Q96 / Q96 + amount == 57896044618658097711785492504343953926634992332820282019728792003956564819968;
    assert DivRoundingUp(79228162514264337593543950336,
                         57896044618658097711785492504343953926634992332820282019728792003956564819968) == 1;
  }

  /** getNextSqrtPriceFromInput with the largest token0 amount whose fallback denominator still fits. */
  lemma NextPriceFromInputMaxVector()
    ensures NextPriceFromInput(MAX_UINT160, MAX_UINT128, MAX_UINT256 - MAX_UINT128 * Q96 / MAX_UINT160, true) == Ok(1)
  {
    assert DivRoundingUp(MAX_UINT128 * Q96, MAX_UINT256) == 1;
  }

  /** getNextSqrtPriceFromInput with 0.1 of token1 at price 1:1 and liquidity 1e18: the price rises to sqrt(1.21). */
  lemma NextPriceFromInputToken1Vector()
    ensures NextPriceFromInput(Q96, E18, E17, false) == Ok(SQRT_1_21)
  {
  }

  /** getNextSqrtPriceFromInput with 0.1 of token0 at price 1:1 and liquidity 1e18: the price falls to sqrt(1/1.21), rounded up. */
  lemma NextPriceFromInputToken0Vector()
    ensures NextPriceFromInput(Q96, E18, E17, true) == Ok(72025602285694852357767227579)
  {
    assert DivRoundingUp(E18 * Q96 * Q96, E18 * Q96 + E17 * Q96) == 72025602285694852357767227579;
  }

  /** getNextSqrtPriceFromInput with 2^100 of token0 at price 1:1 and liquidity 1e19. */
  lemma NextPriceFromInputLargeToken0Vector()
    ensures NextPriceFromInput(Q96, 10 * E18, 1267650600228229401496703205376, true) == Ok(624999999995069620)
  {
    assert DivRoundingUp(10 * E18 * Q96 * Q96, 10 * E18 * Q96 + 1267650600228229401496703205376 * Q96) == 624999999995069620;
  }

  /** getNextSqrtPriceFromOutput: the reserve boundaries at price 2^104 and liquidity 1024, the zero amount, 0.1 of either token, impossible amounts. */
  lemma NextPriceFromOutputVectors()
    ensures NextPriceFromOutput(0, 0, E17, false).Revert?
    ensures NextPriceFromOutput(1, 0, E17, true).Revert?
    ensures NextPriceFromOutput(20282409603651670423947251286016, 1024, 4, false).Revert?
    ensures NextPriceFromOutput(20282409603651670423947251286016, 1024, 5, false).Revert?
    ensures NextPriceFromOutput(20282409603651670423947251286016, 1024, 262145, true).Revert?
    ensures NextPriceFromOutput(20282409603651670423947251286016, 1024, 262144, true).Revert?
    ensures NextPriceFromOutput(20282409603651670423947251286016, 1024, 262143, true) == Ok(77371252455336267181195264)
    ensures NextPriceFromOutput(Q96, E17, 0, true) == Ok(Q96)
    ensures NextPriceFromOutput(Q96, E17, 0, false) == Ok(Q96)
    ensures NextPriceFromOutput(Q96, E18, E17, false) == Ok(88031291682515930659493278152)
    ensures NextPriceFromOutput(Q96, E18, E17, true) == Ok(71305346262837903834189555302)
    ensures NextPriceFromOutput(Q96, 1, MAX_UINT256, true).Revert?
    ensures NextPriceFromOutput(Q96, 1, MAX_UINT256, false).Revert?
  {
  }

  /** getAmount0Delta and getAmount1Delta between the prices 1 and 1.21 at liquidity 1e18, rounded both ways. */
  lemma AmountDeltaVectors()
    ensures Amount0Delta(Q96, SQRT_1_21, E18, true) == Ok(90909090909090910)
    ensures Amount0Delta(Q96, SQRT_1_21, E18, false) == Ok(90909090909090909)
    ensures Amount1Delta(Q96, SQRT_1_21, E18, true) == Ok(100000000000000000)
    ensures Amount1Delta(Q96, SQRT_1_21, E18, false) == Ok(99999999999999999)
  {
  }

  /** getAmount0Delta between the prices 2^45 and 2^48 (a numerator of more than 256 bits): rounding up adds exactly one. */
  lemma Amount0DeltaOverflowVector()
    ensures Amount0Delta(2787593149816327892691964784081045188247552, 22300745198530623141535718272648361505980416, E18, true)
         == Ok(24869)
    ensures Amount0Delta(2787593149816327892691964784081045188247552, 22300745198530623141535718272648361505980416, E18, false)
         == Ok(24868)
  {
  }

  /** A swap step whose intermediate product sqrtP * sqrtQ overflows 256 bits: 406 of token0 moves the price down. */
  lemma SwapStepPriceVector()
    ensures NextPriceFromInput(1025574284609383690408304870162715216695788925244, 50015962439936049619261659728067971248, 406, true)
         == Ok(1025574284609383582644711336373707553698163132913)
  {
    assert DivRoundingUp(50015962439936049619261659728067971248 * Q96 * 1025574284609383690408304870162715216695788925244,
                         50015962439936049619261659728067971248 * Q96 + 406 * 1025574284609383690408304870162715216695788925244)
        == 1025574284609383582644711336373707553698163132913;
  }

  /** The same swap step: the rounded-up token0 amount between the two prices is the 406 that went in. */
  lemma SwapStepAmountVector()
    ensures Amount0Delta(1025574284609383582644711336373707553698163132913, 1025574284609383690408304870162715216695788925244,
                         50015962439936049619261659728067971248, true)
         == Ok(406)
  {
    Amount0DeltaUp(1025574284609383582644711336373707553698163132913, 1025574284609383690408304870162715216695788925244,
                   50015962439936049619261659728067971248);
    assert DivRoundingUp(50015962439936049619261659728067971248 * Q96
                           * (1025574284609383690408304870162715216695788925244 - 1025574284609383582644711336373707553698163132913),
                         1025574284609383690408304870162715216695788925244 * 1025574284609383582644711336373707553698163132913)
        == 406;
  }
}

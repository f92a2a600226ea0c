/**
 * SqrtPriceMath: moving a Q64.96 square-root price by an amount of token0 or
 * token1 at a given liquidity, and the token amounts between two prices.
 *
 * With L the liquidity and P the square-root price as a real number, a pool
 * holds virtual reserves x = L / P of token0 and y = L * P of token1. Adding
 * token0 moves the price to L * P / (L + x_in * P); adding token1 moves it to
 * P + y_in / L. Every function rounds so that the pool is never short-changed.
 */
module SqrtPriceMath {
  import opened Numeric
  import opened FullMath

  const Q96: int := TWO_96

  // ---- The contract's code paths, each with the outcome it guarantees ----

  /**
   * `getNextSqrtPriceFromAmount0RoundingUp`. The callers have already required a
   * nonzero price and liquidity.
   */
  function NextPriceFromAmount0(sqrtP: Uint160, liquidity: Uint128, amount: Uint256, add: bool): (r: Result<Uint160>)
    requires sqrtP > 0 && liquidity > 0
    ensures add ==> Token0InOutcome(sqrtP, liquidity, amount, r)
    ensures !add ==> Token0OutOutcome(sqrtP, liquidity, amount, r)
  {
    if amount == 0 then
      ShiftBound(liquidity);
      ZeroAmount(liquidity * Q96, sqrtP, amount);
      Ok(sqrtP)
    else if add then Amount0Added(sqrtP, liquidity, amount)
    else Amount0Removed(sqrtP, liquidity, amount)
  }

  /** The `add` branch: the exact formula when `amount * sqrtP` and the denominator fit, else the overflow-safe form. */
  function Amount0Added(sqrtP: Uint160, liquidity: Uint128, amount: Uint256): (r: Result<Uint160>)
    requires sqrtP > 0 && liquidity > 0 && amount > 0
    ensures Token0InOutcome(sqrtP, liquidity, amount, r)
  {
    var numerator1 := liquidity * Q96;
    ShiftBound(liquidity);
    MulNonneg(amount, sqrtP);
    AddedGuard(numerator1, sqrtP, amount);
    var product := U256(amount * sqrtP);
    if product / amount == sqrtP && U256(numerator1 + product) >= numerator1 then
      ExactCeil(numerator1, sqrtP, amount, product);
      U160Fits(DivRoundingUp(numerator1 * sqrtP, numerator1 + product));
      match MulDivRoundingUp(numerator1, sqrtP, U256(numerator1 + product))
      case Ok(v) => Ok(U160(v))
      case Revert(e) => Revert(e)
    else
      assert numerator1 + amount * sqrtP >= TWO_256;
      Amount0AddedSafe(sqrtP, liquidity, amount)
  }

  /**
   * The overflow-safe form of token0 in, ceil(L * 2^96 / (floor(L * 2^96 / P) + amount)), which
   * reverts only when its own denominator overflows and never lands below the exact price.
   */
  function Amount0AddedSafe(sqrtP: Uint160, liquidity: Uint128, amount: Uint256): (r: Result<Uint160>)
    requires sqrtP > 0 && liquidity > 0 && amount > 0
    ensures r.Ok? <==> SafeDenominator(liquidity * Q96, sqrtP, amount) < TWO_256
    ensures r.Ok? ==> r.value == DivRoundingUp(liquidity * Q96, SafeDenominator(liquidity * Q96, sqrtP, amount))
    ensures r.Ok? ==> CoversExactPrice(liquidity * Q96, sqrtP, amount, r.value)
  {
    var numerator1 := liquidity * Q96;
    ShiftBound(liquidity);
    var denominator := SafeDenominator(numerator1, sqrtP, amount);
    if denominator < TWO_256 then
      var w := DivRoundingUp(numerator1, denominator);
      FallbackBounds(numerator1, sqrtP, amount);
      U160Fits(w);
      Ok(U160(w))
    else Revert("")
  }

  /** floor(n / P) + amount, the denominator of the overflow-safe form. */
  function SafeDenominator(n: nat, sqrtP: nat, amount: nat): nat
    requires sqrtP > 0
  {
    DivBounds(n, sqrtP);
    n / sqrtP + amount
  }

  /** The removing branch: requires the product to fit and to stay below `liquidity << 96`, then a checked cast to uint160. */
  function Amount0Removed(sqrtP: Uint160, liquidity: Uint128, amount: Uint256): (r: Result<Uint160>)
    requires sqrtP > 0 && liquidity > 0 && amount > 0
    ensures Token0OutOutcome(sqrtP, liquidity, amount, r)
  {
    var numerator1 := liquidity * Q96;
    ShiftBound(liquidity);
    RemovedGuard(numerator1, sqrtP, amount);
    var product := U256(amount * sqrtP);
    if product / amount == sqrtP && numerator1 > product then
      RemovedCeil(numerator1, sqrtP, product);
      match MulDivRoundingUp(numerator1, sqrtP, numerator1 - product)
      case Ok(v) => if v < TWO_160 then Ok(v) else Revert("")
      case Revert(e) => Revert(e)
    else Revert("")
  }

  /** `getNextSqrtPriceFromAmount1RoundingDown`, under the same guarantees from its callers. */
  function NextPriceFromAmount1(sqrtP: Uint160, liquidity: Uint128, amount: Uint256, add: bool): (r: Result<Uint160>)
    requires sqrtP > 0 && liquidity > 0
    ensures add ==> Token1InOutcome(sqrtP, liquidity, amount, r)
    ensures !add ==> Token1OutOutcome(sqrtP, liquidity, amount, r)
  {
    MulNonneg(amount, Q96);
    DivBounds(amount * Q96, liquidity);
    if add then
      match Amount1Quotient(liquidity, amount, false)
      case Revert(e) => Revert(e)
      case Ok(q) =>
        if sqrtP + q >= TWO_256 then Revert("")
        else if sqrtP + q >= TWO_160 then Revert("")
        else Ok(sqrtP + q)
    else
      match Amount1Quotient(liquidity, amount, true)
      case Revert(e) => Revert(e)
      case Ok(q) => if sqrtP > q then Ok(sqrtP - q) else Revert("")
  }

  /**
   * The price change of a token1 amount, amount * 2^96 / L: by a shift and a division while
   * the amount has at most 160 bits, through the 512-bit mulDiv otherwise. Either way it is
   * the floor or the ceiling of amount * 2^96 / L as asked, and it reverts exactly when that
   * needs more than 256 bits.
   */
  function Amount1Quotient(liquidity: Uint128, amount: Uint256, roundUp: bool): (r: Result<Uint256>)
    requires liquidity > 0
    ensures var exact := if roundUp then DivRoundingUp(amount * Q96, liquidity) else amount * Q96 / liquidity;
      && (r.Ok? <==> exact < TWO_256)
      && (r.Ok? ==> r.value == exact)
  {
    MulNonneg(amount, Q96);
    DivBounds(amount * Q96, liquidity);
    if amount <= MAX_UINT160 then
      MulMonotone(Q96, amount, MAX_UINT160);
      var shifted := U256(amount * Q96);
      assert shifted == amount * Q96;
      DivBounds(shifted, liquidity);
      if roundUp then Ok(DivRoundingUp(shifted, liquidity)) else Ok(shifted / liquidity)
    else if roundUp then MulDivRoundingUp(amount, Q96, liquidity)
    else MulDiv(amount, Q96, liquidity)
  }

  /**
   * `getNextSqrtPriceFromInput`: token0 in (zeroForOne) lowers the price, token1 in raises it;
   * a zero price or a zero liquidity reverts.
   */
  function NextPriceFromInput(sqrtP: Uint160, liquidity: Uint128, amountIn: Uint256, zeroForOne: bool): (r: Result<Uint160>)
    ensures sqrtP == 0 || liquidity == 0 ==> r.Revert?
    ensures sqrtP > 0 && liquidity > 0 && zeroForOne ==> Token0InOutcome(sqrtP, liquidity, amountIn, r)
    ensures sqrtP > 0 && liquidity > 0 && !zeroForOne ==> Token1InOutcome(sqrtP, liquidity, amountIn, r)
  {
    if sqrtP == 0 || liquidity == 0 then Revert("")
    else if zeroForOne then NextPriceFromAmount0(sqrtP, liquidity, amountIn, true)
    else NextPriceFromAmount1(sqrtP, liquidity, amountIn, true)
  }

  /**
   * `getNextSqrtPriceFromOutput`: token1 out (zeroForOne) lowers the price, token0 out raises it;
   * a zero price or a zero liquidity reverts.
   */
  function NextPriceFromOutput(sqrtP: Uint160, liquidity: Uint128, amountOut: Uint256, zeroForOne: bool): (r: Result<Uint160>)
    ensures sqrtP == 0 || liquidity == 0 ==> r.Revert?
    ensures sqrtP > 0 && liquidity > 0 && zeroForOne ==> Token1OutOutcome(sqrtP, liquidity, amountOut, r)
    ensures sqrtP > 0 && liquidity > 0 && !zeroForOne ==> Token0OutOutcome(sqrtP, liquidity, amountOut, r)
  {
    if sqrtP == 0 || liquidity == 0 then Revert("")
    else if zeroForOne then NextPriceFromAmount1(sqrtP, liquidity, amountOut, false)
    else NextPriceFromAmount0(sqrtP, liquidity, amountOut, false)
  }

  /**
   * `getAmount0Delta`: the token0 amount between two prices, L * 2^96 * (hi - lo) / (hi * lo).
   * A zero price reverts.
   */
  function Amount0Delta(sqrtA: Uint160, sqrtB: Uint160, liquidity: Uint128, roundUp: bool): (r: Result<Uint256>)
    ensures r.Ok? ==> sqrtA > 0 && sqrtB > 0
  {
    var lo := if sqrtA <= sqrtB then sqrtA else sqrtB;
    var hi := if sqrtA <= sqrtB then sqrtB else sqrtA;
    var numerator1 := liquidity * Q96;
    var numerator2 := hi - lo;
    ShiftBound(liquidity);
    if lo == 0 then Revert("")
    else if roundUp then
      match MulDivRoundingUp(numerator1, numerator2, hi)
      case Ok(v) => Ok(DivRoundingUp(v, lo))
      case Revert(e) => Revert(e)
    else
      match MulDiv(numerator1, numerator2, hi)
      case Ok(v) => Ok(v / lo)
      case Revert(e) => Revert(e)
  }

  /**
   * `getAmount1Delta`: the token1 amount between two prices, L * (hi - lo) / 2^96. It never
   * reverts: a uint128 liquidity times a uint160 price difference is far below 2^256 * 2^96.
   */
  function Amount1Delta(sqrtA: Uint160, sqrtB: Uint160, liquidity: Uint128, roundUp: bool): (r: Result<Uint256>)
    ensures r.Ok?
  {
    var lo := if sqrtA <= sqrtB then sqrtA else sqrtB;
    var hi := if sqrtA <= sqrtB then sqrtB else sqrtA;
    Amount1Fits(liquidity, hi - lo);
    if roundUp then MulDivRoundingUp(liquidity, hi - lo, Q96) else MulDiv(liquidity, hi - lo, Q96)
  }

  // ---- The outcomes, with n = L * 2^96 the virtual token0 reserve scaled by the price ----

  /**
   * Token0 in: the call reverts only when both the exact and the overflow-safe denominator
   * overflow; the new price lies in [1, P] and never below the exact price n * P / (n + amount * P);
   * it is that price rounded up whenever the exact denominator fits, and otherwise
   * ceil(n / (floor(n / P) + amount)).
   */
  ghost predicate Token0InOutcome(sqrtP: Uint160, liquidity: Uint128, amountIn: Uint256, r: Result<Uint160>)
    requires sqrtP > 0
  {
    var n := liquidity * Q96;
    MulNonneg(amountIn, sqrtP);
    && (r.Ok? <==> n + amountIn * sqrtP < TWO_256 || SafeDenominator(n, sqrtP, amountIn) < TWO_256)
    && (r.Ok? ==> CoversExactPrice(n, sqrtP, amountIn, r.value))
    && (n + amountIn * sqrtP < TWO_256 ==> r == Ok(DivRoundingUp(n * sqrtP, n + amountIn * sqrtP)))
    && (n + amountIn * sqrtP >= TWO_256 && r.Ok? ==> r.value == DivRoundingUp(n, SafeDenominator(n, sqrtP, amountIn)))
  }

  /** The price w lies in [1, P] and never below the exact price n * P / (n + amount * P). */
  ghost predicate CoversExactPrice(n: nat, sqrtP: nat, amount: nat, w: int)
  {
    1 <= w <= sqrtP && w * (n + amount * sqrtP) >= n * sqrtP
  }

  /**
   * Token0 out: the call succeeds exactly when amount * P stays below n and the rounded-up
   * price n * P / (n - amount * P) fits 160 bits; that price is then the result, never below P.
   */
  ghost predicate Token0OutOutcome(sqrtP: Uint160, liquidity: Uint128, amountOut: Uint256, r: Result<Uint160>)
  {
    var n := liquidity * Q96;
    && (r.Ok? <==> amountOut * sqrtP < n && DivRoundingUp(n * sqrtP, n - amountOut * sqrtP) < TWO_160)
    && (r.Ok? ==> r.value == DivRoundingUp(n * sqrtP, n - amountOut * sqrtP) >= sqrtP)
  }

  /** Token1 in: the price rises by floor(amount * 2^96 / L), and the call reverts exactly when that leaves 160 bits. */
  ghost predicate Token1InOutcome(sqrtP: Uint160, liquidity: Uint128, amountIn: Uint256, r: Result<Uint160>)
    requires liquidity > 0
  {
    && (r.Ok? <==> sqrtP + amountIn * Q96 / liquidity < TWO_160)
    && (r.Ok? ==> r.value == sqrtP + amountIn * Q96 / liquidity)
  }

  /** Token1 out: the price falls by ceil(amount * 2^96 / L), and the call reverts exactly when that reaches the price. */
  ghost predicate Token1OutOutcome(sqrtP: Uint160, liquidity: Uint128, amountOut: Uint256, r: Result<Uint160>)
    requires liquidity > 0
  {
    && (r.Ok? <==> DivRoundingUp(amountOut * Q96, liquidity) < sqrtP)
    && (r.Ok? ==> r.value == sqrtP - DivRoundingUp(amountOut * Q96, liquidity))
  }

  // ---- What the code paths compute ----

  /** A uint128 shifted left by 96 bits still fits in a word: `liquidity << 96` never wraps. */
  lemma ShiftBound(liquidity: Uint128)
    ensures 0 <= liquidity * Q96 < TWO_128 * Q96 < TWO_256
  {
    MulMonotone(Q96, liquidity, TWO_128 - 1);
  }

  /** The overflow test `(product = amount * sqrtP) / amount == sqrtP` holds exactly when the product fits in 256 bits. */
  lemma MulOverflowCheck(a: int, b: int)
    requires 0 < a < TWO_256 && 0 <= b < TWO_256
    ensures U256(a * b) / a == b <==> a * b < TWO_256
  {
    var p := a * b;
    if p < TWO_256 {
      DivOfProduct(a, b);
    } else {
      var q := p / TWO_256;
      var m := p % TWO_256;
      assert p == TWO_256 * q + m;
      MulMonotone(TWO_256, 1, q);
      assert a * b - a == a * (b - 1);
      DivBelow(m, a, b - 1);
    }
  }

  /** The guard of the exact token0-in branch holds exactly when `liquidity << 96` plus `amount * sqrtP` fits in a word. */
  lemma AddedGuard(n: nat, sqrtP: Uint160, amount: Uint256)
    requires n < TWO_256 && sqrtP > 0 && amount > 0
    ensures (U256(amount * sqrtP) / amount == sqrtP && U256(n + U256(amount * sqrtP)) >= n)
            <==> n + amount * sqrtP < TWO_256
    ensures n + amount * sqrtP < TWO_256 ==>
              U256(amount * sqrtP) == amount * sqrtP && U256(n + U256(amount * sqrtP)) == n + amount * sqrtP
  {
    var p := amount * sqrtP;
    MulNonneg(amount, sqrtP);
    MulOverflowCheck(amount, sqrtP);
    if p < TWO_256 {
      assert U256(p) == p;
      if n + p >= TWO_256 {
        assert U256(n + p) == n + p - TWO_256;
      }
    }
  }

  /** The guard of the token0-out branch holds exactly when `amount * sqrtP` stays below `liquidity << 96`. */
  lemma RemovedGuard(n: nat, sqrtP: Uint160, amount: Uint256)
    requires n < TWO_256 && sqrtP > 0 && amount > 0
    ensures (U256(amount * sqrtP) / amount == sqrtP && n > U256(amount * sqrtP)) <==> amount * sqrtP < n
    ensures amount * sqrtP < n ==> U256(amount * sqrtP) == amount * sqrtP
  {
    var p := amount * sqrtP;
    MulNonneg(amount, sqrtP);
    MulOverflowCheck(amount, sqrtP);
    if p < TWO_256 {
      assert U256(p) == p;
    }
  }

  /** With p = amount * P, ceil(n * P / (n + p)) covers the exact price, and mulDivRoundingUp computes it without reverting. */
  lemma ExactCeil(n: nat, sqrtP: Uint160, amount: nat, p: nat)
    requires n > 0 && sqrtP > 0 && p == amount * sqrtP && n + p < TWO_256
    ensures var c := DivRoundingUp(n * sqrtP, n + p);
      CoversExactPrice(n, sqrtP, amount, c) && MulDivRoundingUp(n, sqrtP, n + p) == Ok(c)
  {
    MulNonneg(n, sqrtP);
    MulSign(n, sqrtP);
    DivRoundingUpBracket(n * sqrtP, n + p);
    MulMonotone(sqrtP, n, n + p);
    CeilAtMost(n * sqrtP, n + p, sqrtP);
  }

  /** ceil(n / (floor(n / P) + amount)) lies in [1, P] and is at least n * P / (n + amount * P). */
  lemma FallbackBounds(n: nat, sqrtP: nat, amount: nat)
    requires n > 0 && sqrtP > 0 && amount > 0
    ensures CoversExactPrice(n, sqrtP, amount, DivRoundingUp(n, SafeDenominator(n, sqrtP, amount)))
  {
    var f := n / sqrtP;
    DivBounds(n, sqrtP);
    var s := f + amount;
    var w := DivRoundingUp(n, s);
    DivRoundingUpBracket(n, s);
    FloorBracket(n, sqrtP);
    FallbackAtMost(n, sqrtP, f, s);
    FallbackCovers(w, n, f, sqrtP, amount);
  }

  /** n < (f + 1) * P <= s * P, so the rounded-up quotient n / s is at most P. */
  lemma FallbackAtMost(n: nat, sqrtP: nat, f: nat, s: nat)
    requires sqrtP > 0 && s > f && n < (f + 1) * sqrtP
    ensures DivRoundingUp(n, s) <= sqrtP
  {
    MulMonotone(sqrtP, f + 1, s);
    CeilAtMost(n, s, sqrtP);
  }

  /** w * (n + amount * P) >= w * (f * P) + w * (amount * P) == P * (w * (f + amount)) >= P * n. */
  lemma FallbackCovers(w: nat, n: nat, f: nat, sqrtP: nat, amount: nat)
    requires w * (f + amount) >= n && f * sqrtP <= n
    ensures w * (n + amount * sqrtP) >= n * sqrtP
  {
    MulMonotone(w, f * sqrtP, n);
    MulMonotone(sqrtP, n, w * (f + amount));
    assert w * (n + amount * sqrtP) == w * n + w * (amount * sqrtP);
    assert w * (f * sqrtP) + w * (amount * sqrtP) == sqrtP * (w * (f + amount));
  }

  /** With 0 <= p < n < 2^256, mulDivRoundingUp(n, P, n - p) is ceil(n * P / (n - p)) when that fits, and the ceiling is at least P. */
  lemma RemovedCeil(n: nat, sqrtP: Uint160, p: nat)
    requires sqrtP > 0 && p < n < TWO_256
    ensures var c := DivRoundingUp(n * sqrtP, n - p);
      MulDivRoundingUp(n, sqrtP, n - p) == (if c < TWO_256 then Ok(c) else Revert("")) && c >= sqrtP
  {
    MulNonneg(n, sqrtP);
    MulMonotone(sqrtP, n - p, n);
    CeilAtLeast(n * sqrtP, n - p, sqrtP);
  }

  /**
   * getAmount0Delta reverts exactly when the lower price is zero; otherwise it is
   * L * 2^96 * (hi - lo) / (hi * lo), floored or rounded up as asked, in either argument order.
   */
  lemma Amount0DeltaSpec(sqrtA: Uint160, sqrtB: Uint160, liquidity: Uint128, roundUp: bool)
    ensures var lo := if sqrtA <= sqrtB then sqrtA else sqrtB;
      var hi := if sqrtA <= sqrtB then sqrtB else sqrtA;
      var r := Amount0Delta(sqrtA, sqrtB, liquidity, roundUp);
      && (r.Ok? <==> lo > 0)
      && (r.Ok? && roundUp ==> r.value == DivRoundingUp(liquidity * Q96 * (hi - lo), hi * lo))
      && (r.Ok? && !roundUp ==> r.value == liquidity * Q96 * (hi - lo) / (hi * lo))
      && Amount0Delta(sqrtB, sqrtA, liquidity, roundUp) == r
  {
    var lo := if sqrtA <= sqrtB then sqrtA else sqrtB;
    var hi := if sqrtA <= sqrtB then sqrtB else sqrtA;
    if lo > 0 {
      Amount0DeltaRounded(lo, hi, liquidity, roundUp);
    }
  }

  lemma Amount0DeltaRounded(lo: Uint160, hi: Uint160, liquidity: Uint128, roundUp: bool)
    requires 0 < lo <= hi
    ensures var r := Amount0Delta(lo, hi, liquidity, roundUp);
      && r.Ok?
      && (roundUp ==> r.value == DivRoundingUp(liquidity * Q96 * (hi - lo), hi * lo))
      && (!roundUp ==> r.value == liquidity * Q96 * (hi - lo) / (hi * lo))
  {
    if roundUp {
      Amount0DeltaUp(lo, hi, liquidity);
    } else {
      Amount0DeltaDown(lo, hi, liquidity);
    }
  }

  /** (L << 96) * (hi - lo) is below 2^256 * hi, so the first division of getAmount0Delta never overflows. */
  lemma NumeratorFits(n: nat, lo: Uint160, hi: Uint160)
    requires n < TWO_256 && 0 < lo <= hi
    ensures 0 <= n * (hi - lo) <= MAX_UINT256 * hi < TWO_256 * hi
  {
    MulNonneg(n, hi - lo);
    MulMonotone(n, hi - lo, hi);
    MulMonotone(hi, n, MAX_UINT256);
    assert TWO_256 * hi == MAX_UINT256 * hi + hi;
  }

  lemma Amount0DeltaUp(lo: Uint160, hi: Uint160, liquidity: Uint128)
    requires 0 < lo <= hi
    ensures Amount0Delta(lo, hi, liquidity, true) == Ok(DivRoundingUp(liquidity * Q96 * (hi - lo), hi * lo))
  {
    var n := liquidity * Q96;
    ShiftBound(liquidity);
    NumeratorFits(n, lo, hi);
    MulDivRoundingUpValue(n, hi - lo, hi);
    var v := DivRoundingUp(n * (hi - lo), hi);
    assert MulDivRoundingUp(n, hi - lo, hi) == Ok(v);
    NestedCeil(n * (hi - lo), hi, lo);
    assert Amount0Delta(lo, hi, liquidity, true) == Ok(DivRoundingUp(v, lo));
  }

  lemma Amount0DeltaDown(lo: Uint160, hi: Uint160, liquidity: Uint128)
    requires 0 < lo <= hi
    ensures Amount0Delta(lo, hi, liquidity, false) == Ok(liquidity * Q96 * (hi - lo) / (hi * lo))
  {
    var n := liquidity * Q96;
    ShiftBound(liquidity);
    NumeratorFits(n, lo, hi);
    MulDivValue(n, hi - lo, hi);
    var v := n * (hi - lo) / hi;
    assert MulDiv(n, hi - lo, hi) == Ok(v);
    NestedFloor(n * (hi - lo), hi, lo);
    assert Amount0Delta(lo, hi, liquidity, false) == Ok(v / lo);
  }

  /** getAmount1Delta never reverts: it is L * (hi - lo) / 2^96, floored or rounded up as asked, in either argument order. */
  /** The product of getAmount1Delta fits both mulDiv variants. */
  lemma Amount1Fits(liquidity: Uint128, width: Uint160)
    ensures liquidity * width <= MAX_UINT256 * Q96
  {
    MulMonotone(liquidity, width, TWO_160);
    MulMonotone(TWO_160, liquidity, TWO_128);
  }

  lemma Amount1DeltaSpec(sqrtA: Uint160, sqrtB: Uint160, liquidity: Uint128, roundUp: bool)
    ensures var lo := if sqrtA <= sqrtB then sqrtA else sqrtB;
      var hi := if sqrtA <= sqrtB then sqrtB else sqrtA;
      var r := Amount1Delta(sqrtA, sqrtB, liquidity, roundUp);
      && r.Ok?
      && (roundUp ==> r.value == DivRoundingUp(liquidity * (hi - lo), Q96))
      && (!roundUp ==> r.value == liquidity * (hi - lo) / Q96)
      && Amount1Delta(sqrtB, sqrtA, liquidity, roundUp) == r
  {
  }

  /** No liquidity, or two equal prices, means no amount of either token: both deltas are zero. */
  lemma AmountDeltaZero(sqrtA: Uint160, sqrtB: Uint160, liquidity: Uint128, roundUp: bool)
    requires liquidity == 0 || sqrtA == sqrtB
    ensures sqrtA > 0 && sqrtB > 0 ==> Amount0Delta(sqrtA, sqrtB, liquidity, roundUp) == Ok(0)
    ensures Amount1Delta(sqrtA, sqrtB, liquidity, roundUp) == Ok(0)
  {
    var lo := if sqrtA <= sqrtB then sqrtA else sqrtB;
    var hi := if sqrtA <= sqrtB then sqrtB else sqrtA;
    assert liquidity * Q96 * (hi - lo) == 0 && liquidity * (hi - lo) == 0;
    assert DivRoundingUp(0, hi * lo) == 0 && DivRoundingUp(0, Q96) == 0;
    Amount0DeltaSpec(sqrtA, sqrtB, liquidity, roundUp);
    Amount1DeltaSpec(sqrtA, sqrtB, liquidity, roundUp);
  }

  // ---- Consequences at the reserve boundary ----

  /** Asking for at least the virtual reserve on the output side (L * 2^96 / P of token0, L * P / 2^96 of token1) reverts. */
  lemma OutputBeyondReserveReverts(sqrtP: Uint160, liquidity: Uint128, amountOut: Uint256, zeroForOne: bool)
    requires sqrtP > 0 && liquidity > 0
    requires !zeroForOne ==> amountOut * sqrtP >= liquidity * Q96
    requires zeroForOne ==> amountOut * Q96 >= liquidity * sqrtP
    ensures NextPriceFromOutput(sqrtP, liquidity, amountOut, zeroForOne).Revert?
  {
    if zeroForOne {
      MulNonneg(amountOut, Q96);
      CeilAtLeast(amountOut * Q96, liquidity, sqrtP);
    }
  }

  /** With a zero amount, the token0 formulas reduce to the price itself. */
  lemma ZeroAmount(n: nat, sqrtP: nat, amount: nat)
    requires n > 0 && amount == 0
    ensures amount * sqrtP == 0 && sqrtP * (n + amount * sqrtP) == n * sqrtP
    ensures DivRoundingUp(n * sqrtP, n + amount * sqrtP) == sqrtP
    ensures DivRoundingUp(n * sqrtP, n - amount * sqrtP) == sqrtP
  {
    CeilOfMultiple(n, sqrtP);
  }

  /** ceil(n * P / n) == P: the zero-amount case of the token0 formulas. */
  lemma CeilOfMultiple(n: nat, sqrtP: nat)
    requires n > 0
    ensures DivRoundingUp(n * sqrtP, n) == sqrtP
  {
    MulNonneg(n, sqrtP);
    CeilUnique(n * sqrtP, n, sqrtP);
  }
}

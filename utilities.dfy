/**
 * The arithmetic helpers that the tests share: the usable tick range of a
 * tick spacing, the liquidity cap per tick that follows from it, the fee tiers
 * and their spacings, the price bounds with the default swap price limits, and
 * the default repayment of a flash loan.
 */
module Utilities {
  import opened Numeric

  /** The largest tick of the price range; the smallest is its negation. */
  const MAX_TICK: int := 887272

  const MIN_SQRT_RATIO: int := 4295128739
  const MAX_SQRT_RATIO: int := 1461446703485210103287273052203988822378723970342

  /** The fee of a pool in hundredths of a basis point, fee / 10^6 of each amount. */
  datatype FeeAmount = Low | Medium | High | Custom

  function Fee(f: FeeAmount): nat
  {
    match f
    case Low => 500
    case Medium => 3000
    case High => 10000
    case Custom => 250
  }

  /** The tick spacing of each fee tier: the finer the fee, the finer the grid of usable ticks. */
  function TickSpacing(f: FeeAmount): (s: int)
    ensures s > 0
  {
    match f
    case Low => 10
    case Medium => 60
    case High => 200
    case Custom => 15
  }

  /**
   * Distinct tiers have distinct fees and distinct spacings. The spacing does not follow the
   * fee in order: the custom tier charges the least and still has a coarser grid than the low tier.
   */
  lemma TickSpacingTable(f: FeeAmount, g: FeeAmount)
    ensures f != g ==> TickSpacing(f) != TickSpacing(g) && Fee(f) != Fee(g)
    ensures Fee(Custom) < Fee(Low) && TickSpacing(Custom) > TickSpacing(Low)
  {
  }

  /** Math.ceil(a / b) for a positive b, over exact integers. */
  function CeilQuotient(a: int, b: int): (q: int)
    requires b > 0
    ensures b * q >= a && b * (q - 1) < a
  {
    var f := a / b;
    assert a == b * f + a % b;
    if a % b == 0 then f else f + 1
  }

  /**
   * `getMinTick`: the tick bound -887272 rounded up to the spacing, that is the smallest
   * multiple of the spacing that is at least -887272.
   */
  function GetMinTick(tickSpacing: int): (t: int)
    requires tickSpacing > 0
    ensures t % tickSpacing == 0 && -MAX_TICK <= t < -MAX_TICK + tickSpacing
  {
    var q := CeilQuotient(-MAX_TICK, tickSpacing);
    assert q * tickSpacing == tickSpacing * q;
    DivOfMultiple(tickSpacing, q);
    q * tickSpacing
  }

  /**
   * `getMaxTick`: the tick bound 887272 rounded down to the spacing, that is the largest
   * multiple of the spacing that is at most 887272.
   */
  function GetMaxTick(tickSpacing: int): (t: int)
    requires tickSpacing > 0
    ensures t % tickSpacing == 0 && MAX_TICK - tickSpacing < t <= MAX_TICK
  {
    var q := MAX_TICK / tickSpacing;
    assert MAX_TICK == tickSpacing * q + MAX_TICK % tickSpacing;
    assert q * tickSpacing == tickSpacing * q;
    DivOfMultiple(tickSpacing, q);
    q * tickSpacing
  }

  /** The usable range is symmetric: the bound is, and ceil(-x) = -floor(x). */
  lemma MinTickIsNegatedMaxTick(s: int)
    requires s > 0
    ensures GetMinTick(s) == -GetMaxTick(s)
  {
    var q := MAX_TICK / s;
    var m := MAX_TICK % s;
    assert MAX_TICK == s * q + m;
    var c := CeilQuotient(-MAX_TICK, s);
    // s * c is the least multiple of s at or above -MAX_TICK, and so is -(s * q).
    assert s * (-q) >= -MAX_TICK;
    assert s * (-q - 1) < -MAX_TICK;
    MultipleBetween(s, c, -q, -MAX_TICK);
  }

  lemma DivOfMultiple(s: int, q: int)
    requires s > 0
    ensures (s * q) % s == 0
  {
    var r := (s * q) % s;
    var d := (s * q) / s;
    assert s * q == s * d + r;
    assert s * (q - d) == r;
    if q - d >= 1 { MulSign(s, q - d); } else if q - d <= -1 { MulSign(s, q - d); }
  }

  /** Two least multiples of s above the same bound are the same multiple. */
  lemma MultipleBetween(s: int, a: int, b: int, x: int)
    requires s > 0
    requires s * a >= x && s * (a - 1) < x
    requires s * b >= x && s * (b - 1) < x
    ensures a == b
  {
    assert s * (a - 1) == s * a - s;
    assert s * (b - 1) == s * b - s;
    if a < b {
      MulMonotone(s, a, b - 1);
    } else if b < a {
      MulMonotone(s, b, a - 1);
    }
  }

  /** The number of usable ticks of a spacing: 2 * floor(887272 / s) + 1. */
  function TickCount(tickSpacing: int): (n: int)
    requires tickSpacing > 0
    ensures n == 2 * (MAX_TICK / tickSpacing) + 1
  {
    MinTickIsNegatedMaxTick(tickSpacing);
    var q := MAX_TICK / tickSpacing;
    assert GetMaxTick(tickSpacing) - GetMinTick(tickSpacing) == tickSpacing * (2 * q);
    DivOfProduct(tickSpacing, 2 * q);
    (GetMaxTick(tickSpacing) - GetMinTick(tickSpacing)) / tickSpacing + 1
  }

  /**
   * `getMaxLiquidityPerTick`: the uint128 liquidity cap shared out evenly over the usable ticks,
   * that is the largest per-tick amount that can sit on every usable tick without the total
   * overflowing a uint128.
   */
  function GetMaxLiquidityPerTick(tickSpacing: int): (cap: nat)
    requires tickSpacing > 0
    ensures cap * TickCount(tickSpacing) <= MAX_UINT128 < (cap + 1) * TickCount(tickSpacing)
  {
    var n := TickCount(tickSpacing);
    DivBounds(MAX_TICK, tickSpacing);
    assert n >= 1;
    var cap := MAX_UINT128 / n;
    assert MAX_UINT128 == n * cap + MAX_UINT128 % n;
    assert (cap + 1) * n == n * cap + n;
    cap
  }

  /** The tick spacings of the fee tiers give the caps the pools are deployed with. */
  lemma MaxLiquidityPerTickOfTiers()
    ensures GetMaxLiquidityPerTick(TickSpacing(Low)) == 1917569901783203986719870431555990
    ensures GetMaxLiquidityPerTick(TickSpacing(Medium)) == 11505743598341114571880798222544994
    ensures GetMaxLiquidityPerTick(TickSpacing(High)) == 38350317471085141830651933667504588
  {
  }

  /**
   * The price limit a swap uses when the caller gives none: just inside the bound the
   * price moves toward, so the swap may run as far as the pool allows.
   */
  function DefaultSqrtPriceLimit(zeroForOne: bool): (limit: int)
    ensures MIN_SQRT_RATIO < limit < MAX_SQRT_RATIO
  {
    if zeroForOne then MIN_SQRT_RATIO + 1 else MAX_SQRT_RATIO - 1
  }

  /**
   * A limit strictly inside the price bounds is admissible; the default is the most
   * permissive admissible limit in the direction of the swap.
   */
  lemma DefaultSqrtPriceLimitIsMostPermissive(zeroForOne: bool, limit: int)
    requires MIN_SQRT_RATIO < limit < MAX_SQRT_RATIO
    ensures zeroForOne ==> DefaultSqrtPriceLimit(zeroForOne) <= limit
    ensures !zeroForOne ==> DefaultSqrtPriceLimit(zeroForOne) >= limit
  {
  }

  /**
   * The default repayment of a flash loan of `amount` at a fee of `fee` / 10^6: the amount plus
   * the fee rounded up, that is the least premium that covers amount * fee / 10^6.
   */
  function FlashPayment(amount: nat, fee: nat): (payment: nat)
    ensures var premium := payment - amount;
      && payment >= amount
      && premium == DivRoundingUp(amount * fee, 1000000)
      && premium * 1000000 >= amount * fee
      && (premium == 0 || (premium - 1) * 1000000 < amount * fee)
  {
    var x := amount * fee;
    MulNonneg(amount, fee);
    var q := x / 1000000;
    var m := x % 1000000;
    assert x == 1000000 * q + m;
    if m == 0 then
      DivUnique(x + 999999, 1000000, q);
      DivRoundingUpBracket(x, 1000000);
      (x + 999999) / 1000000 + amount
    else
      assert 1000000 * (q + 1) <= x + 999999 < 1000000 * (q + 2);
      DivUnique(x + 999999, 1000000, q + 1);
      DivRoundingUpBracket(x, 1000000);
      (x + 999999) / 1000000 + amount
  }

  /** At the 0.3% tier, 1001 repays 1005 and 2002 repays 2009; nothing borrowed, nothing owed. */
  lemma FlashPaymentExamples()
    ensures FlashPayment(1001, Fee(Medium)) == 1005
    ensures FlashPayment(2002, Fee(Medium)) == 2009
    ensures FlashPayment(0, Fee(Medium)) == 0
  {
  }
}

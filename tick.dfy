/**
 * Tick: the per-tick bookkeeping of a pool. Each initialized tick records how much
 * liquidity references it (gross), how much is added or removed when the price
 * crosses it (net), and the accumulators "outside" it: the fee growth, the tick and
 * seconds-per-liquidity cumulatives and the seconds spent on the other side of the
 * tick from the current price.
 */
module Tick {
  import opened Numeric
  import opened LiquidityMath
  import Utilities

  const MIN_TICK: int := -887272
  const MAX_TICK: int := 887272

  /** The record stored per tick; a tick never written reads as all zeros. */
  datatype Info = Info(
    liquidityGross: Uint128,
    liquidityNet: Int128,
    feeGrowthOutside0X128: Uint256,
    feeGrowthOutside1X128: Uint256,
    tickCumulativeOutside: Int56,
    secondsPerLiquidityOutsideX128: Uint160,
    secondsOutside: Uint32,
    initialized: bool)

  const EMPTY: Info := Info(0, 0, 0, 0, 0, 0, 0, false)

  /** The pool-wide accumulators at the moment a tick is updated or crossed. */
  datatype Globals = Globals(
    feeGrowthGlobal0X128: Uint256,
    feeGrowthGlobal1X128: Uint256,
    secondsPerLiquidityCumulativeX128: Uint160,
    tickCumulative: Int56,
    time: Uint32)

  /** The result of `update`: the new record and whether the tick flipped between initialized and not. */
  datatype UpdateOutcome = UpdateOutcome(info: Info, flipped: bool)

  // ---- tickSpacingToMaxLiquidityPerTick ----

  /**
   * `tickSpacingToMaxLiquidityPerTick`: the uint128 range shared out evenly over the usable ticks.
   * It agrees with the test helper for every positive spacing, and it is the largest cap whose
   * total over the usable ticks stays within the uint128 range.
   */
  function TickSpacingToMaxLiquidityPerTick(tickSpacing: Int24): (cap: nat)
    requires tickSpacing > 0
    ensures cap == Utilities.GetMaxLiquidityPerTick(tickSpacing)
    ensures cap * Utilities.TickCount(tickSpacing) <= MAX_UINT128 < (cap + 1) * Utilities.TickCount(tickSpacing)
  {
    MAX_UINT128 / NumTicks(tickSpacing)
  }

  /**
   * The number of usable ticks: the multiples of the spacing between the tick bounds, each
   * division truncating toward zero.
   */
  function NumTicks(tickSpacing: Int24): (n: int)
    requires tickSpacing > 0
    ensures n == Utilities.TickCount(tickSpacing)
  {
    var minTick := Quot(MIN_TICK, tickSpacing) * tickSpacing;
    var maxTick := Quot(MAX_TICK, tickSpacing) * tickSpacing;
    NumTicksSymmetric(tickSpacing);
    Quot(maxTick - minTick, tickSpacing) + 1
  }

  lemma NumTicksSymmetric(s: Int24)
    requires s > 0
    ensures var q := MAX_TICK / s;
      Quot(MIN_TICK, s) == -q && Quot(MAX_TICK, s) == q
      && Quot(Quot(MAX_TICK, s) * s - Quot(MIN_TICK, s) * s, s) == 2 * q
      && Utilities.TickCount(s) == 2 * q + 1
  {
    var q := MAX_TICK / s;
    assert Quot(MIN_TICK, s) == -q;
    assert q * s - -q * s == s * (2 * q);
    DivOfProduct(s, 2 * q);
  }

  /** The values of test/Tick.spec.ts for the three fee tiers, the whole range and a spacing of 2302. */
  lemma MaxLiquidityPerTickExamples()
    ensures TickSpacingToMaxLiquidityPerTick(10) == 1917569901783203986719870431555990
    ensures TickSpacingToMaxLiquidityPerTick(60) == 11505743598341114571880798222544994
    ensures TickSpacingToMaxLiquidityPerTick(200) == 38350317471085141830651933667504588
    ensures TickSpacingToMaxLiquidityPerTick(887272) == MAX_UINT128 / 3
    ensures TickSpacingToMaxLiquidityPerTick(2302) == 441351967472034323558203122479595605
  {
    assert NumTicks(10) == 177455;
    assert NumTicks(60) == 29575;
    assert NumTicks(200) == 8873;
    assert NumTicks(887272) == 3;
    assert NumTicks(2302) == 771;
  }

  // ---- getFeeGrowthInside ----

  /** The fee growth below a lower tick: what is stored outside it if the price is at or above it, the rest otherwise. */
  function FeeGrowthBelow(outside: Uint256, tickLower: int, tickCurrent: int, global: Uint256): Uint256
  {
    if tickCurrent >= tickLower then outside else U256(global - outside)
  }

  /** The fee growth above an upper tick: what is stored outside it if the price is below it, the rest otherwise. */
  function FeeGrowthAbove(outside: Uint256, tickUpper: int, tickCurrent: int, global: Uint256): Uint256
  {
    if tickCurrent < tickUpper then outside else U256(global - outside)
  }

  /** The fee growth of one token between the two ticks: the global growth minus what lies below and above, modulo 2^256. */
  function InsideOne(lowerOutside: Uint256, upperOutside: Uint256, tickLower: int, tickUpper: int, tickCurrent: int, global: Uint256): Uint256
  {
    U256(global - FeeGrowthBelow(lowerOutside, tickLower, tickCurrent, global)
                - FeeGrowthAbove(upperOutside, tickUpper, tickCurrent, global))
  }

  /**
   * `getFeeGrowthInside` on the records of the two bounding ticks, for both tokens: for each
   * token, the growth below the lower tick, inside the range and above the upper tick add up
   * to the global growth, modulo 2^256.
   */
  function FeeGrowthInside(lower: Info, upper: Info, tickLower: int, tickUpper: int, tickCurrent: int,
                           feeGrowthGlobal0X128: Uint256, feeGrowthGlobal1X128: Uint256): (inside: (Uint256, Uint256))
    ensures U256(FeeGrowthBelow(lower.feeGrowthOutside0X128, tickLower, tickCurrent, feeGrowthGlobal0X128) + inside.0
                 + FeeGrowthAbove(upper.feeGrowthOutside0X128, tickUpper, tickCurrent, feeGrowthGlobal0X128))
            == feeGrowthGlobal0X128
    ensures U256(FeeGrowthBelow(lower.feeGrowthOutside1X128, tickLower, tickCurrent, feeGrowthGlobal1X128) + inside.1
                 + FeeGrowthAbove(upper.feeGrowthOutside1X128, tickUpper, tickCurrent, feeGrowthGlobal1X128))
            == feeGrowthGlobal1X128
  {
    FeeGrowthPartition(lower.feeGrowthOutside0X128, upper.feeGrowthOutside0X128, tickLower, tickUpper, tickCurrent, feeGrowthGlobal0X128);
    FeeGrowthPartition(lower.feeGrowthOutside1X128, upper.feeGrowthOutside1X128, tickLower, tickUpper, tickCurrent, feeGrowthGlobal1X128);
    (InsideOne(lower.feeGrowthOutside0X128, upper.feeGrowthOutside0X128, tickLower, tickUpper, tickCurrent, feeGrowthGlobal0X128),
     InsideOne(lower.feeGrowthOutside1X128, upper.feeGrowthOutside1X128, tickLower, tickUpper, tickCurrent, feeGrowthGlobal1X128))
  }

  /** Below, inside and above partition the global fee growth, modulo 2^256. */
  lemma FeeGrowthPartition(lowerOutside: Uint256, upperOutside: Uint256, tickLower: int, tickUpper: int, tickCurrent: int, global: Uint256)
    ensures U256(FeeGrowthBelow(lowerOutside, tickLower, tickCurrent, global)
                 + InsideOne(lowerOutside, upperOutside, tickLower, tickUpper, tickCurrent, global)
                 + FeeGrowthAbove(upperOutside, tickUpper, tickCurrent, global)) == global
  {
    var b := FeeGrowthBelow(lowerOutside, tickLower, tickCurrent, global);
    var a := FeeGrowthAbove(upperOutside, tickUpper, tickCurrent, global);
    var d := global - b - a;
    var q := d / TWO_256;
    assert d == TWO_256 * q + d % TWO_256;
    assert b + d % TWO_256 + a == global + TWO_256 * -q;
    AddMultiple(global, -q, TWO_256);
  }

  /**
   * With two ticks that have never been written, all the fee growth is inside while the
   * price is in [tickLower, tickUpper), and none of it otherwise.
   */
  lemma FeeGrowthInsideOfUntouchedTicks(tickLower: int, tickUpper: int, tickCurrent: int, global0: Uint256, global1: Uint256)
    requires tickLower < tickUpper
    ensures var inside := if tickLower <= tickCurrent < tickUpper then global0 else 0;
      FeeGrowthInside(EMPTY, EMPTY, tickLower, tickUpper, tickCurrent, global0, global1).0 == inside
    ensures var inside := if tickLower <= tickCurrent < tickUpper then global1 else 0;
      FeeGrowthInside(EMPTY, EMPTY, tickLower, tickUpper, tickCurrent, global0, global1).1 == inside
  {
  }

  /** The value of test/Tick.spec.ts for two untouched ticks with the price inside the range: all of it. */
  lemma FeeGrowthInsideUntouchedInsideExample()
    ensures FeeGrowthInside(EMPTY, EMPTY, -2, 2, 0, 15, 15) == (15, 15)
  {
  }

  /** The value of test/Tick.spec.ts for two untouched ticks with the price above the range: none of it. */
  lemma FeeGrowthInsideUntouchedAboveExample()
    ensures FeeGrowthInside(EMPTY, EMPTY, -2, 2, 4, 15, 15) == (0, 0)
  {
  }

  /** The value of test/Tick.spec.ts for two untouched ticks with the price below the range: none of it. */
  lemma FeeGrowthInsideUntouchedBelowExample()
    ensures FeeGrowthInside(EMPTY, EMPTY, -2, 2, -4, 15, 15) == (0, 0)
  {
  }

  /** The values of test/Tick.spec.ts with fee growth stored outside the upper tick, the lower tick, or both. */
  lemma FeeGrowthInsideExamples()
    ensures FeeGrowthInside(EMPTY, Outside(2, 3), -2, 2, 0, 15, 15) == (13, 12)
    ensures FeeGrowthInside(Outside(2, 3), EMPTY, -2, 2, 0, 15, 15) == (13, 12)
    ensures FeeGrowthInside(Outside(2, 3), Outside(4, 1), -2, 2, 0, 15, 15) == (9, 11)
  {
    assert EMPTY.feeGrowthOutside0X128 == 0 && EMPTY.feeGrowthOutside1X128 == 0;
    assert U256(13) == 13 && U256(12) == 12 && U256(9) == 9 && U256(11) == 11;
  }

  /** The value of test/Tick.spec.ts where the outside values wrap: 15 - (2^256 - 4) - 3 is 16 modulo 2^256. */
  lemma FeeGrowthInsideWrapExample()
    ensures FeeGrowthInside(Outside(MAX_UINT256 - 3, MAX_UINT256 - 2), Outside(3, 5), -2, 2, 0, 15, 15) == (16, 13)
  {
  }

  /** An initialized record that holds only fee growth outside, as the tests store with `setTick`. */
  function Outside(feeGrowthOutside0X128: Uint256, feeGrowthOutside1X128: Uint256): Info
  {
    EMPTY.(feeGrowthOutside0X128 := feeGrowthOutside0X128, feeGrowthOutside1X128 := feeGrowthOutside1X128, initialized := true)
  }

  // ---- cross ----

  /**
   * `cross`: every outside accumulator becomes the global one minus itself, in its own width, so
   * that the old and the new value of each add up to the global value; the liquidity and the
   * initialized flag are left alone.
   */
  function Crossed(info: Info, g: Globals): (crossed: Info)
    ensures crossed.liquidityGross == info.liquidityGross && crossed.liquidityNet == info.liquidityNet
    ensures crossed.initialized == info.initialized
    ensures U256(info.feeGrowthOutside0X128 + crossed.feeGrowthOutside0X128) == g.feeGrowthGlobal0X128
    ensures U256(info.feeGrowthOutside1X128 + crossed.feeGrowthOutside1X128) == g.feeGrowthGlobal1X128
    ensures U160(info.secondsPerLiquidityOutsideX128 + crossed.secondsPerLiquidityOutsideX128) == g.secondsPerLiquidityCumulativeX128
    ensures I56(info.tickCumulativeOutside + crossed.tickCumulativeOutside) == g.tickCumulative
    ensures U32(info.secondsOutside + crossed.secondsOutside) == g.time
  {
    Complement(g.feeGrowthGlobal0X128, info.feeGrowthOutside0X128, TWO_256);
    Complement(g.feeGrowthGlobal1X128, info.feeGrowthOutside1X128, TWO_256);
    Complement(g.secondsPerLiquidityCumulativeX128, info.secondsPerLiquidityOutsideX128, TWO_160);
    Complement(g.time, info.secondsOutside, TWO_32);
    SignedComplement(g.tickCumulative, info.tickCumulativeOutside);
    info.(feeGrowthOutside0X128 := U256(g.feeGrowthGlobal0X128 - info.feeGrowthOutside0X128),
          feeGrowthOutside1X128 := U256(g.feeGrowthGlobal1X128 - info.feeGrowthOutside1X128),
          secondsPerLiquidityOutsideX128 := U160(g.secondsPerLiquidityCumulativeX128 - info.secondsPerLiquidityOutsideX128),
          tickCumulativeOutside := I56(g.tickCumulative - info.tickCumulativeOutside),
          secondsOutside := U32(g.time - info.secondsOutside))
  }

  /** Crossing a tick twice with the same globals gives the record back. */
  lemma CrossTwiceRestores(info: Info, g: Globals)
    ensures Crossed(Crossed(info, g), g) == info
  {
    FlipTwice(g.feeGrowthGlobal0X128, info.feeGrowthOutside0X128, TWO_256);
    FlipTwice(g.feeGrowthGlobal1X128, info.feeGrowthOutside1X128, TWO_256);
    FlipTwice(g.secondsPerLiquidityCumulativeX128, info.secondsPerLiquidityOutsideX128, TWO_160);
    FlipTwice(g.time, info.secondsOutside, TWO_32);
    SignedFlipTwice(g.tickCumulative, info.tickCumulativeOutside);
  }

  /**
   * Crossing keeps the fee growth on each side of a tick: when the price moves from one side
   * of the tick to the other and the tick is crossed with the current globals, the growth below
   * (and above) it computed from the new record equals that computed from the old one.
   */
  lemma CrossKeepsSides(info: Info, g: Globals, tick: int, before: int, after: int)
    requires (before < tick <= after) || (after < tick <= before)
    ensures var crossed := Crossed(info, g);
      && FeeGrowthBelow(crossed.feeGrowthOutside0X128, tick, after, g.feeGrowthGlobal0X128)
         == FeeGrowthBelow(info.feeGrowthOutside0X128, tick, before, g.feeGrowthGlobal0X128)
      && FeeGrowthAbove(crossed.feeGrowthOutside0X128, tick, after, g.feeGrowthGlobal0X128)
         == FeeGrowthAbove(info.feeGrowthOutside0X128, tick, before, g.feeGrowthGlobal0X128)
      && FeeGrowthBelow(crossed.feeGrowthOutside1X128, tick, after, g.feeGrowthGlobal1X128)
         == FeeGrowthBelow(info.feeGrowthOutside1X128, tick, before, g.feeGrowthGlobal1X128)
      && FeeGrowthAbove(crossed.feeGrowthOutside1X128, tick, after, g.feeGrowthGlobal1X128)
         == FeeGrowthAbove(info.feeGrowthOutside1X128, tick, before, g.feeGrowthGlobal1X128)
  {
    FlipTwice(g.feeGrowthGlobal0X128, info.feeGrowthOutside0X128, TWO_256);
    FlipTwice(g.feeGrowthGlobal1X128, info.feeGrowthOutside1X128, TWO_256);
  }

  /** The values of test/Tick.spec.ts: (1, 2, 5, 6, 7) crossed at (7, 9, 8, 15, 10) gives (6, 7, 3, 9, 3). */
  lemma CrossExample()
    ensures var info := Info(3, 4, 1, 2, 6, 5, 7, true);
      Crossed(info, Globals(7, 9, 8, 15, 10)) == Info(3, 4, 6, 7, 9, 3, 3, true)
  {
  }

  /** (x + (g - x) mod m) mod m = g for a residue g: a value and its flip add up to g. */
  lemma Complement(g: int, x: int, m: int)
    requires m > 0 && 0 <= g < m
    ensures (x + (g - x) % m) % m == g
  {
    var q := (g - x) / m;
    assert g - x == m * q + (g - x) % m;
    assert x + (g - x) % m == g + m * -q;
    AddMultiple(g, -q, m);
  }

  /** The same for two's-complement int56. */
  lemma SignedComplement(g: Int56, x: int)
    ensures I56(x + I56(g - x)) == g
  {
    var d := g - x + TWO_55;
    var q := d / TWO_56;
    assert d == TWO_56 * q + d % TWO_56;
    assert x + I56(g - x) + TWO_55 == g + TWO_55 + TWO_56 * -q;
    AddMultiple(g + TWO_55, -q, TWO_56);
  }

  /** (g - (g - x) mod m) mod m = x: the unsigned flip is an involution. */
  lemma FlipTwice(g: int, x: int, m: int)
    requires m > 0 && 0 <= x < m
    ensures (g - (g - x) % m) % m == x
  {
    var q := (g - x) / m;
    assert g - x == m * q + (g - x) % m;
    assert g - (g - x) % m == x + m * q;
    AddMultiple(x, q, m);
  }

  /** The same for two's-complement int56. */
  lemma SignedFlipTwice(g: int, x: Int56)
    ensures I56(g - I56(g - x)) == x
  {
    var d := g - x + TWO_55;
    var q := d / TWO_56;
    assert d == TWO_56 * q + d % TWO_56;
    assert g - I56(g - x) + TWO_55 == x + TWO_55 + TWO_56 * q;
    AddMultiple(x + TWO_55, q, TWO_56);
  }

  /** Adding a multiple of the modulus does not change a residue. */
  lemma AddMultiple(a: int, k: int, m: int)
    requires m > 0 && 0 <= a < m
    ensures (a + m * k) % m == a
  {
    var r := (a + m * k) % m;
    var q := (a + m * k) / m;
    assert a + m * k == m * q + r;
    assert a - r == m * (q - k);
    if q - k >= 1 { MulSign(m, q - k); } else if q - k <= -1 { MulSign(m, q - k); }
  }

  // ---- update ----

  /**
   * `update`: add the delta to the gross liquidity (reverting as `addDelta` does, and 'LO'
   * above the cap), seed the outside accumulators when the tick is first referenced, and
   * add (lower tick) or subtract (upper tick) the delta from the net liquidity, reverting
   * when that leaves int128.
   *
   * On the liquidity side it succeeds exactly when the new gross liquidity lies in
   * [0, maxLiquidity] and the new net liquidity fits int128, and reports a flip exactly when the
   * gross moves between zero and nonzero; each failure carries its reason. On the accumulator
   * side a tick referenced for the first time becomes initialized and takes the global
   * accumulators as its outside values iff it is at or below the current tick; a tick already
   * referenced keeps its outside values and its flag.
   */
  function Updated(info: Info, tick: int, tickCurrent: int, liquidityDelta: Int128, g: Globals,
                   upper: bool, maxLiquidity: Uint128): (r: Result<UpdateOutcome>)
    ensures var gross := info.liquidityGross + liquidityDelta;
      var net := if upper then info.liquidityNet - liquidityDelta else info.liquidityNet + liquidityDelta;
      && (r.Ok? <==> 0 <= gross <= maxLiquidity && -TWO_127 <= net < TWO_127)
      && (r.Ok? ==> r.value.info.liquidityGross == gross && r.value.info.liquidityNet == net
                    && r.value.flipped == ((info.liquidityGross == 0) != (gross == 0)))
      && (gross < 0 ==> r == Revert("LS"))
      && (gross > MAX_UINT128 ==> r == Revert("LA"))
      && (0 <= gross <= MAX_UINT128 && gross > maxLiquidity ==> r == Revert("LO"))
    ensures r.Ok? ==>
      var after := r.value.info;
      && (info.liquidityGross == 0 ==> after.initialized)
      && (info.liquidityGross == 0 && tick <= tickCurrent ==> OutsideOf(after) == OutsideOf(Seeded(info, g)))
      && (info.liquidityGross != 0 || tick > tickCurrent ==> OutsideOf(after) == OutsideOf(info))
      && (info.liquidityGross != 0 ==> after.initialized == info.initialized)
  {
    var grossBefore := info.liquidityGross;
    match AddDelta(grossBefore, liquidityDelta)
    case Revert(e) => Revert(e)
    case Ok(grossAfter) =>
      if grossAfter > maxLiquidity then Revert("LO")
      else
        var flipped := (grossAfter == 0) != (grossBefore == 0);
        var seeded :=
          if grossBefore != 0 then info
          else if tick <= tickCurrent then Seeded(info, g).(initialized := true)
          else info.(initialized := true);
        var net := if upper then info.liquidityNet - liquidityDelta else info.liquidityNet + liquidityDelta;
        if -TWO_127 <= net < TWO_127 then
          Ok(UpdateOutcome(seeded.(liquidityGross := grossAfter, liquidityNet := net), flipped))
        else Revert("")
  }

  /** A record whose outside accumulators take the global values: all growth so far counts as below the tick. */
  function Seeded(info: Info, g: Globals): Info
  {
    info.(feeGrowthOutside0X128 := g.feeGrowthGlobal0X128,
          feeGrowthOutside1X128 := g.feeGrowthGlobal1X128,
          secondsPerLiquidityOutsideX128 := g.secondsPerLiquidityCumulativeX128,
          tickCumulativeOutside := g.tickCumulative,
          secondsOutside := g.time)
  }

  /** The five outside accumulators of a record, in the order `cross` takes the globals. */
  function OutsideOf(info: Info): (Uint256, Uint256, Uint160, Int56, Uint32)
  {
    (info.feeGrowthOutside0X128, info.feeGrowthOutside1X128, info.secondsPerLiquidityOutsideX128,
     info.tickCumulativeOutside, info.secondsOutside)
  }

  /** A successful update followed by the opposite update restores the liquidity of the record. */
  lemma UpdateThenRevert(info: Info, tick: int, tickCurrent: int, liquidityDelta: Int128, g: Globals,
                         upper: bool, maxLiquidity: Uint128)
    requires liquidityDelta > -TWO_127 && info.liquidityGross <= maxLiquidity
    requires Updated(info, tick, tickCurrent, liquidityDelta, g, upper, maxLiquidity).Ok?
    ensures var once := Updated(info, tick, tickCurrent, liquidityDelta, g, upper, maxLiquidity).value.info;
      var twice := Updated(once, tick, tickCurrent, -liquidityDelta, g, upper, maxLiquidity);
      && twice.Ok?
      && twice.value.info.liquidityGross == info.liquidityGross
      && twice.value.info.liquidityNet == info.liquidityNet
      && twice.value.flipped == Updated(info, tick, tickCurrent, liquidityDelta, g, upper, maxLiquidity).value.flipped
  {
  }

  // ---- the tick table ----

  /** The `ticks` mapping of a pool, with `update`, `clear` and `cross` changing one entry in place. */
  class TickTable {
    var ticks: map<int, Info>

    constructor()
      ensures ticks == map[]
    {
      ticks := map[];
    }

    /** The record of a tick; an absent key reads as the zero record, as a Solidity mapping does. */
    function Get(tick: int): Info
      reads this
    {
      if tick in ticks then ticks[tick] else EMPTY
    }

    /** `getFeeGrowthInside` over the stored records of the two bounding ticks. */
    function GetFeeGrowthInside(tickLower: int, tickUpper: int, tickCurrent: int,
                                feeGrowthGlobal0X128: Uint256, feeGrowthGlobal1X128: Uint256): (Uint256, Uint256)
      reads this
    {
      FeeGrowthInside(Get(tickLower), Get(tickUpper), tickLower, tickUpper, tickCurrent, feeGrowthGlobal0X128, feeGrowthGlobal1X128)
    }

    /** The test contract's `setTick`: store a record as given. */
    method SetTick(tick: int, info: Info)
      modifies this
      ensures ticks == old(ticks)[tick := info]
    {
      ticks := ticks[tick := info];
    }

    /** `update`, step by step; a revert leaves the table as it was. */
    method Update(tick: Int24, tickCurrent: Int24, liquidityDelta: Int128, g: Globals, upper: bool, maxLiquidity: Uint128)
      returns (r: Result<bool>)
      modifies this
      ensures var u := Updated(old(Get(tick)), tick, tickCurrent, liquidityDelta, g, upper, maxLiquidity);
        && (u.Ok? ==> r == Ok(u.value.flipped) && ticks == old(ticks)[tick := u.value.info])
        && (u.Revert? ==> r == Revert(u.reason) && ticks == old(ticks))
    {
      var info := Get(tick);
      var grossBefore := info.liquidityGross;
      var added := AddDelta(grossBefore, liquidityDelta);
      if added.Revert? {
        return Revert(added.reason);
      }
      var grossAfter := added.value;
      if grossAfter > maxLiquidity {
        return Revert("LO");
      }
      var flipped := (grossAfter == 0) != (grossBefore == 0);
      if grossBefore == 0 {
        if tick <= tickCurrent {
          info := Seeded(info, g);
        }
        info := info.(initialized := true);
      }
      var net := if upper then info.liquidityNet - liquidityDelta else info.liquidityNet + liquidityDelta;
      if !(-TWO_127 <= net < TWO_127) {
        return Revert("");
      }
      ticks := ticks[tick := info.(liquidityGross := grossAfter, liquidityNet := net)];
      return Ok(flipped);
    }

    /** `clear`: delete the record, so the tick reads as the zero record again. */
    method Clear(tick: int)
      modifies this
      ensures ticks == old(ticks) - {tick}
      ensures Get(tick) == EMPTY
    {
      ticks := ticks - {tick};
    }

    /** `cross`: flip the outside accumulators of the tick and return its net liquidity. */
    method Cross(tick: int, g: Globals) returns (liquidityNet: Int128)
      modifies this
      ensures ticks == old(ticks)[tick := Crossed(old(Get(tick)), g)]
      ensures liquidityNet == old(Get(tick)).liquidityNet
    {
      var info := Get(tick);
      ticks := ticks[tick := Crossed(info, g)];
      liquidityNet := info.liquidityNet;
    }
  }

  // ---- the sequences of test/Tick.spec.ts, each on a fresh table ----

  const NO_GROWTH: Globals := Globals(0, 0, 0, 0, 0)

  /** The gross liquidity moving from zero to nonzero, or from nonzero to zero, flips the tick. */
  method FlipExamples() returns (up: Result<bool>, down: Result<bool>)
    ensures up == Ok(true) && down == Ok(true)
  {
    var t1 := new TickTable();
    up := t1.Update(0, 0, 1, NO_GROWTH, false, 3);
    var t2 := new TickTable();
    var _ := t2.Update(0, 0, 1, NO_GROWTH, false, 3);
    down := t2.Update(0, 0, -1, NO_GROWTH, false, 3);
  }

  /** The gross liquidity moving from nonzero to a greater or a lesser nonzero value does not flip the tick. */
  method NoFlipExamples() returns (greater: Result<bool>, lesser: Result<bool>)
    ensures greater == Ok(false) && lesser == Ok(false)
  {
    var t1 := new TickTable();
    var _ := t1.Update(0, 0, 1, NO_GROWTH, false, 3);
    greater := t1.Update(0, 0, 1, NO_GROWTH, false, 3);
    var t2 := new TickTable();
    var _ := t2.Update(0, 0, 2, NO_GROWTH, false, 3);
    lesser := t2.Update(0, 0, -1, NO_GROWTH, false, 3);
  }

  /** A third unit of liquidity on a tick capped at 3 is refused with 'LO'. */
  method AboveCapExample() returns (r: Result<bool>)
    ensures r == Revert("LO")
  {
    var t := new TickTable();
    var _ := t.Update(0, 0, 2, NO_GROWTH, false, 3);
    var _ := t.Update(0, 0, 1, NO_GROWTH, true, 3);
    r := t.Update(0, 0, 1, NO_GROWTH, false, 3);
  }

  /** Deltas 2 and 1 on the lower side and 1 and 3 on the upper side: gross 7, net -1. */
  method NetByUpperFlagExample() returns (gross: int, net: int)
    ensures gross == 7 && net == -1
  {
    var t := new TickTable();
    var _ := t.Update(0, 0, 2, NO_GROWTH, false, 10);
    var _ := t.Update(0, 0, 1, NO_GROWTH, true, 10);
    var _ := t.Update(0, 0, 3, NO_GROWTH, true, 10);
    var _ := t.Update(0, 0, 1, NO_GROWTH, false, 10);
    gross := t.Get(0).liquidityGross;
    net := t.Get(0).liquidityNet;
  }

  /** Two deltas of 2^127 - 2: the gross 2^128 - 4 still fits uint128, but the net leaves int128. */
  method NetOverflowExample() returns (r: Result<bool>)
    ensures r.Revert?
  {
    var t := new TickTable();
    var half := MAX_UINT128 / 2 - 1;
    var _ := t.Update(0, 0, half, NO_GROWTH, false, MAX_UINT128);
    r := t.Update(0, 0, half, NO_GROWTH, false, MAX_UINT128);
  }

  /**
   * A tick at the current tick takes the globals as its outside values when first referenced and
   * keeps them on a later update; a tick above the current tick starts from zero.
   */
  method SeedingExamples() returns (atCurrent: Info, updatedAgain: Info, above: Info)
    ensures OutsideOf(atCurrent) == (1, 2, 3, 4, 5) && atCurrent.initialized
    ensures OutsideOf(updatedAgain) == (1, 2, 3, 4, 5) && updatedAgain.initialized
    ensures OutsideOf(above) == (0, 0, 0, 0, 0) && above.initialized
  {
    var t1 := new TickTable();
    var _ := t1.Update(1, 1, 1, Globals(1, 2, 3, 4, 5), false, MAX_UINT128);
    atCurrent := t1.Get(1);
    var t2 := new TickTable();
    var _ := t2.Update(1, 1, 1, Globals(1, 2, 3, 4, 5), false, MAX_UINT128);
    var _ := t2.Update(1, 1, 1, Globals(6, 7, 8, 9, 10), false, MAX_UINT128);
    updatedAgain := t2.Get(1);
    var t3 := new TickTable();
    var _ := t3.Update(2, 1, 1, Globals(1, 2, 3, 4, 5), false, MAX_UINT128);
    above := t3.Get(2);
  }

  /** `clear` zeroes every field of a stored record. */
  method ClearExample() returns (cleared: Info)
    ensures cleared == EMPTY
  {
    var t := new TickTable();
    t.SetTick(2, Info(3, 4, 1, 2, 6, 5, 7, true));
    t.Clear(2);
    cleared := t.Get(2);
  }

  /** One cross flips the accumulators of the stored record; a second cross restores them. */
  method CrossExamples() returns (once: Info, twice: Info)
    ensures OutsideOf(once) == (6, 7, 3, 9, 3)
    ensures OutsideOf(twice) == (1, 2, 5, 6, 7)
  {
    var t := new TickTable();
    t.SetTick(2, Info(3, 4, 1, 2, 6, 5, 7, true));
    var g := Globals(7, 9, 8, 15, 10);
    var _ := t.Cross(2, g);
    once := t.Get(2);
    CrossExample();
    assert once == Crossed(Info(3, 4, 1, 2, 6, 5, 7, true), g);
    var _ := t.Cross(2, g);
    twice := t.Get(2);
    CrossTwiceRestores(Info(3, 4, 1, 2, 6, 5, 7, true), g);
  }
}

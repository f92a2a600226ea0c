# Concentrated-liquidity core: oracle, ticks and price math in Dafny

This project models the arithmetic core of a Uniswap-V3-style concentrated-liquidity pool,
as its test suites pin it down, and proves properties of that model. The Solidity libraries
behind the tests are not part of this model. Their behaviour is rebuilt from what the tests
call and expect, and every concrete expectation the tests state is a lemma evaluated on the
model. Reverts are a `Result` value, `Revert(reason)`, carrying the library's reason string
("I", "OLD", "LS", "LA", "LO"). An unlabelled `require`, an overflow check or a division by
zero gives the empty reason.

- `numeric.dfy` (module `Numeric`): the integer widths (uint32 … uint256, int24 … int128),
  the explicit wrap-around of unchecked arithmetic (`U32`, `U160`, `U256`, `I56`), EVM signed
  division truncating toward zero (`Quot`), `divRoundingUp`, and the `Result` type.
- `bit_math.dfy` (`BitMath`): most and least significant set bit of a uint256.
- `liquidity_math.dfy` (`LiquidityMath`): `addDelta`, a checked add of an int128 to a uint128.
- `full_math.dfy` (`FullMath`): the 512-bit `mulDiv` and `mulDivRoundingUp` that the price math uses.
- `sqrt_price_math.dfy` (`SqrtPriceMath`): the next Q64.96 square-root price after an input
  or an output amount, and the token amounts between two prices. Each code path of the
  contract is a function whose contract states its outcome over unbounded integers.
- `sqrt_price_math_vectors.dfy` (`SqrtPriceMathVectors`): the test's values on the model.
- `utilities.dfy` (`Utilities`): the tick-range helpers of the shared test utilities, the fee
  tiers and their spacings, the default swap price limits, the default flash repayment.
- `tick.dfy` (`Tick`): the per-tick record. `getFeeGrowthInside` and
  `tickSpacingToMaxLiquidityPerTick` are functions. `update`, `clear` and `cross` are methods
  of the class `TickTable`, which holds the `ticks` mapping as a `map`. Each method is proved
  against a pure function (`Updated`, `Crossed`), and the properties are lemmas about those.
- `oracle.dfy` (`Oracle`): the observation ring buffer. The class `ObservationBuffer` holds
  the 65535-slot observation array, the test contract's clock, tick and liquidity, and the
  ring's `index`, `cardinality` and `cardinalityNext`. Its methods `Initialize`, `Grow`
  (with its slot-reserving loop), `Update`/`Write`, `BinarySearch`, `ObserveSingle` and
  `Observe` are proved against the state functions `Initialized`, `Grown` and `Written` and
  the reading function `ObserveSingleSpec`. The binary search is proved against a linear
  reference, `LastAtOrBefore`. Timestamps are compared modulo 2^32 through `Lte`, which is
  proved to order positions on the time line that ends at the current time (`Adj`).
- `oracle_vectors.dfy` (`OracleVectors`): the test's scenarios replayed on the state and
  reading functions, write by write and reading by reading.

## Model

| member | source | states |
|---|---|---|
| Numeric.Quot | test/Tick.spec.ts:16-41 | the signed division the contracts use: the floor for nonnegative operands, its sign follows the operands' signs, and the remainder it leaves takes the sign of the dividend and is smaller than the divisor in magnitude |
| Numeric.DivRoundingUp | test/SqrtPriceMath.spec.ts:142-162 | `divRoundingUp` of a nonnegative x by a positive y lies between 0 and x |
| Numeric.DivRoundingUpBracket | test/SqrtPriceMath.spec.ts:142-162 | `divRoundingUp` is the ceiling: the least r with r*y >= x, and at least 1 for a positive x |
| BitMath.MostSignificantBit | test/BitMath.spec.ts:12-30 | reverts exactly on 0; otherwise returns the r < 256 with 2^r <= x < 2^(r+1) |
| BitMath.LeastSignificantBit | test/BitMath.spec.ts:43-61 | reverts exactly on 0; otherwise returns the r at or below the most significant bit with 2^r dividing x and x / 2^r odd |
| BitMath.MsbUnique | test/BitMath.spec.ts:16-30 | the bracket 2^r <= x < 2^(r+1) fixes the most significant bit uniquely |
| BitMath.LsbBelowMsb | test/BitMath.spec.ts:43-61 | the least significant set bit is never above the most significant one |
| BitMath.BitsOfPow2 | test/BitMath.spec.ts:22-58 | for every i < 256 both functions return i on 2^i |
| BitMath.LsbOfPow2 | test/BitMath.spec.ts:53-58 | the lowest set bit of 2^i is i, for every i |
| BitMath.BitsOfExtremes | test/BitMath.spec.ts:13-61 | 0 reverts in both; 2^256 - 1 gives 255 and 0 |
| LiquidityMath.AddDelta | test/LiquidityMath.spec.ts:13-31 | succeeds exactly when x + y stays in [0, 2^128 - 1] and then returns x + y; "LS" below zero, "LA" above the maximum |
| LiquidityMath.AddDeltaInverse | test/LiquidityMath.spec.ts:14-22 | adding -y after a successful y gives x back |
| LiquidityMath.AddDeltaExamples | test/LiquidityMath.spec.ts:14-31 | the six values: 1+0, 1-1, 1+1, the "LA" overflow at 2^128 - 15 + 15, the "LS" underflows 0-1 and 3-4 |
| FullMath.MulDiv | test/SqrtPriceMath.spec.ts:263-277 | mulDiv succeeds exactly when d > 0 and a*b < 2^256 * d, that is when the floor of a*b/d fits 256 bits |
| FullMath.MulDivRoundingUp | test/SqrtPriceMath.spec.ts:263-277 | mulDivRoundingUp succeeds exactly when d > 0 and a*b <= (2^256 - 1) * d, that is when the ceiling fits 256 bits |
| FullMath.MulDivSpec | test/SqrtPriceMath.spec.ts:263-277 | a successful mulDiv returns the floor of a*b/d: q*d <= a*b < (q+1)*d |
| FullMath.MulDivValue | test/SqrtPriceMath.spec.ts:263-277 | whenever the floor fits, mulDiv returns it |
| FullMath.MulDivRoundingUpSpec | test/SqrtPriceMath.spec.ts:263-277 | a successful mulDivRoundingUp returns the ceiling of a*b/d: the least c with c*d >= a*b |
| FullMath.MulDivRoundingUpValue | test/SqrtPriceMath.spec.ts:263-277 | whenever the ceiling fits, mulDivRoundingUp returns it |
| FullMath.NestedCeil | test/SqrtPriceMath.spec.ts:244-277 | rounding up a rounded-up quotient by a second divisor equals rounding up by the product: the two-step division of getAmount0Delta loses nothing |
| SqrtPriceMath.NextPriceFromInput | test/SqrtPriceMath.spec.ts:19-94 | getNextSqrtPriceFromInput reverts on a zero price or liquidity; otherwise token0 in (zeroForOne) meets the token0-in outcome and token1 in the token1-in outcome below |
| SqrtPriceMath.NextPriceFromOutput | test/SqrtPriceMath.spec.ts:119-208 | getNextSqrtPriceFromOutput reverts on a zero price or liquidity; otherwise token1 out (zeroForOne) meets the token1-out outcome and token0 out the token0-out outcome below |
| SqrtPriceMath.NextPriceFromAmount0 | test/SqrtPriceMath.spec.ts:35-57 | token0 in: reverts only when both the exact and the overflow-safe denominator overflow; the price lies in [1, P], never below the exact price L*2^96*P / (L*2^96 + x*P), and is that price rounded up whenever its denominator fits; token0 out: as NextPriceFromOutput's token0 case |
| SqrtPriceMath.Amount0Added | test/SqrtPriceMath.spec.ts:69-78 | the nonzero token0-in branch meets the token0-in outcome: the exact rounded-up price when L*2^96 + x*P fits a word, the overflow-safe form otherwise |
| SqrtPriceMath.Amount0AddedSafe | test/SqrtPriceMath.spec.ts:79-94 | the overflow-safe form succeeds exactly when floor(L*2^96/P) + x fits a word, returns ceil(L*2^96 / that), and the price lies in [1, P] and never below the exact price |
| SqrtPriceMath.Amount0Removed | test/SqrtPriceMath.spec.ts:128-140 | token0 out succeeds exactly when x*P stays below L*2^96 and ceil(L*2^96*P / (L*2^96 - x*P)) fits 160 bits; that is the price, never below P |
| SqrtPriceMath.NextPriceFromAmount1 | test/SqrtPriceMath.spec.ts:28-33 | token1 in raises the price by floor(x*2^96/L) and reverts exactly when that leaves 160 bits; token1 out lowers it by ceil(x*2^96/L) and reverts unless that stays below P |
| SqrtPriceMath.Amount1Quotient | test/SqrtPriceMath.spec.ts:59-68 | the token1 price step x*2^96/L, floored or rounded up as asked, on either the shift path or the mulDiv path: succeeds exactly when it fits a word and then equals it |
| SqrtPriceMath.Amount0Delta | test/SqrtPriceMath.spec.ts:233-277 | getAmount0Delta succeeds only on two nonzero prices |
| SqrtPriceMath.Amount0DeltaSpec | test/SqrtPriceMath.spec.ts:233-277 | getAmount0Delta reverts exactly on a zero lower price; otherwise it is L*2^96*(hi-lo)/(hi*lo) floored or rounded up, in either argument order |
| SqrtPriceMath.Amount0DeltaRounded | test/SqrtPriceMath.spec.ts:244-277 | for ordered nonzero prices the rounded-up and rounded-down amounts are the ceiling and the floor of the exact quotient |
| SqrtPriceMath.Amount1Delta | test/SqrtPriceMath.spec.ts:313-341 | getAmount1Delta never reverts: a uint128 liquidity times a uint160 price difference over 2^96 always fits a word |
| SqrtPriceMath.Amount1DeltaSpec | test/SqrtPriceMath.spec.ts:313-341 | getAmount1Delta never reverts and is L*(hi-lo)/2^96 floored or rounded up, in either argument order |
| SqrtPriceMath.AmountDeltaZero | test/SqrtPriceMath.spec.ts:233-242 | zero liquidity or equal prices give an amount of 0 of either token |
| SqrtPriceMath.OutputBeyondReserveReverts | test/SqrtPriceMath.spec.ts:128-208 | an output amount at or above the virtual reserve on its side always reverts |
| SqrtPriceMathVectors.NextPriceFromInputRevertVectors | test/SqrtPriceMath.spec.ts:20-33 | zero price, zero liquidity and the 160-bit overflow of token1 in revert |
| SqrtPriceMathVectors.NextPriceFromInputZeroVectors | test/SqrtPriceMath.spec.ts:42-50 | a zero input returns the price unchanged in both directions |
| SqrtPriceMathVectors.NextPriceFromInputHalfWordVector | test/SqrtPriceMath.spec.ts:35-40 | 2^255 of token0 at price 1 and liquidity 1 gives price 1 |
| SqrtPriceMathVectors.NextPriceFromInputMaxVector | test/SqrtPriceMath.spec.ts:52-57 | the largest token0 input without overflow gives price 1 |
| SqrtPriceMathVectors.NextPriceFromInputToken1Vector | test/SqrtPriceMath.spec.ts:59-67 | 0.1e18 of token1 at 2^96 and 1e18 gives 87150978765690771352898345369 |
| SqrtPriceMathVectors.NextPriceFromInputToken0Vector | test/SqrtPriceMath.spec.ts:69-77 | 0.1e18 of token0 at 2^96 and 1e18 gives 72025602285694852357767227579 |
| SqrtPriceMathVectors.NextPriceFromInputLargeToken0Vector | test/SqrtPriceMath.spec.ts:79-88 | 2^100 of token0 at liquidity 1e19 gives 624999999995069620 |
| SqrtPriceMathVectors.NextPriceFromInputHugeToken0Vector | test/SqrtPriceMath.spec.ts:90-94 | (2^256 - 1) / 2 of token0 at liquidity 1 gives price 1 |
| SqrtPriceMathVectors.NextPriceFromOutputVectors | test/SqrtPriceMath.spec.ts:120-208 | the reserve boundaries and the echidna case (4, 5 and 262145, 262144 revert; 262143 gives 77371252455336267181195264), the zero amounts, both 0.1e18 outputs and the impossible outputs |
| SqrtPriceMathVectors.AmountDeltaVectors | test/SqrtPriceMath.spec.ts:244-341 | prices 1 to 1.21 at 1e18: amount0 90909090909090910 / 90909090909090909, amount1 1e17 / 1e17 - 1 |
| SqrtPriceMathVectors.Amount0DeltaOverflowVector | test/SqrtPriceMath.spec.ts:263-277 | between 2^45 and 2^48 in Q64.96 the rounded-up amount0 is the rounded-down one plus 1 |
| SqrtPriceMathVectors.SwapStepPriceVector | test/SqrtPriceMath.spec.ts:366-375 | 406 of token0 moves the price to 1025574284609383582644711336373707553698163132913 |
| SqrtPriceMathVectors.SwapStepAmountVector | test/SqrtPriceMath.spec.ts:376-379 | the rounded-up amount0 between the two prices is the 406 that went in |
| Utilities.TickSpacing | test/shared/utilities.ts:29-34 | every fee tier has a positive spacing |
| Utilities.TickSpacingTable | test/shared/utilities.ts:22-34 | distinct tiers have distinct fees and spacings; the spacing does not follow the fee order (250 has spacing 15, 500 has 10) |
| Utilities.CeilQuotient | test/shared/utilities.ts:14 | the exact ceiling of a / b: the least q with b*q >= a |
| Utilities.GetMinTick | test/shared/utilities.ts:14 | getMinTick is a multiple of the spacing in [-887272, -887272 + s): the least multiple at or above -887272 |
| Utilities.GetMaxTick | test/shared/utilities.ts:15 | getMaxTick is a multiple of the spacing in (887272 - s, 887272]: the greatest multiple at or below 887272 |
| Utilities.MinTickIsNegatedMaxTick | test/shared/utilities.ts:14-15 | getMinTick(s) == -getMaxTick(s) |
| Utilities.TickCount | test/shared/utilities.ts:16-17 | the number of usable ticks is 2*floor(887272/s) + 1 |
| Utilities.GetMaxLiquidityPerTick | test/shared/utilities.ts:16-17 | the per-tick cap times the tick count fits uint128, and the cap plus one would not |
| Utilities.MaxLiquidityPerTickOfTiers | test/shared/utilities.ts:16-34 | the caps of the 500, 3000 and 10000 tiers |
| Utilities.DefaultSqrtPriceLimit | test/shared/utilities.ts:157-162 | the default limit lies strictly inside (MIN_SQRT_RATIO, MAX_SQRT_RATIO) |
| Utilities.DefaultSqrtPriceLimitIsMostPermissive | test/shared/utilities.ts:157-162 | no admissible limit is further in the direction of the swap than the default |
| Utilities.FlashPayment | test/shared/utilities.ts:201-212 | the default repayment is the amount plus divRoundingUp(amount*fee, 10^6), the least premium covering amount*fee/10^6, so never less than the amount |
| Utilities.FlashPaymentExamples | test/shared/utilities.ts:206-211 | worked out from the default-repayment formula at the 3000 tier: 1001 repays 1005, 2002 repays 2009, 0 repays 0 |
| Tick.NumTicks | test/Tick.spec.ts:16-41 | the contract's count of usable ticks, with truncating division, equals the test helper's |
| Tick.NumTicksSymmetric | test/Tick.spec.ts:16-41 | the truncated bounds are -q*s and q*s, and the count is 2q + 1 |
| Tick.TickSpacingToMaxLiquidityPerTick | test/Tick.spec.ts:16-41 | tickSpacingToMaxLiquidityPerTick equals the helper getMaxLiquidityPerTick for every spacing, and it is the largest cap whose total over the usable ticks fits uint128 |
| Tick.MaxLiquidityPerTickExamples | test/Tick.spec.ts:16-41 | the values for spacings 10, 60, 200, 887272 (MaxUint128 / 3) and 2302 |
| Tick.FeeGrowthInside | test/Tick.spec.ts:45-147 | for each token, below + inside + above add up to the global fee growth modulo 2^256 |
| Tick.FeeGrowthPartition | test/Tick.spec.ts:63-147 | below + inside + above add up to the global fee growth modulo 2^256 |
| Tick.FeeGrowthInsideOfUntouchedTicks | test/Tick.spec.ts:45-61 | with two untouched ticks, all growth is inside iff lower <= current < upper, none otherwise |
| Tick.FeeGrowthInsideUntouchedInsideExample | test/Tick.spec.ts:45-49 | 15 inside the range gives (15, 15) |
| Tick.FeeGrowthInsideUntouchedAboveExample | test/Tick.spec.ts:50-55 | above the range gives (0, 0) |
| Tick.FeeGrowthInsideUntouchedBelowExample | test/Tick.spec.ts:56-61 | below the range gives (0, 0) |
| Tick.FeeGrowthInsideExamples | test/Tick.spec.ts:63-121 | growth stored outside the upper, the lower or both ticks: (13, 12), (13, 12), (9, 11) |
| Tick.FeeGrowthInsideWrapExample | test/Tick.spec.ts:123-147 | outside values 2^256 - 4 and 3 give 16 inside, by wrap-around |
| Tick.Crossed | test/Tick.spec.ts:277-329 | cross keeps the liquidity and the flag, and each outside value and its crossed value add up to the global one in its own width |
| Tick.CrossTwiceRestores | test/Tick.spec.ts:303-329 | crossing twice with the same globals restores the record |
| Tick.CrossKeepsSides | test/Tick.spec.ts:277-302 | after a cross, the growth below and above the tick seen from the new side equals that seen from the old side |
| Tick.CrossExample | test/Tick.spec.ts:278-302 | (1, 2, 5, 6, 7) crossed at (7, 9, 8, 15, 10) gives (6, 7, 3, 9, 3), the liquidity untouched |
| Tick.Updated | test/Tick.spec.ts:151-239 | update succeeds iff the new gross is in [0, maxLiquidity] and the new net fits int128; gross += delta, net += or -= delta by the upper flag; flipped iff gross moves between zero and nonzero; "LS", "LA", "LO"; a first reference initializes the tick and seeds the outside fields from the globals iff tick <= current, later updates keep them and the flag |
| Tick.UpdateThenRevert | test/Tick.spec.ts:151-169 | an update followed by the opposite update restores gross and net and reports the same flip |
| Tick.TickTable.constructor | test/Tick.spec.ts:11-14 | a fresh test contract holds no tick, so every tick reads as the zero record |
| Tick.TickTable.Update | test/Tick.spec.ts:150-239 | the map entry becomes the `Updated` record and the result its flip flag; a revert leaves the map as it was |
| Tick.TickTable.Clear | test/Tick.spec.ts:243-275 | the tick is removed, so it reads as the all-zero, uninitialized record |
| Tick.TickTable.Cross | test/Tick.spec.ts:277-329 | the entry becomes `Crossed` of the old one and its net liquidity is returned |
| Tick.TickTable.SetTick | test/Tick.spec.ts:63-78 | the test contract stores the given record at the tick |
| Tick.FlipExamples | test/Tick.spec.ts:151-161 | 0 to 1 flips, and 1 back to 0 flips |
| Tick.NoFlipExamples | test/Tick.spec.ts:154-169 | 1 to 2 and 2 to 1 do not flip |
| Tick.AboveCapExample | test/Tick.spec.ts:170-174 | a gross of 4 above the cap of 3 reverts "LO" |
| Tick.NetByUpperFlagExample | test/Tick.spec.ts:175-183 | deltas 2, 1 lower and 1, 3 upper give gross 7 and net -1 |
| Tick.NetOverflowExample | test/Tick.spec.ts:184-187 | two deltas of 2^127 - 2 revert on the int128 net although the gross fits |
| Tick.SeedingExamples | test/Tick.spec.ts:188-239 | seeded at the current tick, kept on a later update, zero above the current tick |
| Tick.ClearExample | test/Tick.spec.ts:243-275 | a cleared tick reads all zeros and uninitialized |
| Tick.CrossExamples | test/Tick.spec.ts:277-329 | one cross gives (6, 7, 3, 9, 3) and a second restores (1, 2, 5, 6, 7) |
| Oracle.Lte | test/Oracle.spec.ts:337-353 | the wrap-aware comparison orders the positions of the two timestamps on the time line that ends at the current time |
| Oracle.AdjInjective | test/Oracle.spec.ts:337-353 | distinct timestamps have distinct positions, and the current time is the latest |
| Oracle.TransformZeroLiquidityAsOne | test/Oracle.spec.ts:309-335 | extrapolating at liquidity 0 equals extrapolating at liquidity 1 |
| Oracle.Transform | test/Oracle.spec.ts:145-170 | the carried-forward observation is at the new timestamp and initialized, and, modulo their widths, its accumulators advance by tick * elapsed and by elapsed * 2^128 / max(liquidity, 1), the elapsed time taken modulo 2^32 |
| Oracle.TickTimesDeltaFits | test/Oracle.spec.ts:145-170 | an int24 tick times a uint32 elapsed time always fits int56 |
| Oracle.TickAccumulatedAcross | test/Oracle.spec.ts:145-170 | carrying the tick accumulator forward in two steps at the same tick equals one step over the whole time, across the wrap of the 32-bit clock |
| Oracle.Interpolate | test/Oracle.spec.ts:421-472 | reverts exactly on two observations with the same timestamp; for a target inside the pair the interpolated seconds-per-liquidity growth never exceeds the growth between the two |
| Oracle.InterpolationMatchesTransform | test/Oracle.spec.ts:421-429 | interpolating between an observation and its extrapolation at a constant tick gives exactly the extrapolated tick accumulator |
| Oracle.Ring | test/Oracle.spec.ts:430-472 | the first `card` slots in ring order: `card` of them, the newest index last |
| Oracle.LastAtOrBefore | test/Oracle.spec.ts:421-472 | the linear reference: the last written position at or before the target, and no later one is |
| Oracle.Initialized | test/Oracle.spec.ts:40-63 | initializing an untouched buffer gives a well-shaped ring of one written slot {time, 0, 0, true} |
| Oracle.Grown | test/Oracle.spec.ts:75-121 | grow reverts "I" exactly before initialization; otherwise cardinalityNext becomes the larger of the two, and every slot outside the newly reserved range is unchanged |
| Oracle.GrowSpec | test/Oracle.spec.ts:100-110 | on a well-shaped buffer each newly reserved slot reads {1, 0, 0, false}, and the buffer keeps its shape |
| Oracle.Written | test/Oracle.spec.ts:172-226 | a write at the newest timestamp changes nothing; another write reverts only with no cardinality, else goes to index + 1, or to 0 at the end of the ring, with the cardinality raised to cardinalityNext first when the index is the last slot; the slot holds the newest observation carried forward and nothing else changes |
| Oracle.WriteAdvances | test/Oracle.spec.ts:180-226 | on a well-shaped, initialized buffer a write at a new timestamp succeeds and keeps the shape |
| Oracle.RingOfShaped | test/Oracle.spec.ts:195-261 | a well-shaped buffer has a run of unwritten slots then written ones, and the slot read as oldest is the first written one |
| Oracle.OlderThanLater | test/Oracle.spec.ts:430-472 | along a chronological ring each written observation is older than every later one |
| Oracle.SearchBracket | test/Oracle.spec.ts:421-472 | for a target between the oldest and the newest, the linear reference finds a written pair around the target whose reading does not revert |
| Oracle.RingRevertsOnlyWhenOld | test/Oracle.spec.ts:575-579 | a reading reverts iff the target precedes every written observation, then with "OLD" |
| Oracle.RingExactHit | test/Oracle.spec.ts:411-419 | a target equal to an observation's timestamp returns that observation's accumulators |
| Oracle.RingInterpolates | test/Oracle.spec.ts:421-472 | a target strictly between two neighbours is the interpolation between exactly those two, which does not revert |
| Oracle.ObserveRevertsOnlyWhenOld | test/Oracle.spec.ts:282-285 | on the buffer: a reading reverts iff the target is older than every stored observation, with "OLD"; never for 0 seconds ago |
| Oracle.ObserveExactHit | test/Oracle.spec.ts:368-374 | on the buffer: an exact hit returns the stored accumulators |
| Oracle.ObserveSingleSpec | test/Oracle.spec.ts:355-390 | zero seconds ago reads the newest observation, carried forward to now if older; a target after the newest observation is extrapolated from it with the current tick and liquidity, whatever the older slots hold |
| Oracle.ObserveInterpolates | test/Oracle.spec.ts:421-472 | on the buffer: a target between neighbours interpolates between them |
| Oracle.BracketReading | test/Oracle.spec.ts:421-472 | any pair the binary search may land on reads the same as the linear reference's pair |
| Oracle.ReadingNow | test/Oracle.spec.ts:355-360 | zero seconds ago reads the newest slot, extrapolated to now when older |
| Oracle.ReadingRecent | test/Oracle.spec.ts:376-390 | a target at or after the newest slot is read from it and its extrapolation |
| Oracle.ReadingTooOld | test/Oracle.spec.ts:362-366 | a target before the oldest slot reverts "OLD" |
| Oracle.ReadingIgnoresReserved | test/Oracle.spec.ts:474-495 | slots reserved beyond the cardinality never change a reading |
| Oracle.ReadingSearched | test/Oracle.spec.ts:421-472 | when the search runs, the reading is the one from whichever bracket it lands on |
| Oracle.SearchStep | test/Oracle.spec.ts:592-618 | one probe of the binary search keeps the linear reference's position inside the search window |
| Oracle.ObservationBuffer.constructor | test/Oracle.spec.ts:16-19 | a fresh test contract: every slot untouched, all fields 0 |
| Oracle.ObservationBuffer.Initialize | test/Oracle.spec.ts:40-63 | sets time, tick and liquidity, index 0, cardinality 1, cardinalityNext 1 and slot 0; reverts on a second call |
| Oracle.ObservationBuffer.AdvanceTime | test/Oracle.spec.ts:362-390 | the clock moves on modulo 2^32, nothing else changes |
| Oracle.ObservationBuffer.Write | test/Oracle.spec.ts:140-261 | the array becomes the `Written` state, and index and cardinality are returned |
| Oracle.ObservationBuffer.Update | test/Oracle.spec.ts:145-170 | writes with the tick and liquidity in force before the call, then stores the new ones; the shape is kept; a revert changes nothing |
| Oracle.ObservationBuffer.GrowArray | test/Oracle.spec.ts:100-110 | the loop reserves each new slot with timestamp 1; the array becomes the `Grown` state |
| Oracle.ObservationBuffer.Grow | test/Oracle.spec.ts:75-121 | cardinalityNext and the array become the `Grown` state; "I" before initialization changes nothing |
| Oracle.ObservationBuffer.BinarySearch | test/Oracle.spec.ts:421-472 | returns ring neighbours with the older at or before the target and the target at or before the newer |
| Oracle.ObservationBuffer.ObserveSingle | test/Oracle.spec.ts:355-472 | returns exactly `ObserveSingleSpec`, "OLD" included |
| Oracle.ObservationBuffer.Observe | test/Oracle.spec.ts:278-285 | "I" before initialization; otherwise succeeds iff every reading does, and returns one result per entry, in order; a revert is that of the first failing reading |
| OracleVectors.GrowVectors | test/Oracle.spec.ts:55-110 | initialization writes slot 0; growing to 5 reserves slots 1-4 and keeps slot 0; growing to 3 is a no-op |
| OracleVectors.GrowAfterWrapVector | test/Oracle.spec.ts:112-121 | after the index wraps to 0, growing to 3 only raises cardinalityNext |
| OracleVectors.OverwriteVector | test/Oracle.spec.ts:145-170 | the three writes into a one-slot ring and their accumulators |
| OracleVectors.SameTimeVector | test/Oracle.spec.ts:172-178 | a write at the same time keeps index 1 |
| OracleVectors.NewIndexVector | test/Oracle.spec.ts:180-193 | index 1 then 2, slot 1 = {6, 0, 2041694201525630780780247644590609268736} |
| OracleVectors.GrowCardinalityVector | test/Oracle.spec.ts:195-210 | the cardinality becomes 4 on the first write; slot 2 = {7, 20, 1247702012043441032699040227249816775338} |
| OracleVectors.WrapsAroundEarlyVector | test/Oracle.spec.ts:212-215 | the first two writes of the wrap test fill the three-slot ring |
| OracleVectors.WrapsAroundVector | test/Oracle.spec.ts:216-226 | the third write wraps to index 0 with {12, 14, 2268549112806256423089164049545121409706} |
| OracleVectors.AccumulatesEarlyVector | test/Oracle.spec.ts:228-248 | the first two writes of the accumulation test give slots 1 and 2 |
| OracleVectors.AccumulatesVector | test/Oracle.spec.ts:249-261 | the third write gives index 3 with {12, -23, 1984980473705474370203018543351981233493}; slot 4 is untouched |
| OracleVectors.SingleObservationVectors | test/Oracle.spec.ts:282-390 | a single observation: "OLD" before it, exact at it, the counterfactuals 1 and 0 seconds ago |
| OracleVectors.OverflowBoundaryVector | test/Oracle.spec.ts:287-293 | initialized at 2^32 - 1, the clock at 1: the reading 1 second ago, at timestamp 0, gives (2, 85070591730234615865843651857942052864) |
| OracleVectors.MaxLiquidityWriteVector | test/Oracle.spec.ts:295-300 | 13 seconds at MaxUint128 accumulate 13 |
| OracleVectors.MaxLiquidityEndsVector | test/Oracle.spec.ts:299-306 | 0 and 13 seconds ago read 13 and 0 |
| OracleVectors.MaxLiquidityInterpolationVector | test/Oracle.spec.ts:301-304 | 6 and 12 seconds ago read 7 and 1 |
| OracleVectors.MinLiquidityWriteVector | test/Oracle.spec.ts:309-335 | 13 seconds at liquidity 0 or 1 accumulate 13 << 128 |
| OracleVectors.MinLiquidityEndsVector | test/Oracle.spec.ts:313-320 | 0 and 13 seconds ago read 13 << 128 and 0 |
| OracleVectors.MinLiquidityInterpolationVector | test/Oracle.spec.ts:315-318 | 6 and 12 seconds ago read 7 << 128 and 1 << 128 |
| OracleVectors.Uint32BoundaryWriteVector | test/Oracle.spec.ts:339-346 | writes 2^32 - 6 seconds and then 13 more across the wrap of the clock |
| OracleVectors.Uint32BoundaryEndsVector | test/Oracle.spec.ts:341-346 | across the wrap: 0 seconds ago reads 7 << 128, and 13 seconds ago the first write's (2^32 - 6) << 128, which the test reads right after that write |
| OracleVectors.Uint32BoundaryInterpolationVector | test/Oracle.spec.ts:348-352 | 3 and 8 seconds ago read 4 << 128 and (2^32 - 1) << 128 |
| OracleVectors.TwoObservationsWriteVector | test/Oracle.spec.ts:392-398 | the second observation {9, -20, 272225893536750770770699685945414569164} |
| OracleVectors.ChronologicalEndsVector | test/Oracle.spec.ts:392-419 | exact now, counterfactual 7 seconds later (-13), exactly on the first observation |
| OracleVectors.ChronologicalInterpolationVector | test/Oracle.spec.ts:421-429 | 9 seconds ago reads (-10, 136112946768375385385349842972707284582) |
| OracleVectors.ReverseOrderWriteVector | test/Oracle.spec.ts:431-438 | the third write wraps to slot 0 with {12, -17, 782649443918158465965761597093066886348} |
| OracleVectors.ReverseOrderEndsVector | test/Oracle.spec.ts:431-461 | exact now, counterfactual (-52), exactly on the first observation |
| OracleVectors.ReverseOrderInterpolationVector | test/Oracle.spec.ts:463-472 | 9 seconds ago reads (-19, 442367076997220002502386989661298674892) |
| OracleVectors.FetchWriteVector | test/Oracle.spec.ts:474-478 | the grow to 4 is taken on by the first write; slots 2 and 3 stay reserved |
| OracleVectors.FetchRecentVector | test/Oracle.spec.ts:480-490 | 0 and 3 seconds ago are extrapolated: 56 and 38 |
| OracleVectors.FetchInterpolationVector | test/Oracle.spec.ts:480-493 | 8, 13 and 15 seconds ago interpolate: 20, 10, 6 |
| OracleVectors.FetchOldestVector | test/Oracle.spec.ts:480-494 | 18 seconds ago is the first observation exactly |
| OracleVectors.FixtureWritesVector | test/Oracle.spec.ts:515-523 | initialized at 5 and grown to 5 slots, the first three updates, each written with the tick and liquidity in force before it, fill slots 1, 2 and 3 |
| OracleVectors.FixtureLaterWritesVector | test/Oracle.spec.ts:524-526 | the last three updates: the fourth fills slot 4, the fifth wraps to slot 0 and the sixth leaves the newest observation in slot 1 of the five-slot ring |
| OracleVectors.WrappedFixtureWritesVector | test/Oracle.spec.ts:515-523 | the same from 2^32 - 5, the clock wrapping to 0 on the second update |
| OracleVectors.WrappedFixtureLaterWritesVector | test/Oracle.spec.ts:524-526 | the same last three updates from 2^32 - 5 |
| OracleVectors.FixtureRingOrder | test/Oracle.spec.ts:542-546 | the five-slot ring runs from slot 2 to slot 1 |
| OracleVectors.FixtureEndsVector | test/Oracle.spec.ts:547-584 | from 5: latest (-21, …), oldest (-13, …), 15 seconds ago "OLD" |
| OracleVectors.FixtureInterpolationVector | test/Oracle.spec.ts:564-574 | from 5: 3 seconds ago, and 8 after 5 more seconds, read (-33, 1593655751746395137220137744805447790318) |
| OracleVectors.FixtureLaterVector | test/Oracle.spec.ts:552-590 | from 5: 5 seconds later, 5 ago is the latest and 0 ago is (9, 2347138135642758877746181518404363115684); 20 ago is "OLD"; 6 seconds later 20 ago is the oldest |
| OracleVectors.FixtureOldestBracketVector | test/Oracle.spec.ts:592-596 | from 5, 6 seconds later: 17 seconds ago interpolates between the two oldest observations |
| OracleVectors.FixtureMiddleBracketVector | test/Oracle.spec.ts:592-597 | from 5, 6 seconds later: 13 seconds ago interpolates between the third and fourth |
| OracleVectors.FixtureNewestBracketVector | test/Oracle.spec.ts:592-598 | from 5, 6 seconds later: 10 seconds ago interpolates between the two newest |
| OracleVectors.FixtureManyExtrapolationsVector | test/Oracle.spec.ts:592-601 | from 5, 6 seconds later: 5, 1 and 0 seconds ago extrapolate from the newest |
| OracleVectors.WrappedFixtureEndsVector | test/Oracle.spec.ts:547-584 | the same as FixtureEndsVector from 2^32 - 5 |
| OracleVectors.WrappedFixtureInterpolationVector | test/Oracle.spec.ts:564-574 | the same as FixtureInterpolationVector from 2^32 - 5 |
| OracleVectors.WrappedFixtureLaterVector | test/Oracle.spec.ts:552-590 | the same as FixtureLaterVector from 2^32 - 5 |
| OracleVectors.WrappedFixtureOldestBracketVector | test/Oracle.spec.ts:592-596 | the same as FixtureOldestBracketVector from 2^32 - 5 |
| OracleVectors.WrappedFixtureMiddleBracketVector | test/Oracle.spec.ts:592-597 | the same as FixtureMiddleBracketVector from 2^32 - 5 |
| OracleVectors.WrappedFixtureNewestBracketVector | test/Oracle.spec.ts:592-598 | the same as FixtureNewestBracketVector from 2^32 - 5 |
| OracleVectors.WrappedFixtureManyExtrapolationsVector | test/Oracle.spec.ts:592-601 | the same as FixtureManyExtrapolationsVector from 2^32 - 5 |

## Left out

- The Solidity sources of Oracle, Tick, SqrtPriceMath, LiquidityMath, BitMath and FullMath are not part of this model. Their bodies here follow the published Uniswap V3 core libraries, and they are pinned by the tests' expectations. The reading of `update` (write with the old tick and liquidity, then store the new ones) comes from the expected values at test/Oracle.spec.ts:145-170.
- Oracle.ObservationBuffer.Initialize: a second call reverts with the empty reason. The test contract's message is not part of this model.
- Oracle.ObservationBuffer.Observe: requires the ring to be chronological along the clock that ends at the current time, instead of proving it from the history of writes. The library leaves this to its callers: no stored observation may be more than one wrap of the 32-bit clock old. `ObserveSingle` and `BinarySearch` require the same. The readings after the newest observation (`Oracle.ObserveSingleSpec`, `Oracle.ReadingNow`, `Oracle.ReadingRecent`) do not need it.
- The 'fetch many values' expectations at test/Oracle.spec.ts:607-616 are not reproduced. They disagree with the other tests of the same fixture. For example, 1 second ago at six seconds after the last write is the same instant as 0 seconds ago at five seconds after it, which test/Oracle.spec.ts:558-563 expects to be tick cumulative 9, not -47. The model's readings at those seven targets are stated in `OracleVectors.FixtureLaterVector`, the three `…BracketVector` lemmas and `OracleVectors.FixtureManyExtrapolationsVector` (tick cumulatives -13, -31, -43, -37, -15, 9, 15).
- The oracle scenarios are replayed on the functions `Initialized`, `Grown`, `Written` and `ObserveSingleSpec`, not by calling the class methods. The methods are proved equal to those functions.
- Gas measurements (test/Oracle.spec.ts:65-67, 123-137, 497-512, 620-642, and the commented-out gas tests of the other files): gas is not modelled.
- The skipped full-oracle block (test/Oracle.spec.ts:647-810): it is a scale test with 65535 observations loaded in batches. The ring, the binary search and the reading lemmas hold for any cardinality up to 65535.
- `encodePriceSqrt` is not modelled: it takes a decimal square root to 40 places. The prices it gives in the tests appear as Q64.96 literals (2^96 for 1:1, 87150978765690771352898345369 for 1.21). The same goes for `expandTo18Decimals`, whose results appear as the constants 10^17 and 10^18.
- `getCreate2Address`, `getPositionKey` (keccak256 hashing), `getWallets` (network provider), and the asynchronous contract calls and token approvals of `createPoolFunctions`/`createMultiPoolFunctions` are left out. Only the default price limit and the default flash repayment inside them are modelled.
- `getMinTick` and `getMaxTick` divide in floating point before `Math.ceil`/`Math.floor`. They are modelled as exact integer ceiling and floor, which agrees with floating point for every spacing up to the tick bound.
- The tick/price conversion (`getSqrtRatioAtTick`, `getTickAtSqrtRatio`) is left out: the files name it but give no constant or expected value for it.
- The pool-level tests (swaps, arbitrage, routing, deployment, the delegate-call guard) and the build configuration are context, outside this model.

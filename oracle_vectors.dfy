/**
 * The concrete values of test/Oracle.spec.ts, evaluated on the model: the test contract steps of each
 * test are replayed on the state functions `Initialized`, `Grown` and `Written` (the clock, tick
 * and liquidity the test contract passes to each write are written out), and the readings on
 * `ObserveSingleSpec` over the rings those steps leave.
 */
module OracleVectors {
  import opened Numeric
  import opened Oracle

  /** The observation array of a freshly deployed test contract. */
  const BLANK: seq<Observation> := seq(CAPACITY, _ => ZERO)

  /** An observation array whose first slots are `prefix` and whose other slots are untouched. */
  function Slots(prefix: seq<Observation>): (obs: seq<Observation>)
    requires |prefix| <= CAPACITY
    ensures |obs| == CAPACITY && obs[..|prefix|] == prefix
  {
    prefix + seq(CAPACITY - |prefix|, _ => ZERO)
  }

  /** The slot `grow` reserves: a timestamp of 1, not yet initialized. */
  const RESERVED := Observation(1, 0, 0, false)

  /** Initializing at `t` and growing to five slots leaves `t`'s observation and four reserved slots. */
  lemma GrownToFive(t: Uint32)
    ensures Grown(Initialized(BLANK, t), 1, 5)
         == Ok(GrowOutcome(Slots([Observation(t, 0, 0, true), RESERVED, RESERVED, RESERVED, RESERVED]), 5))
  {
    var g := Grown(Initialized(BLANK, t), 1, 5);
    var s := Slots([Observation(t, 0, 0, true), RESERVED, RESERVED, RESERVED, RESERVED]);
    assert forall k :: 0 <= k < CAPACITY ==> g.value.observations[k] == s[k];
    assert g.value.observations == s;
  }

  // ---- Evaluation helpers: each states a step of the arithmetic once its quotients are known ----

  /** Unsigned wrap-around of a difference that went below zero. */
  lemma ModUp(x: int, n: int)
    requires 0 < n && -n <= x < 0
    ensures x % n == x + n
  {
  }

  /** The seconds-per-liquidity accumulator grows by the floor of `delta` seconds over the liquidity, when that bracket is known. */
  lemma AccumulatedBy(secondsPerLiquidity: Uint160, liquidity: Uint128, delta: Uint32, q: int)
    requires 0 <= secondsPerLiquidity + q < TWO_160
    requires var l := if liquidity > 0 then liquidity else 1; l * q <= delta * TWO_128 < l * (q + 1)
    ensures SecondsPerLiquidityAccumulated(secondsPerLiquidity, liquidity, delta) == secondsPerLiquidity + q
  {
    DivUnique(delta * TWO_128, if liquidity > 0 then liquidity else 1, q);
  }

  /** A write's carried-forward observation, given the elapsed time and the quotient of its division. */
  lemma TransformBy(last: Observation, t: Uint32, tick: Int24, liquidity: Uint128, delta: Uint32, q: int)
    requires U32(t - last.blockTimestamp) == delta
    requires -TWO_55 <= last.tickCumulative + tick * delta < TWO_55
    requires 0 <= last.secondsPerLiquidityCumulativeX128 + q < TWO_160
    requires var l := if liquidity > 0 then liquidity else 1; l * q <= delta * TWO_128 < l * (q + 1)
    ensures Transform(last, t, tick, liquidity)
         == Observation(t, last.tickCumulative + tick * delta, last.secondsPerLiquidityCumulativeX128 + q, true)
  {
    I56OfRange(last.tickCumulative + tick * delta);
    AccumulatedBy(last.secondsPerLiquidityCumulativeX128, liquidity, delta, q);
  }

  /**
   * A write at a new time into a ring due to have five slots, given by the five slots before and
   * after it, once the elapsed time and the quotient of the write's division are known.
   */
  lemma WrittenInFive(prefix: seq<Observation>, index: int, t: Uint32, tick: Int24, liquidity: Uint128, card: int,
                      delta: Uint32, q: int, after: seq<Observation>)
    requires |prefix| == 5 && 0 <= index < 5 && prefix[index].blockTimestamp != t
    requires card == 5 || card == index + 1
    requires U32(t - prefix[index].blockTimestamp) == delta
    requires -TWO_55 <= prefix[index].tickCumulative + tick * delta < TWO_55
    requires 0 <= prefix[index].secondsPerLiquidityCumulativeX128 + q < TWO_160
    requires var l := if liquidity > 0 then liquidity else 1; l * q <= delta * TWO_128 < l * (q + 1)
    requires after == prefix[(index + 1) % 5 := Observation(t, prefix[index].tickCumulative + tick * delta,
                                                            prefix[index].secondsPerLiquidityCumulativeX128 + q, true)]
    ensures Written(Slots(prefix), index, t, tick, liquidity, card, 5) == Ok(WriteOutcome(Slots(after), (index + 1) % 5, 5))
  {
    TransformBy(prefix[index], t, tick, liquidity, delta, q);
    var next := (index + 1) % 5;
    var written, expected := Slots(prefix)[next := after[next]], Slots(after);
    assert forall k :: 0 <= k < CAPACITY ==> written[k] == expected[k];
    assert written == expected;
    assert Written(Slots(prefix), index, t, tick, liquidity, card, 5) == Ok(WriteOutcome(written, next, 5));
  }

  /** The interpolated tick accumulator when nothing wraps: the average tick times the elapsed time. */
  lemma TickInterpolatedBy(before: Int56, after: Int56, delta: Uint32, targetDelta: Uint32, averageTick: int)
    requires delta > 0 && -TWO_55 <= after - before < TWO_55 && Quot(after - before, delta) == averageTick
    requires -TWO_55 <= averageTick * targetDelta < TWO_55 && -TWO_55 <= before + averageTick * targetDelta < TWO_55
    ensures TickInterpolated(before, after, delta, targetDelta) == before + averageTick * targetDelta
  {
    I56OfRange(after - before);
    I56OfRange(averageTick * targetDelta);
    I56OfRange(before + averageTick * targetDelta);
  }

  /** The interpolated seconds per liquidity when nothing wraps, once the quotient of its division is known. */
  lemma SecondsPerLiquidityInterpolatedBy(before: Uint160, after: Uint160, delta: Uint32, targetDelta: Uint32, q: int)
    requires delta > 0 && before <= after && before + q < TWO_160
    requires delta * q <= (after - before) * targetDelta < delta * (q + 1)
    ensures SecondsPerLiquidityInterpolated(before, after, delta, targetDelta) == before + q
  {
    var d := after - before;
    assert U160(d) == d;
    var p := d * targetDelta;
    MulNonneg(d, targetDelta);
    DivUnique(p, delta, q);
    DivBounds(p, delta);
    assert U160(p / delta) == q;
    assert U160(before + q) == before + q;
    assert (U160(after - before) * targetDelta) / delta == p / delta;
  }

  /** An interpolation, given the elapsed times, the average tick and the quotient of its division; no accumulator wraps. */
  lemma InterpolatedBy(before: Observation, after: Observation, target: Uint32, delta: Uint32, targetDelta: Uint32,
                       averageTick: int, q: int)
    requires U32(after.blockTimestamp - before.blockTimestamp) == delta > 0
    requires U32(target - before.blockTimestamp) == targetDelta
    requires -TWO_55 <= after.tickCumulative - before.tickCumulative < TWO_55
    requires Quot(after.tickCumulative - before.tickCumulative, delta) == averageTick
    requires -TWO_55 <= averageTick * targetDelta < TWO_55
    requires -TWO_55 <= before.tickCumulative + averageTick * targetDelta < TWO_55
    requires before.secondsPerLiquidityCumulativeX128 <= after.secondsPerLiquidityCumulativeX128
    requires 0 <= q && before.secondsPerLiquidityCumulativeX128 + q < TWO_160
    requires delta * q <= (after.secondsPerLiquidityCumulativeX128 - before.secondsPerLiquidityCumulativeX128) * targetDelta < delta * (q + 1)
    ensures Interpolate(before, after, target)
         == Ok(Cumulatives(before.tickCumulative + averageTick * targetDelta, before.secondsPerLiquidityCumulativeX128 + q))
  {
    var tickCumulative := TickInterpolated(before.tickCumulative, after.tickCumulative, delta, targetDelta);
    var secondsPerLiquidity := SecondsPerLiquidityInterpolated(before.secondsPerLiquidityCumulativeX128,
                                                               after.secondsPerLiquidityCumulativeX128, delta, targetDelta);
    assert tickCumulative == before.tickCumulative + averageTick * targetDelta by {
      TickInterpolatedBy(before.tickCumulative, after.tickCumulative, delta, targetDelta, averageTick);
    }
    assert secondsPerLiquidity == before.secondsPerLiquidityCumulativeX128 + q by {
      SecondsPerLiquidityInterpolatedBy(before.secondsPerLiquidityCumulativeX128, after.secondsPerLiquidityCumulativeX128,
                                        delta, targetDelta, q);
    }
    assert Interpolate(before, after, target) == Ok(Cumulatives(tickCumulative, secondsPerLiquidity));
  }

  // ---- Writes and readings ----

  /** Initializing writes slot 0 only; growing to 5 reserves slots 1 to 4 and keeps slot 0; growing to 3 afterwards changes nothing. */
  lemma GrowVectors()
    ensures Initialized(BLANK, 1)[0] == Observation(1, 0, 0, true)
    ensures var g := Grown(Initialized(BLANK, 0), 1, 5);
      && g.Ok? && g.value.cardinalityNext == 5
      && g.value.observations[0] == Observation(0, 0, 0, true)
      && (forall k :: 1 <= k < 5 ==> g.value.observations[k] == Observation(1, 0, 0, false))
      && Grown(g.value.observations, 5, 3) == Ok(GrowOutcome(g.value.observations, 5))
  {
  }

  /** Two writes into a grown two-slot ring wrap the index to 0; growing to 3 then only raises the next cardinality. */
  lemma GrowAfterWrapVector()
    ensures var g := Grown(Initialized(BLANK, 0), 1, 2);
      && g.Ok?
      && var w1 := Written(g.value.observations, 0, 2, 0, 0, 1, 2);
      && w1.Ok? && w1.value.index == 1 && w1.value.cardinality == 2
      && var w2 := Written(w1.value.observations, 1, 4, 1, 1, 2, 2);
      && w2.Ok? && w2.value.index == 0 && w2.value.cardinality == 2
      && Grown(w2.value.observations, 2, 3).Ok? && Grown(w2.value.observations, 2, 3).value.cardinalityNext == 3
  {
  }

  /** A single-slot ring is overwritten in place by every write. */
  lemma OverwriteVector()
    ensures var w1 := Written(Initialized(BLANK, 0), 0, 1, 0, 0, 1, 1);
      && w1.Ok? && w1.value.index == 0
      && w1.value.observations[0] == Observation(1, 0, TWO_128, true)
      && var w2 := Written(w1.value.observations, 0, 6, 2, 5, 1, 1);
      && w2.Ok? && w2.value.index == 0
      && w2.value.observations[0] == Observation(6, 10, 680564733841876926926749214863536422912, true)
      && var w3 := Written(w2.value.observations, 0, 9, -1, 8, 1, 1);
      && w3.Ok? && w3.value.index == 0
      && w3.value.observations[0] == Observation(9, 7, 808170621437228850725514692650449502208, true)
  {
    var o0 := Initialized(BLANK, 0);
    var a := Observation(1, 0, 0x1_0000_0000_0000_0000_0000_0000_0000_0000, true);
    TransformBy(o0[0], 1, 0, 0, 1, 0x1_0000_0000_0000_0000_0000_0000_0000_0000);
    var o1 := o0[0 := a];
    assert Written(o0, 0, 1, 0, 0, 1, 1) == Ok(WriteOutcome(o1, 0, 1));
    var b := Observation(6, 10, 680564733841876926926749214863536422912, true);
    TransformBy(o1[0], 6, 2, 5, 5, 0x1_0000_0000_0000_0000_0000_0000_0000_0000);
    var o2 := o1[0 := b];
    assert Written(o1, 0, 6, 2, 5, 1, 1) == Ok(WriteOutcome(o2, 0, 1));
    var c := Observation(9, 7, 808170621437228850725514692650449502208, true);
    TransformBy(o2[0], 9, -1, 8, 3, 127605887595351923798765477786913079296);
    assert Written(o2, 0, 9, -1, 8, 1, 1) == Ok(WriteOutcome(o2[0 := c], 0, 1));
  }

  /** A write in the block of the newest observation leaves the ring as it is. */
  lemma SameTimeVector()
    ensures var g := Grown(Initialized(BLANK, 0), 1, 2);
      && g.Ok?
      && var w1 := Written(g.value.observations, 0, 1, 0, 0, 1, 2);
      && w1.Ok? && w1.value.index == 1
      && Written(w1.value.observations, 1, 1, 3, 2, 2, 2) == Ok(WriteOutcome(w1.value.observations, 1, 2))
  {
  }

  /** Writes at new times move to the next slot of a grown ring. */
  lemma NewIndexVector()
    ensures var g := Grown(Initialized(BLANK, 0), 1, 3);
      && g.Ok?
      && var w1 := Written(g.value.observations, 0, 6, 0, 0, 1, 3);
      && w1.Ok? && w1.value.index == 1
      && var w2 := Written(w1.value.observations, 1, 10, 3, 2, 3, 3);
      && w2.Ok? && w2.value.index == 2
      && w2.value.observations[1] == Observation(6, 0, 2041694201525630780780247644590609268736, true)
  {
  }

  /** The first write past the end of a ring due to grow takes on the next cardinality. */
  lemma GrowCardinalityVector()
    ensures var g := Grown(Initialized(BLANK, 0), 1, 2);
      && g.Ok?
      && var g2 := Grown(g.value.observations, 2, 4);
      && g2.Ok?
      && var w1 := Written(g2.value.observations, 0, 3, 0, 0, 1, 4);
      && w1.Ok? && w1.value.cardinality == 4
      && var w2 := Written(w1.value.observations, w1.value.index, 7, 5, 6, 4, 4);
      && w2.Ok? && w2.value.cardinality == 4 && w2.value.index == 2
      && w2.value.observations[2] == Observation(7, 20, 1247702012043441032699040227249816775338, true)
  {
  }

  /** The three-slot ring after two writes, its newest observation in the last slot. */
  function WrapsAroundRing(): (obs: seq<Observation>)
    ensures |obs| == CAPACITY
  {
    Slots([Observation(0, 0, 0, true), Observation(3, 0, 1020847100762815390390123822295304634368, true),
           Observation(7, 4, 1701411834604692317316873037158841057280, true)])
  }

  /** Two writes fill the three-slot ring. */
  lemma WrapsAroundEarlyVector()
    ensures var g := Grown(Initialized(BLANK, 0), 1, 3);
      && g.Ok?
      && var w1 := Written(g.value.observations, 0, 3, 0, 0, 1, 3);
      && w1.Ok? && w1.value.index == 1 && w1.value.cardinality == 3
      && var w2 := Written(w1.value.observations, 1, 7, 1, 2, 3, 3);
      && w2.Ok? && w2.value.index == 2
      && w2.value.observations == WrapsAroundRing()
  {
  }

  /** The third write wraps the newest index back to slot 0. */
  lemma WrapsAroundVector()
    ensures var w := Written(WrapsAroundRing(), 2, 12, 2, 3, 3, 3);
      && w.Ok? && w.value.index == 0 && w.value.cardinality == 3
      && w.value.observations[0] == Observation(12, 14, 2268549112806256423089164049545121409706, true)
  {
  }

  /** The ring after two of the writes: two observations after the first, one reserved slot, all else untouched. */
  function AccumulatesRing(): (obs: seq<Observation>)
    ensures |obs| == CAPACITY
  {
    Slots([Observation(0, 0, 0, true), Observation(3, 0, 1020847100762815390390123822295304634368, true),
           Observation(7, 12, 1701411834604692317316873037158841057280, true), Observation(1, 0, 0, false)])
  }

  /** Both accumulators build up across the first two writes, at zero and then at changing tick and liquidity. */
  lemma AccumulatesEarlyVector()
    ensures var g := Grown(Initialized(BLANK, 0), 1, 4);
      && g.Ok?
      && var w1 := Written(g.value.observations, 0, 3, 0, 0, 1, 4);
      && w1.Ok? && w1.value.index == 1 && w1.value.cardinality == 4
      && var w2 := Written(w1.value.observations, 1, 7, 3, 2, 4, 4);
      && w2.Ok? && w2.value.index == 2
      && w2.value.observations == AccumulatesRing()
  {
  }

  /** The third write carries both accumulators on; the slot past the ring stays untouched. */
  lemma AccumulatesVector()
    ensures var w := Written(AccumulatesRing(), 2, 12, -7, 6, 4, 4);
      && w.Ok? && w.value.index == 3
      && w.value.observations[3] == Observation(12, -23, 1984980473705474370203018543351981233493, true)
      && w.value.observations[4] == Observation(0, 0, 0, false)
  {
    assert AccumulatesRing()[2] == Observation(7, 12, 1701411834604692317316873037158841057280, true);
    TransformBy(AccumulatesRing()[2], 12, -7, 6, 5, 283568639100782052886145506193140176213);
  }

  /** A single observation reads back at its own time and, carried forward, after it; a target before it is too old. */
  lemma SingleObservationVectors()
    ensures ObserveSingleSpec(Initialized(BLANK, 5), 5, 0, 2, 0, 4, 1) == Ok(Cumulatives(0, 0))
    ensures ObserveSingleSpec(Initialized(BLANK, 5), 5, 1, 2, 0, 4, 1) == Revert("OLD")
    ensures ObserveSingleSpec(Initialized(BLANK, 5), 8, 4, 2, 0, 4, 1) == Revert("OLD")
    ensures ObserveSingleSpec(Initialized(BLANK, 5), 8, 3, 2, 0, 4, 1) == Ok(Cumulatives(0, 0))
    ensures ObserveSingleSpec(Initialized(BLANK, 5), 8, 1, 2, 0, 4, 1)
         == Ok(Cumulatives(4, 170141183460469231731687303715884105728))
    ensures ObserveSingleSpec(Initialized(BLANK, 5), 8, 0, 2, 0, 4, 1)
         == Ok(Cumulatives(6, 255211775190703847597530955573826158592))
  {
  }

  /** Extrapolating across the 2^32 wrap of the clock: one second from 2^32 - 1 to 0. */
  lemma OverflowBoundaryVector()
    ensures ObserveSingleSpec(Initialized(BLANK, TWO_32 - 1), 1, 1, 2, 0, 4, 1)
         == Ok(Cumulatives(2, 85070591730234615865843651857942052864))
  {
    ModUp(0 - (TWO_32 - 1), TWO_32);
    TransformBy(Observation(TWO_32 - 1, 0, 0, true), 0, 2, 4, 1, 85070591730234615865843651857942052864);
  }

  /** At the largest liquidity the seconds-per-liquidity accumulator grows by 1 per second. */
  lemma MaxLiquidityWriteVector()
    ensures Transform(Observation(0, 0, 0, true), 13, 0, MAX_UINT128) == Observation(13, 0, 13, true)
  {
  }

  /** The ring the maximum-liquidity test reads: 13 seconds at the largest liquidity after the first observation. */
  function MaxLiquidityRing(): seq<Observation>
  {
    Slots([Observation(0, 0, 0, true), Observation(13, 0, 13, true)])
  }

  /** Reading the newest observation and the oldest one of that ring. */
  lemma MaxLiquidityEndsVector()
    ensures ObserveSingleSpec(MaxLiquidityRing(), 13, 0, 0, 1, 0, 2) == Ok(Cumulatives(0, 13))
    ensures ObserveSingleSpec(MaxLiquidityRing(), 13, 13, 0, 1, 0, 2) == Ok(Cumulatives(0, 0))
  {
    assert Ring(MaxLiquidityRing(), 1, 2) == [Observation(0, 0, 0, true), Observation(13, 0, 13, true)];
  }

  /** Interpolation follows the accumulator second by second, 6 and 12 seconds ago. */
  lemma MaxLiquidityInterpolationVector()
    ensures ObserveSingleSpec(MaxLiquidityRing(), 13, 6, 0, 1, 0, 2) == Ok(Cumulatives(0, 7))
    ensures ObserveSingleSpec(MaxLiquidityRing(), 13, 12, 0, 1, 0, 2) == Ok(Cumulatives(0, 1))
  {
    var o0, o1 := Observation(0, 0, 0, true), Observation(13, 0, 13, true);
    assert Ring(MaxLiquidityRing(), 1, 2) == [o0, o1];
    assert Interpolate(o0, o1, 7) == Ok(Cumulatives(0, 7));
    assert Interpolate(o0, o1, 1) == Ok(Cumulatives(0, 1));
  }

  /** Zero liquidity counts as 1: the accumulator grows by 2^128 per second. */
  lemma MinLiquidityWriteVector()
    ensures Transform(Observation(0, 0, 0, true), 13, 0, 0) == Observation(13, 0, 13 * TWO_128, true)
    ensures Transform(Observation(0, 0, 0, true), 13, 0, 1) == Observation(13, 0, 13 * TWO_128, true)
  {
  }

  /** The ring the minimum-liquidity test reads: 13 seconds at zero liquidity after the first observation. */
  function MinLiquidityRing(): seq<Observation>
  {
    Slots([Observation(0, 0, 0, true), Observation(13, 0, 13 * TWO_128, true)])
  }

  /** Reading the newest observation and the oldest one of that ring. */
  lemma MinLiquidityEndsVector()
    ensures ObserveSingleSpec(MinLiquidityRing(), 13, 0, 0, 1, MAX_UINT128, 2) == Ok(Cumulatives(0, 13 * TWO_128))
    ensures ObserveSingleSpec(MinLiquidityRing(), 13, 13, 0, 1, MAX_UINT128, 2) == Ok(Cumulatives(0, 0))
  {
    assert Ring(MinLiquidityRing(), 1, 2) == [Observation(0, 0, 0, true), Observation(13, 0, 13 * TWO_128, true)];
  }

  /** Interpolating inside that ring, 6 and 12 seconds ago. */
  lemma MinLiquidityInterpolationVector()
    ensures ObserveSingleSpec(MinLiquidityRing(), 13, 6, 0, 1, MAX_UINT128, 2) == Ok(Cumulatives(0, 7 * TWO_128))
    ensures ObserveSingleSpec(MinLiquidityRing(), 13, 12, 0, 1, MAX_UINT128, 2) == Ok(Cumulatives(0, TWO_128))
  {
    var o0, o1 := Observation(0, 0, 0, true), Observation(13, 0, 13 * TWO_128, true);
    assert Ring(MinLiquidityRing(), 1, 2) == [o0, o1];
    InterpolatedBy(o0, o1, 7, 13, 7, 0, 7 * TWO_128);
    InterpolatedBy(o0, o1, 1, 13, 1, 0, TWO_128);
  }

  /** Writes 2^32 - 6 seconds and then 13 more seconds after the first observation, across the wrap of the clock. */
  lemma Uint32BoundaryWriteVector()
    ensures var g := Grown(Initialized(BLANK, 0), 1, 2);
      && g.Ok?
      && var w1 := Written(g.value.observations, 0, TWO_32 - 6, 0, 0, 1, 2);
      && w1.Ok? && w1.value.index == 1 && w1.value.cardinality == 2
      && ObserveSingleSpec(w1.value.observations, TWO_32 - 6, 0, 0, 1, 0, 2) == Ok(Cumulatives(0, 4294967290 * TWO_128))
      && var w2 := Written(w1.value.observations, 1, 7, 0, 0, 2, 2);
      && w2.Ok? && w2.value.index == 0
      && w2.value.observations[..2] == [Observation(7, 0, 7 * TWO_128, true), Observation(TWO_32 - 6, 0, 4294967290 * TWO_128, true)]
  {
  }

  /** The two slots after those writes: the newest at 7, the oldest at 2^32 - 6. */
  function BoundaryRing(): (obs: seq<Observation>)
    ensures |obs| == CAPACITY
  {
    Slots([Observation(7, 0, 7 * TWO_128, true), Observation(TWO_32 - 6, 0, 4294967290 * TWO_128, true)])
  }

  /** Reading the newest observation and the oldest one across the wrap of the clock. */
  lemma Uint32BoundaryEndsVector()
    ensures ObserveSingleSpec(BoundaryRing(), 7, 0, 0, 0, 0, 2) == Ok(Cumulatives(0, 7 * TWO_128))
    ensures ObserveSingleSpec(BoundaryRing(), 7, 13, 0, 0, 0, 2) == Ok(Cumulatives(0, 4294967290 * TWO_128))
  {
    assert Ring(BoundaryRing(), 0, 2) == [BoundaryRing()[1], BoundaryRing()[0]];
  }

  /** Interpolating between observations on both sides of the wrap of the clock, 3 seconds ago. */
  lemma Uint32BoundaryInterpolationVector()
    ensures ObserveSingleSpec(BoundaryRing(), 7, 3, 0, 0, 0, 2) == Ok(Cumulatives(0, 4 * TWO_128))
    ensures ObserveSingleSpec(BoundaryRing(), 7, 8, 0, 0, 0, 2) == Ok(Cumulatives(0, 4294967295 * TWO_128))
  {
    var o0, o1 := Observation(TWO_32 - 6, 0, 4294967290 * TWO_128, true), Observation(7, 0, 7 * TWO_128, true);
    assert Ring(BoundaryRing(), 0, 2) == [o0, o1];
    ModUp(7 * TWO_128 - 4294967290 * TWO_128, TWO_160);
    ModUp(7 - (TWO_32 - 6), TWO_32);
    ModUp(4 - (TWO_32 - 6), TWO_32);
    assert 4294967290 * TWO_128 + 10 * TWO_128 == TWO_160 + 4 * TWO_128;
    assert Interpolate(o0, o1, 4) == Ok(Cumulatives(0, 4 * TWO_128));
    assert Interpolate(o0, o1, TWO_32 - 1) == Ok(Cumulatives(0, 4294967295 * TWO_128));
  }

  // ---- Two observations ----

  const X_9: int := 272225893536750770770699685945414569164
  const X_12: int := 782649443918158465965761597093066886348

  /** Four seconds at tick -5 and liquidity 5 after the first observation fill the second slot of a two-slot ring. */
  lemma TwoObservationsWriteVector()
    ensures var g := Grown(Initialized(BLANK, 5), 1, 2);
      && g.Ok?
      && var w := Written(g.value.observations, 0, 9, -5, 5, 1, 2);
      && w.Ok? && w.value.index == 1 && w.value.cardinality == 2
      && w.value.observations[..2] == [Observation(5, 0, 0, true), Observation(9, -20, X_9, true)]
  {
  }

  /** The ring of two observations in chronological order, the newest in slot 1. */
  function ChronologicalRing(): (obs: seq<Observation>)
    ensures |obs| == CAPACITY
  {
    Slots([Observation(5, 0, 0, true), Observation(9, -20, X_9, true)])
  }

  /** Reading the newest slot exactly, carried forward to 7 seconds later, and the oldest slot exactly. */
  lemma ChronologicalEndsVector()
    ensures ObserveSingleSpec(ChronologicalRing(), 9, 0, 1, 1, 2, 2) == Ok(Cumulatives(-20, X_9))
    ensures ObserveSingleSpec(ChronologicalRing(), 16, 0, 1, 1, 2, 2)
         == Ok(Cumulatives(-13, 1463214177760035392892510811956603309260))
    ensures ObserveSingleSpec(ChronologicalRing(), 16, 11, 1, 1, 2, 2) == Ok(Cumulatives(0, 0))
  {
    assert Ring(ChronologicalRing(), 1, 2) == [Observation(5, 0, 0, true), Observation(9, -20, X_9, true)];
  }

  /** Interpolating halfway between the two observations. */
  lemma ChronologicalInterpolationVector()
    ensures ObserveSingleSpec(ChronologicalRing(), 16, 9, 1, 1, 2, 2)
         == Ok(Cumulatives(-10, 136112946768375385385349842972707284582))
  {
    var o0, o1 := Observation(5, 0, 0, true), Observation(9, -20, X_9, true);
    assert Ring(ChronologicalRing(), 1, 2) == [o0, o1];
    InterpolatedBy(o0, o1, 7, 4, 2, -5, 136112946768375385385349842972707284582);
  }

  /** Three seconds at tick 1 and liquidity 2 later, the write wraps to slot 0. */
  lemma ReverseOrderWriteVector()
    ensures var w := Written(ChronologicalRing(), 1, 12, 1, 2, 2, 2);
      && w.Ok? && w.value.index == 0 && w.value.cardinality == 2
      && w.value.observations[..2] == [Observation(12, -17, X_12, true), Observation(9, -20, X_9, true)]
  {
  }

  /** The ring of two observations in reverse slot order, the newest in slot 0. */
  function ReverseRing(): (obs: seq<Observation>)
    ensures |obs| == CAPACITY
  {
    Slots([Observation(12, -17, X_12, true), Observation(9, -20, X_9, true)])
  }

  /** Reading the newest slot exactly and 7 seconds later, and the oldest slot exactly. */
  lemma ReverseOrderEndsVector()
    ensures ObserveSingleSpec(ReverseRing(), 12, 0, -5, 0, 4, 2) == Ok(Cumulatives(-17, X_12))
    ensures ObserveSingleSpec(ReverseRing(), 19, 0, -5, 0, 4, 2)
         == Ok(Cumulatives(-52, 1378143586029800777026667160098661256396))
    ensures ObserveSingleSpec(ReverseRing(), 19, 10, -5, 0, 4, 2) == Ok(Cumulatives(-20, X_9))
  {
    assert Ring(ReverseRing(), 0, 2) == [Observation(9, -20, X_9, true), Observation(12, -17, X_12, true)];
  }

  /** Interpolating a third of the way from the older observation in slot 1 to the newer one in slot 0. */
  lemma ReverseOrderInterpolationVector()
    ensures ObserveSingleSpec(ReverseRing(), 19, 9, -5, 0, 4, 2)
         == Ok(Cumulatives(-19, 442367076997220002502386989661298674892))
  {
    var o0, o1 := Observation(9, -20, X_9, true), Observation(12, -17, X_12, true);
    assert Ring(ReverseRing(), 0, 2) == [o0, o1];
    InterpolatedBy(o0, o1, 10, 3, 1, 1, 170141183460469231731687303715884105728);
  }

  // ---- Several readings from one ring ----

  const Z_18: int := 134999718321905518341792904559722496

  /** After growing to 4, the first write takes on the new cardinality; slots 2 and 3 stay reserved. */
  lemma FetchWriteVector()
    ensures var g := Grown(Initialized(BLANK, 5), 1, 4);
      && g.Ok?
      && var w := Written(g.value.observations, 0, 18, 2, 32768, 1, 4);
      && w.Ok? && w.value.index == 1 && w.value.cardinality == 4
      && w.value.observations[..4]
         == [Observation(5, 0, 0, true), Observation(18, 26, Z_18, true), Observation(1, 0, 0, false), Observation(1, 0, 0, false)]
  {
  }

  /** That ring: two written slots, then two reserved ones. */
  function FetchRing(): (obs: seq<Observation>)
    ensures |obs| == CAPACITY
  {
    Slots([Observation(5, 0, 0, true), Observation(18, 26, Z_18, true), Observation(1, 0, 0, false), Observation(1, 0, 0, false)])
  }

  /** 0 and 3 seconds ago lie after the newest observation and are extrapolated with tick 6 and liquidity 4096. */
  lemma FetchRecentVector()
    ensures ObserveSingleSpec(FetchRing(), 23, 0, 6, 1, 4096, 4) == Ok(Cumulatives(56, 550383467004691728624232610897330176))
    ensures ObserveSingleSpec(FetchRing(), 23, 3, 6, 1, 4096, 4) == Ok(Cumulatives(38, 301153217795020002454768787094765568))
  {
    var o1 := Observation(18, 26, Z_18, true);
    assert Ring(FetchRing(), 1, 4)[3] == o1;
    TransformBy(o1, 23, 6, 4096, 5, 415383748682786210282439706337607680);
    TransformBy(o1, 20, 6, 4096, 2, 166153499473114484112975882535043072);
  }

  /** 8, 13 and 15 seconds ago are interpolated between the two written slots, past the reserved ones. */
  lemma FetchInterpolationVector()
    ensures ObserveSingleSpec(FetchRing(), 23, 8, 6, 1, 4096, 4) == Ok(Cumulatives(20, 103845937170696552570609926584401920))
    ensures ObserveSingleSpec(FetchRing(), 23, 13, 6, 1, 4096, 4) == Ok(Cumulatives(10, 51922968585348276285304963292200960))
    ensures ObserveSingleSpec(FetchRing(), 23, 15, 6, 1, 4096, 4) == Ok(Cumulatives(6, 31153781151208965771182977975320576))
  {
    var u, o0, o1 := Observation(1, 0, 0, false), Observation(5, 0, 0, true), Observation(18, 26, Z_18, true);
    assert Ring(FetchRing(), 1, 4) == [u, u, o0, o1];
    InterpolatedBy(o0, o1, 15, 13, 10, 2, 103845937170696552570609926584401920);
    InterpolatedBy(o0, o1, 10, 13, 5, 2, 51922968585348276285304963292200960);
    InterpolatedBy(o0, o1, 8, 13, 3, 2, 31153781151208965771182977975320576);
  }

  /** 18 seconds ago is the oldest observation exactly. */
  lemma FetchOldestVector()
    ensures ObserveSingleSpec(FetchRing(), 23, 18, 6, 1, 4096, 4) == Ok(Cumulatives(0, 0))
  {
    var u, o0, o1 := Observation(1, 0, 0, false), Observation(5, 0, 0, true), Observation(18, 26, Z_18, true);
    assert Ring(FetchRing(), 1, 4) == [u, u, o0, o1];
  }

  // ---- Five observations, written over a ring that has wrapped once ----

  /**
   * The ring six writes leave in a five-slot buffer initialized at time 5, or at 2^32 - 5 when
   * `wrapped`: the newest observation in slot 1, the oldest in slot 2, and slot 0 written over once.
   */
  function FixtureRing(wrapped: bool): (obs: seq<Observation>)
    ensures |obs| == CAPACITY
  {
    var shift := if wrapped then 10 else 0;
    Slots([Observation(18 - shift, -45, 1083232201364987442025075833657795473134, true),
           Observation(24 - shift, -21, 2104079302127802832415199655953100107502, true),
           Observation(10 - shift, -13, 544451787073501541541399371890829138329, true),
           Observation(14 - shift, -37, 884734153994440005004773979322597349785, true),
           Observation(15 - shift, -39, 969804745724674620870617631180539402649, true)])
  }

  /** The five slots after the first three writes of the fixture, from time 5 or from 2^32 - 5 when `wrapped`. */
  function FixtureHalfRing(wrapped: bool): (obs: seq<Observation>)
    ensures |obs| == CAPACITY
  {
    if wrapped then
      Slots([Observation(TWO_32 - 5, 0, 0, true),
             Observation(TWO_32 - 2, -15, 204169420152563078078024764459060926873, true),
             Observation(0, -13, 544451787073501541541399371890829138329, true),
             Observation(4, -37, 884734153994440005004773979322597349785, true),
             RESERVED])
    else
      Slots([Observation(5, 0, 0, true),
             Observation(8, -15, 204169420152563078078024764459060926873, true),
             Observation(10, -13, 544451787073501541541399371890829138329, true),
             Observation(14, -37, 884734153994440005004773979322597349785, true),
             RESERVED])
  }

  /** The first three writes of the fixture starting at time 5, each with the tick and liquidity in force before it. */
  lemma FixtureWritesVector()
    ensures var g := Grown(Initialized(BLANK, 5), 1, 5);
      && g.Ok?
      && var w1 := Written(g.value.observations, 0, 8, -5, 5, 1, 5);
      && w1.Ok? && w1.value.index == 1 && w1.value.cardinality == 5
      && var w2 := Written(w1.value.observations, 1, 10, 1, 2, 5, 5);
      && w2.Ok? && w2.value.index == 2
      && Written(w2.value.observations, 2, 14, -6, 4, 5, 5) == Ok(WriteOutcome(FixtureHalfRing(false), 3, 5))
  {
    var a0 := Observation(5, 0, 0, true);
    var a1 := Observation(8, -15, 204169420152563078078024764459060926873, true);
    var a2 := Observation(10, -13, 544451787073501541541399371890829138329, true);
    var a3 := Observation(14, -37, 884734153994440005004773979322597349785, true);
    GrownToFive(5);
    var p0 := [a0, RESERVED, RESERVED, RESERVED, RESERVED];
    var p1 := [a0, a1, RESERVED, RESERVED, RESERVED];
    WrittenInFive(p0, 0, 8, -5, 5, 1, 3, 204169420152563078078024764459060926873, p1);
    var p2 := p1[2 := a2];
    WrittenInFive(p1, 1, 10, 1, 2, 5, 2, TWO_128, p2);
    var p3 := [a0, a1, a2, a3, RESERVED];
    WrittenInFive(p2, 2, 14, -6, 4, 5, 4, TWO_128, p3);
  }

  /** The last three writes of that fixture: the fifth wraps to slot 0 and the sixth leaves the newest observation in slot 1. */
  lemma FixtureLaterWritesVector()
    ensures var w4 := Written(FixtureHalfRing(false), 3, 15, -2, 4, 5, 5);
      && w4.Ok? && w4.value.index == 4 && w4.value.cardinality == 5
      && var w5 := Written(w4.value.observations, 4, 18, -2, 9, 5, 5);
      && w5.Ok? && w5.value.index == 0
      && var w6 := Written(w5.value.observations, 0, 24, 4, 2, 5, 5);
      && w6.Ok? && w6.value.index == 1 && w6.value.cardinality == 5
      && w6.value.observations[..5] == FixtureRing(false)[..5]
  {
    var a0 := Observation(5, 0, 0, true);
    var a1 := Observation(8, -15, 204169420152563078078024764459060926873, true);
    var a2 := Observation(10, -13, 544451787073501541541399371890829138329, true);
    var a3 := Observation(14, -37, 884734153994440005004773979322597349785, true);
    var a4 := Observation(15, -39, 969804745724674620870617631180539402649, true);
    var a5 := Observation(18, -45, 1083232201364987442025075833657795473134, true);
    var a6 := Observation(24, -21, 2104079302127802832415199655953100107502, true);
    var p3 := [a0, a1, a2, a3, RESERVED];
    var p4 := p3[4 := a4];
    WrittenInFive(p3, 3, 15, -2, 4, 5, 1, 85070591730234615865843651857942052864, p4);
    var p5 := p4[0 := a5];
    WrittenInFive(p4, 4, 18, -2, 9, 5, 3, 113427455640312821154458202477256070485, p5);
    WrittenInFive(p5, 0, 24, 4, 2, 5, 6, 3 * TWO_128, p5[1 := a6]);
  }

  /** The first three writes of the fixture starting at 2^32 - 5: the third lands at time 0, after the wrap of the clock. */
  lemma WrappedFixtureWritesVector()
    ensures var g := Grown(Initialized(BLANK, TWO_32 - 5), 1, 5);
      && g.Ok?
      && var w1 := Written(g.value.observations, 0, TWO_32 - 2, -5, 5, 1, 5);
      && w1.Ok? && w1.value.index == 1 && w1.value.cardinality == 5
      && var w2 := Written(w1.value.observations, 1, 0, 1, 2, 5, 5);
      && w2.Ok? && w2.value.index == 2
      && Written(w2.value.observations, 2, 4, -6, 4, 5, 5) == Ok(WriteOutcome(FixtureHalfRing(true), 3, 5))
  {
    var a0 := Observation(TWO_32 - 5, 0, 0, true);
    var a1 := Observation(TWO_32 - 2, -15, 204169420152563078078024764459060926873, true);
    var a2 := Observation(0, -13, 544451787073501541541399371890829138329, true);
    var a3 := Observation(4, -37, 884734153994440005004773979322597349785, true);
    GrownToFive(TWO_32 - 5);
    var p0 := [a0, RESERVED, RESERVED, RESERVED, RESERVED];
    var p1 := [a0, a1, RESERVED, RESERVED, RESERVED];
    WrittenInFive(p0, 0, TWO_32 - 2, -5, 5, 1, 3, 204169420152563078078024764459060926873, p1);
    var p2 := p1[2 := a2];
    WrittenInFive(p1, 1, 0, 1, 2, 5, 2, TWO_128, p2);
    var p3 := [a0, a1, a2, a3, RESERVED];
    WrittenInFive(p2, 2, 4, -6, 4, 5, 4, TWO_128, p3);
  }

  /** The last three writes of that fixture, after the wrap of the clock. */
  lemma WrappedFixtureLaterWritesVector()
    ensures var w4 := Written(FixtureHalfRing(true), 3, 5, -2, 4, 5, 5);
      && w4.Ok? && w4.value.index == 4 && w4.value.cardinality == 5
      && var w5 := Written(w4.value.observations, 4, 8, -2, 9, 5, 5);
      && w5.Ok? && w5.value.index == 0
      && var w6 := Written(w5.value.observations, 0, 14, 4, 2, 5, 5);
      && w6.Ok? && w6.value.index == 1 && w6.value.cardinality == 5
      && w6.value.observations[..5] == FixtureRing(true)[..5]
  {
    var a0 := Observation(TWO_32 - 5, 0, 0, true);
    var a1 := Observation(TWO_32 - 2, -15, 204169420152563078078024764459060926873, true);
    var a2 := Observation(0, -13, 544451787073501541541399371890829138329, true);
    var a3 := Observation(4, -37, 884734153994440005004773979322597349785, true);
    var a4 := Observation(5, -39, 969804745724674620870617631180539402649, true);
    var a5 := Observation(8, -45, 1083232201364987442025075833657795473134, true);
    var a6 := Observation(14, -21, 2104079302127802832415199655953100107502, true);
    var p3 := [a0, a1, a2, a3, RESERVED];
    var p4 := p3[4 := a4];
    WrittenInFive(p3, 3, 5, -2, 4, 5, 1, 85070591730234615865843651857942052864, p4);
    var p5 := p4[0 := a5];
    WrittenInFive(p4, 4, 8, -2, 9, 5, 3, 113427455640312821154458202477256070485, p5);
    WrittenInFive(p5, 0, 14, 4, 2, 5, 6, 3 * TWO_128, p5[1 := a6]);
  }

  /** The fixture ring in ring order: oldest in slot 2, newest in slot 1. */
  lemma FixtureRingOrder(wrapped: bool)
    ensures var obs := FixtureRing(wrapped);
      Ring(obs, 1, 5) == [obs[2], obs[3], obs[4], obs[0], obs[1]]
  {
  }

  /** Starting at time 5: at the time of the last write, the newest observation, the oldest one, and a second before the oldest. */
  lemma FixtureEndsVector()
    ensures ObserveSingleSpec(FixtureRing(false), 24, 0, 6, 1, 7, 5)
         == Ok(Cumulatives(-21, 2104079302127802832415199655953100107502))
    ensures ObserveSingleSpec(FixtureRing(false), 24, 14, 6, 1, 7, 5)
         == Ok(Cumulatives(-13, 544451787073501541541399371890829138329))
    ensures ObserveSingleSpec(FixtureRing(false), 24, 15, 6, 1, 7, 5) == Revert("OLD")
  {
    FixtureRingOrder(false);
  }

  /** Starting at time 5: halfway between the two newest observations, read at the time of the last write and 5 seconds later. */
  lemma FixtureInterpolationVector()
    ensures ObserveSingleSpec(FixtureRing(false), 24, 3, 6, 1, 7, 5)
         == Ok(Cumulatives(-33, 1593655751746395137220137744805447790318))
    ensures ObserveSingleSpec(FixtureRing(false), 29, 8, 6, 1, 7, 5)
         == Ok(Cumulatives(-33, 1593655751746395137220137744805447790318))
  {
    FixtureRingOrder(false);
    InterpolatedBy(Observation(18, -45, 1083232201364987442025075833657795473134, true), Observation(24, -21, 2104079302127802832415199655953100107502, true), 21, 6, 3, 4, 510423550381407695195061911147652317184);
  }

  /** Starting at time 5: 5 and 6 seconds after the last write, the newest observation, the current one, and the oldest edge. */
  lemma FixtureLaterVector()
    ensures ObserveSingleSpec(FixtureRing(false), 29, 5, 6, 1, 7, 5)
         == Ok(Cumulatives(-21, 2104079302127802832415199655953100107502))
    ensures ObserveSingleSpec(FixtureRing(false), 29, 0, 6, 1, 7, 5)
         == Ok(Cumulatives(9, 2347138135642758877746181518404363115684))
    ensures ObserveSingleSpec(FixtureRing(false), 29, 20, 6, 1, 7, 5) == Revert("OLD")
    ensures ObserveSingleSpec(FixtureRing(false), 30, 20, 6, 1, 7, 5)
         == Ok(Cumulatives(-13, 544451787073501541541399371890829138329))
  {
    FixtureRingOrder(false);
    TransformBy(Observation(24, -21, 2104079302127802832415199655953100107502, true), 29, 6, 7, 5, 243058833514956045330981862451263008182);
  }

  /** Starting at time 5: 6 seconds after the last write, 17 seconds ago lies between the two oldest observations. */
  lemma FixtureOldestBracketVector()
    ensures ObserveSingleSpec(FixtureRing(false), 30, 17, 6, 1, 7, 5)
         == Ok(Cumulatives(-31, 799663562264205389138930327464655296921))
  {
    FixtureRingOrder(false);
    InterpolatedBy(Observation(10, -13, 544451787073501541541399371890829138329, true), Observation(14, -37, 884734153994440005004773979322597349785, true), 13, 4, 3, -6, 255211775190703847597530955573826158592);
  }

  /** Starting at time 5: 6 seconds after the last write, 13 seconds ago lies between the third and fourth observations. */
  lemma FixtureMiddleBracketVector()
    ensures ObserveSingleSpec(FixtureRing(false), 30, 13, 6, 1, 7, 5)
         == Ok(Cumulatives(-43, 1045423049484883168306923099498710116305))
  {
    FixtureRingOrder(false);
    InterpolatedBy(Observation(15, -39, 969804745724674620870617631180539402649, true), Observation(18, -45, 1083232201364987442025075833657795473134, true), 17, 3, 2, -2, 75618303760208547436305468318170713656);
  }

  /** Starting at time 5: 6 seconds after the last write, 10 seconds ago lies between the two newest observations. */
  lemma FixtureNewestBracketVector()
    ensures ObserveSingleSpec(FixtureRing(false), 30, 10, 6, 1, 7, 5)
         == Ok(Cumulatives(-37, 1423514568285925905488450441089563684590))
  {
    FixtureRingOrder(false);
    InterpolatedBy(Observation(18, -45, 1083232201364987442025075833657795473134, true), Observation(24, -21, 2104079302127802832415199655953100107502, true), 20, 6, 2, 4, 340282366920938463463374607431768211456);
  }

  /** Starting at time 5: 6 seconds after the last write, the readings 5, 1 and 0 seconds ago are extrapolated from the newest observation. */
  lemma FixtureManyExtrapolationsVector()
    ensures ObserveSingleSpec(FixtureRing(false), 30, 5, 6, 1, 7, 5)
         == Ok(Cumulatives(-15, 2152691068830794041481396028443352709138))
    ensures ObserveSingleSpec(FixtureRing(false), 30, 1, 6, 1, 7, 5)
         == Ok(Cumulatives(9, 2347138135642758877746181518404363115684))
    ensures ObserveSingleSpec(FixtureRing(false), 30, 0, 6, 1, 7, 5)
         == Ok(Cumulatives(15, 2395749902345750086812377890894615717321))
  {
    FixtureRingOrder(false);
    TransformBy(Observation(24, -21, 2104079302127802832415199655953100107502, true), 25, 6, 7, 1, 48611766702991209066196372490252601636);
    TransformBy(Observation(24, -21, 2104079302127802832415199655953100107502, true), 29, 6, 7, 5, 243058833514956045330981862451263008182);
    TransformBy(Observation(24, -21, 2104079302127802832415199655953100107502, true), 30, 6, 7, 6, 291670600217947254397178234941515609819);
  }

  /** Starting at 2^32 - 5: at the time of the last write, the newest observation, the oldest one, and a second before the oldest. */
  lemma WrappedFixtureEndsVector()
    ensures ObserveSingleSpec(FixtureRing(true), 14, 0, 6, 1, 7, 5)
         == Ok(Cumulatives(-21, 2104079302127802832415199655953100107502))
    ensures ObserveSingleSpec(FixtureRing(true), 14, 14, 6, 1, 7, 5)
         == Ok(Cumulatives(-13, 544451787073501541541399371890829138329))
    ensures ObserveSingleSpec(FixtureRing(true), 14, 15, 6, 1, 7, 5) == Revert("OLD")
  {
    FixtureRingOrder(true);
  }

  /** Starting at 2^32 - 5: halfway between the two newest observations, read at the time of the last write and 5 seconds later. */
  lemma WrappedFixtureInterpolationVector()
    ensures ObserveSingleSpec(FixtureRing(true), 14, 3, 6, 1, 7, 5)
         == Ok(Cumulatives(-33, 1593655751746395137220137744805447790318))
    ensures ObserveSingleSpec(FixtureRing(true), 19, 8, 6, 1, 7, 5)
         == Ok(Cumulatives(-33, 1593655751746395137220137744805447790318))
  {
    FixtureRingOrder(true);
    InterpolatedBy(Observation(8, -45, 1083232201364987442025075833657795473134, true), Observation(14, -21, 2104079302127802832415199655953100107502, true), 11, 6, 3, 4, 510423550381407695195061911147652317184);
  }

  /** Starting at 2^32 - 5: 5 and 6 seconds after the last write, the newest observation, the current one, and the oldest edge. */
  lemma WrappedFixtureLaterVector()
    ensures ObserveSingleSpec(FixtureRing(true), 19, 5, 6, 1, 7, 5)
         == Ok(Cumulatives(-21, 2104079302127802832415199655953100107502))
    ensures ObserveSingleSpec(FixtureRing(true), 19, 0, 6, 1, 7, 5)
         == Ok(Cumulatives(9, 2347138135642758877746181518404363115684))
    ensures ObserveSingleSpec(FixtureRing(true), 19, 20, 6, 1, 7, 5) == Revert("OLD")
    ensures ObserveSingleSpec(FixtureRing(true), 20, 20, 6, 1, 7, 5)
         == Ok(Cumulatives(-13, 544451787073501541541399371890829138329))
  {
    FixtureRingOrder(true);
    TransformBy(Observation(14, -21, 2104079302127802832415199655953100107502, true), 19, 6, 7, 5, 243058833514956045330981862451263008182);
  }

  /** Starting at 2^32 - 5: 6 seconds after the last write, 17 seconds ago lies between the two oldest observations. */
  lemma WrappedFixtureOldestBracketVector()
    ensures ObserveSingleSpec(FixtureRing(true), 20, 17, 6, 1, 7, 5)
         == Ok(Cumulatives(-31, 799663562264205389138930327464655296921))
  {
    FixtureRingOrder(true);
    InterpolatedBy(Observation(0, -13, 544451787073501541541399371890829138329, true), Observation(4, -37, 884734153994440005004773979322597349785, true), 3, 4, 3, -6, 255211775190703847597530955573826158592);
  }

  /** Starting at 2^32 - 5: 6 seconds after the last write, 13 seconds ago lies between the third and fourth observations. */
  lemma WrappedFixtureMiddleBracketVector()
    ensures ObserveSingleSpec(FixtureRing(true), 20, 13, 6, 1, 7, 5)
         == Ok(Cumulatives(-43, 1045423049484883168306923099498710116305))
  {
    FixtureRingOrder(true);
    InterpolatedBy(Observation(5, -39, 969804745724674620870617631180539402649, true), Observation(8, -45, 1083232201364987442025075833657795473134, true), 7, 3, 2, -2, 75618303760208547436305468318170713656);
  }

  /** Starting at 2^32 - 5: 6 seconds after the last write, 10 seconds ago lies between the two newest observations. */
  lemma WrappedFixtureNewestBracketVector()
    ensures ObserveSingleSpec(FixtureRing(true), 20, 10, 6, 1, 7, 5)
         == Ok(Cumulatives(-37, 1423514568285925905488450441089563684590))
  {
    FixtureRingOrder(true);
    InterpolatedBy(Observation(8, -45, 1083232201364987442025075833657795473134, true), Observation(14, -21, 2104079302127802832415199655953100107502, true), 10, 6, 2, 4, 340282366920938463463374607431768211456);
  }

  /** Starting at 2^32 - 5: 6 seconds after the last write, the readings 5, 1 and 0 seconds ago are extrapolated from the newest observation. */
  lemma WrappedFixtureManyExtrapolationsVector()
    ensures ObserveSingleSpec(FixtureRing(true), 20, 5, 6, 1, 7, 5)
         == Ok(Cumulatives(-15, 2152691068830794041481396028443352709138))
    ensures ObserveSingleSpec(FixtureRing(true), 20, 1, 6, 1, 7, 5)
         == Ok(Cumulatives(9, 2347138135642758877746181518404363115684))
    ensures ObserveSingleSpec(FixtureRing(true), 20, 0, 6, 1, 7, 5)
         == Ok(Cumulatives(15, 2395749902345750086812377890894615717321))
  {
    FixtureRingOrder(true);
    TransformBy(Observation(14, -21, 2104079302127802832415199655953100107502, true), 15, 6, 7, 1, 48611766702991209066196372490252601636);
    TransformBy(Observation(14, -21, 2104079302127802832415199655953100107502, true), 19, 6, 7, 5, 243058833514956045330981862451263008182);
    TransformBy(Observation(14, -21, 2104079302127802832415199655953100107502, true), 20, 6, 7, 6, 291670600217947254397178234941515609819);
  }
}

/**
 * The price oracle of a pool: a ring buffer of up to 65535 observations of the
 * time-weighted accumulators (the tick accumulator and the seconds-per-liquidity
 * accumulator), written at most once per block timestamp and read back at any
 * number of seconds in the past, by extrapolation past the newest observation,
 * by an exact hit, or by interpolation between the two stored observations that
 * bracket the target time.
 *
 * The pure parts (the extrapolation `Transform`, the wrap-aware comparison
 * `Lte`, the interpolation) are functions; the buffer itself, with the test
 * contract's clock, tick and liquidity, is the class `ObservationBuffer`, whose
 * methods are proved against the state functions `Initialized`, `Grown` and
 * `Written` and the reading function `ObserveSingleSpec`.
 */
module Oracle {
  import opened Numeric

  /** The fixed length of the observation array. */
  const CAPACITY: int := 65535

  datatype Observation = Observation(
    blockTimestamp: Uint32,
    tickCumulative: Int56,
    secondsPerLiquidityCumulativeX128: Uint160,
    initialized: bool)

  /** A slot that was never touched. */
  const ZERO := Observation(0, 0, 0, false)

  /** The two accumulators read at one point in time. */
  datatype Cumulatives = Cumulatives(tickCumulative: Int56, secondsPerLiquidityCumulativeX128: Uint160)

  function Values(o: Observation): Cumulatives
  {
    Cumulatives(o.tickCumulative, o.secondsPerLiquidityCumulativeX128)
  }

  /**
   * `transform`: the observation `last` carried forward to `blockTimestamp`, with the tick
   * and the in-range liquidity held constant over the elapsed time. Zero liquidity counts as one.
   * The elapsed time is a uint32 difference, so it survives one wrap of the clock; the tick times
   * a uint32 always fits in an int56, only the sums wrap: modulo its width, each accumulator
   * advances by exactly the elapsed time times its rate.
   */
  function Transform(last: Observation, blockTimestamp: Uint32, tick: Int24, liquidity: Uint128): (next: Observation)
    ensures next.blockTimestamp == blockTimestamp && next.initialized
    ensures I56(next.tickCumulative - last.tickCumulative) == tick * U32(blockTimestamp - last.blockTimestamp)
    ensures U160(next.secondsPerLiquidityCumulativeX128 - last.secondsPerLiquidityCumulativeX128)
         == (U32(blockTimestamp - last.blockTimestamp) * TWO_128) / (if liquidity > 0 then liquidity else 1)
  {
    var delta := U32(blockTimestamp - last.blockTimestamp);
    TickAdvance(last.tickCumulative, tick, delta);
    SecondsPerLiquidityAdvance(last.secondsPerLiquidityCumulativeX128, liquidity, delta);
    Observation(
      blockTimestamp,
      TickAccumulated(last.tickCumulative, tick, delta),
      SecondsPerLiquidityAccumulated(last.secondsPerLiquidityCumulativeX128, liquidity, delta),
      true)
  }

  /** The tick accumulator advances by exactly the tick times the elapsed time, modulo 2^56. */
  lemma TickAdvance(c: Int56, tick: Int24, delta: Uint32)
    ensures I56(TickAccumulated(c, tick, delta) - c) == tick * delta
  {
    TickTimesDeltaFits(tick, delta);
    I56Advance(c, tick * delta);
  }

  /** The seconds-per-liquidity accumulator advances by exactly delta * 2^128 / liquidity, modulo 2^160. */
  lemma SecondsPerLiquidityAdvance(s: Uint160, liquidity: Uint128, delta: Uint32)
    ensures U160(SecondsPerLiquidityAccumulated(s, liquidity, delta) - s)
         == (delta * TWO_128) / (if liquidity > 0 then liquidity else 1)
  {
    SecondsPerLiquidityFits(delta, liquidity);
    U160Advance(s, (delta * TWO_128) / (if liquidity > 0 then liquidity else 1));
  }

  /** An unsigned accumulator that grows by less than its modulus gives the growth back as the wrapped difference. */
  lemma U160Advance(s: Uint160, q: int)
    requires 0 <= q < TWO_160
    ensures U160(U160(s + q) - s) == q
  {
    ModWrap(s + q, TWO_160);
    ModWrap(q, TWO_160);
    assert (q - TWO_160) % TWO_160 == q % TWO_160;
  }

  /** The same for the two's-complement int56 tick accumulator. */
  lemma I56Advance(c: Int56, p: int)
    requires -TWO_55 < p < TWO_55
    ensures I56(I56(c + p) - c) == p
  {
    I56OfSum(c + p, -(c as int));
    I56OfRange(p);
  }

  /** One uint32 elapsed time in units of 2^-128 per unit of liquidity fits in 160 bits. */
  lemma SecondsPerLiquidityFits(delta: Uint32, liquidity: Uint128)
    ensures 0 <= (delta * TWO_128) / (if liquidity > 0 then liquidity else 1) < TWO_160
  {
    var l := if liquidity > 0 then liquidity else 1;
    MulMonotone(TWO_128, delta, TWO_32 - 1);
    MulNonneg(delta, TWO_128);
    DivBounds(delta * TWO_128, l);
  }

  function TickAccumulated(tickCumulative: Int56, tick: Int24, delta: Uint32): Int56
  {
    I56(tickCumulative + tick * delta)
  }

  function SecondsPerLiquidityAccumulated(secondsPerLiquidity: Uint160, liquidity: Uint128, delta: Uint32): Uint160
  {
    U160(secondsPerLiquidity + (delta * TWO_128) / (if liquidity > 0 then liquidity else 1))
  }

  /**
   * The position of a uint32 timestamp on the time line that ends at `time`: a timestamp
   * after `time` is taken to lie before the last wrap of the clock.
   */
  function Adj(time: Uint32, x: Uint32): int
  {
    if x > time then x else x + TWO_32
  }

  /**
   * `lte`: a is at or before b, for two timestamps that are both at or before `time`, with the
   * clock wrapped at most once between them.
   */
  function Lte(time: Uint32, a: Uint32, b: Uint32): (r: bool)
    ensures r <==> Adj(time, a) <= Adj(time, b)
  {
    if a <= time && b <= time then a <= b
    else
      var aAdjusted := if a > time then a else a + TWO_32;
      var bAdjusted := if b > time then b else b + TWO_32;
      aAdjusted <= bAdjusted
  }

  /** Two timestamps with the same position are the same timestamp; `time` itself is the latest position. */
  lemma AdjInjective(time: Uint32, a: Uint32, b: Uint32)
    ensures Adj(time, a) == Adj(time, b) ==> a == b
    ensures Adj(time, a) <= Adj(time, time)
    ensures Adj(time, a) == Adj(time, time) ==> a == time
  {
  }

  /**
   * The counterfactual accumulators at `target`, strictly between `before` and `after`: the tick
   * accumulator grows by the average tick of the interval (a truncating int56 division), the
   * seconds-per-liquidity accumulator by its share of the interval. Two observations with the same
   * timestamp make the division by zero revert. For a target inside the pair, the interpolated
   * seconds-per-liquidity growth never exceeds the growth between the two observations.
   */
  function Interpolate(before: Observation, after: Observation, target: Uint32): (r: Result<Cumulatives>)
    ensures r.Revert? <==> before.blockTimestamp == after.blockTimestamp
    ensures r.Ok? && U32(target - before.blockTimestamp) <= U32(after.blockTimestamp - before.blockTimestamp) ==>
      U160(r.value.secondsPerLiquidityCumulativeX128 - before.secondsPerLiquidityCumulativeX128)
        <= U160(after.secondsPerLiquidityCumulativeX128 - before.secondsPerLiquidityCumulativeX128)
  {
    var observationTimeDelta := U32(after.blockTimestamp - before.blockTimestamp);
    var targetDelta := U32(target - before.blockTimestamp);
    U32Difference(after.blockTimestamp, before.blockTimestamp);
    if observationTimeDelta == 0 then Revert("")
    else
      SecondsPerLiquidityInterpolatedWithin(before.secondsPerLiquidityCumulativeX128, after.secondsPerLiquidityCumulativeX128,
                                            observationTimeDelta, targetDelta);
      Ok(Cumulatives(
        TickInterpolated(before.tickCumulative, after.tickCumulative, observationTimeDelta, targetDelta),
        SecondsPerLiquidityInterpolated(before.secondsPerLiquidityCumulativeX128, after.secondsPerLiquidityCumulativeX128,
                                        observationTimeDelta, targetDelta)))
  }

  function TickInterpolated(before: Int56, after: Int56, observationTimeDelta: Uint32, targetDelta: Uint32): Int56
    requires observationTimeDelta > 0
  {
    I56(before + I56(Quot(I56(after - before), observationTimeDelta) * targetDelta))
  }

  function SecondsPerLiquidityInterpolated(before: Uint160, after: Uint160, observationTimeDelta: Uint32, targetDelta: Uint32): Uint160
    requires observationTimeDelta > 0
  {
    U160(before + U160((U160(after - before) * targetDelta) / observationTimeDelta))
  }

  /** Interpolating at a time inside the pair adds at most the growth between the pair. */
  lemma SecondsPerLiquidityInterpolatedWithin(before: Uint160, after: Uint160, observationTimeDelta: Uint32, targetDelta: Uint32)
    requires observationTimeDelta > 0
    ensures targetDelta <= observationTimeDelta ==>
      U160(SecondsPerLiquidityInterpolated(before, after, observationTimeDelta, targetDelta) - before) <= U160(after - before)
  {
    if targetDelta <= observationTimeDelta {
      var d := U160(after - before);
      var x := (d * targetDelta) / observationTimeDelta;
      assert 0 <= x <= d by {
        ScaledAtMost(d, targetDelta, observationTimeDelta);
      }
      assert SecondsPerLiquidityInterpolated(before, after, observationTimeDelta, targetDelta) == U160(before + x) by {
        assert U160(x) == x;
      }
      U160Advance(before, x);
    }
  }

  /** A share t / o of d, rounded down, is at most d when t <= o. */
  lemma ScaledAtMost(d: nat, t: nat, o: nat)
    requires 0 < o && t <= o
    ensures 0 <= (d * t) / o <= d
  {
    MulNonneg(d, t);
    var x := (d * t) / o;
    DivBounds(d * t, o);
    assert d * t == o * x + (d * t) % o;
    MulMonotone(d, t, o);
    if x > d {
      MulMonotone(o, d + 1, x);
    }
  }

  /** The reading at `target` from a bracketing pair: an exact hit on either end, or the interpolation. */
  function Between(before: Observation, after: Observation, target: Uint32): Result<Cumulatives>
  {
    if target == before.blockTimestamp then Ok(Values(before))
    else if target == after.blockTimestamp then Ok(Values(after))
    else Interpolate(before, after, target)
  }

  lemma ModWrap(x: int, n: int)
    requires 0 < n && 0 <= x < 2 * n
    ensures x % n == if x < n then x else x - n
  {
    if x < n {
      DivUnique(x, n, 0);
    } else {
      DivUnique(x, n, 1);
    }
    assert x == n * (x / n) + x % n;
  }

  /** The first `card` slots in ring order, oldest first: the slot after `index` up to `index` itself. */
  function Ring(obs: seq<Observation>, index: int, card: int): (R: seq<Observation>)
    requires 0 <= index < card <= |obs|
    ensures |R| == card && R[card - 1] == obs[index]
  {
    ModWrap(index + 1, card);
    ModWrap((index + 1) % card + card - 1, card);
    var oldest := (index + 1) % card;
    seq(card, k requires 0 <= k < card => obs[(oldest + k) % card])
  }

  /** The slot `observeSingle` reads as the oldest observation: the next slot, or slot 0 if that one was never written. */
  function Oldest(obs: seq<Observation>, index: int, card: int): Observation
    requires 0 <= index < card <= |obs|
  {
    ModWrap(index + 1, card);
    var next := obs[(index + 1) % card];
    if next.initialized then next else obs[0]
  }

  /**
   * The stored observations are in chronological order along the ring, as the time line that
   * ends at `time` places them: this is what the wrap-aware comparison needs to be right, and
   * it holds as long as no stored observation is more than one clock wrap old.
   */
  ghost predicate Chronological(R: seq<Observation>, time: Uint32)
  {
    forall j, k {:trigger InOrder(R, time, j, k)} :: InOrder(R, time, j, k)
  }

  /** Two written observations of the ring, in ring order, are in time order. */
  ghost predicate InOrder(R: seq<Observation>, time: Uint32, j: int, k: int)
  {
    0 <= j < k < |R| && R[j].initialized && R[k].initialized ==>
      Adj(time, R[j].blockTimestamp) < Adj(time, R[k].blockTimestamp)
  }

  predicate AtOrBefore(o: Observation, time: Uint32, target: Uint32)
  {
    o.initialized && Adj(time, o.blockTimestamp) <= Adj(time, target)
  }

  /** Zero in-range liquidity accumulates seconds per liquidity as if the liquidity were one. */
  lemma TransformZeroLiquidityAsOne(last: Observation, blockTimestamp: Uint32, tick: Int24)
    ensures Transform(last, blockTimestamp, tick, 0) == Transform(last, blockTimestamp, tick, 1)
  {
  }

  /** The tick times the elapsed time always fits in an int56. */
  lemma TickTimesDeltaFits(tick: Int24, delta: Uint32)
    ensures -TWO_55 < tick * delta < TWO_55
  {
    var t: int := tick;
    if t >= 0 {
      MulMonotone(delta, t, 0x7F_FFFF);
      MulMonotone(0x7F_FFFF, delta, 0xFFFF_FFFF);
      MulNonneg(delta, t);
    } else {
      MulMonotone(delta, -t, 0x80_0000);
      MulMonotone(0x80_0000, delta, 0xFFFF_FFFF);
      MulNonneg(delta, -t);
    }
  }

  /** An int56 wrap of a sum only depends on the wrapped summands. */
  lemma I56OfSum(x: int, y: int)
    ensures I56(I56(x) + y) == I56(x + y)
  {
  }

  /** The uint32 difference of two timestamps, as the elapsed time. */
  lemma U32Difference(a: Uint32, b: Uint32)
    ensures U32(a - b) == if a >= b then a - b else a - b + TWO_32
  {
    if a >= b {
      ModWrap(a - b, TWO_32);
    } else {
      ModWrap(a - b + TWO_32, TWO_32);
      assert (a - b + TWO_32) % TWO_32 == (a - b) % TWO_32;
    }
  }

  /**
   * Carrying the tick accumulator forward (the tick part of `Transform`) from t0 to t1 and then
   * to t2 with the same tick gives the same as one step from t0 to t2, as long as the clock has
   * not wrapped past t0 on the way.
   */
  lemma TickAccumulatedAcross(c: Int56, t0: Uint32, t1: Uint32, t2: Uint32, tick: Int24)
    requires U32(t1 - t0) + U32(t2 - t1) < TWO_32
    ensures TickAccumulated(TickAccumulated(c, tick, U32(t1 - t0)), tick, U32(t2 - t1)) == TickAccumulated(c, tick, U32(t2 - t0))
  {
    ElapsedAdds(t0, t1, t2);
    TickAccumulatedTwice(c, tick, U32(t1 - t0), U32(t2 - t1), U32(t2 - t0));
  }

  /** Elapsed times along the clock add up, as long as together they stay within one wrap. */
  lemma ElapsedAdds(t0: Uint32, t1: Uint32, t2: Uint32)
    requires U32(t1 - t0) + U32(t2 - t1) < TWO_32
    ensures U32(t2 - t0) == U32(t1 - t0) + U32(t2 - t1)
  {
    U32Difference(t1, t0);
    U32Difference(t2, t1);
    U32Difference(t2, t0);
  }

  lemma TickAccumulatedTwice(c: Int56, tick: Int24, d1: Uint32, d2: Uint32, d: Uint32)
    requires d == d1 + d2
    ensures TickAccumulated(TickAccumulated(c, tick, d1), tick, d2) == TickAccumulated(c, tick, d)
  {
    assert tick * d1 + tick * d2 == tick * d;
    I56OfSum(c + tick * d1, tick * d2);
  }

  /**
   * Interpolating between an observation and its own extrapolation with a constant tick gives
   * back that tick exactly: the interpolated tick accumulator at any time strictly in between
   * equals the extrapolated one.
   */
  lemma InterpolationMatchesTransform(before: Observation, t: Uint32, target: Uint32, tick: Int24, liquidity: Uint128)
    requires 0 < U32(target - before.blockTimestamp) < U32(t - before.blockTimestamp)
    ensures Interpolate(before, Transform(before, t, tick, liquidity), target).Ok?
    ensures Interpolate(before, Transform(before, t, tick, liquidity), target).value.tickCumulative
         == Transform(before, target, tick, liquidity).tickCumulative
  {
    var delta := U32(t - before.blockTimestamp);
    var targetDelta := U32(target - before.blockTimestamp);
    TickInterpolatedOfConstantTick(before.tickCumulative, tick, delta, targetDelta);
  }

  lemma TickInterpolatedOfConstantTick(c: Int56, tick: Int24, delta: Uint32, targetDelta: Uint32)
    requires 0 < delta
    ensures TickInterpolated(c, TickAccumulated(c, tick, delta), delta, targetDelta) == TickAccumulated(c, tick, targetDelta)
  {
    var p: int := tick * delta;
    var q: int := tick * targetDelta;
    assert I56(TickAccumulated(c, tick, delta) - c) == p by {
      TickTimesDeltaFits(tick, delta);
      I56OfSum(c + p, -(c as int));
      I56OfRange(p);
    }
    assert Quot(p, delta) == tick by {
      var t: int := tick;
      if t >= 0 {
        DivOfProduct(delta, t);
      } else {
        DivOfProduct(delta, -t);
        assert -p == delta * -t;
      }
    }
    assert I56(q) == q by {
      TickTimesDeltaFits(tick, targetDelta);
      I56OfRange(q);
    }
  }

  lemma I56OfRange(x: int)
    requires -TWO_55 <= x < TWO_55
    ensures I56(x) == x
  {
    ModWrap(x + TWO_55, TWO_56);
  }

  /**
   * The linear reference for the binary search: the last position below `n` in ring order that
   * holds an observation at or before the target, or -1.
   */
  function LastAtOrBefore(R: seq<Observation>, time: Uint32, target: Uint32, n: nat): (k: int)
    requires n <= |R|
    ensures -1 <= k < n
    ensures k >= 0 ==> AtOrBefore(R[k], time, target)
    ensures forall j :: k < j < n ==> !AtOrBefore(R[j], time, target)
  {
    if n == 0 then -1
    else if AtOrBefore(R[n - 1], time, target) then n - 1
    else LastAtOrBefore(R, time, target, n - 1)
  }

  /**
   * `observeSingle` as a specification: the accumulators `secondsAgo` seconds before `time`,
   * read from the ring of the first `card` slots. Zero seconds ago reads the newest
   * observation, carried forward to `time`; a target after the newest observation is
   * extrapolated from it with the current tick and liquidity, whatever the older slots hold.
   */
  function ObserveSingleSpec(obs: seq<Observation>, time: Uint32, secondsAgo: Uint32, tick: Int24,
                             index: int, liquidity: Uint128, card: int): (r: Result<Cumulatives>)
    requires 0 <= index < card <= |obs|
    ensures secondsAgo == 0 ==>
      r == Ok(Values(if obs[index].blockTimestamp != time then Transform(obs[index], time, tick, liquidity) else obs[index]))
    ensures Adj(time, obs[index].blockTimestamp) < Adj(time, Target(time, secondsAgo)) ==>
      r == Ok(Values(Transform(obs[index], Target(time, secondsAgo), tick, liquidity)))
  {
    ReadRing(Ring(obs, index, card), Oldest(obs, index, card), time, secondsAgo, tick, liquidity)
  }

  /**
   * A reading from a ring, oldest slot first and newest last. Zero seconds ago reads the newest
   * observation, carried forward to `time` if it is older. A target at or after the newest
   * observation is extrapolated from it with the current tick and liquidity; a target before
   * `oldest` reverts with "OLD"; any other target is read from the last observation at or before
   * it and the one after that.
   */
  function ReadRing(R: seq<Observation>, oldest: Observation, time: Uint32, secondsAgo: Uint32, tick: Int24,
                    liquidity: Uint128): Result<Cumulatives>
    requires |R| > 0
  {
    var newest := R[|R| - 1];
    if secondsAgo == 0 then
      Ok(Values(if newest.blockTimestamp != time then Transform(newest, time, tick, liquidity) else newest))
    else
      var target := U32(time - secondsAgo);
      if Lte(time, newest.blockTimestamp, target) then
        Ok(Values(if newest.blockTimestamp == target then newest else Transform(newest, target, tick, liquidity)))
      else if !Lte(time, oldest.blockTimestamp, target) then
        Revert("OLD")
      else
        var k := LastAtOrBefore(R, time, target, |R|);
        if 0 <= k < |R| - 1 then Between(R[k], R[k + 1], target) else Revert("")
  }

  /**
   * The shape of the buffer between calls. Slots up to `index` are written; the slots after
   * `index` up to the cardinality are either all written (the ring has wrapped) or all still
   * unwritten (the ring grew and has not reached them yet); no slot at or past the cardinality
   * holds an observation, and no slot at or past the next cardinality was ever touched.
   */
  ghost predicate Shaped(obs: seq<Observation>, index: int, card: int, cardNext: int)
  {
    |obs| == CAPACITY && 0 <= card <= cardNext <= CAPACITY
    && (card == 0 ==> cardNext == 0 && index == 0)
    && (card > 0 ==> 0 <= index < card)
    && (forall k :: 0 <= k <= index && k < card ==> obs[k].initialized)
    && (forall k :: index < k < card ==> obs[k].initialized == obs[card - 1].initialized)
    && (forall k :: card <= k < CAPACITY ==> !obs[k].initialized)
    && (forall k :: cardNext <= k < CAPACITY ==> obs[k] == ZERO)
  }

  /**
   * `initialize`: the first observation, at `time` with both accumulators at zero. Initializing
   * an untouched buffer gives a ring of one written slot.
   */
  function Initialized(obs: seq<Observation>, time: Uint32): (r: seq<Observation>)
    requires |obs| > 0
    ensures Shaped(obs, 0, 0, 0) ==> Shaped(r, 0, 1, 1) && Ring(r, 0, 1) == [Observation(time, 0, 0, true)]
  {
    obs[0 := Observation(time, 0, 0, true)]
  }

  datatype GrowOutcome = GrowOutcome(observations: seq<Observation>, cardinalityNext: int)

  /**
   * `grow`: reserve the slots from `current` up to `next` by writing a timestamp of 1 into each
   * of them, so that the first real write to such a slot does not pay for a fresh storage slot.
   * It reverts with "I" exactly before initialization, and otherwise only ever raises the next
   * cardinality and leaves every slot outside the reserved range alone.
   */
  function Grown(obs: seq<Observation>, current: int, next: Uint16): (r: Result<GrowOutcome>)
    requires 0 <= current
    ensures r.Revert? <==> current == 0
    ensures r.Revert? ==> r.reason == "I"
    ensures r.Ok? ==>
      && r.value.cardinalityNext == (if next > current then next else current)
      && |r.value.observations| == |obs|
      && (forall k :: 0 <= k < |obs| && !(current <= k < next) ==> r.value.observations[k] == obs[k])
  {
    if current == 0 then Revert("I")
    else if next <= current then Ok(GrowOutcome(obs, current))
    else Ok(GrowOutcome(
      seq(|obs|, k requires 0 <= k < |obs| => if current <= k < next then obs[k].(blockTimestamp := 1) else obs[k]),
      next))
  }

  /**
   * On a buffer of the right shape each newly reserved slot reads {timestamp 1, zero
   * accumulators, not initialized}, and the buffer keeps its shape.
   */
  lemma GrowSpec(obs: seq<Observation>, index: int, card: int, current: int, next: Uint16)
    requires Shaped(obs, index, card, current)
    ensures Grown(obs, current, next).Ok? ==>
      var g := Grown(obs, current, next).value;
      && Shaped(g.observations, index, card, g.cardinalityNext)
      && (forall k :: current <= k < next ==> g.observations[k] == Observation(1, 0, 0, false))
  {
  }

  datatype WriteOutcome = WriteOutcome(observations: seq<Observation>, index: int, cardinality: int)

  /**
   * `write`: at most one observation per block timestamp. A new one goes into the slot after
   * `index`, carried forward from the newest; the ring takes on the next cardinality only when
   * the write would otherwise wrap to slot 0. With no cardinality at all the modulo by zero reverts.
   * A write in the block of the newest observation changes nothing. A write in a new block moves to
   * the next slot of the ring, wrapping to slot 0 at the end, except that a ring which is due to
   * grow takes the first new slot instead; the new slot holds the newest observation carried
   * forward, and every other slot is unchanged.
   */
  function Written(obs: seq<Observation>, index: int, blockTimestamp: Uint32, tick: Int24, liquidity: Uint128,
                   card: int, cardNext: int): (r: Result<WriteOutcome>)
    requires 0 <= index < |obs| && 0 <= card <= cardNext <= |obs|
    ensures obs[index].blockTimestamp == blockTimestamp ==> r == Ok(WriteOutcome(obs, index, card))
    ensures obs[index].blockTimestamp != blockTimestamp ==> (r.Revert? <==> card == 0)
    ensures obs[index].blockTimestamp != blockTimestamp && r.Ok? && index < card ==>
      var w := r.value;
      && w.cardinality == (if index == card - 1 && cardNext > card then cardNext else card)
      && w.index == (if index + 1 < w.cardinality then index + 1 else 0)
      && |w.observations| == |obs|
      && w.observations[w.index] == Transform(obs[index], blockTimestamp, tick, liquidity)
      && (forall k :: 0 <= k < |obs| && k != w.index ==> w.observations[k] == obs[k])
  {
    var last := obs[index];
    if last.blockTimestamp == blockTimestamp then Ok(WriteOutcome(obs, index, card))
    else
      var cardinalityUpdated := if cardNext > card && index == card - 1 then cardNext else card;
      if cardinalityUpdated == 0 then Revert("")
      else
        var indexUpdated := (index + 1) % cardinalityUpdated;
        NextSlot(index, cardinalityUpdated);
        Ok(WriteOutcome(obs[indexUpdated := Transform(last, blockTimestamp, tick, liquidity)], indexUpdated, cardinalityUpdated))
  }

  /** The slot after `index` in a ring of `c` slots. */
  lemma NextSlot(index: nat, c: int)
    requires 0 < c
    ensures index < c ==> (index + 1) % c == if index + 1 < c then index + 1 else 0
  {
    if index < c {
      ModWrap(index + 1, c);
    }
  }

  /** A write in a new block to a buffer of the right shape succeeds and keeps the shape. */
  lemma WriteAdvances(obs: seq<Observation>, index: int, t: Uint32, tick: Int24, liquidity: Uint128, card: int, cardNext: int)
    requires Shaped(obs, index, card, cardNext) && card > 0 && obs[index].blockTimestamp != t
    ensures Written(obs, index, t, tick, liquidity, card, cardNext).Ok?
    ensures var w := Written(obs, index, t, tick, liquidity, card, cardNext).value;
      Shaped(w.observations, w.index, w.cardinality, cardNext)
  {
    var c := if cardNext > card && index == card - 1 then cardNext else card;
    ModWrap(index + 1, c);
  }

  /** The position in ring order of the slot `observeSingle` reads as oldest. */
  function OldestPosition(obs: seq<Observation>, index: int, card: int): int
    requires 0 <= index < card <= |obs|
  {
    ModWrap(index + 1, card);
    if obs[(index + 1) % card].initialized then 0 else card - 1 - index
  }

  /**
   * In a buffer of the right shape the ring holds a run of unwritten slots followed by the
   * written ones, and the slot read as oldest is the first written one.
   */
  lemma RingOfShaped(obs: seq<Observation>, index: int, card: int, cardNext: int)
    requires Shaped(obs, index, card, cardNext) && card > 0
    ensures Readable(obs, index, card)
  {
    var R := Ring(obs, index, card);
    ModWrap(index + 1, card);
    var oldest := (index + 1) % card;
    forall k | 0 <= k < card
      ensures R[k] == obs[if index + 1 + k < card then index + 1 + k else index + 1 + k - card]
    {
      ModWrap(oldest + k, card);
    }
    if index + 1 < card {
      ModWrap(card - 1 - index + oldest, card);
    }
  }

  /** The ring holds a run of unwritten slots and then, from `pos` on, only written ones. */
  ghost predicate WrittenFrom(R: seq<Observation>, pos: int)
  {
    0 <= pos < |R| && forall k :: 0 <= k < |R| ==> (R[k].initialized <==> pos <= k)
  }

  /** Along a chronological ring every written observation is strictly older than each written one after it. */
  lemma OlderThanLater(R: seq<Observation>, time: Uint32, m: int)
    requires Chronological(R, time) && 0 <= m < |R| && R[m].initialized
    ensures forall j :: m < j < |R| && R[j].initialized ==>
      Adj(time, R[m].blockTimestamp) < Adj(time, R[j].blockTimestamp)
  {
    forall j | m < j < |R| && R[j].initialized
      ensures Adj(time, R[m].blockTimestamp) < Adj(time, R[j].blockTimestamp)
    {
      assert InOrder(R, time, m, j);
    }
  }

  /**
   * The landing place of the search: the last observation at or before the target is the
   * given one, provided it is at or before the target and its successor is after it.
   */
  lemma LastAtOrBeforeIs(R: seq<Observation>, time: Uint32, target: Uint32, pos: int, m: int)
    requires Chronological(R, time) && WrittenFrom(R, pos)
    requires pos <= m < |R| - 1 && Adj(time, R[m].blockTimestamp) <= Adj(time, target) < Adj(time, R[m + 1].blockTimestamp)
    ensures LastAtOrBefore(R, time, target, |R|) == m
  {
    OlderThanLater(R, time, m + 1);
  }

  /**
   * Under the chronological order the binary search has a landing place: the last observation
   * at or before the target sits at or after the oldest and before the newest, the one after
   * it is written and strictly after the target, and the reading from that pair does not revert.
   */
  lemma SearchBracket(R: seq<Observation>, time: Uint32, target: Uint32, pos: int)
    requires Chronological(R, time) && WrittenFrom(R, pos)
    requires AtOrBefore(R[pos], time, target) && !AtOrBefore(R[|R| - 1], time, target)
    ensures var k := LastAtOrBefore(R, time, target, |R|);
      && pos <= k < |R| - 1
      && AtOrBefore(R[k], time, target)
      && R[k + 1].initialized && Adj(time, target) < Adj(time, R[k + 1].blockTimestamp)
      && Between(R[k], R[k + 1], target).Ok?
  {
    var k := LastAtOrBefore(R, time, target, |R|);
    assert pos <= k;
    OlderThanLater(R, time, k);
    var before, after := R[k], R[k + 1];
    assert Adj(time, before.blockTimestamp) < Adj(time, after.blockTimestamp);
  }

  /** What a reading at `secondsAgo` looks for: `time` itself for zero, otherwise the wrapped difference. */
  function Target(time: Uint32, secondsAgo: Uint32): Uint32
  {
    if secondsAgo == 0 then time else U32(time - secondsAgo)
  }

  /**
   * A reading reverts exactly when it asks for a time before every stored observation, and
   * then the reason is "OLD"; zero seconds ago never reverts.
   */
  lemma RingRevertsOnlyWhenOld(R: seq<Observation>, pos: int, time: Uint32, secondsAgo: Uint32, tick: Int24,
                               liquidity: Uint128)
    requires Chronological(R, time) && WrittenFrom(R, pos)
    ensures var r := ReadRing(R, R[pos], time, secondsAgo, tick, liquidity);
      && (r.Revert? <==>
            (secondsAgo != 0
             && forall k :: 0 <= k < |R| && R[k].initialized ==>
                  Adj(time, Target(time, secondsAgo)) < Adj(time, R[k].blockTimestamp)))
      && (r.Revert? ==> r.reason == "OLD")
  {
    OlderThanLater(R, time, pos);
    var target := Target(time, secondsAgo);
    if secondsAgo != 0 && AtOrBefore(R[pos], time, target) && !AtOrBefore(R[|R| - 1], time, target) {
      SearchBracket(R, time, target, pos);
    }
  }

  /** Asked for exactly the time of a stored observation, a reading returns that observation's accumulators. */
  lemma RingExactHit(R: seq<Observation>, pos: int, time: Uint32, secondsAgo: Uint32, tick: Int24,
                     liquidity: Uint128, m: int)
    requires Chronological(R, time) && WrittenFrom(R, pos)
    requires 0 <= m < |R| && R[m].initialized && R[m].blockTimestamp == Target(time, secondsAgo)
    ensures ReadRing(R, R[pos], time, secondsAgo, tick, liquidity) == Ok(Values(R[m]))
  {
    var last := |R| - 1;
    if m < last {
      ExactHitBeforeNewest(R, pos, time, secondsAgo, m);
    }
  }

  /** The part of `RingExactHit` where the hit is not the newest slot: the search lands on it. */
  lemma ExactHitBeforeNewest(R: seq<Observation>, pos: int, time: Uint32, secondsAgo: Uint32, m: int)
    requires Chronological(R, time) && WrittenFrom(R, pos)
    requires 0 <= m < |R| - 1 && R[m].initialized && R[m].blockTimestamp == Target(time, secondsAgo)
    ensures secondsAgo != 0
    ensures !Lte(time, R[|R| - 1].blockTimestamp, Target(time, secondsAgo))
    ensures Lte(time, R[pos].blockTimestamp, Target(time, secondsAgo))
    ensures LastAtOrBefore(R, time, Target(time, secondsAgo), |R|) == m
  {
    var target := Target(time, secondsAgo);
    var last := |R| - 1;
    OlderThanLater(R, time, pos);
    OlderThanLater(R, time, m);
    AdjInjective(time, R[last].blockTimestamp, target);
    LastAtOrBeforeIs(R, time, target, pos, m);
  }

  /**
   * Asked for a time strictly between two neighbouring observations, a reading interpolates
   * between exactly those two, and does not revert.
   */
  lemma RingInterpolates(R: seq<Observation>, pos: int, time: Uint32, secondsAgo: Uint32, tick: Int24,
                         liquidity: Uint128, m: int)
    requires Chronological(R, time) && WrittenFrom(R, pos)
    requires 0 <= m < |R| - 1 && R[m].initialized
    requires Adj(time, R[m].blockTimestamp) < Adj(time, Target(time, secondsAgo)) < Adj(time, R[m + 1].blockTimestamp)
    ensures ReadRing(R, R[pos], time, secondsAgo, tick, liquidity) == Interpolate(R[m], R[m + 1], Target(time, secondsAgo))
    ensures Interpolate(R[m], R[m + 1], Target(time, secondsAgo)).Ok?
  {
    var target := Target(time, secondsAgo);
    AdjInjective(time, time, time);
    OlderThanLater(R, time, pos);
    OlderThanLater(R, time, m + 1);
    LastAtOrBeforeIs(R, time, target, pos, m);
    SearchBracket(R, time, target, pos);
  }

  /**
   * Reading the buffer: it reverts exactly when the target is older than every stored
   * observation, with "OLD", and never for zero seconds ago.
   */
  lemma ObserveRevertsOnlyWhenOld(obs: seq<Observation>, time: Uint32, secondsAgo: Uint32, tick: Int24,
                                  index: int, liquidity: Uint128, card: int, cardNext: int)
    requires Shaped(obs, index, card, cardNext) && card > 0 && Chronological(Ring(obs, index, card), time)
    ensures var r := ObserveSingleSpec(obs, time, secondsAgo, tick, index, liquidity, card);
      var R := Ring(obs, index, card);
      && (r.Revert? <==>
            (secondsAgo != 0
             && forall k :: 0 <= k < card && R[k].initialized ==>
                  Adj(time, Target(time, secondsAgo)) < Adj(time, R[k].blockTimestamp)))
      && (r.Revert? ==> r.reason == "OLD")
  {
    RingOfShaped(obs, index, card, cardNext);
    RingRevertsOnlyWhenOld(Ring(obs, index, card), OldestPosition(obs, index, card), time, secondsAgo, tick, liquidity);
  }

  /** Reading the buffer at exactly the time of a stored observation returns that observation's accumulators. */
  lemma ObserveExactHit(obs: seq<Observation>, time: Uint32, secondsAgo: Uint32, tick: Int24,
                        index: int, liquidity: Uint128, card: int, cardNext: int, m: int)
    requires Shaped(obs, index, card, cardNext) && card > 0 && Chronological(Ring(obs, index, card), time)
    requires 0 <= m < card && Ring(obs, index, card)[m].initialized
    requires Ring(obs, index, card)[m].blockTimestamp == Target(time, secondsAgo)
    ensures ObserveSingleSpec(obs, time, secondsAgo, tick, index, liquidity, card) == Ok(Values(Ring(obs, index, card)[m]))
  {
    RingOfShaped(obs, index, card, cardNext);
    RingExactHit(Ring(obs, index, card), OldestPosition(obs, index, card), time, secondsAgo, tick, liquidity, m);
  }

  /** Reading the buffer strictly between two neighbouring observations interpolates between those two. */
  lemma ObserveInterpolates(obs: seq<Observation>, time: Uint32, secondsAgo: Uint32, tick: Int24,
                            index: int, liquidity: Uint128, card: int, cardNext: int, m: int)
    requires Shaped(obs, index, card, cardNext) && card > 0 && Chronological(Ring(obs, index, card), time)
    requires 0 <= m < card - 1 && Ring(obs, index, card)[m].initialized
    requires Adj(time, Ring(obs, index, card)[m].blockTimestamp) < Adj(time, Target(time, secondsAgo))
               < Adj(time, Ring(obs, index, card)[m + 1].blockTimestamp)
    ensures var R := Ring(obs, index, card);
      && ObserveSingleSpec(obs, time, secondsAgo, tick, index, liquidity, card) == Interpolate(R[m], R[m + 1], Target(time, secondsAgo))
      && Interpolate(R[m], R[m + 1], Target(time, secondsAgo)).Ok?
  {
    RingOfShaped(obs, index, card, cardNext);
    RingInterpolates(Ring(obs, index, card), OldestPosition(obs, index, card), time, secondsAgo, tick, liquidity, m);
  }
  /**
   * Any bracketing pair the binary search may land on gives the same reading as the pair the
   * linear reference finds: they differ only when the target is exactly the time of the
   * observation between them, and both pairs then read that observation.
   */
  lemma BracketReading(R: seq<Observation>, pos: int, time: Uint32, target: Uint32, k: int)
    requires Chronological(R, time) && WrittenFrom(R, pos)
    requires 0 <= k < |R| - 1 && R[k].initialized
    requires Adj(time, R[k].blockTimestamp) <= Adj(time, target) <= Adj(time, R[k + 1].blockTimestamp)
    requires !AtOrBefore(R[|R| - 1], time, target)
    ensures var j := LastAtOrBefore(R, time, target, |R|);
      0 <= j < |R| - 1 && Between(R[k], R[k + 1], target) == Between(R[j], R[j + 1], target)
  {
    OlderThanLater(R, time, k);
    if Adj(time, target) < Adj(time, R[k + 1].blockTimestamp) {
      LastAtOrBeforeIs(R, time, target, pos, k);
    } else {
      AdjInjective(time, target, R[k + 1].blockTimestamp);
      OlderThanLater(R, time, k + 1);
      LastAtOrBeforeIs(R, time, target, pos, k + 1);
    }
  }

  /** Zero seconds ago reads the newest slot, carried forward to `time` when it is older. */
  lemma ReadingNow(obs: seq<Observation>, time: Uint32, tick: Int24, index: int, liquidity: Uint128, card: int)
    requires 0 <= index < card <= |obs|
    ensures ObserveSingleSpec(obs, time, 0, tick, index, liquidity, card)
         == Ok(Values(if obs[index].blockTimestamp != time then Transform(obs[index], time, tick, liquidity) else obs[index]))
  {
    assert Ring(obs, index, card)[card - 1] == obs[index];
  }

  /** A target at or after the newest slot is read from the pair the newest slot and its extrapolation make. */
  lemma ReadingRecent(obs: seq<Observation>, time: Uint32, secondsAgo: Uint32, tick: Int24, index: int,
                      liquidity: Uint128, card: int)
    requires 0 <= index < card <= |obs| && secondsAgo != 0
    requires Lte(time, obs[index].blockTimestamp, U32(time - secondsAgo))
    ensures var target := U32(time - secondsAgo);
      ObserveSingleSpec(obs, time, secondsAgo, tick, index, liquidity, card)
      == Between(obs[index], if obs[index].blockTimestamp != target then Transform(obs[index], target, tick, liquidity) else ZERO, target)
  {
    assert Ring(obs, index, card)[card - 1] == obs[index];
  }

  /** A target before both the newest and the oldest slot reverts with "OLD". */
  lemma ReadingTooOld(obs: seq<Observation>, time: Uint32, secondsAgo: Uint32, tick: Int24, index: int,
                      liquidity: Uint128, card: int)
    requires 0 <= index < card <= |obs| && secondsAgo != 0
    requires !Lte(time, obs[index].blockTimestamp, U32(time - secondsAgo))
    requires !Lte(time, Oldest(obs, index, card).blockTimestamp, U32(time - secondsAgo))
    ensures ObserveSingleSpec(obs, time, secondsAgo, tick, index, liquidity, card) == Revert("OLD")
  {
    assert Ring(obs, index, card)[card - 1] == obs[index];
  }

  /**
   * A reading depends only on the slots inside the cardinality: the slots `grow` reserved beyond
   * it, whatever they hold, do not change any reading.
   */
  lemma ReadingIgnoresReserved(obs: seq<Observation>, other: seq<Observation>, time: Uint32, secondsAgo: Uint32,
                               tick: Int24, index: int, liquidity: Uint128, card: int)
    requires 0 <= index < card <= |obs| && card <= |other| && obs[..card] == other[..card]
    ensures ObserveSingleSpec(obs, time, secondsAgo, tick, index, liquidity, card)
         == ObserveSingleSpec(other, time, secondsAgo, tick, index, liquidity, card)
  {
    forall k | 0 <= k < card
      ensures obs[k] == other[k]
    {
      assert obs[k] == obs[..card][k] && other[k] == other[..card][k];
    }
    assert Ring(obs, index, card) == Ring(other, index, card);
  }

  /** The ring has a written suffix starting at its oldest slot, which is the slot `observeSingle` reads as oldest. */
  ghost predicate Readable(obs: seq<Observation>, index: int, card: int)
  {
    && 0 <= index < card <= |obs|
    && WrittenFrom(Ring(obs, index, card), OldestPosition(obs, index, card))
    && Ring(obs, index, card)[OldestPosition(obs, index, card)] == Oldest(obs, index, card)
  }

  /** When the search runs, the reading is the interpolation over whichever bracket it lands on. */
  lemma ReadingSearched(obs: seq<Observation>, time: Uint32, secondsAgo: Uint32, tick: Int24, index: int,
                        liquidity: Uint128, card: int, k: int)
    requires 0 <= index < card <= |obs| && secondsAgo != 0
    requires Chronological(Ring(obs, index, card), time)
    requires Readable(obs, index, card)
    requires !Lte(time, obs[index].blockTimestamp, U32(time - secondsAgo))
    requires Lte(time, Oldest(obs, index, card).blockTimestamp, U32(time - secondsAgo))
    requires 0 <= k < card - 1 && Ring(obs, index, card)[k].initialized
    requires Lte(time, Ring(obs, index, card)[k].blockTimestamp, U32(time - secondsAgo))
    requires Lte(time, U32(time - secondsAgo), Ring(obs, index, card)[k + 1].blockTimestamp)
    ensures ObserveSingleSpec(obs, time, secondsAgo, tick, index, liquidity, card)
         == Between(Ring(obs, index, card)[k], Ring(obs, index, card)[k + 1], U32(time - secondsAgo))
  {
    var R := Ring(obs, index, card);
    assert R[|R| - 1] == obs[index];
    BracketReading(R, OldestPosition(obs, index, card), time, U32(time - secondsAgo), k);
  }

  /** Slot `i % card` of the array is position `i - oldest` of the ring, for the search's range of `i`. */
  lemma RingIndex(obs: seq<Observation>, index: int, card: int, i: int)
    requires 0 <= index < card <= |obs|
    requires (index + 1) % card <= i < (index + 1) % card + card
    ensures var l0 := (index + 1) % card;
      && Ring(obs, index, card)[i - l0] == obs[i % card]
      && (i + 1 < l0 + card ==> Ring(obs, index, card)[i + 1 - l0] == obs[(i + 1) % card])
  {
  }

  /** Before the first probe: the bracket the search must find lies past the oldest slot and before the newest. */
  lemma SearchStart(obs: seq<Observation>, index: int, card: int, time: Uint32, target: Uint32)
    requires 0 <= index < card <= |obs|
    requires Chronological(Ring(obs, index, card), time)
    requires WrittenFrom(Ring(obs, index, card), OldestPosition(obs, index, card))
    requires Ring(obs, index, card)[OldestPosition(obs, index, card)] == Oldest(obs, index, card)
    requires !Lte(time, obs[index].blockTimestamp, target)
    requires Lte(time, Oldest(obs, index, card).blockTimestamp, target)
    ensures !AtOrBefore(obs[index], time, target)
    ensures OldestPosition(obs, index, card) <= LastAtOrBefore(Ring(obs, index, card), time, target, card) < card - 1
  {
    var R := Ring(obs, index, card);
    assert R[card - 1] == obs[index];
    SearchBracket(R, time, target, OldestPosition(obs, index, card));
  }

  /** One probe of the binary search, stated on the array slots it reads: where the bracket lies relative to the probe. */
  lemma SearchProbe(obs: seq<Observation>, index: int, card: int, time: Uint32, target: Uint32, kstar: int,
                    l0: int, l: int, r: int, i: int)
    requires 0 <= index < card <= |obs| && l0 == (index + 1) % card
    requires Chronological(Ring(obs, index, card), time)
    requires WrittenFrom(Ring(obs, index, card), OldestPosition(obs, index, card))
    requires kstar == LastAtOrBefore(Ring(obs, index, card), time, target, card)
    requires OldestPosition(obs, index, card) <= kstar < card - 1
    requires !AtOrBefore(obs[index], time, target)
    requires l0 <= l <= i <= r <= l0 + card - 1 && l <= l0 + kstar <= r
    ensures !obs[i % card].initialized ==> i < l0 + kstar
    ensures obs[i % card].initialized && !Lte(time, obs[i % card].blockTimestamp, target) ==> l0 + kstar < i
    ensures obs[i % card].initialized && Lte(time, obs[i % card].blockTimestamp, target) ==>
      && i + 1 < l0 + card
      && (!Lte(time, target, obs[(i + 1) % card].blockTimestamp) ==> i < l0 + kstar)
      && Ring(obs, index, card)[i - l0] == obs[i % card]
      && Ring(obs, index, card)[i - l0 + 1] == obs[(i + 1) % card]
  {
    var R := Ring(obs, index, card);
    RingIndex(obs, index, card, i);
    assert R[card - 1] == obs[index];
    SearchStep(R, time, target, OldestPosition(obs, index, card), kstar, l - l0, r - l0, i - l0);
  }

  /**
   * One step of the binary search keeps the last observation at or before the target inside
   * the search window: an unwritten probe and a probe at or before the target both lie before
   * it, a probe after the target lies after it, and a probe at or before the target whose
   * successor is also at or before the target lies before the successor's position.
   */
  lemma SearchStep(R: seq<Observation>, time: Uint32, target: Uint32, pos: int, kstar: int, lo: int, hi: int, m: int)
    requires Chronological(R, time) && WrittenFrom(R, pos)
    requires kstar == LastAtOrBefore(R, time, target, |R|) && pos <= kstar < |R| - 1
    requires 0 <= lo <= m <= hi < |R| && lo <= kstar <= hi
    requires !AtOrBefore(R[|R| - 1], time, target)
    ensures !R[m].initialized ==> m < kstar
    ensures R[m].initialized && !Lte(time, R[m].blockTimestamp, target) ==> kstar < m
    ensures R[m].initialized && Lte(time, R[m].blockTimestamp, target) ==>
      m < |R| - 1 && (!Lte(time, target, R[m + 1].blockTimestamp) ==> m < kstar)
  {
    if R[m].initialized {
      OlderThanLater(R, time, m);
    }
  }

  datatype ObserveResult = ObserveResult(tickCumulatives: seq<Int56>, secondsPerLiquidityCumulativeX128s: seq<Uint160>)

  /**
   * The oracle's storage together with the test contract around it: the observation array, the
   * test contract's clock, current tick and liquidity, and the ring's newest index, cardinality and
   * next cardinality.
   */
  class ObservationBuffer {
    const observations: array<Observation>
    var time: Uint32
    var tick: Int24
    var liquidity: Uint128
    var index: Uint16
    var cardinality: Uint16
    var cardinalityNext: Uint16

    ghost predicate Valid()
      reads this, observations
    {
      observations.Length == CAPACITY && Shaped(observations[..], index, cardinality, cardinalityNext)
    }

    /** The reading the buffer gives `secondsAgo` seconds before its clock. */
    ghost function Reading(secondsAgo: Uint32): Result<Cumulatives>
      reads this, observations
      requires Valid() && cardinality > 0
    {
      ObserveSingleSpec(observations[..], time, secondsAgo, tick, index, liquidity, cardinality)
    }

    /** The observations of the ring in order, oldest slot first. */
    ghost function RingNow(): seq<Observation>
      reads this, observations
      requires Valid() && cardinality > 0
    {
      Ring(observations[..], index, cardinality)
    }

    /** A test contract before initialization: every slot untouched, everything at zero. */
    constructor()
      ensures Valid() && fresh(observations)
      ensures forall k :: 0 <= k < CAPACITY ==> observations[k] == ZERO
      ensures time == 0 && tick == 0 && liquidity == 0 && index == 0 && cardinality == 0 && cardinalityNext == 0
    {
      observations := new Observation[CAPACITY](_ => ZERO);
      time, tick, liquidity := 0, 0, 0;
      index, cardinality, cardinalityNext := 0, 0, 0;
    }

    /**
     * `initialize`: only once, before any other write; sets the clock, tick and liquidity and
     * writes the first observation.
     */
    method Initialize(t: Uint32, newTick: Int24, newLiquidity: Uint128) returns (r: Result<()>)
      requires Valid()
      modifies this, observations
      ensures Valid()
      ensures old(cardinality) != 0 ==> r == Revert("") && unchanged(this) && unchanged(observations)
      ensures old(cardinality) == 0 ==>
        && r.Ok? && time == t && tick == newTick && liquidity == newLiquidity
        && index == 0 && cardinality == 1 && cardinalityNext == 1
        && observations[..] == Initialized(old(observations[..]), t)
    {
      if cardinality != 0 {
        return Revert("");
      }
      time, tick, liquidity := t, newTick, newLiquidity;
      observations[0] := Observation(t, 0, 0, true);
      cardinality, cardinalityNext := 1, 1;
      return Ok(());
    }

    /** `advanceTime`: the test contract's clock moves on, wrapping at 2^32. */
    method AdvanceTime(seconds: Uint32)
      modifies this
      ensures time == U32(old(time) + seconds)
      ensures tick == old(tick) && liquidity == old(liquidity) && index == old(index)
      ensures cardinality == old(cardinality) && cardinalityNext == old(cardinalityNext)
    {
      time := U32(time + seconds);
    }

    /** `write` of the library, on the observation array. */
    method Write(idx: Uint16, blockTimestamp: Uint32, newTick: Int24, newLiquidity: Uint128, card: Uint16, cardNext: Uint16)
      returns (r: Result<(Uint16, Uint16)>)
      requires observations.Length == CAPACITY && idx < CAPACITY && card <= cardNext <= CAPACITY
      modifies observations
      ensures var w := Written(old(observations[..]), idx, blockTimestamp, newTick, newLiquidity, card, cardNext);
        && (w.Revert? ==> r == Revert(w.reason) && unchanged(observations))
        && (w.Ok? ==> r == Ok((w.value.index, w.value.cardinality)) && observations[..] == w.value.observations)
    {
      var last := observations[idx];
      if last.blockTimestamp == blockTimestamp {
        return Ok((idx, card));
      }
      var cardinalityUpdated := if cardNext > card && idx == card - 1 then cardNext else card;
      if cardinalityUpdated == 0 {
        return Revert("");
      }
      var indexUpdated := (idx + 1) % cardinalityUpdated;
      observations[indexUpdated] := Transform(last, blockTimestamp, newTick, newLiquidity);
      return Ok((indexUpdated, cardinalityUpdated));
    }

    /**
     * `update`: advance the clock, write an observation with the tick and liquidity that held
     * until now, then take on the new tick and liquidity. A revert leaves everything as it was.
     */
    method Update(advanceTimeBy: Uint32, newTick: Int24, newLiquidity: Uint128) returns (r: Result<()>)
      requires Valid()
      modifies this, observations
      ensures Valid()
      ensures var w := Written(old(observations[..]), old(index), U32(old(time) + advanceTimeBy), old(tick), old(liquidity),
                               old(cardinality), old(cardinalityNext));
        && (w.Revert? ==> r == Revert(w.reason) && unchanged(this) && unchanged(observations))
        && (w.Ok? ==>
              && r.Ok? && observations[..] == w.value.observations
              && index == w.value.index && cardinality == w.value.cardinality && cardinalityNext == old(cardinalityNext)
              && time == U32(old(time) + advanceTimeBy) && tick == newTick && liquidity == newLiquidity)
    {
      var t := U32(time + advanceTimeBy);
      ghost var before := observations[..];
      var w := Write(index, t, tick, liquidity, cardinality, cardinalityNext);
      if w.Revert? {
        return Revert(w.reason);
      }
      if before[index].blockTimestamp != t {
        WriteAdvances(before, index, t, tick, liquidity, cardinality, cardinalityNext);
      }
      time := t;
      index, cardinality := w.value.0, w.value.1;
      tick, liquidity := newTick, newLiquidity;
      return Ok(());
    }

    /** `grow` of the library, on the observation array. */
    method GrowArray(current: Uint16, next: Uint16) returns (r: Result<Uint16>)
      requires observations.Length == CAPACITY
      modifies observations
      ensures var g := Grown(old(observations[..]), current, next);
        && (g.Revert? ==> r == Revert(g.reason) && unchanged(observations))
        && (g.Ok? ==> r == Ok(g.value.cardinalityNext as Uint16) && observations[..] == g.value.observations)
    {
      if current == 0 {
        return Revert("I");
      }
      if next <= current {
        return Ok(current);
      }
      for i := current to next
        invariant forall k :: 0 <= k < CAPACITY ==>
          observations[k] == if current <= k < i then old(observations[k]).(blockTimestamp := 1) else old(observations[k])
      {
        observations[i] := observations[i].(blockTimestamp := 1);
      }
      assert observations[..] == Grown(old(observations[..]), current, next).value.observations;
      return Ok(next);
    }

    /** `grow` of the test contract: raise the next cardinality; "I" before initialization. */
    method Grow(next: Uint16) returns (r: Result<()>)
      requires Valid()
      modifies this, observations
      ensures Valid()
      ensures var g := Grown(old(observations[..]), old(cardinalityNext), next);
        && (g.Revert? ==> r == Revert(g.reason) && unchanged(this) && unchanged(observations))
        && (g.Ok? ==>
              && r.Ok? && observations[..] == g.value.observations && cardinalityNext == g.value.cardinalityNext
              && time == old(time) && tick == old(tick) && liquidity == old(liquidity)
              && index == old(index) && cardinality == old(cardinality))
    {
      GrowSpec(observations[..], index, cardinality, cardinalityNext, next);
      var g := GrowArray(cardinalityNext, next);
      if g.Revert? {
        return Revert(g.reason);
      }
      cardinalityNext := g.value;
      return Ok(());
    }

    /**
     * `binarySearch`: for a target strictly before the newest observation and not before the
     * oldest, a pair of ring neighbours with the target between them.
     */
    method BinarySearch(now: Uint32, target: Uint32, idx: Uint16, card: Uint16)
      returns (beforeOrAt: Observation, atOrAfter: Observation, ghost k: int)
      requires 0 <= idx < card <= observations.Length
      requires Chronological(Ring(observations[..], idx, card), now)
      requires WrittenFrom(Ring(observations[..], idx, card), OldestPosition(observations[..], idx, card))
      requires Ring(observations[..], idx, card)[OldestPosition(observations[..], idx, card)]
               == Oldest(observations[..], idx, card)
      requires !Lte(now, observations[idx].blockTimestamp, target)
      requires Lte(now, Oldest(observations[..], idx, card).blockTimestamp, target)
      ensures 0 <= k < card - 1
      ensures beforeOrAt == Ring(observations[..], idx, card)[k] && atOrAfter == Ring(observations[..], idx, card)[k + 1]
      ensures beforeOrAt.initialized && Lte(now, beforeOrAt.blockTimestamp, target)
      ensures Lte(now, target, atOrAfter.blockTimestamp)
    {
      ghost var obs := observations[..];
      ghost var kstar := LastAtOrBefore(Ring(obs, idx, card), now, target, card);
      SearchStart(obs, idx, card, now, target);
      ModWrap(idx + 1, card);
      var l: int := (idx + 1) % card;
      var r: int := l + card - 1;
      ghost var l0 := l;
      var i: int;
      while true
        invariant l0 <= l && r <= l0 + card - 1
        invariant l <= l0 + kstar <= r
        decreases r - l
      {
        i := (l + r) / 2;
        SearchProbe(obs, idx, card, now, target, kstar, l0, l, r, i);
        beforeOrAt := observations[i % card];
        if !beforeOrAt.initialized {
          l := i + 1;
          continue;
        }
        atOrAfter := observations[(i + 1) % card];
        var targetAtOrAfter := Lte(now, beforeOrAt.blockTimestamp, target);
        if targetAtOrAfter && Lte(now, target, atOrAfter.blockTimestamp) {
          k := i - l0;
          break;
        }
        if !targetAtOrAfter {
          r := i - 1;
        } else {
          l := i + 1;
        }
      }
    }

    /**
     * `observeSingle`: the accumulators `secondsAgo` seconds before `now`, read from the ring of
     * the first `card` slots whose newest slot is `idx`; exactly the reading `ObserveSingleSpec`
     * defines, "OLD" included.
     */
    method ObserveSingle(now: Uint32, secondsAgo: Uint32, atTick: Int24, idx: Uint16, atLiquidity: Uint128, card: Uint16)
      returns (r: Result<Cumulatives>)
      requires 0 <= idx < card <= observations.Length
      requires Chronological(Ring(observations[..], idx, card), now)
      requires Readable(observations[..], idx, card)
      ensures r == ObserveSingleSpec(observations[..], now, secondsAgo, atTick, idx, atLiquidity, card)
    {
      if secondsAgo == 0 {
        var last := observations[idx];
        if last.blockTimestamp != now {
          last := Transform(last, now, atTick, atLiquidity);
        }
        ReadingNow(observations[..], now, atTick, idx, atLiquidity, card);
        return Ok(Values(last));
      }
      var target := U32(now - secondsAgo);
      // getSurroundingObservations
      var beforeOrAt := observations[idx];
      var atOrAfter := ZERO;
      if Lte(now, beforeOrAt.blockTimestamp, target) {
        if beforeOrAt.blockTimestamp != target {
          atOrAfter := Transform(beforeOrAt, target, atTick, atLiquidity);
        }
        ReadingRecent(observations[..], now, secondsAgo, atTick, idx, atLiquidity, card);
        return Between(beforeOrAt, atOrAfter, target);
      }
      beforeOrAt := observations[(idx + 1) % card];
      if !beforeOrAt.initialized {
        beforeOrAt := observations[0];
      }
      ghost var obs := observations[..];
      assert beforeOrAt == Oldest(obs, idx, card);
      if !Lte(now, beforeOrAt.blockTimestamp, target) {
        ReadingTooOld(obs, now, secondsAgo, atTick, idx, atLiquidity, card);
        return Revert("OLD");
      }
      ghost var k;
      beforeOrAt, atOrAfter, k := BinarySearch(now, target, idx, card);
      assert observations[..] == obs;
      ReadingSearched(obs, now, secondsAgo, atTick, idx, atLiquidity, card, k);
      return Between(beforeOrAt, atOrAfter, target);
    }

    /**
     * `observe`: one reading per entry of `secondsAgos`, in order; "I" before initialization,
     * and the first failing reading's revert otherwise.
     */
    method Observe(secondsAgos: seq<Uint32>) returns (r: Result<ObserveResult>)
      requires Valid() && (cardinality > 0 ==> Chronological(RingNow(), time))
      ensures cardinality == 0 ==> r == Revert("I")
      ensures cardinality > 0 ==>
        && (r.Ok? <==> forall j :: 0 <= j < |secondsAgos| ==> Reading(secondsAgos[j]).Ok?)
        && (r.Ok? ==>
              && |r.value.tickCumulatives| == |secondsAgos| == |r.value.secondsPerLiquidityCumulativeX128s|
              && forall j :: 0 <= j < |secondsAgos| ==>
                   Cumulatives(r.value.tickCumulatives[j], r.value.secondsPerLiquidityCumulativeX128s[j]) == Reading(secondsAgos[j]).value)
        && (r.Revert? ==> exists j :: 0 <= j < |secondsAgos| && Reading(secondsAgos[j]) == Revert(r.reason)
                                      && forall i :: 0 <= i < j ==> Reading(secondsAgos[i]).Ok?)
    {
      if cardinality == 0 {
        return Revert("I");
      }
      RingOfShaped(observations[..], index, cardinality, cardinalityNext);
      r := ObserveEach(secondsAgos, time, tick, index, liquidity, cardinality);
      assert forall x :: Reading(x) == ObserveSingleSpec(observations[..], time, x, tick, index, liquidity, cardinality);
    }

    /** The loop of `observe`: the readings in order, stopping at the first one that reverts. */
    method ObserveEach(secondsAgos: seq<Uint32>, now: Uint32, atTick: Int24, idx: Uint16, atLiquidity: Uint128, card: Uint16)
      returns (r: Result<ObserveResult>)
      requires 0 <= idx < card <= observations.Length
      requires Chronological(Ring(observations[..], idx, card), now)
      requires Readable(observations[..], idx, card)
      ensures r.Ok? <==>
        forall j :: 0 <= j < |secondsAgos| ==> ObserveSingleSpec(observations[..], now, secondsAgos[j], atTick, idx, atLiquidity, card).Ok?
      ensures r.Ok? ==>
        && |r.value.tickCumulatives| == |secondsAgos| == |r.value.secondsPerLiquidityCumulativeX128s|
        && forall j :: 0 <= j < |secondsAgos| ==>
             Cumulatives(r.value.tickCumulatives[j], r.value.secondsPerLiquidityCumulativeX128s[j])
             == ObserveSingleSpec(observations[..], now, secondsAgos[j], atTick, idx, atLiquidity, card).value
      ensures r.Revert? ==>
        exists j :: (&& 0 <= j < |secondsAgos|
                     && ObserveSingleSpec(observations[..], now, secondsAgos[j], atTick, idx, atLiquidity, card) == Revert(r.reason)
                     && forall i :: 0 <= i < j ==> ObserveSingleSpec(observations[..], now, secondsAgos[i], atTick, idx, atLiquidity, card).Ok?)
    {
      ghost var obs := observations[..];
      var tickCumulatives: seq<Int56> := [];
      var secondsPerLiquidityCumulativeX128s: seq<Uint160> := [];
      for i := 0 to |secondsAgos|
        invariant |tickCumulatives| == i == |secondsPerLiquidityCumulativeX128s|
        invariant forall j :: 0 <= j < i ==>
          (ObserveSingleSpec(obs, now, secondsAgos[j], atTick, idx, atLiquidity, card).Ok?
           && Cumulatives(tickCumulatives[j], secondsPerLiquidityCumulativeX128s[j])
              == ObserveSingleSpec(obs, now, secondsAgos[j], atTick, idx, atLiquidity, card).value)
      {
        var c := ObserveSingle(now, secondsAgos[i], atTick, idx, atLiquidity, card);
        if c.Revert? {
          return Revert(c.reason);
        }
        tickCumulatives := tickCumulatives + [c.value.tickCumulative];
        secondsPerLiquidityCumulativeX128s := secondsPerLiquidityCumulativeX128s + [c.value.secondsPerLiquidityCumulativeX128];
      }
      return Ok(ObserveResult(tickCumulatives, secondsPerLiquidityCumulativeX128s));
    }
  }
}

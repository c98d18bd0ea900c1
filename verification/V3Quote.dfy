/** The public quoters of crates/dex/src/uniswap_v3.rs: the tick walk with its two loops, the
    single-range quoter, and the spot quote that the others are compared with. */
module V3Quote {
  import opened Arith
  import opened Wrappers
  import opened U256Math
  import opened TickMath
  import opened SwapMath
  import opened SwapStep
  import opened SwapEngine
  import opened V3Walk
  import opened Sorting

  /** The pool fields the quoters read. */
  datatype PoolState = PoolState(
    isSlipstream: bool, token0: Address, token1: Address, feeBps: FeePips, feePips: Option<FeePips>,
    sqrtPrice: Option<U256>, liquidity: Option<U256>, tick: Option<I32>)

  datatype Diagnostics = Diagnostics(ticksUsed: nat, crossedTicks: nat, tickRangeExhausted: bool)

  function PoolFeePips(pool: PoolState): (r: Result<FeePips>)
    ensures r.Ok? ==> r.value < FEE_DENOMINATOR
  {
    if pool.isSlipstream && pool.feePips.None? then Err
    else
      var fee := if pool.feePips.Some? then pool.feePips.value
                 else if pool.feeBps * 100 < 0x1_0000_0000 then pool.feeBps * 100 else 0xffff_ffff;
      if fee >= FEE_DENOMINATOR then Err else Ok(fee)
  }

  /** The ticks ahead of the price, nearest first. */
  function Ahead(zfo: bool, currentTick: int, ticks: seq<TickState>): seq<TickState> {
    if zfo then SortBy(Filter(ticks, (t: TickState) => t.tick <= currentTick), (t: TickState) => -(t.tick as int))
    else SortBy(Filter(ticks, (t: TickState) => t.tick > currentTick), (t: TickState) => t.tick as int)
  }

  function Answer(w: Result<WalkEnd>): Result<(U256, Diagnostics)> {
    var end :- w;
    Ok((end.amountOut, Diagnostics(end.ticksUsed, end.crossedTicks, end.exhausted)))
  }

  /** The walk `w`, started after `amountOut` was collected over earlier ticks. */
  function Resume(amountOut: U256, used: nat, crossed: nat, w: Result<WalkEnd>): Result<WalkEnd> {
    var end :- w;
    var total :- CheckedAdd(amountOut, end.amountOut);
    Ok(end.(amountOut := total, ticksUsed := used + end.ticksUsed, crossedTicks := crossed + end.crossedTicks))
  }

  lemma WalkResumes(zfo: bool, fee: FeePips, x: U256, s: U256, l: U256, ticks: seq<TickState>)
    requires x > 0 && ticks != []
    ensures var t := SqrtRatioAtTick(ticks[0].tick);
      var w := Walk(zfo, fee, x, s, l, ticks);
      if t.Err? then w.Err?
      else if l == 0 then
        var l' := Cross(zfo, l, ticks[0].liquidityNet);
        if l'.Err? then w.Err? else w == Resume(0, 1, 1, Walk(zfo, fee, x, t.value, l'.value, ticks[1..]))
      else
        var step := ComputeSwapStep(s, t.value, l, x, fee, zfo);
        if step.Err? || LeftAfter(x, step.value).Err? then w.Err?
        else if step.value.sqrtNext == t.value then
          var l' := Cross(zfo, l, ticks[0].liquidityNet);
          if l'.Err? then w.Err?
          else
            var left := LeftAfter(x, step.value).value;
            w == Resume(step.value.amountOut, 1, 1, Walk(zfo, fee, left, t.value, l'.value, ticks[1..]))
        else
          var left := LeftAfter(x, step.value).value;
          w == Ok(WalkEnd(step.value.amountOut, left, step.value.sqrtNext, l, ticks, 1, 0, false))
  {
    hide ComputeSwapStep, SqrtPrice, SqrtRatioAtTick, Cross, LeftAfter, TailStep;
  }

  lemma WalkStops(zfo: bool, fee: FeePips, x: U256, s: U256, l: U256, ticks: seq<TickState>)
    requires x == 0 || ticks == []
    ensures Walk(zfo, fee, x, s, l, ticks)
         == if x == 0 then Ok(WalkEnd(0, 0, s, l, ticks, 0, 0, false)) else TailStep(zfo, fee, x, s, l)
  {
  }

  lemma ResumeTwice(a: U256, u: nat, c: nat, b: U256, v: nat, d: nat, w: Result<WalkEnd>)
    ensures Resume(a, u, c, Resume(b, v, d, w)) == if a + b <= U256_MAX then Resume(a + b, u + v, c + d, w) else Err
  {
  }

  /** crates/dex/src/uniswap_v3.rs:150-218. */
  method SimulateZeroForOne(amountIn: U256, sqrtPriceIn: U256, liquidityIn: U256, currentTick: I32,
                            initializedTicks: seq<TickState>, feePips: FeePips)
    returns (r: Result<(U256, Diagnostics)>)
    ensures var ahead := Ahead(true, currentTick, initializedTicks);
      r == Answer(Walk(true, feePips, amountIn, sqrtPriceIn, liquidityIn, ahead))
  {
    hide Walk, ComputeSwapStep, SqrtRatioAtTick, ApplyLiquidityDelta, Neg128, SortBy, Filter, SaturatingSub, CheckedAdd;
    var amountRemaining: U256, sqrtPrice: U256, liquidity: U256 := amountIn, sqrtPriceIn, liquidityIn;
    var amountOut: U256 := 0;
    var used, crossed := 0, 0;
    var ticks := SortBy(Filter(initializedTicks, (t: TickState) => t.tick <= currentTick),
                        (t: TickState) => -(t.tick as int));
    ghost var whole := Walk(true, feePips, amountIn, sqrtPriceIn, liquidityIn, ticks);
    var i := 0;
    while i < |ticks|
      invariant 0 <= i <= |ticks|
      invariant whole == Resume(amountOut, used, crossed,
                                Walk(true, feePips, amountRemaining, sqrtPrice, liquidity, ticks[i..]))
    {
      if amountRemaining == 0 {
        break;
      }
      WalkResumes(true, feePips, amountRemaining, sqrtPrice, liquidity, ticks[i..]);
      assert ticks[i..][1..] == ticks[i + 1..] && ticks[i..][0] == ticks[i];
      used := used + 1;
      var target := ComputeSqrtRatioAtTick(ticks[i].tick);
      if target.Err? { return Err; }
      if liquidity == 0 {
        sqrtPrice := target.value;
        crossed := crossed + 1;
        var next := ApplyLiquidityDelta(liquidity, Neg128(ticks[i].liquidityNet));
        if next.Err? { return Err; }
        ResumeTwice(amountOut, used - 1, crossed - 1, 0, 1, 1,
                    Walk(true, feePips, amountRemaining, sqrtPrice, next.value, ticks[i + 1..]));
        liquidity := next.value;
      } else {
        var step := ComputeSwapStep(sqrtPrice, target.value, liquidity, amountRemaining, feePips, true);
        if step.Err? { return Err; }
        var consumed := CheckedAdd(step.value.amountIn, step.value.feeAmount);
        if consumed.Err? { return Err; }
        amountRemaining := SaturatingSub(amountRemaining, consumed.value);
        var total := CheckedAdd(amountOut, step.value.amountOut);
        ghost var before := amountOut;
        if total.Err? { return Err; }
        amountOut := total.value;
        sqrtPrice := step.value.sqrtNext;
        if sqrtPrice == target.value {
          crossed := crossed + 1;
          var next := ApplyLiquidityDelta(liquidity, Neg128(ticks[i].liquidityNet));
          if next.Err? { return Err; }
          ResumeTwice(before, used - 1, crossed - 1, step.value.amountOut, 1, 1,
                      Walk(true, feePips, amountRemaining, sqrtPrice, next.value, ticks[i + 1..]));
          liquidity := next.value;
        } else {
          return Ok((amountOut, Diagnostics(used, crossed, false)));
        }
      }
      i := i + 1;
    }
    WalkStops(true, feePips, amountRemaining, sqrtPrice, liquidity, ticks[i..]);
    var exhausted := false;
    if amountRemaining != 0 && liquidity != 0 {
      exhausted := true;
      var step := ComputeSwapStep(sqrtPrice, 1, liquidity, amountRemaining, feePips, true);
      if step.Err? { return Err; }
      var total := CheckedAdd(amountOut, step.value.amountOut);
      if total.Err? { return Err; }
      amountOut := total.value;
    }
    return Ok((amountOut, Diagnostics(used, crossed, exhausted)));
  }

  /** crates/dex/src/uniswap_v3.rs:220-288. */
  method SimulateOneForZero(amountIn: U256, sqrtPriceIn: U256, liquidityIn: U256, currentTick: I32,
                            initializedTicks: seq<TickState>, feePips: FeePips)
    returns (r: Result<(U256, Diagnostics)>)
    ensures var ahead := Ahead(false, currentTick, initializedTicks);
      r == Answer(Walk(false, feePips, amountIn, sqrtPriceIn, liquidityIn, ahead))
  {
    hide Walk, ComputeSwapStep, SqrtRatioAtTick, ApplyLiquidityDelta, SortBy, Filter, SaturatingSub, CheckedAdd;
    var amountRemaining: U256, sqrtPrice: U256, liquidity: U256 := amountIn, sqrtPriceIn, liquidityIn;
    var amountOut: U256 := 0;
    var used, crossed := 0, 0;
    var ticks := SortBy(Filter(initializedTicks, (t: TickState) => t.tick > currentTick),
                        (t: TickState) => t.tick as int);
    ghost var whole := Walk(false, feePips, amountIn, sqrtPriceIn, liquidityIn, ticks);
    var i := 0;
    while i < |ticks|
      invariant 0 <= i <= |ticks|
      invariant whole == Resume(amountOut, used, crossed,
                                Walk(false, feePips, amountRemaining, sqrtPrice, liquidity, ticks[i..]))
    {
      if amountRemaining == 0 {
        break;
      }
      WalkResumes(false, feePips, amountRemaining, sqrtPrice, liquidity, ticks[i..]);
      assert ticks[i..][1..] == ticks[i + 1..] && ticks[i..][0] == ticks[i];
      used := used + 1;
      var target := ComputeSqrtRatioAtTick(ticks[i].tick);
      if target.Err? { return Err; }
      if liquidity == 0 {
        sqrtPrice := target.value;
        crossed := crossed + 1;
        var next := ApplyLiquidityDelta(liquidity, ticks[i].liquidityNet);
        if next.Err? { return Err; }
        ResumeTwice(amountOut, used - 1, crossed - 1, 0, 1, 1,
                    Walk(false, feePips, amountRemaining, sqrtPrice, next.value, ticks[i + 1..]));
        liquidity := next.value;
      } else {
        var step := ComputeSwapStep(sqrtPrice, target.value, liquidity, amountRemaining, feePips, false);
        if step.Err? { return Err; }
        var consumed := CheckedAdd(step.value.amountIn, step.value.feeAmount);
        if consumed.Err? { return Err; }
        amountRemaining := SaturatingSub(amountRemaining, consumed.value);
        var total := CheckedAdd(amountOut, step.value.amountOut);
        ghost var before := amountOut;
        if total.Err? { return Err; }
        amountOut := total.value;
        sqrtPrice := step.value.sqrtNext;
        if sqrtPrice == target.value {
          crossed := crossed + 1;
          var next := ApplyLiquidityDelta(liquidity, ticks[i].liquidityNet);
          if next.Err? { return Err; }
          ResumeTwice(before, used - 1, crossed - 1, step.value.amountOut, 1, 1,
                      Walk(false, feePips, amountRemaining, sqrtPrice, next.value, ticks[i + 1..]));
          liquidity := next.value;
        } else {
          return Ok((amountOut, Diagnostics(used, crossed, false)));
        }
      }
      i := i + 1;
    }
    WalkStops(false, feePips, amountRemaining, sqrtPrice, liquidity, ticks[i..]);
    var exhausted := false;
    if amountRemaining != 0 && liquidity != 0 {
      exhausted := true;
      var step := ComputeSwapStep(sqrtPrice, U256_MAX, liquidity, amountRemaining, feePips, false);
      if step.Err? { return Err; }
      var total := CheckedAdd(amountOut, step.value.amountOut);
      if total.Err? { return Err; }
      amountOut := total.value;
    }
    return Ok((amountOut, Diagnostics(used, crossed, exhausted)));
  }

  /** The walk a quote stands for: direction by token, ticks filtered and sorted. */
  function QuoteWalk(pool: PoolState, ticks: seq<TickState>, tokenIn: Address, amountIn: U256): Result<WalkEnd> {
    if ticks == [] || (tokenIn != pool.token0 && tokenIn != pool.token1)
       || pool.sqrtPrice.None? || pool.liquidity.None? || pool.tick.None? then Err
    else
      var fee :- PoolFeePips(pool);
      var zfo := tokenIn == pool.token0;
      Walk(zfo, fee, amountIn, pool.sqrtPrice.value, pool.liquidity.value, Ahead(zfo, pool.tick.value, ticks))
  }

  /** crates/dex/src/uniswap_v3.rs:98-148. */
  method QuoteExactInWithTicks(pool: PoolState, ticks: seq<TickState>, tokenIn: Address, amountIn: U256)
    returns (r: Result<(U256, Diagnostics)>)
    ensures r == Answer(QuoteWalk(pool, ticks, tokenIn, amountIn))
  {
    hide Walk, Ahead;
    if ticks == [] || (tokenIn != pool.token0 && tokenIn != pool.token1) { return Err; }
    if pool.sqrtPrice.None? || pool.liquidity.None? || pool.tick.None? { return Err; }
    var fee := PoolFeePips(pool);
    if fee.Err? { return Err; }
    if tokenIn == pool.token0 {
      r := SimulateZeroForOne(amountIn, pool.sqrtPrice.value, pool.liquidity.value, pool.tick.value, ticks, fee.value);
    } else {
      r := SimulateOneForZero(amountIn, pool.sqrtPrice.value, pool.liquidity.value, pool.tick.value, ticks, fee.value);
    }
  }

  /** The single-range quoter (crates/dex/src/uniswap_v3.rs:22-62, 377-391). */
  function CurrentTickQuote(pool: PoolState, tokenIn: Address, amountIn: U256): Result<U256> {
    if (tokenIn != pool.token0 && tokenIn != pool.token1) || pool.sqrtPrice.None? || pool.liquidity.None?
       || pool.sqrtPrice.value == 0 || pool.liquidity.value == 0 then Err
    else
      var fee :- PoolFeePips(pool);
      var lessFee :- MulDiv(amountIn, FeeComplement(fee), FEE_DENOMINATOR);
      RangeQuote(tokenIn == pool.token0, lessFee, pool.sqrtPrice.value, pool.liquidity.value)
  }

  function RangeQuote(zfo: bool, amountIn: U256, sqrtPrice: U256, liquidity: U256): Result<U256> {
    if amountIn == 0 then Ok(0)
    else
      var next :- DirectedNext(zfo, liquidity, sqrtPrice, amountIn);
      DirectedOut(zfo, liquidity, sqrtPrice, next)
  }

  /** The input valued at the current price (crates/dex/src/uniswap_v3.rs:64-85). */
  function SpotQuote(pool: PoolState, tokenIn: Address, amountIn: U256): Result<U256> {
    if pool.sqrtPrice.None? || pool.sqrtPrice.value == 0 then Err
    else
      var s := pool.sqrtPrice.value;
      ProductFits(s, s);
      assert s * s > 0;
      if tokenIn == pool.token0 then SpotMulDiv(amountIn, s * s, Q96 * Q96)
      else if tokenIn == pool.token1 then SpotMulDiv(amountIn, Q96 * Q96, s * s)
      else Err
  }

  function SpotMulDiv(amountIn: U256, numerator: U512, denominator: U512): Result<U256>
    requires denominator > 0
  {
    var product: nat := amountIn * numerator;
    if product > U512_MAX then Err else Narrow(product / denominator)
  }

  /** A pool's fee: its own pips, which must be below one, or its basis points, of which 10 000 are
      one; a Slipstream pool has the former only. */
  lemma FeeIs(pool: PoolState, x: nat)
    ensures pool.feePips.Some? ==>
              && (PoolFeePips(pool).Ok? <==> pool.feePips.value < 1_000_000)
              && (PoolFeePips(pool).Ok? ==> PoolFeePips(pool).value == pool.feePips.value)
    ensures pool.feePips.None? ==>
              && (PoolFeePips(pool).Ok? <==> !pool.isSlipstream && pool.feeBps < 10_000)
              && (PoolFeePips(pool).Ok? ==>
                    x * (1_000_000 - PoolFeePips(pool).value) / 1_000_000 == x * (10_000 - pool.feeBps) / 10_000)
  {
    if pool.feePips.None? && pool.feeBps < 10_000 {
      HundredTimes(x * (10_000 - pool.feeBps), 10_000);
      MulAssoc(x, 10_000 - pool.feeBps, 100);
    }
  }

  lemma HundredTimes(a: nat, b: nat)
    requires b > 0
    ensures a * 100 / (b * 100) == a / b
  {
    FloorBounds(a, b);
    var q := a / b;
    MulAssoc(q, b, 100);
    FloorGe(a * 100, b * 100, q);
    FloorGe(a * 100, b * 100, q + 1);
    MulDistrib(q, 1, b * 100);
  }

  /** `r` is x * up / down rounded down, and an error when that leaves 256 bits or x * up 512. */
  predicate IsScaled(r: Result<U256>, x: nat, up: nat, down: nat) {
    && (r.Ok? <==> x * up <= U512_MAX && x * up < (U256_MAX + 1) * down)
    && (r.Ok? ==> r.value * down <= x * up < (r.value + 1) * down)
  }

  /** The spot quote is the spot value of the input, rounded down. */
  lemma SpotQuoteIs(pool: PoolState, tokenIn: Address, x: U256, square: nat)
    requires pool.sqrtPrice.Some? && pool.sqrtPrice.value > 0 && tokenIn in {pool.token0, pool.token1}
    requires square == pool.sqrtPrice.value * pool.sqrtPrice.value
    ensures IsScaled(SpotQuote(pool, tokenIn, x), x, if tokenIn == pool.token0 then square else Q96 * Q96,
                     if tokenIn == pool.token0 then Q96 * Q96 else square)
  {
    hide IsScaled, SpotMulDiv;
    ProductFits(pool.sqrtPrice.value, pool.sqrtPrice.value);
    MulLe(1, pool.sqrtPrice.value, pool.sqrtPrice.value);
    SpotMulDivIs(x, square, Q96 * Q96);
    SpotMulDivIs(x, Q96 * Q96, square);
  }

  lemma SpotMulDivIs(x: U256, up: U512, down: U512)
    requires down > 0
    ensures IsScaled(SpotMulDiv(x, up, down), x, up, down)
  {
    MulLe(0, up, x);
    var product: nat := x * up;
    FloorBounds(product, down);
    FloorGe(product, down, U256_MAX + 1);
    MulDistrib(product / down, 1, down);
  }

  // ----- consistency of price and tick -----

  /** The price lies in its tick: at or above the tick's own price, at or below the next one's. */
  predicate Consistent(pool: PoolState) {
    && pool.sqrtPrice.Some? && pool.tick.Some? && MIN_TICK <= pool.tick.value < MAX_TICK
    && SqrtPrice(pool.tick.value) <= pool.sqrtPrice.value <= SqrtPrice(pool.tick.value + 1)
  }

  predicate InOrder(zfo: bool, ticks: seq<TickState>) {
    forall i, j :: 0 <= i < j < |ticks| ==>
      if zfo then ticks[i].tick >= ticks[j].tick else ticks[i].tick <= ticks[j].tick
  }

  lemma TickOrderIsPriceOrder(zfo: bool, a: int, b: int)
    requires InRange(a) && InRange(b) && (if zfo then a >= b else a <= b)
    ensures Toward(zfo, SqrtPrice(a), SqrtPrice(b))
  {
    if a < b {
      SqrtPriceStrictlyIncreasing(a, b);
    } else if b < a {
      SqrtPriceStrictlyIncreasing(b, a);
    }
  }

  lemma {:induction false} OrderedIsAligned(zfo: bool, s: nat, ticks: seq<TickState>)
    requires s > 0 && InOrder(zfo, ticks)
    requires forall t | t in ticks && InRange(t.tick) :: Toward(zfo, s, SqrtPrice(t.tick))
    ensures Aligned(zfo, s, ticks)
    decreases |ticks|
  {
    if ticks != [] && InRange(ticks[0].tick) {
      var rest := ticks[1..];
      forall t | t in rest && InRange(t.tick) ensures Toward(zfo, SqrtPrice(ticks[0].tick), SqrtPrice(t.tick)) {
        TickOrderIsPriceOrder(zfo, ticks[0].tick, t.tick);
      }
      SqrtPriceRange(ticks[0].tick);
      OrderedIsAligned(zfo, SqrtPrice(ticks[0].tick), rest);
    }
  }

  /** Filtering by the current tick and sorting puts every target on the right side of the
      price and in the order the walk needs, whatever list it is given. */
  lemma AheadAligned(zfo: bool, pool: PoolState, ticks: seq<TickState>)
    requires Consistent(pool)
    ensures Aligned(zfo, pool.sqrtPrice.value, Ahead(zfo, pool.tick.value, ticks))
  {
    var current, s := pool.tick.value, pool.sqrtPrice.value;
    SqrtPriceRange(current);
    var ahead := Ahead(zfo, current, ticks);
    AheadFacts(zfo, current, ticks);
    forall t | t in ahead && InRange(t.tick) ensures Toward(zfo, s, SqrtPrice(t.tick)) {
      TickOrderIsPriceOrder(zfo, if zfo then current else current + 1, t.tick);
    }
    OrderedIsAligned(zfo, s, ahead);
  }

  lemma AheadFacts(zfo: bool, current: int, ticks: seq<TickState>)
    ensures var ahead := Ahead(zfo, current, ticks);
      && InOrder(zfo, ahead)
      && (forall t :: t in ahead <==> t in ticks && (if zfo then t.tick <= current else t.tick > current))
  {
    if zfo {
      var kept := Filter(ticks, (t: TickState) => t.tick <= current);
      SortBySorted(kept, (t: TickState) => -(t.tick as int));
      SortByElements(kept, (t: TickState) => -(t.tick as int));
    } else {
      var kept := Filter(ticks, (t: TickState) => t.tick > current);
      SortBySorted(kept, (t: TickState) => t.tick as int);
      SortByElements(kept, (t: TickState) => t.tick as int);
    }
  }

  /** The ticks ahead are those on the side the price moves to, each as often as listed. */
  lemma AheadCount(zfo: bool, current: int, ticks: seq<TickState>, t: TickState)
    ensures multiset(Ahead(zfo, current, ticks))[t]
         == if (if zfo then t.tick <= current else t.tick > current) then multiset(ticks)[t] else 0
  {
    hide Filter, SortBy;
    if zfo {
      FilterCount(ticks, (t: TickState) => t.tick <= current, t);
    } else {
      FilterCount(ticks, (t: TickState) => t.tick > current, t);
    }
  }

  // ----- what every quote obeys, for any tick list in any order -----

  /** The quote never beats the spot quote of the same input, nor the spot value of that input less
      its fee. */
  lemma QuoteAtMostSpot(pool: PoolState, ticks: seq<TickState>, tokenIn: Address, amountIn: U256)
    requires Consistent(pool)
    requires QuoteWalk(pool, ticks, tokenIn, amountIn).Ok? && SpotQuote(pool, tokenIn, amountIn).Ok?
    ensures QuoteWalk(pool, ticks, tokenIn, amountIn).value.amountOut <= SpotQuote(pool, tokenIn, amountIn).value
    ensures WithinNetSpot(tokenIn == pool.token0, pool.sqrtPrice.value, amountIn, PoolFeePips(pool).value,
                          QuoteWalk(pool, ticks, tokenIn, amountIn).value.amountOut)
  {
    hide Walk, Ahead, SqrtPrice, WithinNetSpot;
    var zfo, s := tokenIn == pool.token0, pool.sqrtPrice.value;
    var ahead := Ahead(zfo, pool.tick.value, ticks);
    AheadAligned(zfo, pool, ticks);
    var end := QuoteWalk(pool, ticks, tokenIn, amountIn).value;
    WalkWithinSpot(zfo, PoolFeePips(pool).value, amountIn, s, pool.liquidity.value, ahead);
    NetSpotSlack(zfo, s, amountIn - end.left, amountIn, PoolFeePips(pool).value, end.amountOut);
    NetSpotIsSpot(zfo, s, amountIn, PoolFeePips(pool).value, end.amountOut);
    SpotIsFloor(zfo, s, amountIn, end.amountOut);
  }

  lemma SpotIsFloor(zfo: bool, s: nat, x: nat, out: nat)
    requires s > 0 && WithinSpot(zfo, s, x, out)
    ensures s * s > 0
    ensures if zfo then out <= x * (s * s) / (Q96 * Q96) else out <= x * (Q96 * Q96) / (s * s)
  {
    if zfo {
      FloorGe(x * (s * s), Q96 * Q96, out);
    } else {
      FloorGe(x * (Q96 * Q96), s * s, out);
    }
  }

  /** Whenever a larger input is quoted, so is a smaller one, and no more is paid for it. */
  lemma QuoteMonotone(pool: PoolState, ticks: seq<TickState>, tokenIn: Address, x: U256, y: U256)
    requires Consistent(pool) && x <= y
    requires QuoteWalk(pool, ticks, tokenIn, y).Ok?
    ensures QuoteWalk(pool, ticks, tokenIn, x).Ok?
    ensures QuoteWalk(pool, ticks, tokenIn, x).value.amountOut <= QuoteWalk(pool, ticks, tokenIn, y).value.amountOut
  {
    hide Walk, Ahead;
    var zfo := tokenIn == pool.token0;
    AheadAligned(zfo, pool, ticks);
    WalkMonotone(zfo, PoolFeePips(pool).value, x, y, pool.sqrtPrice.value, pool.liquidity.value,
                 Ahead(zfo, pool.tick.value, ticks));
  }

  /** The quote of `b` from where another quote ended. */
  function ContinuedQuote(pool: PoolState, tokenIn: Address, b: U256, first: WalkEnd): Result<WalkEnd> {
    var fee :- PoolFeePips(pool);
    Walk(tokenIn == pool.token0, fee, b, first.sqrtPrice, first.liquidity, first.rest)
  }

  /** Whenever the whole input is quoted, so are its two parts, the second continuing where the
      first one ended, and together they never yield more. */
  lemma QuoteSplit(pool: PoolState, ticks: seq<TickState>, tokenIn: Address, a: U256, b: U256)
    requires Consistent(pool) && a + b <= U256_MAX
    requires QuoteWalk(pool, ticks, tokenIn, a + b).Ok?
    ensures QuoteWalk(pool, ticks, tokenIn, a).Ok?
    ensures ContinuedQuote(pool, tokenIn, b, QuoteWalk(pool, ticks, tokenIn, a).value).Ok?
    ensures var first := QuoteWalk(pool, ticks, tokenIn, a).value;
      var second := ContinuedQuote(pool, tokenIn, b, first).value;
      first.amountOut + second.amountOut <= QuoteWalk(pool, ticks, tokenIn, a + b).value.amountOut
  {
    hide Walk, Ahead;
    var zfo := tokenIn == pool.token0;
    AheadAligned(zfo, pool, ticks);
    SplittingNeverHelps(zfo, PoolFeePips(pool).value, a, b, pool.sqrtPrice.value, pool.liquidity.value,
                        Ahead(zfo, pool.tick.value, ticks));
  }

  // ----- a pool whose last tick is too far from the end of the price range -----

  /** Liquidity 2^97 at price one and a single tick at zero: nothing lies ahead of a price that
      rises, and the step towards the largest price errs, for every amount of token1. */
  lemma RisingPastTheLastTickFails(token0: Address, token1: Address, feeBps: FeePips, gross: U256, amountIn: U256)
    requires token0 != token1 && feeBps < 10_000 && amountIn > 0
    ensures var pool := PoolState(false, token0, token1, feeBps, None, Some(Q96), Some(2 * Q96), Some(0));
      && Consistent(pool)
      && QuoteWalk(pool, [TickState(0, 0, gross)], token1, amountIn).Err?
  {
    hide ComputeSwapStep, Ratio, TailStep;
    var pool := PoolState(false, token0, token1, feeBps, None, Some(Q96), Some(2 * Q96), Some(0));
    var ticks := [TickState(0, 0, gross)];
    SqrtPriceEnds();
    SqrtPriceStrictlyIncreasing(0, 1);
    AheadFacts(false, 0, ticks);
    Token1TailFails(PoolFeePips(pool).value, amountIn);
  }

  // ----- the single-range quoter -----

  /** The input, less fee, does not pay for the first price the walk can stop at: the nearest
      tick ahead, or the bound beyond the last one. */
  predicate StaysInRange(zfo: bool, l: nat, s: nat, ahead: seq<TickState>, x: nat, fee: nat)
    requires fee < FEE_DENOMINATOR
  {
    && (ahead == [] || InRange(ahead[0].tick))
    && var target := if ahead == [] then TailTarget(zfo) else SqrtPrice(ahead[0].tick);
    && s > 0 && target > 0 && Toward(zfo, s, target)
    && !Reaches(zfo, l, s, target, x, fee)
  }

  /** Inside the first range the single-range quoter answers whatever the walk answers. */
  lemma CurrentTickQuoteIsWalk(pool: PoolState, ticks: seq<TickState>, tokenIn: Address, x: U256)
    requires QuoteWalk(pool, ticks, tokenIn, x).Ok?
    requires StaysInRange(tokenIn == pool.token0, pool.liquidity.value, pool.sqrtPrice.value,
                          Ahead(tokenIn == pool.token0, pool.tick.value, ticks), x, PoolFeePips(pool).value)
    ensures CurrentTickQuote(pool, tokenIn, x) == Ok(QuoteWalk(pool, ticks, tokenIn, x).value.amountOut)
  {
    hide ComputeSwapStep, ExactStep, SqrtPrice, Ahead, Cross, RangeQuote, Reaches;
    var zfo, fee, s, l := tokenIn == pool.token0, PoolFeePips(pool).value, pool.sqrtPrice.value, pool.liquidity.value;
    var ahead := Ahead(zfo, pool.tick.value, ticks);
    var target := if ahead == [] then TailTarget(zfo) else SqrtPrice(ahead[0].tick);
    EmptyRangeIsReached(zfo, s, target, x, fee);
    LessFeeExact(x, fee);
    if x == 0 {
      LessFeeAtMost(0, fee);
      assert RangeQuote(zfo, 0, s, l) == Ok(0) by { QuoteOfNothing(zfo, s, l); }
    } else {
      WalkStepFacts(zfo, fee, x, s, target, l);
      StepContract(zfo, l, s, target, x, fee);
      ShortStepIsRangeQuote(zfo, l, s, target, x, fee);
    }
  }

  lemma QuoteOfNothing(zfo: bool, s: U256, l: U256)
    ensures RangeQuote(zfo, 0, s, l) == Ok(0)
  {
  }

  lemma EmptyRangeIsReached(zfo: bool, s: nat, t: nat, x: nat, fee: nat)
    requires s > 0 && t > 0 && Toward(zfo, s, t) && fee < FEE_DENOMINATOR
    ensures Reaches(zfo, 0, s, t, x, fee)
  {
    CeilLe(0, if zfo then s * t else Q96, 0);
  }

  lemma ShortStepIsRangeQuote(zfo: bool, l: U256, s: U256, t: U256, x: U256, fee: FeePips)
    requires s > 0 && t > 0 && l > 0 && x > 0 && Toward(zfo, s, t) && fee < FEE_DENOMINATOR
    requires ComputeSwapStep(s, t, l, x, fee, zfo).Ok? && !Reaches(zfo, l, s, t, x, fee)
    ensures LessFee(x, fee) <= U256_MAX
    ensures RangeQuote(zfo, LessFee(x, fee), s, l) == Ok(ExactStep(zfo, l, s, t, x, fee).amountOut)
  {
    hide DirectedIn, DirectedOut, DirectedNext, AmountIn, AmountOut, NextPrice, MulDiv, MulDivRoundingUp;
    var net := LessFee(x, fee);
    LessFeeExact(x, fee);
    LessFeeAtMost(x, fee);
    NextPriceToward(zfo, l, s, net);
    DirectedInExact(zfo, l, s, t);
    DirectedNextExact(zfo, l, s, net);
    if net == 0 {
      NothingInMovesNothing(zfo, l, s);
    } else {
      StepContract(zfo, l, s, t, x, fee);
      DirectedOutExact(zfo, l, s, NextPrice(zfo, l, s, net));
    }
  }

  lemma NothingInMovesNothing(zfo: bool, l: nat, s: nat)
    requires l > 0 && s > 0
    ensures NextPrice(zfo, l, s, 0) == s && AmountOut(zfo, l, s, s) == 0
  {
    if zfo {
      CeilLe(l * Q96 * s, l * Q96, s);
      CeilLe(l * Q96 * s, l * Q96, s - 1);
    }
  }

  /** The price a sale inside the current range moves the pool to. */
  function MovedPrice(pool: PoolState, tokenIn: Address, x: U256): nat
    requires PoolFeePips(pool).Ok? && pool.sqrtPrice.Some? && pool.liquidity.Some?
    requires pool.sqrtPrice.value > 0 && pool.liquidity.value > 0
  {
    NextPrice(tokenIn == pool.token0, pool.liquidity.value, pool.sqrtPrice.value, LessFee(x, PoolFeePips(pool).value))
  }

  /** The single-range quote in numbers: what the fee leaves moves the price as far as it pays for, and
      the output is that of this move, rounded down. */
  lemma CurrentTickMeaning(pool: PoolState, tokenIn: Address, x: U256)
    requires CurrentTickQuote(pool, tokenIn, x).Ok?
    ensures var zfo, s, l := tokenIn == pool.token0, pool.sqrtPrice.value, pool.liquidity.value;
      var net, u := x * (1_000_000 - PoolFeePips(pool).value) / 1_000_000, MovedPrice(pool, tokenIn, x);
      && s > 0 && l > 0 && u > 0 && Toward(zfo, s, u) && tokenIn in {pool.token0, pool.token1}
      && PaysFor(zfo, l, s, u, net)
      && (if zfo then u == 1 || !PaysFor(zfo, l, s, u - 1, net) else !PaysFor(zfo, l, s, u + 1, net))
      && WithinOneUnit(zfo, l, s, u, AmountIn(zfo, l, s, u), CurrentTickQuote(pool, tokenIn, x).value)
      && Brackets(zfo, l, s, u, AmountIn(zfo, l, s, u), CurrentTickQuote(pool, tokenIn, x).value)
  {
    hide AmountIn, AmountOut, NextPrice, MulDiv, RangeQuote, PaysFor, Brackets, WithinOneUnit;
    var zfo, fee, s, l := tokenIn == pool.token0, PoolFeePips(pool).value, pool.sqrtPrice.value, pool.liquidity.value;
    LessFeeExact(x, fee);
    LessFeeAtMost(x, fee);
    var net: U256 := LessFee(x, fee);
    RangeQuoteExact(zfo, net, s, l);
    var u := NextPrice(zfo, l, s, net);
    AmountsBracket(zfo, l, s, u);
    PaysForIff(zfo, l, s, u, net);
    Reach(zfo, l, s, net, u);
    if !zfo || u > 1 {
      var beyond: nat := if zfo then u - 1 else u + 1;
      PaysForIff(zfo, l, s, beyond, net);
      Reach(zfo, l, s, net, beyond);
    }
  }

  /** Whenever selling `x` is quoted, everything it bought can be sold back at the moved price,
      for at most `x`. */
  lemma CurrentTickRoundTrip(pool: PoolState, tokenIn: Address, tokenOut: Address, x: U256)
    requires pool.token0 != pool.token1 && tokenIn != tokenOut && tokenOut in {pool.token0, pool.token1}
    requires CurrentTickQuote(pool, tokenIn, x).Ok?
    ensures 0 < MovedPrice(pool, tokenIn, x) <= U256_MAX
    ensures var moved := pool.(sqrtPrice := Some(MovedPrice(pool, tokenIn, x)));
      var back := CurrentTickQuote(moved, tokenOut, CurrentTickQuote(pool, tokenIn, x).value);
      back.Ok? && back.value <= x
  {
    hide AmountIn, AmountOut, NextPrice, MulDiv, RangeQuote;
    var zfo, fee, s, l := tokenIn == pool.token0, PoolFeePips(pool).value, pool.sqrtPrice.value, pool.liquidity.value;
    LessFeeExact(x, fee);
    LessFeeAtMost(x, fee);
    var net: U256 := LessFee(x, fee);
    RangeQuoteExact(zfo, net, s, l);
    RangeRoundTrip(zfo, l, s, x, fee);
    var y := CurrentTickQuote(pool, tokenIn, x).value;
    LessFeeExact(y, fee);
  }

  /** The same inside one range: the return trip always answers. */
  lemma RangeRoundTrip(zfo: bool, l: U256, s: U256, x: U256, fee: FeePips)
    requires l > 0 && s > 0 && fee < FEE_DENOMINATOR && LessFee(x, fee) <= U256_MAX
    requires RangeQuote(zfo, LessFee(x, fee), s, l).Ok?
    ensures var u := NextPrice(zfo, l, s, LessFee(x, fee));
      && 0 < u <= U256_MAX
      && LessFee(RangeQuote(zfo, LessFee(x, fee), s, l).value, fee) <= U256_MAX
      && var back := RangeQuote(!zfo, LessFee(RangeQuote(zfo, LessFee(x, fee), s, l).value, fee), u, l);
      back.Ok? && back.value <= x
  {
    hide AmountIn, NextPrice, DirectedOut, DirectedNext;
    var net: U256 := LessFee(x, fee);
    RangeQuoteExact(zfo, net, s, l);
    DirectedNextExact(zfo, l, s, net);
    var u: nat := NextPrice(zfo, l, s, net);
    RoundTripLoses(zfo, l, s, x, fee);
    var y := RangeQuote(zfo, net, s, l).value;
    LessFeeAtMost(y, fee);
    var back: U256 := LessFee(y, fee);
    if net == 0 {
      NothingInMovesNothing(zfo, l, s);
    }
    if back == 0 {
      QuoteOfNothing(!zfo, u, l);
    } else {
      var v: nat := NextPrice(!zfo, l, u, back);
      DirectedOutExact(zfo, l, s, u);
      DirectedNextExact(!zfo, l, u, back);
      DirectedOutExact(!zfo, l, u, v);
    }
  }

  lemma RangeQuoteExact(zfo: bool, net: U256, s: U256, l: U256)
    requires s > 0 && l > 0 && RangeQuote(zfo, net, s, l).Ok?
    ensures NextPrice(zfo, l, s, net) > 0 && Toward(zfo, s, NextPrice(zfo, l, s, net))
    ensures RangeQuote(zfo, net, s, l).value == AmountOut(zfo, l, s, NextPrice(zfo, l, s, net))
  {
    NextPriceToward(zfo, l, s, net);
    if net == 0 {
      NothingInMovesNothing(zfo, l, s);
    } else {
      DirectedNextExact(zfo, l, s, net);
      DirectedOutExact(zfo, l, s, NextPrice(zfo, l, s, net));
    }
  }
}

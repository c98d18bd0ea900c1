/** The multi-tick walk of crates/dex/src/uniswap_v3.rs: the price moves from one initialized
    tick to the next, exchanging input for output and crossing into the next liquidity range,
    until the input is spent or the ticks run out.

    The source keeps the end price, the end liquidity and the uncrossed ticks in locals; here
    they are part of the result, so that one walk can be continued by another. */
module V3Walk {
  import opened Arith
  import opened Wrappers
  import opened U256Math
  import opened TickMath
  import opened SwapMath
  import opened SwapStep
  import opened SwapEngine

  /** An initialized tick. `liquidityNet` is added when the price crosses it upwards. */
  datatype TickState = TickState(tick: I32, liquidityNet: I128, liquidityGross: U256)

  datatype WalkEnd = WalkEnd(amountOut: U256, left: U256, sqrtPrice: U256, liquidity: U256,
                             rest: seq<TickState>, ticksUsed: nat, crossedTicks: nat, exhausted: bool)

  /** The bound the price is driven to once no ticks are left. */
  function TailTarget(zfo: bool): U256 {
    if zfo then 1 else U256_MAX
  }

  /** Two's-complement negation of the source's signed 128-bit type. */
  function Neg128(x: I128): I128 {
    if x == -0x8000_0000_0000_0000_0000_0000_0000_0000 then x else 0 - x
  }

  function Cross(zfo: bool, liquidity: U256, net: I128): Result<U256> {
    ApplyLiquidityDelta(liquidity, if zfo then Neg128(net) else net)
  }

  /** What remains of `x` after a step, with the source's saturating subtraction. */
  function LeftAfter(x: U256, step: Step): Result<U256>
    requires step.amountIn <= U256_MAX && step.feeAmount <= U256_MAX
  {
    var consumed :- CheckedAdd(step.amountIn, step.feeAmount);
    Ok(SaturatingSub(x, consumed))
  }

  function TailStep(zfo: bool, fee: FeePips, x: U256, s: U256, l: U256): Result<WalkEnd> {
    if l == 0 then Ok(WalkEnd(0, x, s, l, [], 0, 0, false))
    else
      var step :- ComputeSwapStep(s, TailTarget(zfo), l, x, fee, zfo);
      var left := if step.amountIn + step.feeAmount <= x then x - (step.amountIn + step.feeAmount) else 0;
      Ok(WalkEnd(step.amountOut, left, step.sqrtNext, l, [], 0, 0, true))
  }

  /** The walk over `ticks`, already filtered and sorted in the direction of the swap. */
  function Walk(zfo: bool, fee: FeePips, x: U256, s: U256, l: U256, ticks: seq<TickState>): Result<WalkEnd>
    decreases |ticks|
  {
    if x == 0 then Ok(WalkEnd(0, 0, s, l, ticks, 0, 0, false))
    else if ticks == [] then TailStep(zfo, fee, x, s, l)
    else
      var target :- SqrtRatioAtTick(ticks[0].tick);
      if l == 0 then
        var l' :- Cross(zfo, l, ticks[0].liquidityNet);
        var end :- Walk(zfo, fee, x, target, l', ticks[1..]);
        Ok(Onwards(0, end))
      else
        var step :- ComputeSwapStep(s, target, l, x, fee, zfo);
        var left :- LeftAfter(x, step);
        if step.sqrtNext == target then
          var l' :- Cross(zfo, l, ticks[0].liquidityNet);
          var end :- Walk(zfo, fee, left, target, l', ticks[1..]);
          var _ :- CheckedAdd(step.amountOut, end.amountOut);
          Ok(Onwards(step.amountOut, end))
        else
          Ok(WalkEnd(step.amountOut, left, step.sqrtNext, l, ticks, 1, 0, false))
  }

  /** A walk that crossed one more tick, having collected `amountOut` before it. */
  function Onwards(amountOut: U256, end: WalkEnd): WalkEnd
    requires amountOut + end.amountOut <= U256_MAX
  {
    end.(amountOut := amountOut + end.amountOut,
         ticksUsed := end.ticksUsed + 1, crossedTicks := end.crossedTicks + 1)
  }

  /** Every tick price, as far as it exists, lies further along than the one before it. */
  predicate Aligned(zfo: bool, s: nat, ticks: seq<TickState>)
    decreases |ticks|
  {
    s > 0 &&
    (ticks != [] && InRange(ticks[0].tick) ==>
       Toward(zfo, s, SqrtPrice(ticks[0].tick)) && Aligned(zfo, SqrtPrice(ticks[0].tick), ticks[1..]))
  }

  lemma TailToward(zfo: bool, s: U256)
    requires s > 0
    ensures Toward(zfo, s, TailTarget(zfo))
  {
  }

  /** One step of the walk, with the checked arithmetic replaced by the exact step. */
  lemma WalkStepFacts(zfo: bool, fee: FeePips, x: U256, s: U256, t: U256, l: U256)
    requires s > 0 && t > 0 && l > 0 && x > 0 && Toward(zfo, s, t) && fee < FEE_DENOMINATOR
    requires ComputeSwapStep(s, t, l, x, fee, zfo).Ok?
    ensures var step := ComputeSwapStep(s, t, l, x, fee, zfo).value;
      && step == ExactStep(zfo, l, s, t, x, fee)
      && step.amountIn + step.feeAmount <= x
      && LeftAfter(x, step) == Ok(x - step.amountIn - step.feeAmount)
  {
    StepRefines(zfo, l, s, t, x, fee);
    StepContract(zfo, l, s, t, x, fee);
  }

  // ----- where a walk ends -----

  /** A walk ends further along, still aligned with the ticks it did not cross, and leaves
      input unspent only when the ticks have run out. */
  lemma {:induction false} WalkEnds(zfo: bool, fee: FeePips, x: U256, s: U256, l: U256, ticks: seq<TickState>)
    requires fee < FEE_DENOMINATOR && Aligned(zfo, s, ticks)
    requires Walk(zfo, fee, x, s, l, ticks).Ok?
    ensures var end := Walk(zfo, fee, x, s, l, ticks).value;
      && Aligned(zfo, end.sqrtPrice, end.rest) && Toward(zfo, s, end.sqrtPrice)
      && end.left <= x && (end.left > 0 ==> end.rest == [])
    decreases |ticks|
  {
    hide ExactStep, ComputeSwapStep, SqrtPrice, Cross, LeftAfter;
    if x == 0 {
    } else if ticks == [] {
      if l > 0 {
        TailToward(zfo, s);
        WalkStepFacts(zfo, fee, x, s, TailTarget(zfo), l);
        StepContract(zfo, l, s, TailTarget(zfo), x, fee);
      }
    } else {
      var t := SqrtRatioAtTick(ticks[0].tick).value;
      if l == 0 {
        SqrtPriceRange(ticks[0].tick);
        WalkEnds(zfo, fee, x, t, Cross(zfo, l, ticks[0].liquidityNet).value, ticks[1..]);
      } else {
        SqrtPriceRange(ticks[0].tick);
        WalkStepFacts(zfo, fee, x, s, t, l);
        StepContract(zfo, l, s, t, x, fee);
        var step := ExactStep(zfo, l, s, t, x, fee);
        if step.sqrtNext == t {
          WalkEnds(zfo, fee, LeftAfter(x, step).value, t, Cross(zfo, l, ticks[0].liquidityNet).value, ticks[1..]);
        }
      }
    }
  }

  /** The uncrossed ticks are the tail of the list, and the counters count the others. */
  lemma {:induction false} WalkRest(zfo: bool, fee: FeePips, x: U256, s: U256, l: U256, ticks: seq<TickState>)
    requires Walk(zfo, fee, x, s, l, ticks).Ok?
    ensures var end := Walk(zfo, fee, x, s, l, ticks).value;
      && end.crossedTicks <= |ticks| && end.rest == ticks[end.crossedTicks..]
      && end.crossedTicks <= end.ticksUsed <= end.crossedTicks + 1
      && (end.exhausted ==> end.rest == [])
    decreases |ticks|
  {
    hide ComputeSwapStep, SqrtPrice, Cross, LeftAfter;
    if x == 0 || ticks == [] {
    } else {
      var t := SqrtRatioAtTick(ticks[0].tick).value;
      if l == 0 {
        WalkRest(zfo, fee, x, t, Cross(zfo, l, ticks[0].liquidityNet).value, ticks[1..]);
      } else {
        var step := ComputeSwapStep(s, t, l, x, fee, zfo).value;
        if step.sqrtNext == t {
          WalkRest(zfo, fee, LeftAfter(x, step).value, t, Cross(zfo, l, ticks[0].liquidityNet).value, ticks[1..]);
        }
      }
    }
  }

  // ----- the spot price bounds the whole walk -----

  /** The input actually spent, less its fee and valued at the starting spot price, covers the output:
      no range is crossed without its fee. */
  lemma {:induction false} WalkWithinSpot(zfo: bool, fee: FeePips, x: U256, s: U256, l: U256, ticks: seq<TickState>)
    requires fee < FEE_DENOMINATOR && Aligned(zfo, s, ticks)
    requires Walk(zfo, fee, x, s, l, ticks).Ok?
    ensures var end := Walk(zfo, fee, x, s, l, ticks).value;
      end.left <= x && WithinNetSpot(zfo, s, x - end.left, fee, end.amountOut)
    decreases |ticks|
  {
    hide ExactStep, ComputeSwapStep, SqrtPrice, Cross, LeftAfter, WithinNetSpot;
    NetSpotOfNothing(zfo, s, fee);
    if x == 0 {
    } else if ticks == [] {
      if l > 0 {
        TailToward(zfo, s);
        StepSpent(zfo, fee, x, s, TailTarget(zfo), l);
      }
    } else {
      var t := SqrtRatioAtTick(ticks[0].tick).value;
      SqrtPriceRange(ticks[0].tick);
      if l == 0 {
        WalkWithinSpot(zfo, fee, x, t, Cross(zfo, l, ticks[0].liquidityNet).value, ticks[1..]);
        var end := Walk(zfo, fee, x, s, l, ticks).value;
        NetSpotCompose(zfo, s, t, 0, x - end.left, fee, 0, end.amountOut);
      } else {
        StepSpent(zfo, fee, x, s, t, l);
        var step := ExactStep(zfo, l, s, t, x, fee);
        if step.sqrtNext == t {
          var left := x - step.amountIn - step.feeAmount;
          var l' := Cross(zfo, l, ticks[0].liquidityNet).value;
          WalkWithinSpot(zfo, fee, left, t, l', ticks[1..]);
          var end := Walk(zfo, fee, left, t, l', ticks[1..]).value;
          NetSpotCompose(zfo, s, t, x - left, left - end.left, fee, step.amountOut, end.amountOut);
        }
      }
    }
  }

  lemma StepSpent(zfo: bool, fee: FeePips, x: U256, s: U256, t: U256, l: U256)
    requires s > 0 && t > 0 && l > 0 && x > 0 && Toward(zfo, s, t) && fee < FEE_DENOMINATOR
    requires ComputeSwapStep(s, t, l, x, fee, zfo).Ok?
    ensures var step := ComputeSwapStep(s, t, l, x, fee, zfo).value;
      && step == ExactStep(zfo, l, s, t, x, fee)
      && step.amountIn + step.feeAmount <= x
      && LeftAfter(x, step) == Ok(x - step.amountIn - step.feeAmount)
      && WithinNetSpot(zfo, s, step.amountIn + step.feeAmount, fee, step.amountOut)
  {
    hide ExactStep, ComputeSwapStep, LeftAfter, WithinNetSpot;
    WalkStepFacts(zfo, fee, x, s, t, l);
    StepWithinNetSpot(zfo, l, s, t, x, fee);
  }

  // ----- more input, more output -----

  /** A step that answers for some input answers for every smaller one. */
  lemma SmallerStepAnswers(zfo: bool, fee: FeePips, x: U256, y: U256, s: U256, t: U256, l: U256)
    requires s > 0 && t > 0 && l > 0 && 0 < x <= y && Toward(zfo, s, t) && fee < FEE_DENOMINATOR
    requires ComputeSwapStep(s, t, l, y, fee, zfo).Ok?
    ensures ComputeSwapStep(s, t, l, x, fee, zfo).Ok?
  {
    hide ExactStep, ComputeSwapStep, AmountIn;
    if zfo {
      SellToken0AnswersIff(l, s, t, x, fee);
      SellToken0AnswersIff(l, s, t, y, fee);
      StepMono(zfo, l, s, t, x, y, fee);
    } else {
      SellToken1AnswersIff(l, s, t, x, fee);
      SellToken1AnswersIff(l, s, t, y, fee);
    }
  }

  /** Whenever a larger input is answered, so is a smaller one; it buys no more, and ends at a
      price no further along. */
  lemma {:induction false} WalkMonotone(zfo: bool, fee: FeePips, x: U256, y: U256, s: U256, l: U256,
                                        ticks: seq<TickState>)
    requires fee < FEE_DENOMINATOR && Aligned(zfo, s, ticks) && x <= y
    requires Walk(zfo, fee, y, s, l, ticks).Ok?
    ensures Walk(zfo, fee, x, s, l, ticks).Ok?
    ensures var p, q := Walk(zfo, fee, x, s, l, ticks).value, Walk(zfo, fee, y, s, l, ticks).value;
      p.amountOut <= q.amountOut && Toward(zfo, p.sqrtPrice, q.sqrtPrice)
    decreases |ticks|
  {
    hide ExactStep, ComputeSwapStep, SqrtPrice, Cross;
    if x == 0 {
      WalkEnds(zfo, fee, y, s, l, ticks);
    } else if ticks == [] {
      if l > 0 {
        TailToward(zfo, s);
        SmallerStepAnswers(zfo, fee, x, y, s, TailTarget(zfo), l);
        WalkStepFacts(zfo, fee, x, s, TailTarget(zfo), l);
        WalkStepFacts(zfo, fee, y, s, TailTarget(zfo), l);
        StepMono(zfo, l, s, TailTarget(zfo), x, y, fee);
      }
    } else {
      var t := SqrtRatioAtTick(ticks[0].tick).value;
      if l == 0 {
        WalkMonotone(zfo, fee, x, y, t, Cross(zfo, l, ticks[0].liquidityNet).value, ticks[1..]);
      } else {
        SqrtPriceRange(ticks[0].tick);
        SmallerStepAnswers(zfo, fee, x, y, s, t, l);
        WalkStepFacts(zfo, fee, x, s, t, l);
        WalkStepFacts(zfo, fee, y, s, t, l);
        StepMono(zfo, l, s, t, x, y, fee);
        StepContract(zfo, l, s, t, x, fee);
        StepContract(zfo, l, s, t, y, fee);
        var p, q := ExactStep(zfo, l, s, t, x, fee), ExactStep(zfo, l, s, t, y, fee);
        if p.sqrtNext == t {
          var l' := Cross(zfo, l, ticks[0].liquidityNet).value;
          WalkMonotone(zfo, fee, LeftAfter(x, p).value, LeftAfter(y, q).value, t, l', ticks[1..]);
        } else if q.sqrtNext == t {
          var l' := Cross(zfo, l, ticks[0].liquidityNet).value;
          WalkEnds(zfo, fee, LeftAfter(y, q).value, t, l', ticks[1..]);
        }
      }
    }
  }

  // ----- splitting a trade never helps -----

  /** Walking with `a`, then continuing with `b` from wherever that ended, is answered whenever
      walking with `a + b` is, buys at most what that buys, and moves the price at most as far. */
  lemma {:induction false} SplittingNeverHelps(zfo: bool, fee: FeePips, a: U256, b: U256, s: U256, l: U256,
                                               ticks: seq<TickState>)
    requires fee < FEE_DENOMINATOR && Aligned(zfo, s, ticks) && a + b <= U256_MAX
    requires Walk(zfo, fee, a + b, s, l, ticks).Ok?
    ensures Walk(zfo, fee, a, s, l, ticks).Ok?
    ensures var first := Walk(zfo, fee, a, s, l, ticks).value;
      Walk(zfo, fee, b, first.sqrtPrice, first.liquidity, first.rest).Ok?
    ensures var first := Walk(zfo, fee, a, s, l, ticks).value;
      var second := Walk(zfo, fee, b, first.sqrtPrice, first.liquidity, first.rest).value;
      var whole := Walk(zfo, fee, a + b, s, l, ticks).value;
      && first.amountOut + second.amountOut <= whole.amountOut
      && Toward(zfo, second.sqrtPrice, whole.sqrtPrice)
    decreases |ticks|
  {
    hide ExactStep, ComputeSwapStep, SqrtPrice, Cross;
    WalkMonotone(zfo, fee, a, a + b, s, l, ticks);
    if a == 0 || b == 0 {
    } else if ticks == [] {
      if l > 0 {
        SplitTail(zfo, fee, a, b, s, l);
      }
    } else {
      var t := SqrtRatioAtTick(ticks[0].tick).value;
      if l == 0 {
        SplittingNeverHelps(zfo, fee, a, b, t, Cross(zfo, l, ticks[0].liquidityNet).value, ticks[1..]);
      } else {
        SqrtPriceRange(ticks[0].tick);
        SmallerStepAnswers(zfo, fee, a, a + b, s, t, l);
        WalkStepFacts(zfo, fee, a, s, t, l);
        StepContract(zfo, l, s, t, a, fee);
        var p := ExactStep(zfo, l, s, t, a, fee);
        if p.sqrtNext == t {
          StepReachesAgain(zfo, fee, a, b, s, t, l);
          var l' := Cross(zfo, l, ticks[0].liquidityNet).value;
          SplittingNeverHelps(zfo, fee, LeftAfter(a, p).value, b, t, l', ticks[1..]);
        } else {
          SplitInsideRange(zfo, fee, a, b, s, l, ticks);
        }
      }
    }
  }

  /** A step whose target is reached with `a` is the same step with `a + b`, with `b` more left. */
  lemma StepReachesAgain(zfo: bool, fee: FeePips, a: U256, b: U256, s: U256, t: U256, l: U256)
    requires s > 0 && t > 0 && l > 0 && a > 0 && a + b <= U256_MAX && Toward(zfo, s, t) && fee < FEE_DENOMINATOR
    requires ComputeSwapStep(s, t, l, a + b, fee, zfo).Ok? && ExactStep(zfo, l, s, t, a, fee).sqrtNext == t
    ensures var p := ExactStep(zfo, l, s, t, a, fee);
      && ComputeSwapStep(s, t, l, a + b, fee, zfo) == Ok(p)
      && p.amountIn + p.feeAmount <= a
      && LeftAfter(a + b, p) == Ok(a - p.amountIn - p.feeAmount + b)
  {
    hide ExactStep, ComputeSwapStep;
    StepContract(zfo, l, s, t, a, fee);
    StepMono(zfo, l, s, t, a, a + b, fee);
    WalkStepFacts(zfo, fee, a + b, s, t, l);
  }

  /** A step that stopped short can be continued by any amount the whole step would take. */
  lemma ContinuedStepAnswers(zfo: bool, fee: FeePips, a: U256, b: U256, s: U256, t: U256, l: U256)
    requires s > 0 && t > 0 && l > 0 && a > 0 && b > 0 && a + b <= U256_MAX && Toward(zfo, s, t)
    requires fee < FEE_DENOMINATOR && ComputeSwapStep(s, t, l, a + b, fee, zfo).Ok?
    ensures var m := ExactStep(zfo, l, s, t, a, fee).sqrtNext;
      && 0 < m <= U256_MAX && Toward(zfo, s, m) && Toward(zfo, m, t)
      && ComputeSwapStep(m, t, l, b, fee, zfo).Ok?
  {
    hide ExactStep, ComputeSwapStep, AmountIn;
    StepContract(zfo, l, s, t, a, fee);
    var m: nat := ExactStep(zfo, l, s, t, a, fee).sqrtNext;
    if zfo {
      SellToken0AnswersIff(l, s, t, a + b, fee);
      SellToken0AnswersIff(l, m, t, b, fee);
      if m == t {
        StandingStillPaysNothing(zfo, l, t, b, fee);
      } else {
        StepSplit(zfo, l, s, t, a, b, fee);
      }
    } else {
      SellToken1AnswersIff(l, s, t, a + b, fee);
      SellToken1AnswersIff(l, m, t, b, fee);
      Token1UpShrinks(l, s, m, t);
    }
  }

  lemma Token1UpShrinks(l: nat, s: nat, m: nat, t: nat)
    requires 0 < s <= m <= t
    ensures AmountIn(false, l, m, t) <= AmountIn(false, l, s, t)
  {
    MulLe(t - m, t - s, l);
    CeilMono(l * (t - m), l * (t - s), Q96);
  }

  /** The case of no ticks left: both parts and the whole head for the same bound. */
  lemma SplitTail(zfo: bool, fee: FeePips, a: U256, b: U256, s: U256, l: U256)
    requires fee < FEE_DENOMINATOR && a > 0 && b > 0 && a + b <= U256_MAX && s > 0 && l > 0
    requires TailStep(zfo, fee, a + b, s, l).Ok?
    ensures TailStep(zfo, fee, a, s, l).Ok?
    ensures TailStep(zfo, fee, b, TailStep(zfo, fee, a, s, l).value.sqrtPrice, l).Ok?
    ensures var first := TailStep(zfo, fee, a, s, l).value;
      var second := TailStep(zfo, fee, b, first.sqrtPrice, l).value;
      var whole := TailStep(zfo, fee, a + b, s, l).value;
      && first.amountOut + second.amountOut <= whole.amountOut
      && Toward(zfo, second.sqrtPrice, whole.sqrtPrice)
  {
    hide ExactStep, ComputeSwapStep;
    var t := TailTarget(zfo);
    TailToward(zfo, s);
    SmallerStepAnswers(zfo, fee, a, a + b, s, t, l);
    ContinuedStepAnswers(zfo, fee, a, b, s, t, l);
    WalkStepFacts(zfo, fee, a, s, t, l);
    WalkStepFacts(zfo, fee, a + b, s, t, l);
    StepContract(zfo, l, s, t, a, fee);
    var p := ExactStep(zfo, l, s, t, a, fee);
    WalkStepFacts(zfo, fee, b, p.sqrtNext, t, l);
    if p.sqrtNext == t {
      StepMono(zfo, l, s, t, a, a + b, fee);
      StepContract(zfo, l, s, t, a + b, fee);
      StandingStillPaysNothing(zfo, l, t, b, fee);
    } else {
      StepSplit(zfo, l, s, t, a, b, fee);
    }
  }

  lemma StandingStillPaysNothing(zfo: bool, l: nat, s: nat, x: nat, fee: nat)
    requires l > 0 && s > 0 && x > 0 && fee < FEE_DENOMINATOR
    ensures ExactStep(zfo, l, s, s, x, fee) == Step(s, 0, 0, 0)
  {
    CeilLe(0, if zfo then s * s else Q96, 0);
    FeeCovers(x, 0, fee);
    CeilLe(0, FEE_DENOMINATOR - fee, 0);
  }

  /** The case where `a` stops short of the next tick, so that `b` continues inside the range. */
  lemma SplitInsideRange(zfo: bool, fee: FeePips, a: U256, b: U256, s: U256, l: U256, ticks: seq<TickState>)
    requires fee < FEE_DENOMINATOR && Aligned(zfo, s, ticks) && a > 0 && b > 0 && a + b <= U256_MAX
    requires l > 0 && ticks != [] && InRange(ticks[0].tick) && SqrtPrice(ticks[0].tick) > 0
    requires !Reaches(zfo, l, s, SqrtPrice(ticks[0].tick), a, fee)
    requires Walk(zfo, fee, a + b, s, l, ticks).Ok?
    ensures Walk(zfo, fee, a, s, l, ticks).Ok?
    ensures var first := Walk(zfo, fee, a, s, l, ticks).value;
      Walk(zfo, fee, b, first.sqrtPrice, first.liquidity, first.rest).Ok?
    ensures var first := Walk(zfo, fee, a, s, l, ticks).value;
      var second := Walk(zfo, fee, b, first.sqrtPrice, first.liquidity, first.rest).value;
      var whole := Walk(zfo, fee, a + b, s, l, ticks).value;
      && first.amountOut + second.amountOut <= whole.amountOut
      && Toward(zfo, second.sqrtPrice, whole.sqrtPrice)
  {
    hide ExactStep, ComputeSwapStep, SqrtPrice, Cross;
    var t := SqrtPrice(ticks[0].tick);
    SqrtPriceRange(ticks[0].tick);
    SmallerStepAnswers(zfo, fee, a, a + b, s, t, l);
    ContinuedStepAnswers(zfo, fee, a, b, s, t, l);
    WalkStepFacts(zfo, fee, a, s, t, l);
    StepContract(zfo, l, s, t, a, fee);
    var m := ExactStep(zfo, l, s, t, a, fee).sqrtNext;
    WalkStepFacts(zfo, fee, b, m, t, l);
    WalkStepFacts(zfo, fee, a + b, s, t, l);
    StepSplit(zfo, l, s, t, a, b, fee);
    var q, r := ExactStep(zfo, l, m, t, b, fee), ExactStep(zfo, l, s, t, a + b, fee);
    if r.sqrtNext == t {
      var l' := Cross(zfo, l, ticks[0].liquidityNet).value;
      WalkEnds(zfo, fee, LeftAfter(a + b, r).value, t, l', ticks[1..]);
      if q.sqrtNext == t {
        WalkMonotone(zfo, fee, LeftAfter(b, q).value, LeftAfter(a + b, r).value, t, l', ticks[1..]);
      }
    }
  }

  // ----- the step beyond the last tick -----

  /** Selling token1 with the ticks exhausted, the source aims at the largest 256-bit price, so
      the answer depends on the liquidity alone, not on the amount: the token1 needed to get
      there must fit 256 bits. Liquidity up to 2^96 always passes. */
  lemma Token1TailAnswersIff(fee: FeePips, x: U256, s: U256, l: U256)
    requires fee < FEE_DENOMINATOR && x > 0 && s > 0
    ensures TailStep(false, fee, x, s, l).Ok? <==> l * (U256_MAX - s) <= U256_MAX * Q96 && l * Q96 <= U256_MAX
    ensures l <= Q96 ==> TailStep(false, fee, x, s, l).Ok?
  {
    hide ComputeSwapStep, ExactStep;
    if l > 0 {
      SellToken1AnswersIff(l, s, U256_MAX, x, fee);
      CeilLe(l * (U256_MAX - s), Q96, U256_MAX);
      if l <= Q96 {
        MulLe(l, Q96, U256_MAX - s);
      }
    }
  }

  /** At price one, twice that liquidity already fails, however small the amount. */
  lemma Token1TailFails(fee: FeePips, x: U256)
    requires fee < FEE_DENOMINATOR && x > 0
    ensures TailStep(false, fee, x, Q96, 2 * Q96).Err?
  {
    Token1TailAnswersIff(fee, x, Q96, 2 * Q96);
  }
}

/** The checked 256-bit swap arithmetic of crates/dex/src/uniswap_v3.rs, with every failure
    branch of the source, shown to compute the exact step whenever it answers at all and to
    answer whenever liquidity and prices are in their documented ranges. */
module SwapEngine {
  import opened Arith
  import opened Wrappers
  import opened U256Math
  import opened SwapMath
  import opened SwapStep

  type I128 = x: int | -0x8000_0000_0000_0000_0000_0000_0000_0000 <= x < 0x8000_0000_0000_0000_0000_0000_0000_0000

  function Lower(a: U256, b: U256): U256 {
    if a <= b then a else b
  }

  function Upper(a: U256, b: U256): U256 {
    if a <= b then b else a
  }

  function LiquidityShifted(liquidity: U256): Result<U256> {
    Narrow(liquidity * Q96)
  }

  function Amount0Delta(liquidity: U256, sqrtA: U256, sqrtB: U256, roundUp: bool): Result<U256> {
    var lower, upper := Lower(sqrtA, sqrtB), Upper(sqrtA, sqrtB);
    var diff := SaturatingSub(upper, lower);
    var numerator1 :- LiquidityShifted(liquidity);
    if roundUp then
      var value :- MulDivRoundingUp(numerator1, diff, upper);
      DivRoundUp(value, lower)
    else
      var value :- MulDiv(numerator1, diff, upper);
      if lower == 0 then Err else Narrow(Quotient(value, lower))
  }

  function Amount1Delta(liquidity: U256, sqrtA: U256, sqrtB: U256, roundUp: bool): Result<U256> {
    var lower, upper := Lower(sqrtA, sqrtB), Upper(sqrtA, sqrtB);
    var diff := SaturatingSub(upper, lower);
    if roundUp then MulDivRoundingUp(liquidity, diff, Q96) else MulDiv(liquidity, diff, Q96)
  }

  function NextSqrtPriceFromAmount0In(sqrtPrice: U256, liquidity: U256, amountIn: U256): Result<U256> {
    var numerator1 :- LiquidityShifted(liquidity);
    ProductIs(amountIn, sqrtPrice);
    ProductFits(amountIn, sqrtPrice);
    MulDivRoundingUp(numerator1, sqrtPrice, numerator1 + Product(amountIn, sqrtPrice))
  }

  function NextSqrtPriceFromAmount1In(sqrtPrice: U256, liquidity: U256, amountIn: U256): Result<U256> {
    var delta :- MulDiv(amountIn, Q96, liquidity);
    CheckedAdd(sqrtPrice, delta)
  }

  /** Crossing a tick. Removing liquidity saturates at zero. */
  function ApplyLiquidityDelta(liquidity: U256, delta: I128): Result<U256> {
    var magnitude: int := if delta >= 0 then delta else 0 - delta;
    if delta >= 0 then CheckedAdd(liquidity, magnitude) else Ok(SaturatingSub(liquidity, magnitude))
  }

  function FeeComplement(feePips: nat): U256 {
    if feePips <= FEE_DENOMINATOR then FEE_DENOMINATOR - feePips else 0
  }

  type FeePips = x: int | 0 <= x < 0x1_0000_0000

  function DirectedIn(zfo: bool, liquidity: U256, sqrtCurrent: U256, sqrtNext: U256): Result<U256> {
    if zfo then Amount0Delta(liquidity, sqrtNext, sqrtCurrent, true)
    else Amount1Delta(liquidity, sqrtCurrent, sqrtNext, true)
  }

  function DirectedOut(zfo: bool, liquidity: U256, sqrtCurrent: U256, sqrtNext: U256): Result<U256> {
    if zfo then Amount1Delta(liquidity, sqrtNext, sqrtCurrent, false)
    else Amount0Delta(liquidity, sqrtCurrent, sqrtNext, false)
  }

  function DirectedNext(zfo: bool, liquidity: U256, sqrtCurrent: U256, amountIn: U256): Result<U256> {
    if zfo then NextSqrtPriceFromAmount0In(sqrtCurrent, liquidity, amountIn)
    else NextSqrtPriceFromAmount1In(sqrtCurrent, liquidity, amountIn)
  }

  function ComputeSwapStep(sqrtCurrent: U256, sqrtTarget: U256, liquidity: U256, amountRemaining: U256,
                           feePips: FeePips, zfo: bool): (r: Result<Step>)
    ensures r.Ok? ==> && r.value.sqrtNext <= U256_MAX && r.value.amountIn <= U256_MAX
                      && r.value.amountOut <= U256_MAX && r.value.feeAmount <= U256_MAX
  {
    if amountRemaining == 0 || liquidity == 0 then
      Ok(Step(sqrtCurrent, 0, 0, 0))
    else
      var lessFee :- MulDiv(amountRemaining, FeeComplement(feePips), FEE_DENOMINATOR);
      var toTarget :- DirectedIn(zfo, liquidity, sqrtCurrent, sqrtTarget);
      var reached := lessFee >= toTarget;
      var sqrtNext :- if reached then Ok(sqrtTarget) else DirectedNext(zfo, liquidity, sqrtCurrent, lessFee);
      var amountIn :- DirectedIn(zfo, liquidity, sqrtCurrent, sqrtNext);
      var amountOut :- DirectedOut(zfo, liquidity, sqrtCurrent, sqrtNext);
      var feeAmount :- if reached then MulDivRoundingUp(amountIn, feePips, FeeComplement(feePips))
                       else Ok(SaturatingSub(amountRemaining, amountIn));
      Ok(Step(sqrtNext, amountIn, amountOut, feeAmount))
  }

  lemma FloorAtMost(a: nat, b: nat)
    requires b > 0
    ensures a / b <= a
  {
    FloorBounds(a, b);
    MulLe(1, b, a / b);
  }

  // ----- each checked operation is the exact one, or an error exactly when that does not fit -----

  lemma MulDivRoundingUpIsCeil(a: U256, b: U256, d: U512)
    requires d > 0
    ensures 0 <= a * b && MulDivRoundingUp(a, b, d) == Narrow(CeilDiv(a * b, d))
  {
    ProductFits(a, b);
    ProductIs(a, b);
    RoundUpIsCeil(a * b, d);
  }

  /** The two-stage division of the source rounds like a single one. */
  lemma Amount0Exact(liquidity: U256, lo: U256, hi: U256)
    requires 0 < lo <= hi && liquidity * Q96 <= U256_MAX
    ensures Amount0Delta(liquidity, lo, hi, true) == Narrow(Token0Up(liquidity * Q96, lo, hi))
    ensures Amount0Delta(liquidity, lo, hi, false) == Narrow(Token0Down(liquidity * Q96, lo, hi))
  {
    var n, diff := liquidity * Q96, hi - lo;
    MulDivRoundingUpIsCeil(n, diff, hi);
    QuotientFits(n, diff, hi);
    var up, down := CeilDiv(n * diff, hi), n * diff / hi;
    RoundUpIsCeil(up, lo);
    NestedCeil(n * diff, hi, lo);
    NestedFloor(n * diff, hi, lo);
    FloorAtMost(down, lo);
    MulDivIs(n, diff, hi);
    QuotientIs(down, lo);
  }

  /** A fraction of at most one, of something that fits, fits. */
  lemma QuotientFits(n: nat, diff: nat, whole: nat)
    requires 0 < whole && diff <= whole
    ensures 0 <= n * diff && CeilDiv(n * diff, whole) <= n && n * diff / whole <= n
  {
    MulLe(diff, whole, n);
    CeilLe(n * diff, whole, n);
    FloorBelowCeil(n * diff, whole);
  }

  lemma Amount1Exact(liquidity: U256, lo: U256, hi: U256)
    requires lo <= hi
    ensures Amount1Delta(liquidity, lo, hi, true) == Narrow(Token1Up(liquidity, lo, hi))
    ensures Amount1Delta(liquidity, lo, hi, false) == Narrow(Token1Down(liquidity, lo, hi))
  {
    MulDivRoundingUpIsCeil(liquidity, hi - lo, Q96);
    MulDivIs(liquidity, hi - lo, Q96);
  }

  lemma DirectedInExact(zfo: bool, liquidity: U256, s: U256, t: U256)
    requires 0 < s && 0 < t && Toward(zfo, s, t)
    ensures DirectedIn(zfo, liquidity, s, t).Ok? ==>
              DirectedIn(zfo, liquidity, s, t).value == AmountIn(zfo, liquidity, s, t)
    ensures zfo ==> (DirectedIn(zfo, liquidity, s, t).Ok? <==> liquidity * Q96 <= U256_MAX)
    ensures !zfo ==> (DirectedIn(zfo, liquidity, s, t).Ok? <==> AmountIn(zfo, liquidity, s, t) <= U256_MAX)
  {
    if zfo {
      if liquidity * Q96 <= U256_MAX {
        Amount0Exact(liquidity, t, s);
        Token0UpAtMost(liquidity * Q96, t, s);
      }
    } else {
      Amount1Exact(liquidity, s, t);
    }
  }

  lemma DirectedOutExact(zfo: bool, liquidity: U256, s: U256, t: U256)
    requires 0 < s && 0 < t && Toward(zfo, s, t)
    ensures DirectedOut(zfo, liquidity, s, t).Ok? ==>
              DirectedOut(zfo, liquidity, s, t).value == AmountOut(zfo, liquidity, s, t)
    ensures !zfo ==> (DirectedOut(zfo, liquidity, s, t).Ok? <==> liquidity * Q96 <= U256_MAX)
    ensures zfo ==> (DirectedOut(zfo, liquidity, s, t).Ok? <==> AmountOut(zfo, liquidity, s, t) <= U256_MAX)
  {
    if zfo {
      Amount1Exact(liquidity, t, s);
    } else if liquidity * Q96 <= U256_MAX {
      Amount0Exact(liquidity, s, t);
      Token0DownAtMost(liquidity * Q96, s, t);
    }
  }

  lemma Token0DownAtMost(n: nat, lo: nat, hi: nat)
    requires 0 < lo <= hi
    ensures Token0Down(n, lo, hi) <= n
  {
    Token0UpAtMost(n, lo, hi);
    FloorBelowCeil(n * (hi - lo), hi * lo);
  }

  /** Token0 between two prices never exceeds n itself, prices being at least one unit. */
  lemma Token0UpAtMost(n: nat, lo: nat, hi: nat)
    requires 0 < lo <= hi
    ensures Token0Up(n, lo, hi) <= n
  {
    MulLe(1, lo, hi);
    MulLe(hi - lo, hi * lo, n);
    CeilLe(n * (hi - lo), hi * lo, n);
  }

  lemma DirectedNextExact(zfo: bool, liquidity: U256, s: U256, x: U256)
    requires 0 < s && 0 < liquidity
    ensures DirectedNext(zfo, liquidity, s, x).Ok? ==>
              DirectedNext(zfo, liquidity, s, x).value == NextPrice(zfo, liquidity, s, x)
    ensures zfo ==> (DirectedNext(zfo, liquidity, s, x).Ok? <==> liquidity * Q96 <= U256_MAX)
    ensures !zfo ==> (DirectedNext(zfo, liquidity, s, x).Ok? <==> NextPrice(zfo, liquidity, s, x) <= U256_MAX)
  {
    if zfo {
      if liquidity * Q96 <= U256_MAX {
        ProductFits(x, s);
        ProductIs(x, s);
        MulDivRoundingUpIsCeil(liquidity * Q96, s, liquidity * Q96 + x * s);
        Token0NextBounds(liquidity * Q96, s, x);
      }
    } else {
      MulDivIs(x, Q96, liquidity);
    }
  }

  lemma LessFeeExact(x: U256, fee: FeePips)
    requires fee < FEE_DENOMINATOR
    ensures MulDiv(x, FeeComplement(fee), FEE_DENOMINATOR) == Ok(LessFee(x, fee))
  {
    LessFeeAtMost(x, fee);
    MulDivIs(x, FeeComplement(fee), FEE_DENOMINATOR);
  }

  /** Whenever the checked step answers, it answers the exact step. */
  lemma StepRefines(zfo: bool, liquidity: U256, s: U256, t: U256, x: U256, fee: FeePips)
    requires 0 < s && 0 < t && 0 < liquidity && 0 < x && Toward(zfo, s, t) && fee < FEE_DENOMINATOR
    requires ComputeSwapStep(s, t, liquidity, x, fee, zfo).Ok?
    ensures ComputeSwapStep(s, t, liquidity, x, fee, zfo).value == ExactStep(zfo, liquidity, s, t, x, fee)
  {
    hide DirectedIn, DirectedOut, DirectedNext, AmountIn, AmountOut, NextPrice, MulDiv, MulDivRoundingUp;
    LessFeeExact(x, fee);
    DirectedInExact(zfo, liquidity, s, t);
    DirectedNextExact(zfo, liquidity, s, LessFee(x, fee));
    StepContract(zfo, liquidity, s, t, x, fee);
    var next := ExactStep(zfo, liquidity, s, t, x, fee).sqrtNext;
    DirectedInExact(zfo, liquidity, s, next);
    DirectedOutExact(zfo, liquidity, s, next);
    MulDivRoundingUpIsCeil(AmountIn(zfo, liquidity, s, next), fee, FEE_DENOMINATOR - fee);
  }

  /** Whenever the checked step answers, its numbers are those of a step. */
  lemma CheckedStepMeaning(zfo: bool, liquidity: U256, s: U256, t: U256, x: U256, fee: FeePips)
    requires 0 < s && 0 < t && 0 < liquidity && 0 < x && Toward(zfo, s, t) && fee < FEE_DENOMINATOR
    requires ComputeSwapStep(s, t, liquidity, x, fee, zfo).Ok?
    ensures IsStep(zfo, liquidity, s, t, x, fee, ComputeSwapStep(s, t, liquidity, x, fee, zfo).value)
  {
    hide ComputeSwapStep, ExactStep, IsStep;
    StepRefines(zfo, liquidity, s, t, x, fee);
    StepMeaning(zfo, liquidity, s, t, x, fee);
  }

  /** Crossing a tick: liquidity is added, an error when it leaves 256 bits, or removed down to zero. */
  lemma LiquidityDeltaIs(liquidity: U256, delta: I128)
    ensures ApplyLiquidityDelta(liquidity, delta)
         == if liquidity + delta > U256_MAX then Err else Ok(if liquidity + delta < 0 then 0 else liquidity + delta)
  {
  }

  /** Selling token0, the step answers exactly when the shifted liquidity and the token1 paid
      out fit 256 bits; nothing else in it can fail. */
  lemma SellToken0AnswersIff(liquidity: U256, s: U256, t: U256, x: U256, fee: FeePips)
    requires 0 < t <= s && 0 < liquidity && 0 < x && fee < FEE_DENOMINATOR
    ensures ComputeSwapStep(s, t, liquidity, x, fee, true).Ok?
      <==> liquidity * Q96 <= U256_MAX && ExactStep(true, liquidity, s, t, x, fee).amountOut <= U256_MAX
  {
    hide DirectedIn, DirectedOut, DirectedNext, AmountIn, AmountOut, NextPrice, MulDiv, MulDivRoundingUp;
    LessFeeExact(x, fee);
    DirectedInExact(true, liquidity, s, t);
    StepContract(true, liquidity, s, t, x, fee);
    var step := ExactStep(true, liquidity, s, t, x, fee);
    DirectedNextExact(true, liquidity, s, LessFee(x, fee));
    DirectedInExact(true, liquidity, s, step.sqrtNext);
    DirectedOutExact(true, liquidity, s, step.sqrtNext);
    MulDivRoundingUpIsCeil(step.amountIn, fee, FEE_DENOMINATOR - fee);
  }

  /** Selling token1, it answers exactly when the shifted liquidity and the token1 needed to
      reach the target fit 256 bits, whether or not the target is reached. */
  lemma SellToken1AnswersIff(liquidity: U256, s: U256, t: U256, x: U256, fee: FeePips)
    requires 0 < s <= t && 0 < liquidity && 0 < x && fee < FEE_DENOMINATOR
    ensures ComputeSwapStep(s, t, liquidity, x, fee, false).Ok?
      <==> liquidity * Q96 <= U256_MAX && AmountIn(false, liquidity, s, t) <= U256_MAX
  {
    hide DirectedIn, DirectedOut, DirectedNext, AmountIn, AmountOut, NextPrice, MulDiv, MulDivRoundingUp;
    LessFeeExact(x, fee);
    DirectedInExact(false, liquidity, s, t);
    StepContract(false, liquidity, s, t, x, fee);
    var step := ExactStep(false, liquidity, s, t, x, fee);
    DirectedNextExact(false, liquidity, s, LessFee(x, fee));
    DirectedInExact(false, liquidity, s, step.sqrtNext);
    DirectedOutExact(false, liquidity, s, step.sqrtNext);
    MulDivRoundingUpIsCeil(step.amountIn, fee, FEE_DENOMINATOR - fee);
  }

  const LIQUIDITY_LIMIT: nat := 0x1_0000_0000_0000_0000_0000_0000_0000_0000
  const SQRT_PRICE_LIMIT: nat := 0x1000_0000_0000_0000_0000_0000_0000_0000_0000_0000_0000

  /** With liquidity below 2^128 and prices below 2^172 the step always answers. */
  lemma StepAnswers(zfo: bool, liquidity: U256, s: U256, t: U256, x: U256, fee: FeePips)
    requires 0 < s && 0 < t && 0 < liquidity && 0 < x && Toward(zfo, s, t) && fee < FEE_DENOMINATOR
    requires liquidity < LIQUIDITY_LIMIT && s < SQRT_PRICE_LIMIT && t < SQRT_PRICE_LIMIT
    ensures ComputeSwapStep(s, t, liquidity, x, fee, zfo).Ok?
  {
    StepContract(zfo, liquidity, s, t, x, fee);
    if zfo {
      SellToken0AnswersIff(liquidity, s, t, x, fee);
      Token1Fits(liquidity, ExactStep(zfo, liquidity, s, t, x, fee).sqrtNext, s);
    } else {
      SellToken1AnswersIff(liquidity, s, t, x, fee);
      Token1Fits(liquidity, s, t);
    }
  }

  lemma Token1Fits(liquidity: nat, lo: nat, hi: nat)
    requires lo <= hi < SQRT_PRICE_LIMIT && liquidity < LIQUIDITY_LIMIT
    ensures Token1Down(liquidity, lo, hi) <= Token1Up(liquidity, lo, hi) <= U256_MAX
  {
    var amount := liquidity * (hi - lo);
    assert amount <= LIQUIDITY_LIMIT * SQRT_PRICE_LIMIT by {
      MulLe(hi - lo, SQRT_PRICE_LIMIT, liquidity);
      MulLe(liquidity, LIQUIDITY_LIMIT, SQRT_PRICE_LIMIT);
    }
    CeilLe(amount, Q96, U256_MAX);
    FloorBelowCeil(amount, Q96);
  }
}

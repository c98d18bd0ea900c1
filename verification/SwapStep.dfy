/** One step of a swap inside a single liquidity range: the fee split, the choice between
    reaching the target and stopping short, and what each choice guarantees. */
module SwapStep {
  import opened Arith
  import opened SwapMath

  /** What is left of `x` once the fee is taken, rounded down. */
  function LessFee(x: nat, fee: nat): nat
    requires fee < FEE_DENOMINATOR
  {
    x * (FEE_DENOMINATOR - fee) / FEE_DENOMINATOR
  }

  /** The fee charged on top of an input `a` that was paid in full, rounded up. */
  function FeeOn(a: nat, fee: nat): nat
    requires fee < FEE_DENOMINATOR
  {
    CeilDiv(a * fee, FEE_DENOMINATOR - fee)
  }

  /** `a` survives the fee on `x` exactly when `x` covers `a` and the fee charged on it. */
  lemma FeeCovers(x: nat, a: nat, fee: nat)
    requires fee < FEE_DENOMINATOR
    ensures a <= LessFee(x, fee) <==> a + FeeOn(a, fee) <= x
  {
    SplitCovers(x, a, fee, FEE_DENOMINATOR - fee, FEE_DENOMINATOR);
  }

  lemma SplitCovers(x: nat, a: nat, f: nat, d: nat, whole: nat)
    requires d > 0 && whole == f + d
    ensures a <= x * d / whole <==> a + CeilDiv(a * f, d) <= x
  {
    FloorGe(x * d, whole, a);
    assert a * whole == a * d + a * f;
    if a <= x {
      CeilLe(a * f, d, x - a);
      assert (x - a) * d == x * d - a * d;
    } else {
      MulLt(x, a, d);
    }
  }

  lemma FeeOnSplit(a: nat, b: nat, fee: nat)
    requires fee < FEE_DENOMINATOR
    ensures FeeOn(a + b, fee) <= FeeOn(a, fee) + FeeOn(b, fee)
  {
    assert (a + b) * fee == a * fee + b * fee;
    CeilSubAdditive(a * fee, b * fee, FEE_DENOMINATOR - fee);
  }

  lemma FeeOnMono(a: nat, b: nat, fee: nat)
    requires fee < FEE_DENOMINATOR && a <= b
    ensures FeeOn(a, fee) <= FeeOn(b, fee)
  {
    MulLe(a, b, fee);
    CeilMono(a * fee, b * fee, FEE_DENOMINATOR - fee);
  }

  lemma LessFeeSplit(a: nat, b: nat, fee: nat)
    requires fee < FEE_DENOMINATOR
    ensures LessFee(a, fee) + LessFee(b, fee) <= LessFee(a + b, fee)
  {
    var d := FEE_DENOMINATOR - fee;
    assert (a + b) * d == a * d + b * d;
    FloorSuperAdditive(a * d, b * d, FEE_DENOMINATOR);
  }

  lemma LessFeeMono(a: nat, b: nat, fee: nat)
    requires fee < FEE_DENOMINATOR && a <= b
    ensures LessFee(a, fee) <= LessFee(b, fee)
  {
    MulLe(a, b, FEE_DENOMINATOR - fee);
    FloorMono(a * (FEE_DENOMINATOR - fee), b * (FEE_DENOMINATOR - fee), FEE_DENOMINATOR);
  }

  lemma LessFeeAtMost(x: nat, fee: nat)
    requires fee < FEE_DENOMINATOR
    ensures LessFee(x, fee) <= x
  {
    FeeCovers(x, LessFee(x, fee), fee);
  }

  /** The result of a step: where the price went, what was paid in, out and as fee. */
  datatype Step = Step(sqrtNext: nat, amountIn: nat, amountOut: nat, feeAmount: nat)

  predicate Reaches(zfo: bool, l: nat, s: nat, t: nat, x: nat, fee: nat)
    requires s > 0 && t > 0 && Toward(zfo, s, t) && fee < FEE_DENOMINATOR
  {
    AmountIn(zfo, l, s, t) <= LessFee(x, fee)
  }

  /** The step of `crates/dex/src/uniswap_v3.rs`, on unbounded numbers. */
  function ExactStep(zfo: bool, l: nat, s: nat, t: nat, x: nat, fee: nat): Step
    requires l > 0 && s > 0 && t > 0 && x > 0 && Toward(zfo, s, t) && fee < FEE_DENOMINATOR
  {
    var reached := Reaches(zfo, l, s, t, x, fee);
    var next := if reached then t else NextPrice(zfo, l, s, LessFee(x, fee));
    NextPriceToward(zfo, l, s, LessFee(x, fee));
    var amountIn := AmountIn(zfo, l, s, next);
    var amountOut := AmountOut(zfo, l, s, next);
    var feeAmount := if reached then FeeOn(amountIn, fee) else if amountIn <= x then x - amountIn else 0;
    Step(next, amountIn, amountOut, feeAmount)
  }

  /** The contract of a step. The price moves toward the target, never past it, and is at the
      target exactly when the input (less fee) pays for it; input plus fee never exceed what
      was offered and use it up when the step stops short. */
  lemma StepContract(zfo: bool, l: nat, s: nat, t: nat, x: nat, fee: nat)
    requires l > 0 && s > 0 && t > 0 && x > 0 && Toward(zfo, s, t) && fee < FEE_DENOMINATOR
    ensures var step := ExactStep(zfo, l, s, t, x, fee);
      && step.sqrtNext > 0
      && Toward(zfo, s, step.sqrtNext) && Toward(zfo, step.sqrtNext, t)
      && (step.sqrtNext == t <==> Reaches(zfo, l, s, t, x, fee))
      && step.amountIn <= LessFee(x, fee)
      && step.amountIn + step.feeAmount <= x
      && (step.sqrtNext != t ==> step.amountIn + step.feeAmount == x)
  {
    var net := LessFee(x, fee);
    LessFeeAtMost(x, fee);
    Reach(zfo, l, s, net, t);
    if Reaches(zfo, l, s, t, x, fee) {
      FeeCovers(x, AmountIn(zfo, l, s, t), fee);
    } else {
      NextPriceToward(zfo, l, s, net);
      Reach(zfo, l, s, net, NextPrice(zfo, l, s, net));
    }
  }

  /** `i` in and `o` out bracket the exact amounts of the move from `s` to `u`: the trader
      never pays less than its real input, nor receives more than its real output. */
  predicate Brackets(zfo: bool, l: nat, s: nat, u: nat, i: nat, o: nat) {
    if zfo then
      l * Q96 * (s - u) <= i * (s * u) && o * Q96 <= l * (s - u)
    else
      l * (u - s) <= i * Q96 && o * (u * s) <= l * Q96 * (u - s)
  }

  /** Neither could be one unit closer: `i` is the real input rounded up, `o` the real output
      rounded down. */
  predicate WithinOneUnit(zfo: bool, l: nat, s: nat, u: nat, i: nat, o: nat) {
    if zfo then
      i * (s * u) < l * Q96 * (s - u) + s * u && l * (s - u) < o * Q96 + Q96
    else
      i * Q96 < l * (u - s) + Q96 && l * Q96 * (u - s) < o * (u * s) + u * s
  }

  lemma Token0Bounds(n: nat, lo: nat, hi: nat)
    requires 0 < lo <= hi
    ensures n * (hi - lo) <= Token0Up(n, lo, hi) * (hi * lo) < n * (hi - lo) + hi * lo
    ensures Token0Down(n, lo, hi) * (hi * lo) <= n * (hi - lo) < Token0Down(n, lo, hi) * (hi * lo) + hi * lo
  {
    MulLe(1, lo, hi);
    MulLe(0, hi - lo, n);
    CeilBounds(n * (hi - lo), hi * lo);
    FloorBounds(n * (hi - lo), hi * lo);
  }

  lemma Token1Bounds(l: nat, lo: nat, hi: nat)
    requires lo <= hi
    ensures l * (hi - lo) <= Token1Up(l, lo, hi) * Q96 < l * (hi - lo) + Q96
    ensures Token1Down(l, lo, hi) * Q96 <= l * (hi - lo) < Token1Down(l, lo, hi) * Q96 + Q96
  {
    MulLe(0, hi - lo, l);
    CeilBounds(l * (hi - lo), Q96);
    FloorBounds(l * (hi - lo), Q96);
  }

  lemma AmountsBracket(zfo: bool, l: nat, s: nat, u: nat)
    requires s > 0 && u > 0 && Toward(zfo, s, u)
    ensures Brackets(zfo, l, s, u, AmountIn(zfo, l, s, u), AmountOut(zfo, l, s, u))
    ensures WithinOneUnit(zfo, l, s, u, AmountIn(zfo, l, s, u), AmountOut(zfo, l, s, u))
  {
    hide Token0Up, Token0Down, Token1Up, Token1Down;
    if zfo {
      Token0Bounds(l * Q96, u, s);
      Token1Bounds(l, u, s);
    } else {
      Token1Bounds(l, s, u);
      Token0Bounds(l * Q96, s, u);
    }
  }

  /** Every step rounds against the trader. */
  lemma StepRoundsAgainstTrader(zfo: bool, l: nat, s: nat, t: nat, x: nat, fee: nat)
    requires l > 0 && s > 0 && t > 0 && x > 0 && Toward(zfo, s, t) && fee < FEE_DENOMINATOR
    ensures var step := ExactStep(zfo, l, s, t, x, fee);
      && Toward(zfo, s, step.sqrtNext)
      && Brackets(zfo, l, s, step.sqrtNext, step.amountIn, step.amountOut)
      && WithinOneUnit(zfo, l, s, step.sqrtNext, step.amountIn, step.amountOut)
  {
    hide Token0Up, Token0Down, Token1Up, Token1Down, WithinOneUnit, Brackets;
    StepContract(zfo, l, s, t, x, fee);
    AmountsBracket(zfo, l, s, ExactStep(zfo, l, s, t, x, fee).sqrtNext);
  }

  // ----- the step in numbers -----

  /** `net` covers the real input of the move from `s` to `u`. */
  predicate PaysFor(zfo: bool, l: nat, s: nat, u: nat, net: int) {
    if zfo then l * Q96 * (s - u) <= net * (s * u) else l * (u - s) <= net * Q96
  }

  lemma PaysForIff(zfo: bool, l: nat, s: nat, u: nat, net: nat)
    requires s > 0 && u > 0 && Toward(zfo, s, u)
    ensures PaysFor(zfo, l, s, u, net) <==> AmountIn(zfo, l, s, u) <= net
  {
    if zfo {
      CeilLe(l * Q96 * (s - u), s * u, net);
    } else {
      CeilLe(l * (u - s), Q96, net);
    }
  }

  /** The fee of a step of `paid` in and `charged` on top: a step that reaches its target charges the
      fee on what it paid, rounded up; one that stops short keeps everything that is left. */
  predicate ChargesFee(reached: bool, x: nat, fee: nat, paid: nat, charged: nat) {
    if reached then
      paid * fee <= charged * (1_000_000 - fee) < paid * fee + (1_000_000 - fee)
    else
      paid + charged == x
  }

  /** What a step from `s` toward `t` with `x` must be, said of its numbers alone: it is at the target
      exactly when what the fee leaves of `x` pays for it, and otherwise at the last price it pays
      for; input and output are the real amounts rounded against the trader; the fee is charged. */
  ghost predicate IsStep(zfo: bool, l: nat, s: nat, t: nat, x: nat, fee: nat, p: Step) {
    var net := x * (1_000_000 - fee) / 1_000_000;
    && Toward(zfo, s, t) && p.sqrtNext > 0 && Toward(zfo, s, p.sqrtNext) && Toward(zfo, p.sqrtNext, t)
    && (p.sqrtNext == t <==> PaysFor(zfo, l, s, t, net))
    && PaysFor(zfo, l, s, p.sqrtNext, net)
    && (p.sqrtNext != t ==> !PaysFor(zfo, l, s, if zfo then p.sqrtNext - 1 else p.sqrtNext + 1, net))
    && Brackets(zfo, l, s, p.sqrtNext, p.amountIn, p.amountOut)
    && WithinOneUnit(zfo, l, s, p.sqrtNext, p.amountIn, p.amountOut)
    && ChargesFee(p.sqrtNext == t, x, fee, p.amountIn, p.feeAmount)
  }

  lemma StepMeaning(zfo: bool, l: nat, s: nat, t: nat, x: nat, fee: nat)
    requires l > 0 && s > 0 && t > 0 && x > 0 && Toward(zfo, s, t) && fee < FEE_DENOMINATOR
    ensures IsStep(zfo, l, s, t, x, fee, ExactStep(zfo, l, s, t, x, fee))
  {
    hide AmountIn, AmountOut, NextPrice, PaysFor, Brackets, WithinOneUnit;
    StepContract(zfo, l, s, t, x, fee);
    StepRoundsAgainstTrader(zfo, l, s, t, x, fee);
    var step, net := ExactStep(zfo, l, s, t, x, fee), LessFee(x, fee);
    PaysForIff(zfo, l, s, t, net);
    PaysForIff(zfo, l, s, step.sqrtNext, net);
    if step.sqrtNext == t {
      FeeOnBounds(step.amountIn, fee);
    } else {
      var beyond: nat := if zfo then step.sqrtNext - 1 else step.sqrtNext + 1;
      PaysForIff(zfo, l, s, beyond, net);
      Reach(zfo, l, s, net, beyond);
    }
  }

  lemma FeeOnBounds(a: nat, fee: nat)
    requires fee < FEE_DENOMINATOR
    ensures a * fee <= FeeOn(a, fee) * (FEE_DENOMINATOR - fee) < a * fee + (FEE_DENOMINATOR - fee)
  {
    CeilBounds(a * fee, FEE_DENOMINATOR - fee);
  }

  /** The input of a step is at most its gross input less the fee, to the last fraction. */
  lemma InputIsNet(zfo: bool, l: nat, s: nat, t: nat, x: nat, fee: nat)
    requires l > 0 && s > 0 && t > 0 && x > 0 && Toward(zfo, s, t) && fee < FEE_DENOMINATOR
    ensures var step := ExactStep(zfo, l, s, t, x, fee);
      step.amountIn * 1_000_000 <= (step.amountIn + step.feeAmount) * (1_000_000 - fee)
  {
    hide AmountIn, AmountOut, NextPrice;
    StepContract(zfo, l, s, t, x, fee);
    var step := ExactStep(zfo, l, s, t, x, fee);
    if step.sqrtNext == t {
      FeeOnBounds(step.amountIn, fee);
      MulDistrib(step.amountIn, step.feeAmount, 1_000_000 - fee);
      MulDistrib(1_000_000 - fee, fee, step.amountIn);
    } else {
      FloorGe(x * (1_000_000 - fee), 1_000_000, step.amountIn);
    }
  }

  // ----- comparing two steps from the same state -----

  /** With more input the price goes at least as far and pays at least as much; once the
      target is reached, more input changes nothing. */
  lemma StepMono(zfo: bool, l: nat, s: nat, t: nat, x: nat, y: nat, fee: nat)
    requires l > 0 && s > 0 && t > 0 && 0 < x <= y && Toward(zfo, s, t) && fee < FEE_DENOMINATOR
    ensures var p, q := ExactStep(zfo, l, s, t, x, fee), ExactStep(zfo, l, s, t, y, fee);
      && Toward(zfo, p.sqrtNext, q.sqrtNext) && p.amountOut <= q.amountOut
      && (p.sqrtNext == t ==> p == q)
  {
    LessFeeMono(x, y, fee);
    StepContract(zfo, l, s, t, x, fee);
    StepContract(zfo, l, s, t, y, fee);
    var p, q := ExactStep(zfo, l, s, t, x, fee), ExactStep(zfo, l, s, t, y, fee);
    if !Reaches(zfo, l, s, t, y, fee) {
      Reach(zfo, l, s, LessFee(y, fee), p.sqrtNext);
    }
    AmountOutSplit(zfo, l, s, p.sqrtNext, q.sqrtNext);
  }

  /** Input plus fee is sub-additive, with the first part covered by `a`. */
  lemma GrossSplit(whole: nat, first: nat, second: nat, a: nat, fee: nat)
    requires fee < FEE_DENOMINATOR && whole <= first + second && first <= LessFee(a, fee)
    ensures whole + FeeOn(whole, fee) <= a + second + FeeOn(second, fee)
  {
    FeeOnMono(whole, first + second, fee);
    FeeOnSplit(first, second, fee);
    FeeCovers(a, first, fee);
  }

  /** If `a` stops short at `m` and `b` continues from `m`, then `a + b` in one go gets at
      least as far, pays at least as much, and, when `b` reaches the target, so does `a + b`,
      with at least as much input left over. */
  lemma StepSplit(zfo: bool, l: nat, s: nat, t: nat, a: nat, b: nat, fee: nat)
    requires l > 0 && s > 0 && t > 0 && a > 0 && b > 0 && Toward(zfo, s, t) && fee < FEE_DENOMINATOR
    requires !Reaches(zfo, l, s, t, a, fee)
    ensures var p := ExactStep(zfo, l, s, t, a, fee);
      && p.sqrtNext > 0 && Toward(zfo, p.sqrtNext, t)
      && var q, r := ExactStep(zfo, l, p.sqrtNext, t, b, fee), ExactStep(zfo, l, s, t, a + b, fee);
      && Toward(zfo, q.sqrtNext, r.sqrtNext)
      && p.amountOut + q.amountOut <= r.amountOut
      && (q.sqrtNext == t ==>
            r.sqrtNext == t && r.amountIn + r.feeAmount <= a + q.amountIn + q.feeAmount)
  {
    hide AmountIn, AmountOut, NextPrice, LessFee, FeeOn;
    StepContract(zfo, l, s, t, a, fee);
    var p := ExactStep(zfo, l, s, t, a, fee);
    var m := p.sqrtNext;
    StepContract(zfo, l, m, t, b, fee);
    StepContract(zfo, l, s, t, a + b, fee);
    var q, r := ExactStep(zfo, l, m, t, b, fee), ExactStep(zfo, l, s, t, a + b, fee);
    var u := q.sqrtNext;
    AmountInSplit(zfo, l, s, m, u);
    LessFeeSplit(a, b, fee);
    assert AmountIn(zfo, l, s, u) <= LessFee(a + b, fee);
    if u == t {
      GrossSplit(r.amountIn, p.amountIn, q.amountIn, a, fee);
    } else if !Reaches(zfo, l, s, t, a + b, fee) {
      Reach(zfo, l, s, LessFee(a + b, fee), u);
    }
    AmountOutSplit(zfo, l, s, m, u);
    AmountOutSplit(zfo, l, s, u, r.sqrtNext);
  }

  // ----- the spot price -----

  /** `out` is at most `x` valued at the spot price of `s`. */
  predicate WithinSpot(zfo: bool, s: nat, x: nat, out: nat) {
    if zfo then out * (Q96 * Q96) <= x * (s * s) else out * (s * s) <= x * (Q96 * Q96)
  }

  lemma Token0ForToken1Spot(l: nat, s: nat, u: nat, i: nat, o: nat)
    requires 0 < u <= s
    requires l * Q96 * (s - u) <= i * (s * u) && o * Q96 <= l * (s - u)
    ensures o * (Q96 * Q96) <= i * (s * s)
  {
    MulLe(o * Q96, l * (s - u), Q96);
    MulAssoc(o, Q96, Q96);
    MulAssoc(l, s - u, Q96);
    MulLe(u, s, s);
    MulLe(s * u, s * s, i);
  }

  lemma Token1ForToken0Spot(l: nat, s: nat, u: nat, i: nat, o: nat)
    requires 0 < s <= u
    requires l * (u - s) <= i * Q96 && o * (u * s) <= l * Q96 * (u - s)
    ensures o * (s * s) <= i * (Q96 * Q96)
  {
    MulLe(l * (u - s), i * Q96, Q96);
    MulAssoc(i, Q96, Q96);
    MulAssoc(l, u - s, Q96);
    MulLe(s, u, s);
    MulLe(s * s, u * s, o);
  }

  /** A step never beats the spot price it starts from, even before the fee is counted. */
  lemma StepWithinSpot(zfo: bool, l: nat, s: nat, t: nat, x: nat, fee: nat)
    requires l > 0 && s > 0 && t > 0 && x > 0 && Toward(zfo, s, t) && fee < FEE_DENOMINATOR
    ensures var step := ExactStep(zfo, l, s, t, x, fee); WithinSpot(zfo, s, step.amountIn, step.amountOut)
  {
    StepContract(zfo, l, s, t, x, fee);
    StepRoundsAgainstTrader(zfo, l, s, t, x, fee);
    var step := ExactStep(zfo, l, s, t, x, fee);
    if zfo {
      Token0ForToken1Spot(l, s, step.sqrtNext, step.amountIn, step.amountOut);
    } else {
      Token1ForToken0Spot(l, s, step.sqrtNext, step.amountIn, step.amountOut);
    }
  }

  /** Spot bounds add up, and the bound of a price further along is the tighter one. */
  lemma SpotCompose(zfo: bool, s: nat, t: nat, x: nat, y: nat, o: nat, p: nat)
    requires Toward(zfo, s, t) && WithinSpot(zfo, s, x, o) && WithinSpot(zfo, t, y, p)
    ensures WithinSpot(zfo, s, x + y, o + p)
  {
    if zfo {
      MulLe(t, s, t);
      MulLe(t, s, s);
      MulLe(t * t, s * s, y);
      MulDistrib(o, p, Q96 * Q96);
      MulDistrib(x, y, s * s);
    } else {
      MulLe(s, t, s);
      MulLe(s, t, t);
      MulLe(s * s, t * t, p);
      MulDistrib(o, p, s * s);
      MulDistrib(x, y, Q96 * Q96);
    }
  }

  lemma SpotSlack(zfo: bool, s: nat, x: nat, y: nat, o: nat)
    requires x <= y && WithinSpot(zfo, s, x, o)
    ensures WithinSpot(zfo, s, y, o)
  {
    if zfo {
      MulLe(x, y, s * s);
    } else {
      MulLe(x, y, Q96 * Q96);
    }
  }

  /** `out` is at most `spent`, less its fee, valued at the spot price of `s`. */
  predicate WithinNetSpot(zfo: bool, s: nat, spent: nat, fee: nat, out: nat)
    requires fee < 1_000_000
  {
    WithinSpot(zfo, s, spent * (1_000_000 - fee), out * 1_000_000)
  }

  lemma NetSpotOfNothing(zfo: bool, s: nat, fee: nat)
    requires fee < 1_000_000
    ensures WithinNetSpot(zfo, s, 0, fee, 0)
  {
  }

  lemma NetSpotCompose(zfo: bool, s: nat, t: nat, x: nat, y: nat, fee: nat, o: nat, p: nat)
    requires fee < 1_000_000 && Toward(zfo, s, t)
    requires WithinNetSpot(zfo, s, x, fee, o) && WithinNetSpot(zfo, t, y, fee, p)
    ensures WithinNetSpot(zfo, s, x + y, fee, o + p)
  {
    hide WithinSpot;
    SpotCompose(zfo, s, t, x * (1_000_000 - fee), y * (1_000_000 - fee), o * 1_000_000, p * 1_000_000);
    MulDistrib(x, y, 1_000_000 - fee);
  }

  lemma NetSpotSlack(zfo: bool, s: nat, x: nat, y: nat, fee: nat, o: nat)
    requires fee < 1_000_000 && x <= y && WithinNetSpot(zfo, s, x, fee, o)
    ensures WithinNetSpot(zfo, s, y, fee, o)
  {
    hide WithinSpot;
    MulLe(x, y, 1_000_000 - fee);
    SpotSlack(zfo, s, x * (1_000_000 - fee), y * (1_000_000 - fee), o * 1_000_000);
  }

  lemma NetSpotIsSpot(zfo: bool, s: nat, x: nat, fee: nat, o: nat)
    requires fee < 1_000_000 && WithinNetSpot(zfo, s, x, fee, o)
    ensures WithinSpot(zfo, s, x, o)
  {
    var unit, square := Q96 * Q96, s * s;
    MulLe(1_000_000 - fee, 1_000_000, x);
    SpotSlack(zfo, s, x * (1_000_000 - fee), x * 1_000_000, o * 1_000_000);
    MulAssoc(o, 1_000_000, if zfo then unit else square);
    MulAssoc(x, 1_000_000, if zfo then square else unit);
  }

  /** A step never beats the spot price it starts from once its fee is taken. */
  lemma StepWithinNetSpot(zfo: bool, l: nat, s: nat, t: nat, x: nat, fee: nat)
    requires l > 0 && s > 0 && t > 0 && x > 0 && Toward(zfo, s, t) && fee < FEE_DENOMINATOR
    ensures var step := ExactStep(zfo, l, s, t, x, fee);
      WithinNetSpot(zfo, s, step.amountIn + step.feeAmount, fee, step.amountOut)
  {
    hide ExactStep;
    StepWithinSpot(zfo, l, s, t, x, fee);
    InputIsNet(zfo, l, s, t, x, fee);
    var step := ExactStep(zfo, l, s, t, x, fee);
    NetOfInput(zfo, s, step.amountIn, step.amountIn + step.feeAmount, fee, step.amountOut);
  }

  lemma NetOfInput(zfo: bool, s: nat, paid: nat, spent: nat, fee: nat, out: nat)
    requires fee < 1_000_000 && paid * 1_000_000 <= spent * (1_000_000 - fee) && WithinSpot(zfo, s, paid, out)
    ensures WithinNetSpot(zfo, s, spent, fee, out)
  {
    var unit, square := Q96 * Q96, s * s;
    assert WithinSpot(zfo, s, paid * 1_000_000, out * 1_000_000) by {
      MulAssoc(out, 1_000_000, if zfo then unit else square);
      MulAssoc(paid, 1_000_000, if zfo then square else unit);
    }
    SpotSlack(zfo, s, paid * 1_000_000, spent * (1_000_000 - fee), out * 1_000_000);
  }

  // ----- trading back -----

  /** Swapping `x` in, then all of the output back, inside one range, returns at most what
      the first swap took in after its fee. */
  lemma RoundTripLoses(zfo: bool, l: nat, s: nat, x: nat, fee: nat)
    requires l > 0 && s > 0 && fee < FEE_DENOMINATOR
    ensures var net := LessFee(x, fee);
      var u := NextPrice(zfo, l, s, net);
      && u > 0 && Toward(zfo, s, u)
      && var back := LessFee(AmountOut(zfo, l, s, u), fee);
      var v := NextPrice(!zfo, l, u, back);
      && v > 0 && Toward(!zfo, u, v) && Toward(!zfo, v, s)
      && AmountOut(!zfo, l, u, v) <= net <= x
  {
    var net := LessFee(x, fee);
    LessFeeAtMost(x, fee);
    NextPriceToward(zfo, l, s, net);
    var u := NextPrice(zfo, l, s, net);
    Reach(zfo, l, s, net, u);
    var y := AmountOut(zfo, l, s, u);
    var back := LessFee(y, fee);
    LessFeeAtMost(y, fee);
    NextPriceToward(!zfo, l, u, back);
    var v := NextPrice(!zfo, l, u, back);
    Reach(!zfo, l, u, back, v);
    ReturnsNoFurther(zfo, l, s, u, back, v);
    AmountOutSplit(!zfo, l, u, v, s);
    ReverseOutAtMostIn(zfo, l, s, u);
  }

  /** What a move pays out is at most what undoing it takes in. */
  lemma ReverseOutAtMostIn(zfo: bool, l: nat, s: nat, u: nat)
    requires s > 0 && u > 0 && Toward(zfo, s, u)
    ensures AmountOut(!zfo, l, u, s) <= AmountIn(zfo, l, s, u)
  {
    if zfo {
      FloorBelowCeil(l * Q96 * (s - u), s * u);
    } else {
      FloorBelowCeil(l * (u - s), Q96);
    }
  }

  lemma FloorBelowCeil(a: nat, b: nat)
    requires b > 0
    ensures a / b <= CeilDiv(a, b)
  {
  }

  lemma ReturnsNoFurther(zfo: bool, l: nat, s: nat, u: nat, y: nat, v: nat)
    requires l > 0 && s > 0 && u > 0 && v > 0 && Toward(zfo, s, u) && Toward(!zfo, u, v)
    requires AmountIn(!zfo, l, u, v) <= y <= AmountOut(zfo, l, s, u)
    ensures Toward(!zfo, v, s)
  {
    if zfo {
      FloorGe(l * (s - u), Q96, y);
      CeilLe(l * (v - u), Q96, y);
      MulCancelLe(v - u, s - u, l);
    } else {
      Token0FloorGe(l * Q96, s, u, y);
      Token0CeilLe(l * Q96, v, u, y);
      Token0NoCloser(l * Q96, u, s, v, y);
    }
  }

  lemma Token0FloorGe(n: nat, lo: nat, hi: nat, y: nat)
    requires 0 < lo <= hi
    ensures y <= Token0Down(n, lo, hi) <==> y * (hi * lo) <= n * (hi - lo)
  {
    FloorGe(n * (hi - lo), hi * lo, y);
  }

  lemma Token0CeilLe(n: nat, lo: nat, hi: nat, y: nat)
    requires 0 < lo <= hi
    ensures Token0Up(n, lo, hi) <= y <==> n * (hi - lo) <= y * (hi * lo)
  {
    CeilLe(n * (hi - lo), hi * lo, y);
  }

  /** n/v - n/u <= y <= n/s - n/u leaves v no lower than s. */
  lemma Token0NoCloser(n: nat, u: nat, s: nat, v: nat, y: nat)
    requires n > 0 && 0 < v <= u && 0 < s <= u
    requires y * (u * s) <= n * (u - s)
    requires n * (u - v) <= y * (u * v)
    ensures s <= v
  {
    MulLe(n * (u - v), y * (u * v), s);
    MulLe(y * (u * s), n * (u - s), v);
    Regroup(y, u, v, s);
    MulAssoc(n, u - v, s);
    MulAssoc(n, u - s, v);
    MulCancelLe((u - v) * s, (u - s) * v, n);
    MulCancelLe(s, v, u);
  }
}

/** The constant-product quoter of crates/dex/src/aerodrome.rs. */
module AerodromeVolatile {
  import opened Arith
  import opened Wrappers
  import opened U256Math

  function QuoteAmountOut(reserveIn: U256, reserveOut: U256, amountIn: U256, feeBps: nat): Result<U256> {
    if reserveIn == 0 || reserveOut == 0 then Err
    else if amountIn == 0 then Ok(0)
    else if feeBps > BPS then Err
    else
      var withFee :- CheckedMul(amountIn, BPS - feeBps);
      var numerator :- CheckedMul(withFee, reserveOut);
      var scaledReserve :- CheckedMul(reserveIn, BPS);
      var denominator :- CheckedAdd(scaledReserve, withFee);
      Ok(Quotient(numerator, denominator))
  }

  /** `out * (k + a) <= a * reserveOut`, where `a` is the input weighted by its fee complement
      and `k` the weighted input reserve: the curve allows at least `out`. */
  predicate Allowed(out: nat, k: nat, a: nat, reserveOut: nat) {
    out * (k + a) <= a * reserveOut
  }

  /** The input weighted by its fee complement, in basis points. */
  function Weighted(amountIn: nat, feeBps: nat): nat
    requires feeBps <= BPS
  {
    amountIn * (BPS - feeBps)
  }

  lemma WeightedAdd(a: nat, b: nat, feeBps: nat)
    requires feeBps <= BPS
    ensures Weighted(a + b, feeBps) == Weighted(a, feeBps) + Weighted(b, feeBps)
    ensures Weighted(a, feeBps) <= a * BPS
  {
    MulDistrib(a, b, BPS - feeBps);
    MulLe(BPS - feeBps, BPS, a);
  }

  /** An answered quote is the largest output the curve allows. */
  lemma QuoteIsLargestAllowed(reserveIn: U256, reserveOut: U256, amountIn: U256, feeBps: nat, out: nat)
    requires feeBps <= BPS && QuoteAmountOut(reserveIn, reserveOut, amountIn, feeBps).Ok?
    ensures reserveIn > 0 && reserveOut > 0
    ensures out <= QuoteAmountOut(reserveIn, reserveOut, amountIn, feeBps).value
      <==> Allowed(out, reserveIn * BPS, Weighted(amountIn, feeBps), reserveOut)
  {
    hide CheckedMul, Quotient;
    var a, k := Weighted(amountIn, feeBps), reserveIn * BPS;
    if amountIn > 0 {
      CheckedMulIs(amountIn, BPS - feeBps);
      CheckedMulIs(a, reserveOut);
      CheckedMulIs(reserveIn, BPS);
      QuotientIs(a * reserveOut, k + a);
    }
    if amountIn == 0 {
      if out > 0 {
        MulLe(1, out, k);
      }
    } else {
      FloorGe(a * reserveOut, k + a, out);
    }
  }

  /** A quote errs exactly for an empty reserve, or for a positive amount when the fee is above one or a
      product or sum of the formula leaves 256 bits. */
  lemma QuoteAnswersIff(reserveIn: U256, reserveOut: U256, amountIn: U256, feeBps: nat)
    ensures QuoteAmountOut(reserveIn, reserveOut, amountIn, feeBps).Ok?
       <==> && reserveIn > 0 && reserveOut > 0
            && (amountIn == 0 ||
                (&& feeBps <= 10_000 && amountIn * (10_000 - feeBps) * reserveOut <= U256_MAX
                 && reserveIn * 10_000 + amountIn * (10_000 - feeBps) <= U256_MAX))
  {
    hide CheckedMul, Quotient;
    if feeBps <= 10_000 {
      var a := amountIn * (10_000 - feeBps);
      CheckedMulIs(amountIn, 10_000 - feeBps);
      CheckedMulIs(reserveIn, 10_000);
      if a <= U256_MAX {
        CheckedMulIs(a, reserveOut);
      }
    }
  }

  lemma AllowedBelowReserve(out: nat, k: nat, a: nat, reserveOut: nat)
    requires k > 0 && reserveOut > 0 && Allowed(out, k, a, reserveOut)
    ensures out < reserveOut
  {
    MulLt(0, k, reserveOut);
    assert reserveOut * (k + a) == reserveOut * k + a * reserveOut;
    MulCancelLt(out, reserveOut, k + a);
  }

  /** The pool can always pay, and keeps something. */
  lemma OutputBelowReserve(reserveIn: U256, reserveOut: U256, amountIn: U256, feeBps: nat)
    requires QuoteAmountOut(reserveIn, reserveOut, amountIn, feeBps).Ok?
    ensures QuoteAmountOut(reserveIn, reserveOut, amountIn, feeBps).value < reserveOut
  {
    if amountIn > 0 {
      var out := QuoteAmountOut(reserveIn, reserveOut, amountIn, feeBps).value;
      QuoteIsLargestAllowed(reserveIn, reserveOut, amountIn, feeBps, out);
      AllowedBelowReserve(out, reserveIn * BPS, Weighted(amountIn, feeBps), reserveOut);
    }
  }

  lemma AllowedMonotone(out: nat, k: nat, a: nat, a': nat, reserveOut: nat)
    requires out <= reserveOut && a <= a' && Allowed(out, k, a, reserveOut)
    ensures Allowed(out, k, a', reserveOut)
  {
    MulLe(out, reserveOut, a' - a);
    assert out * (k + a') == out * (k + a) + out * (a' - a);
    assert a' * reserveOut == a * reserveOut + reserveOut * (a' - a);
  }

  /** Whenever a larger input is answered, so is a smaller one, and it yields no more. */
  lemma OutputMonotone(reserveIn: U256, reserveOut: U256, x: U256, y: U256, feeBps: nat)
    requires x <= y && feeBps <= BPS
    requires QuoteAmountOut(reserveIn, reserveOut, y, feeBps).Ok?
    ensures QuoteAmountOut(reserveIn, reserveOut, x, feeBps).Ok?
    ensures QuoteAmountOut(reserveIn, reserveOut, x, feeBps).value
            <= QuoteAmountOut(reserveIn, reserveOut, y, feeBps).value
  {
    hide QuoteAmountOut;
    SmallerAnswers(reserveIn, reserveOut, x, y, feeBps);
    var out := QuoteAmountOut(reserveIn, reserveOut, x, feeBps).value;
    QuoteIsLargestAllowed(reserveIn, reserveOut, x, feeBps, out);
    QuoteIsLargestAllowed(reserveIn, reserveOut, y, feeBps, out);
    OutputBelowReserve(reserveIn, reserveOut, x, feeBps);
    WeightedAdd(x, y - x, feeBps);
    AllowedMonotone(out, reserveIn * BPS, Weighted(x, feeBps), Weighted(y, feeBps), reserveOut);
  }

  lemma SmallerAnswers(reserveIn: U256, reserveOut: U256, x: U256, y: U256, feeBps: nat)
    requires x <= y && feeBps <= BPS && QuoteAmountOut(reserveIn, reserveOut, y, feeBps).Ok?
    ensures QuoteAmountOut(reserveIn, reserveOut, x, feeBps).Ok?
  {
    hide CheckedMul;
    if x > 0 {
      CheckedMulIs(x, BPS - feeBps);
      CheckedMulIs(y, BPS - feeBps);
      MulLe(x, y, BPS - feeBps);
      var p, q := x * (BPS - feeBps), y * (BPS - feeBps);
      CheckedMulIs(p, reserveOut);
      CheckedMulIs(q, reserveOut);
      MulLe(p, q, reserveOut);
    }
  }

  /** out / (reserveIn + amountIn) is at most amountIn / reserveOut: the trade never beats the
      fee-free curve. */
  lemma AllowedFeeFree(out: nat, reserveIn: nat, reserveOut: nat, amountIn: nat, f: nat)
    requires f <= BPS && reserveIn > 0 && Allowed(out, reserveIn * BPS, amountIn * f, reserveOut)
    ensures out * (reserveIn + amountIn) <= amountIn * reserveOut
  {
    if f == 0 {
      MulCancelLe(out, 0, reserveIn * BPS);
    } else {
      WeightedLess(out, reserveIn, amountIn, f);
      MulAssoc(amountIn, reserveOut, f);
      MulCancelLe(out * (reserveIn + amountIn), amountIn * reserveOut, f);
    }
  }

  lemma WeightedLess(out: nat, reserveIn: nat, amountIn: nat, f: nat)
    requires f <= BPS
    ensures out * (reserveIn + amountIn) * f <= out * (reserveIn * BPS + amountIn * f)
  {
    MulLe(f, BPS, reserveIn);
    MulLe(reserveIn * f + amountIn * f, reserveIn * BPS + amountIn * f, out);
    MulDistrib(reserveIn, amountIn, f);
    MulAssoc(out, reserveIn + amountIn, f);
  }

  /** The product of the reserves never falls. */
  lemma ProductKept(reserveIn: U256, reserveOut: U256, amountIn: U256, feeBps: nat)
    requires feeBps <= BPS && QuoteAmountOut(reserveIn, reserveOut, amountIn, feeBps).Ok?
    ensures var out := QuoteAmountOut(reserveIn, reserveOut, amountIn, feeBps).value;
      reserveIn * reserveOut <= (reserveIn + amountIn) * (reserveOut - out)
  {
    var out := QuoteAmountOut(reserveIn, reserveOut, amountIn, feeBps).value;
    QuoteIsLargestAllowed(reserveIn, reserveOut, amountIn, feeBps, out);
    AllowedFeeFree(out, reserveIn, reserveOut, amountIn, BPS - feeBps);
  }

  /** Trading the output straight back on the updated reserves returns at most the input. */
  lemma RoundTripLoses(reserveIn: U256, reserveOut: U256, amountIn: U256, feeBps: nat)
    requires feeBps <= BPS && reserveIn + amountIn <= U256_MAX
    requires QuoteAmountOut(reserveIn, reserveOut, amountIn, feeBps).Ok?
    ensures QuoteAmountOut(reserveIn, reserveOut, amountIn, feeBps).value < reserveOut
    ensures var out := QuoteAmountOut(reserveIn, reserveOut, amountIn, feeBps).value;
      var back := QuoteAmountOut(reserveOut - out, reserveIn + amountIn, out, feeBps);
      back.Ok? ==> back.value <= amountIn
  {
    hide QuoteAmountOut;
    var out := QuoteAmountOut(reserveIn, reserveOut, amountIn, feeBps).value;
    QuoteIsLargestAllowed(reserveIn, reserveOut, amountIn, feeBps, out);
    OutputBelowReserve(reserveIn, reserveOut, amountIn, feeBps);
    AllowedFeeFree(out, reserveIn, reserveOut, amountIn, BPS - feeBps);
    var answer := QuoteAmountOut(reserveOut - out, reserveIn + amountIn, out, feeBps);
    if answer.Ok? {
      var back := answer.value;
      QuoteIsLargestAllowed(reserveOut - out, reserveIn + amountIn, out, feeBps, back);
      AllowedFeeFree(back, reserveOut - out, reserveIn + amountIn, out, BPS - feeBps);
      MulCancelLe(back, amountIn, reserveOut);
    }
  }

  /** Whenever a trade is answered, so is its first part; a second part, on the updated reserves,
      never makes the two pay more than the whole. */
  lemma SplittingNeverHelps(reserveIn: U256, reserveOut: U256, a: U256, b: U256, feeBps: nat)
    requires feeBps <= BPS && reserveIn + a <= U256_MAX && a + b <= U256_MAX
    requires QuoteAmountOut(reserveIn, reserveOut, a + b, feeBps).Ok?
    ensures QuoteAmountOut(reserveIn, reserveOut, a, feeBps).Ok?
    ensures QuoteAmountOut(reserveIn, reserveOut, a, feeBps).value < reserveOut
    ensures var first := QuoteAmountOut(reserveIn, reserveOut, a, feeBps).value;
      var second := QuoteAmountOut(reserveIn + a, reserveOut - first, b, feeBps);
      second.Ok? ==> first + second.value <= QuoteAmountOut(reserveIn, reserveOut, a + b, feeBps).value
  {
    hide QuoteAmountOut;
    SmallerAnswers(reserveIn, reserveOut, a, a + b, feeBps);
    OutputBelowReserve(reserveIn, reserveOut, a, feeBps);
    var first: nat := QuoteAmountOut(reserveIn, reserveOut, a, feeBps).value;
    assert Allowed(first, reserveIn * BPS, Weighted(a, feeBps), reserveOut) by {
      QuoteIsLargestAllowed(reserveIn, reserveOut, a, feeBps, first);
    }
    var answer := QuoteAmountOut(reserveIn + a, reserveOut - first, b, feeBps);
    if answer.Ok? {
      var second: nat := answer.value;
      assert Allowed(second, (reserveIn + a) * BPS, Weighted(b, feeBps), reserveOut - first) by {
        QuoteIsLargestAllowed(reserveIn + a, reserveOut - first, b, feeBps, second);
      }
      AllowedSplit(reserveIn, reserveOut, a, b, feeBps, first, second);
      QuoteIsLargestAllowed(reserveIn, reserveOut, a + b, feeBps, first + second);
    }
  }

  lemma AllowedSplit(reserveIn: nat, reserveOut: nat, a: nat, b: nat, feeBps: nat, first: nat, second: nat)
    requires feeBps <= BPS && first <= reserveOut
    requires Allowed(first, reserveIn * BPS, Weighted(a, feeBps), reserveOut)
    requires Allowed(second, (reserveIn + a) * BPS, Weighted(b, feeBps), reserveOut - first)
    ensures Allowed(first + second, reserveIn * BPS, Weighted(a + b, feeBps), reserveOut)
  {
    hide Weighted;
    WeightedAdd(a, b, feeBps);
    AllowedAdd(first, second, reserveIn * BPS, (reserveIn + a) * BPS, Weighted(a, feeBps), Weighted(b, feeBps),
               reserveOut);
  }

  lemma AllowedAdd(first: nat, second: nat, k: nat, k': nat, a: nat, b: nat, reserveOut: nat)
    requires k + a <= k' && first <= reserveOut
    requires Allowed(first, k, a, reserveOut) && Allowed(second, k', b, reserveOut - first)
    ensures Allowed(first + second, k, a + b, reserveOut)
  {
    MulLe(k + a + b, k' + b, second);
    assert (first + second) * (k + (a + b)) == first * (k + a) + first * b + second * (k + a + b);
    assert b * (reserveOut - first) == b * reserveOut - first * b;
    assert (a + b) * reserveOut == a * reserveOut + b * reserveOut;
  }
}

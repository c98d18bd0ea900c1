/** When the stable quoter answers (crates/dex/src/aerodrome.rs, `quote_amount_out`), and a
    pool of less than one token where it does not. */
module StableQuotes {
  import opened Arith
  import opened Wrappers
  import opened U256Math
  import opened AerodromeStable
  import opened StableCurve
  import opened StableConvergence

  // ----- quotes -----

  /** The fee is a fraction, everything scales to 18 decimals, and curve and slope fit where the
      iteration starts: the new input reserve against the old output reserve. */
  predicate QuoteFits(reserveIn: U256, reserveOut: U256, amountIn: U256, feeBps: nat, decimalsIn: nat,
                      decimalsOut: nat) {
    && feeBps <= FEE_DENOMINATOR
    && var weighted := CheckedMul(amountIn, FEE_DENOMINATOR - feeBps);
    && weighted.Ok?
    && var x, y := ScaleTo18(reserveIn, decimalsIn), ScaleTo18(reserveOut, decimalsOut);
    && var dx := ScaleTo18(Quotient(weighted.value, FEE_DENOMINATOR), decimalsIn);
    && x.Ok? && y.Ok? && dx.Ok? && x.value + dx.value <= U256_MAX
    && Curve(x.value + dx.value, y.value).Ok? && Slope(x.value + dx.value, y.value).Ok?
  }

  /** With at least one token in each reserve, a quote errs for overflow alone, never because the
      iteration does not settle or because the output does not scale back. */
  lemma QuoteAnswersIff(reserveIn: U256, reserveOut: U256, amountIn: U256, feeBps: nat, decimalsIn: nat,
                        decimalsOut: nat)
    requires In18(reserveIn, decimalsIn) >= ONE && In18(reserveOut, decimalsOut) >= ONE
    ensures Quote(reserveIn, reserveOut, amountIn, feeBps, decimalsIn, decimalsOut).Ok?
       <==> QuoteFits(reserveIn, reserveOut, amountIn, feeBps, decimalsIn, decimalsOut)
  {
    hide Curve, Slope, NewtonFrom, ExactCurve, ScaleTo18, UnscaleFrom18, In18, CheckedMul, Quotient;
    ScaleIs(reserveIn, decimalsIn);
    ScaleIs(reserveOut, decimalsOut);
    var q := Quote(reserveIn, reserveOut, amountIn, feeBps, decimalsIn, decimalsOut);
    if q.Ok? {
      StartAnswers(q.value.x0, q.value.k, q.value.y, MAX_TURNS);
    } else if QuoteFits(reserveIn, reserveOut, amountIn, feeBps, decimalsIn, decimalsOut) {
      var x, y := ScaleTo18(reserveIn, decimalsIn).value, ScaleTo18(reserveOut, decimalsOut).value;
      var afterFee := Quotient(CheckedMul(amountIn, FEE_DENOMINATOR - feeBps).value, FEE_DENOMINATOR);
      var x0: U256 := x + ScaleTo18(afterFee, decimalsIn).value;
      CurveFalls(x, x0, y, y);
      CurveFalls(x0, x0, y, y);
      CurveOfTokens(x, y);
      NewtonAnswersIff(x0, Curve(x, y).value, y);
      RootNeverAboveReserve(x, y, x0);
      Unscales(reserveOut, decimalsOut, y - NewtonFrom(x0, Curve(x, y).value, y, MAX_TURNS).value);
    }
  }

  lemma CurveOfTokens(x: nat, y: nat)
    requires x >= ONE && y >= ONE
    ensures ExactCurve(x, y) >= 2 * ONE
  {
    hide Scaled;
    ScaledIs(ONE, ONE);
    ScaledIs(ONE, 2 * ONE);
    ScaledMono(ONE, x, ONE, y);
    ScaledMono(ONE, x, ONE, x);
    ScaledMono(ONE, y, ONE, y);
    ScaledMono(ONE, Scaled(x, y), 2 * ONE, Scaled(x, x) + Scaled(y, y));
  }

  /** What is below a reserve that scales to 18 decimals scales back. */
  lemma Unscales(reserve: U256, decimals: nat, part: U256)
    requires ScaleTo18(reserve, decimals).Ok? && part <= ScaleTo18(reserve, decimals).value
    ensures UnscaleFrom18(part, decimals).Ok?
  {
    hide Pow10;
    var scale := Pow10(decimals);
    CheckedMulIs(reserve, ONE);
    QuotientBounds(reserve * ONE, scale);
    MulLe(part, Quotient(reserve * ONE, scale), scale);
    CheckedMulIs(part, scale);
  }

  lemma ScaleFalls(small: U256, large: U256, decimals: nat)
    requires small <= large && ScaleTo18(large, decimals).Ok?
    ensures ScaleTo18(small, decimals).Ok? && ScaleTo18(small, decimals).value <= ScaleTo18(large, decimals).value
  {
    hide Pow10;
    CheckedMulIs(small, ONE);
    CheckedMulIs(large, ONE);
    QuotientIs(small * ONE, Pow10(decimals));
    QuotientIs(large * ONE, Pow10(decimals));
    FloorMono(small * ONE, large * ONE, Pow10(decimals));
  }

  lemma SmallerFits(reserveIn: U256, reserveOut: U256, small: U256, large: U256, feeBps: nat, decimalsIn: nat,
                    decimalsOut: nat)
    requires small <= large && QuoteFits(reserveIn, reserveOut, large, feeBps, decimalsIn, decimalsOut)
    ensures QuoteFits(reserveIn, reserveOut, small, feeBps, decimalsIn, decimalsOut)
  {
    hide Curve, Slope, ExactCurve, ExactSlope, ScaleTo18, CheckedMul, Quotient;
    var f := FEE_DENOMINATOR - feeBps;
    CheckedMulIs(small, f);
    CheckedMulIs(large, f);
    MulLe(small, large, f);
    QuotientIs(small * f, FEE_DENOMINATOR);
    QuotientIs(large * f, FEE_DENOMINATOR);
    FloorMono(small * f, large * f, FEE_DENOMINATOR);
    var less, more := Quotient(small * f, FEE_DENOMINATOR), Quotient(large * f, FEE_DENOMINATOR);
    ScaleFalls(less, more, decimalsIn);
    var x, y := ScaleTo18(reserveIn, decimalsIn).value, ScaleTo18(reserveOut, decimalsOut).value;
    var low: U256, high: U256 := x + ScaleTo18(less, decimalsIn).value, x + ScaleTo18(more, decimalsIn).value;
    CurveFalls(low, high, y, y);
    SlopeFalls(low, high, y, y);
  }

  /** With at least one token in each reserve, every smaller input of an answered quote is answered,
      and pays no more. */
  lemma SmallerQuoteAnswers(reserveIn: U256, reserveOut: U256, small: U256, large: U256, feeBps: nat,
                            decimalsIn: nat, decimalsOut: nat)
    requires small <= large && In18(reserveIn, decimalsIn) >= ONE && In18(reserveOut, decimalsOut) >= ONE
    requires Quote(reserveIn, reserveOut, large, feeBps, decimalsIn, decimalsOut).Ok?
    ensures Quote(reserveIn, reserveOut, small, feeBps, decimalsIn, decimalsOut).Ok?
    ensures Quote(reserveIn, reserveOut, small, feeBps, decimalsIn, decimalsOut).value.out
            <= Quote(reserveIn, reserveOut, large, feeBps, decimalsIn, decimalsOut).value.out
  {
    hide Quote, QuoteFits, In18;
    QuoteAnswersIff(reserveIn, reserveOut, large, feeBps, decimalsIn, decimalsOut);
    SmallerFits(reserveIn, reserveOut, small, large, feeBps, decimalsIn, decimalsOut);
    QuoteAnswersIff(reserveIn, reserveOut, small, feeBps, decimalsIn, decimalsOut);
    QuoteMonotone(reserveIn, reserveOut, small, large, feeBps, decimalsIn, decimalsOut);
  }

  // ----- an iteration that does not settle -----

  const LOOP_X: nat := 43_920_083_351_769_258
  const LOOP_X2: nat := 1_928_973_721_626_359
  const LOOP_K: nat := 22_483_252_791_524_867_454

  lemma MulOneAt(a: U256, b: U256, c: nat)
    requires a < 100 * ONE && b < 100 * ONE && a * b / ONE == c
    ensures MulOne(a, b) == Ok(c)
  {
    MulOneIs(a, b);
    MulMono(a, 100 * ONE, b, 100 * ONE);
    ScaledIs(a, b);
  }

  /** Curve and slope at one point of the loop, from their products. */
  lemma PointIs(y: U256, a: nat, y2: nat, k: nat, left: nat)
    requires y < 8 * ONE && a < ONE && y2 < 64 * ONE && left < 100 * ONE
    requires LOOP_X * y / ONE == a && 3 * LOOP_X * y2 / ONE == left
    requires y * y / ONE == y2 && a * (LOOP_X2 + y2) / ONE == k
    ensures Curve(LOOP_X, y) == Ok(k) && Slope(LOOP_X, y) == Ok(left + 84_720_686_637_202)
  {
    hide MulOne, CheckedMul;
    MulOneAt(LOOP_X, y, a);
    MulOneAt(LOOP_X, LOOP_X, LOOP_X2);
    MulOneAt(y, y, y2);
    MulOneAt(a, LOOP_X2 + y2, k);
    CheckedMulIs(3, LOOP_X);
    MulOneAt(3 * LOOP_X, y2, left);
    MulOneAt(LOOP_X2, LOOP_X, 84_720_686_637_202);
  }

  lemma NextPoint(y: U256, slope: nat, k: nat, moved: nat)
    requires Curve(LOOP_X, y) == Ok(k) && Slope(LOOP_X, y) == Ok(slope) && 0 < slope && k < 100 * ONE && y < 8 * ONE
    requires if k < LOOP_K then 0 < (LOOP_K - k) * ONE / slope == moved - y < ONE
             else 0 < (k - LOOP_K) * ONE / slope == y - moved
    ensures NewtonTurn(LOOP_X, LOOP_K, y) == Next(moved)
  {
    hide Curve, Slope, CheckedMul, Quotient;
    var gap := if k < LOOP_K then LOOP_K - k else k - LOOP_K;
    CheckedMulIs(gap, ONE);
    QuotientIs(gap * ONE, slope);
  }

  /** The curve the pool starts on. */
  lemma FirstCurve()
    ensures Curve(43_920_083_351_769_248, 7_999_465_422_756_041_728) == Ok(LOOP_K)
  {
    hide MulOne;
    MulOneAt(43_920_083_351_769_248, 7_999_465_422_756_041_728, 351_337_188_137_041_377);
    MulOneAt(43_920_083_351_769_248, 43_920_083_351_769_248, 1_928_973_721_626_358);
    MulOneAt(7_999_465_422_756_041_728, 7_999_465_422_756_041_728, 63_991_447_049_869_497_406);
    MulOneAt(351_337_188_137_041_377, 1_928_973_721_626_358 + 63_991_447_049_869_497_406, LOOP_K);
  }

  /** Two turns lead from the reserve into three points that follow each other forever. */
  lemma FirstTurn()
    ensures NewtonTurn(LOOP_X, LOOP_K, 7_999_465_422_756_041_728) == Next(7_999_465_422_756_041_121)
    ensures Curve(LOOP_X, 7_999_465_422_756_041_728).Ok? && Slope(LOOP_X, 7_999_465_422_756_041_728).Ok?
  {
    hide Curve, Slope, NewtonTurn;
    PointIs(7_999_465_422_756_041_728, 351_337_188_137_041_457, 63_991_447_049_869_497_406, 22_483_252_791_524_872_573,
            8_431_529_064_691_791_936);
    NextPoint(7_999_465_422_756_041_728, 8_431_613_785_378_429_138, 22_483_252_791_524_872_573,
              7_999_465_422_756_041_121);
  }

  lemma SecondTurn()
    ensures NewtonTurn(LOOP_X, LOOP_K, 7_999_465_422_756_041_121) == Next(7_999_465_422_756_041_123)
  {
    hide Curve, Slope, NewtonTurn;
    PointIs(7_999_465_422_756_041_121, 351_337_188_137_041_430, 63_991_447_049_869_487_694, 22_483_252_791_524_867_433,
            8_431_529_064_691_790_657);
    NextPoint(7_999_465_422_756_041_121, 8_431_613_785_378_427_859, 22_483_252_791_524_867_433,
              7_999_465_422_756_041_123);
  }

  lemma ThirdTurn()
    ensures NewtonTurn(LOOP_X, LOOP_K, 7_999_465_422_756_041_123) == Next(7_999_465_422_756_041_117)
  {
    hide Curve, Slope, NewtonTurn;
    PointIs(7_999_465_422_756_041_123, 351_337_188_137_041_431, 63_991_447_049_869_487_726, 22_483_252_791_524_867_509,
            8_431_529_064_691_790_661);
    NextPoint(7_999_465_422_756_041_123, 8_431_613_785_378_427_863, 22_483_252_791_524_867_509,
              7_999_465_422_756_041_117);
  }

  lemma FourthTurn()
    ensures NewtonTurn(LOOP_X, LOOP_K, 7_999_465_422_756_041_117) == Next(7_999_465_422_756_041_122)
  {
    hide Curve, Slope, NewtonTurn;
    PointIs(7_999_465_422_756_041_117, 351_337_188_137_041_430, 63_991_447_049_869_487_630, 22_483_252_791_524_867_411,
            8_431_529_064_691_790_648);
    NextPoint(7_999_465_422_756_041_117, 8_431_613_785_378_427_850, 22_483_252_791_524_867_411,
              7_999_465_422_756_041_122);
  }

  lemma FifthTurn()
    ensures NewtonTurn(LOOP_X, LOOP_K, 7_999_465_422_756_041_122) == Next(7_999_465_422_756_041_123)
  {
    hide Curve, Slope, NewtonTurn;
    PointIs(7_999_465_422_756_041_122, 351_337_188_137_041_430, 63_991_447_049_869_487_710, 22_483_252_791_524_867_439,
            8_431_529_064_691_790_659);
    NextPoint(7_999_465_422_756_041_122, 8_431_613_785_378_427_861, 22_483_252_791_524_867_439,
              7_999_465_422_756_041_123);
  }

  lemma {:induction false} LoopNeverAnswers(y: U256, turns: nat)
    requires y in {7_999_465_422_756_041_123, 7_999_465_422_756_041_117, 7_999_465_422_756_041_122}
    ensures NewtonFrom(LOOP_X, LOOP_K, y, turns).Err?
    decreases turns
  {
    hide NewtonTurn;
    ThirdTurn();
    FourthTurn();
    FifthTurn();
    if turns > 0 {
      LoopNeverAnswers(NewtonTurn(LOOP_X, LOOP_K, y).y, turns - 1);
    }
  }

  lemma LoopScales(amountIn: U256)
    requires amountIn < 8 * ONE
    ensures ScaleTo18(amountIn, 18) == Ok(amountIn)
  {
    Pow10At18();
    CheckedMulIs(amountIn, ONE);
    QuotientIs(amountIn * ONE, ONE);
  }

  /** With less than one token on the input side the iteration may run forever, though nothing
      overflows: ten units into this pool are not quoted, because three points follow each other. */
  lemma QuoteNeedNotSettle()
    ensures QuoteFits(43_920_083_351_769_248, 7_999_465_422_756_041_728, 10, 0, 18, 18)
    ensures Quote(43_920_083_351_769_248, 7_999_465_422_756_041_728, 10, 0, 18, 18).Err?
  {
    hide Curve, Slope, NewtonTurn, ScaleTo18, CheckedMul, Quotient;
    LoopScales(43_920_083_351_769_248);
    LoopScales(7_999_465_422_756_041_728);
    LoopScales(10);
    CheckedMulIs(10, 10_000);
    QuotientIs(100_000, 10_000);
    FirstCurve();
    FirstTurn();
    SecondTurn();
    LoopNeverAnswers(7_999_465_422_756_041_123, MAX_TURNS - 2);
    assert NewtonFrom(LOOP_X, LOOP_K, 7_999_465_422_756_041_121, MAX_TURNS - 1).Err?;
  }
}

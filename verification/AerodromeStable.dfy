/** The stable-pool quoter of crates/dex/src/aerodrome.rs: a Newton iteration on
    x^3 y + x y^3 in 18-decimal fixed point, every intermediate rounded down. */
module AerodromeStable {
  import opened Arith
  import opened Wrappers
  import opened U256Math

  const ONE: nat := 1_000_000_000_000_000_000
  const FEE_DENOMINATOR: nat := 10_000
  const MAX_TURNS: nat := 255

  /** A fixed-point product, rounded down; an error when the raw product overflows. */
  function MulOne(a: U256, b: U256): Result<U256> {
    var product :- CheckedMul(a, b);
    Ok(Quotient(product, ONE))
  }

  function Scaled(a: nat, b: nat): nat {
    Quotient(Product(a, b), ONE)
  }

  lemma ScaledIs(a: nat, b: nat)
    ensures 0 <= a * b && Scaled(a, b) == a * b / ONE
  {
    ProductIs(a, b);
    QuotientIs(Product(a, b), ONE);
  }

  lemma MulOneRefines(a: U256, b: U256)
    ensures MulOne(a, b).Ok? ==> MulOne(a, b).value == Scaled(a, b)
  {
  }

  lemma ScaledMono(a: nat, a': nat, b: nat, b': nat)
    requires a <= a' && b <= b'
    ensures Scaled(a, b) <= Scaled(a', b')
  {
    hide Scaled;
    MulMono(a, a', b, b');
    FloorMono(a * b, a' * b', ONE);
    ScaledIs(a, b);
    ScaledIs(a', b');
  }

  lemma MulMono(a: nat, a': nat, b: nat, b': nat)
    requires a <= a' && b <= b'
    ensures 0 <= a * b <= a' * b'
  {
    MulLe(a, a', b);
    MulLe(b, b', a');
  }

  /** x * y * (x^2 + y^2): the curve both `stable_k` and `stable_f` compute. */
  function Curve(x: U256, y: U256): Result<U256> {
    var a :- MulOne(x, y);
    var x2 :- MulOne(x, x);
    var y2 :- MulOne(y, y);
    var b :- CheckedAdd(x2, y2);
    MulOne(a, b)
  }

  /** The derivative of the curve in `y`. */
  function Slope(x: U256, y: U256): Result<U256> {
    var y2 :- MulOne(y, y);
    var x3 :- CheckedMul(3, x);
    var left :- MulOne(x3, y2);
    var x2 :- MulOne(x, x);
    var right :- MulOne(x2, x);
    CheckedAdd(left, right)
  }

  /** The curve on unbounded numbers. */
  function ExactCurve(x: nat, y: nat): nat {
    Scaled(Scaled(x, y), Scaled(x, x) + Scaled(y, y))
  }

  lemma CurveRefines(x: U256, y: U256)
    ensures Curve(x, y).Ok? ==> Curve(x, y).value == ExactCurve(x, y)
  {
    hide MulOne, Scaled;
    if Curve(x, y).Ok? {
      MulOneRefines(x, y);
      MulOneRefines(x, x);
      MulOneRefines(y, y);
      MulOneRefines(MulOne(x, y).value, MulOne(x, x).value + MulOne(y, y).value);
    }
  }

  /** Rounding and all, the curve rises in both reserves. */
  lemma CurveMonotone(x: nat, x': nat, y: nat, y': nat)
    requires x <= x' && y <= y'
    ensures ExactCurve(x, y) <= ExactCurve(x', y')
  {
    hide Scaled;
    ScaledMono(x, x', y, y');
    ScaledMono(x, x', x, x');
    ScaledMono(y, y', y, y');
    ScaledMono(Scaled(x, y), Scaled(x', y'), Scaled(x, x) + Scaled(y, y), Scaled(x', x') + Scaled(y', y'));
  }

  // ----- the Newton iteration -----

  datatype Turn = Done(y: U256) | Next(y: U256) | Failed

  function NewtonDelta(gap: U256, slope: U256): Result<U256>
    requires slope > 0
  {
    var scaled :- CheckedMul(gap, ONE);
    Ok(Quotient(scaled, slope))
  }

  /** One turn of the loop, both branches with their tie-breaking (lines 190-237). */
  function NewtonTurn(x0: U256, xy: U256, y: U256): Turn {
    var k, d := Curve(x0, y), Slope(x0, y);
    if k.Err? || d.Err? || d.value == 0 then Failed
    else if k.value < xy then
      var delta := NewtonDelta(xy - k.value, d.value);
      if delta.Err? then Failed
      else if delta.value > 0 then
        var moved := CheckedAdd(y, delta.value);
        if moved.Err? then Failed else Next(moved.value)
      else
        var above := CheckedAdd(y, 1);
        if above.Err? || Curve(x0, above.value).Err? then Failed
        else if Curve(x0, above.value).value > xy then Done(above.value)
        else Next(above.value)
    else
      var delta := NewtonDelta(k.value - xy, d.value);
      if delta.Err? then Failed
      else if delta.value > 0 then
        if delta.value > y then Failed else Next(y - delta.value)
      else if k.value == xy || y == 0 then Done(y)
      else if Curve(x0, y - 1).Err? then Failed
      else if Curve(x0, y - 1).value < xy then Done(y)
      else Next(y - 1)
  }

  function NewtonFrom(x0: U256, xy: U256, y: U256, turns: nat): Result<U256>
    decreases turns
  {
    if turns == 0 then Err
    else match NewtonTurn(x0, xy, y)
      case Failed => Err
      case Done(root) => Ok(root)
      case Next(moved) => NewtonFrom(x0, xy, moved, turns - 1)
  }

  /** crates/dex/src/aerodrome.rs:188-240. */
  method GetY(x0: U256, xy: U256, start: U256) returns (r: Result<U256>)
    ensures r == NewtonFrom(x0, xy, start, MAX_TURNS)
  {
    hide NewtonTurn;
    var y: U256 := start;
    for i := 0 to MAX_TURNS
      invariant NewtonFrom(x0, xy, start, MAX_TURNS) == NewtonFrom(x0, xy, y, MAX_TURNS - i)
    {
      match NewtonTurn(x0, xy, y)
      case Failed => return Err;
      case Done(root) => return Ok(root);
      case Next(moved) => y := moved;
    }
    return Err;
  }

  /** `y` is where the curve first meets `xy`: it is at or above it, and either meets it
      exactly or would fall below it one unit lower. */
  predicate Brackets(x0: nat, xy: nat, y: nat) {
    && xy <= ExactCurve(x0, y)
    && (ExactCurve(x0, y) == xy || y == 0 || ExactCurve(x0, y - 1) < xy)
  }

  lemma TurnBrackets(x0: U256, xy: U256, y: U256)
    requires NewtonTurn(x0, xy, y).Done?
    ensures Brackets(x0, xy, NewtonTurn(x0, xy, y).y)
  {
    hide Curve, Slope, NewtonDelta, ExactCurve;
    CurveRefines(x0, y);
    if y < U256_MAX {
      CurveRefines(x0, y + 1);
    }
    if y > 0 {
      CurveRefines(x0, y - 1);
    }
  }

  /** Whatever the start and however the iteration gets there, an answer brackets the root. */
  lemma {:induction false} RootBracketed(x0: U256, xy: U256, y: U256, turns: nat)
    requires NewtonFrom(x0, xy, y, turns).Ok?
    ensures Brackets(x0, xy, NewtonFrom(x0, xy, y, turns).value)
    decreases turns
  {
    hide NewtonTurn, Brackets;
    match NewtonTurn(x0, xy, y)
    case Done(root) => TurnBrackets(x0, xy, y);
    case Next(moved) => RootBracketed(x0, xy, moved, turns - 1);
  }

  /** An iteration that answers at all finds curve and slope at its start. */
  lemma StartAnswers(x0: U256, xy: U256, start: U256, turns: nat)
    requires NewtonFrom(x0, xy, start, turns).Ok?
    ensures turns > 0 && Curve(x0, start).Ok? && Slope(x0, start).Ok? && Slope(x0, start).value > 0
    ensures NewtonTurn(x0, xy, start) == Done(start) ==> NewtonFrom(x0, xy, start, turns) == Ok(start)
  {
    hide Curve, Slope, NewtonDelta;
  }

  /** Started where the curve is at or above `xy`, the answer is not above the start. */
  lemma RootNotAboveStart(x0: U256, xy: U256, start: U256, turns: nat)
    requires xy <= ExactCurve(x0, start) && NewtonFrom(x0, xy, start, turns).Ok?
    ensures NewtonFrom(x0, xy, start, turns).value <= start
  {
    hide Curve, Slope, ExactCurve, NewtonTurn, NewtonFrom;
    RootBracketed(x0, xy, start, turns);
    StartAnswers(x0, xy, start, turns);
    var y := NewtonFrom(x0, xy, start, turns).value;
    if start < y {
      CurveMonotone(x0, x0, start, y - 1);
      CurveMonotone(x0, x0, y - 1, y);
      CurveRefines(x0, start);
      ZeroDelta(x0, xy, start);
    }
  }

  lemma ZeroDelta(x0: U256, xy: U256, y: U256)
    requires Curve(x0, y) == Ok(xy) && Slope(x0, y).Ok? && Slope(x0, y).value > 0
    ensures NewtonTurn(x0, xy, y) == Done(y)
  {
    hide Curve, Slope;
    CheckedMulIs(0, ONE);
  }

  // ----- decimals -----

  function Pow10(n: nat): (p: nat)
    ensures p > 0
  {
    if n == 0 then 1 else 10 * Pow10(n - 1)
  }

  lemma {:induction false} Pow10Mono(m: nat, n: nat)
    requires m <= n
    ensures Pow10(m) <= Pow10(n)
    decreases n
  {
    if m < n {
      Pow10Mono(m, n - 1);
    }
  }

  function CheckedPow10(decimals: nat): Result<U256> {
    if Pow10(decimals) <= U256_MAX then Ok(Pow10(decimals)) else Err
  }

  /** crates/dex/src/aerodrome.rs:98-106: multiplies up, stopping at the first overflow. */
  method ComputePow10(decimals: nat) returns (r: Result<U256>)
    ensures r == CheckedPow10(decimals)
  {
    var value: U256 := 1;
    for i := 0 to decimals
      invariant value == Pow10(i)
    {
      var next := CheckedMul(value, 10);
      if next.Err? {
        Pow10Mono(i + 1, decimals);
        return Err;
      }
      value := next.value;
    }
    return Ok(value);
  }

  function ScaleTo18(value: U256, decimals: nat): Result<U256> {
    var scale :- CheckedPow10(decimals);
    var raw :- CheckedMul(value, ONE);
    Ok(Quotient(raw, scale))
  }

  function UnscaleFrom18(value: U256, decimals: nat): Result<U256> {
    var scale :- CheckedPow10(decimals);
    var raw :- CheckedMul(value, scale);
    Ok(Quotient(raw, ONE))
  }

  /** A raw reserve in 18 decimals, on unbounded numbers. */
  function In18(value: nat, decimals: nat): nat {
    FloorDiv(value * ONE, Pow10(decimals))
  }

  lemma ScaleIs(value: U256, decimals: nat)
    ensures ScaleTo18(value, decimals).Ok? ==> ScaleTo18(value, decimals).value == In18(value, decimals)
    ensures 0 <= value * ONE && In18(value, decimals) == value * ONE / Pow10(decimals)
  {
    if ScaleTo18(value, decimals).Ok? {
      CheckedMulIs(value, ONE);
      QuotientIs(value * ONE, Pow10(decimals));
    }
  }

  lemma UnscaleIs(value: U256, decimals: nat)
    ensures UnscaleFrom18(value, decimals).Ok? ==>
              0 <= value * Pow10(decimals)
              && UnscaleFrom18(value, decimals).value == value * Pow10(decimals) / ONE
  {
    if UnscaleFrom18(value, decimals).Ok? {
      CheckedMulIs(value, Pow10(decimals));
      QuotientIs(value * Pow10(decimals), ONE);
    }
  }

  // ----- the quote -----

  /** The intermediate values of a quote, and the output they give. */
  datatype StableQuote = StableQuote(afterFee: U256, x: U256, y: U256, k: U256, x0: U256, root: U256, out: U256)

  function Quote(reserveIn: U256, reserveOut: U256, amountIn: U256, feeBps: nat, decimalsIn: nat,
                 decimalsOut: nat): Result<StableQuote> {
    if feeBps > FEE_DENOMINATOR then Err
    else
      var weighted :- CheckedMul(amountIn, FEE_DENOMINATOR - feeBps);
      var afterFee := Quotient(weighted, FEE_DENOMINATOR);
      var x :- ScaleTo18(reserveIn, decimalsIn);
      var y :- ScaleTo18(reserveOut, decimalsOut);
      var dx :- ScaleTo18(afterFee, decimalsIn);
      var k :- Curve(x, y);
      var x0 :- CheckedAdd(x, dx);
      var root :- NewtonFrom(x0, k, y, MAX_TURNS);
      if root > y then Err
      else
        var out :- UnscaleFrom18(y - root, decimalsOut);
        Ok(StableQuote(afterFee, x, y, k, x0, root, out))
  }

  /** crates/dex/src/aerodrome.rs:52-85. */
  method QuoteAmountOut(reserveIn: U256, reserveOut: U256, amountIn: U256, feeBps: nat, decimalsIn: nat,
                        decimalsOut: nat)
    returns (r: Result<U256>)
    ensures r == if reserveIn == 0 || reserveOut == 0 then Err
                 else if amountIn == 0 then Ok(0)
                 else var q := Quote(reserveIn, reserveOut, amountIn, feeBps, decimalsIn, decimalsOut);
                      if q.Err? then Err else Ok(q.value.out)
  {
    hide Curve, NewtonFrom, ScaleTo18, UnscaleFrom18, Quotient;
    if reserveIn == 0 || reserveOut == 0 { return Err; }
    if amountIn == 0 { return Ok(0); }
    if feeBps > FEE_DENOMINATOR { return Err; }
    var weighted := CheckedMul(amountIn, FEE_DENOMINATOR - feeBps);
    if weighted.Err? { return Err; }
    var afterFee := Quotient(weighted.value, FEE_DENOMINATOR);
    var x := ScaleTo18(reserveIn, decimalsIn);
    if x.Err? { return Err; }
    var y := ScaleTo18(reserveOut, decimalsOut);
    if y.Err? { return Err; }
    var dx := ScaleTo18(afterFee, decimalsIn);
    if dx.Err? { return Err; }
    var k := Curve(x.value, y.value);
    if k.Err? { return Err; }
    var x0 := CheckedAdd(x.value, dx.value);
    if x0.Err? { return Err; }
    var root := GetY(x0.value, k.value, y.value);
    if root.Err? || root.value > y.value { return Err; }
    r := UnscaleFrom18(y.value - root.value, decimalsOut);
  }

  /** The facts an answered quote rests on, each a consequence of one of its steps. */
  lemma QuoteFacts(reserveIn: U256, reserveOut: U256, amountIn: U256, feeBps: nat, decimalsIn: nat, decimalsOut: nat)
    requires Quote(reserveIn, reserveOut, amountIn, feeBps, decimalsIn, decimalsOut).Ok?
    ensures var q := Quote(reserveIn, reserveOut, amountIn, feeBps, decimalsIn, decimalsOut).value;
      && feeBps <= 10_000 && q.afterFee == amountIn * (10_000 - feeBps) / 10_000
      && q.x == In18(reserveIn, decimalsIn) == reserveIn * ONE / Pow10(decimalsIn)
      && q.y == In18(reserveOut, decimalsOut) == reserveOut * ONE / Pow10(decimalsOut)
      && q.k == ExactCurve(q.x, q.y) && q.x0 == q.x + In18(q.afterFee, decimalsIn)
      && Brackets(q.x0, q.k, q.root) && q.root <= q.y
      && q.out == (q.y - q.root) * Pow10(decimalsOut) / ONE
  {
    hide Curve, NewtonFrom, ExactCurve, Brackets, ScaleTo18, UnscaleFrom18, In18, CheckedMul;
    var q := Quote(reserveIn, reserveOut, amountIn, feeBps, decimalsIn, decimalsOut).value;
    CurveRefines(q.x, q.y);
    RootBracketed(q.x0, q.k, q.y, MAX_TURNS);
    ScaleIs(reserveIn, decimalsIn);
    ScaleIs(reserveOut, decimalsOut);
    ScaleIs(q.afterFee, decimalsIn);
    UnscaleIs(q.y - q.root, decimalsOut);
    AfterFeeIs(reserveIn, reserveOut, amountIn, feeBps, decimalsIn, decimalsOut);
  }

  /** The input less its fee, rounded down. */
  lemma AfterFeeIs(reserveIn: U256, reserveOut: U256, amountIn: U256, feeBps: nat, decimalsIn: nat, decimalsOut: nat)
    requires Quote(reserveIn, reserveOut, amountIn, feeBps, decimalsIn, decimalsOut).Ok?
    ensures feeBps <= 10_000 && 0 <= amountIn * (10_000 - feeBps)
    ensures Quote(reserveIn, reserveOut, amountIn, feeBps, decimalsIn, decimalsOut).value.afterFee
         == amountIn * (10_000 - feeBps) / 10_000
  {
    hide Curve, NewtonFrom, ScaleTo18, UnscaleFrom18, CheckedMul, Quotient;
    CheckedMulIs(amountIn, FEE_DENOMINATOR - feeBps);
    QuotientIs(amountIn * (FEE_DENOMINATOR - feeBps), FEE_DENOMINATOR);
  }

  /** Paying `out` for the scaled difference `y - root` leaves at least `root` behind. */
  lemma PaidOutLeavesRoot(reserveOut: nat, root: nat, y: nat, out: nat, scale: nat)
    requires scale > 0 && root <= y && y == reserveOut * ONE / scale && out == (y - root) * scale / ONE
    ensures out <= reserveOut && root <= (reserveOut - out) * ONE / scale
  {
    FloorBounds(reserveOut * ONE, scale);
    FloorBounds((y - root) * scale, ONE);
    MulDistrib(y - root, root, scale);
    assert out * ONE <= reserveOut * ONE;
    FloorGe((reserveOut - out) * ONE, scale, root);
  }

  /** A stable quote never exceeds the reserve, whatever the decimals on either side, and the
      curve through the reserves never falls: the trade is paid for by its after-fee input. */
  lemma CurveKept(reserveIn: U256, reserveOut: U256, amountIn: U256, feeBps: nat, decimalsIn: nat, decimalsOut: nat)
    requires Quote(reserveIn, reserveOut, amountIn, feeBps, decimalsIn, decimalsOut).Ok?
    ensures var q := Quote(reserveIn, reserveOut, amountIn, feeBps, decimalsIn, decimalsOut).value;
      && q.out <= reserveOut && q.afterFee <= amountIn
      && ExactCurve(In18(reserveIn, decimalsIn), In18(reserveOut, decimalsOut))
         <= ExactCurve(In18(reserveIn + q.afterFee, decimalsIn), In18(reserveOut - q.out, decimalsOut))
  {
    hide Quote, Brackets, ExactCurve;
    QuoteFacts(reserveIn, reserveOut, amountIn, feeBps, decimalsIn, decimalsOut);
    var q := Quote(reserveIn, reserveOut, amountIn, feeBps, decimalsIn, decimalsOut).value;
    AfterFeeAtMost(reserveIn, reserveOut, amountIn, feeBps, decimalsIn, decimalsOut);
    PaidOutLeavesRoot(reserveOut, q.root, q.y, q.out, Pow10(decimalsOut));
    FloorSuperAdditive(reserveIn * ONE, q.afterFee * ONE, Pow10(decimalsIn));
    CurveMonotone(q.x0, In18(reserveIn + q.afterFee, decimalsIn), q.root, In18(reserveOut - q.out, decimalsOut));
    BracketsAbove(q.x0, q.k, q.root);
  }

  lemma BracketsAbove(x0: nat, xy: nat, y: nat)
    requires Brackets(x0, xy, y)
    ensures xy <= ExactCurve(x0, y)
  {
  }

  lemma AfterFeeAtMost(reserveIn: U256, reserveOut: U256, amountIn: U256, feeBps: nat, decimalsIn: nat,
                       decimalsOut: nat)
    requires Quote(reserveIn, reserveOut, amountIn, feeBps, decimalsIn, decimalsOut).Ok?
    ensures Quote(reserveIn, reserveOut, amountIn, feeBps, decimalsIn, decimalsOut).value.afterFee <= amountIn
  {
    hide Quote;
    AfterFeeIs(reserveIn, reserveOut, amountIn, feeBps, decimalsIn, decimalsOut);
    MulLe(10_000 - feeBps, 10_000, amountIn);
    FloorMono(amountIn * (10_000 - feeBps), amountIn * 10_000, 10_000);
  }

  /** The source's "stable y overflow" branch is dead: started at the old reserve, the root
      never lies above it, because the input only raises the curve. */
  lemma RootNeverAboveReserve(x: U256, y: U256, x0: U256)
    requires x <= x0 && Curve(x, y).Ok? && NewtonFrom(x0, Curve(x, y).value, y, MAX_TURNS).Ok?
    ensures NewtonFrom(x0, Curve(x, y).value, y, MAX_TURNS).value <= y
  {
    hide Curve, NewtonFrom, ExactCurve;
    CurveRefines(x, y);
    CurveMonotone(x, x0, y, y);
    RootNotAboveStart(x0, Curve(x, y).value, y, MAX_TURNS);
  }

  // ----- more input, more output -----

  /** From one whole unit of the other reserve on, the curve rises with every unit. */
  lemma CurveStrict(x: nat, y: nat)
    requires x >= ONE
    ensures ExactCurve(x, y) < ExactCurve(x, y + 1)
  {
    hide Scaled;
    ScaledStrict(y, x);
    ScaledCommutes(x, y);
    ScaledCommutes(x, y + 1);
    ScaledMono(y, y + 1, y, y + 1);
    ScaledIs(x, x);
    MulLe(ONE, x, x);
    FloorGe(x * x, ONE, ONE);
    var a, b := Scaled(x, y), Scaled(x, x) + Scaled(y, y);
    ScaledStrict(a, b);
    ScaledMono(a + 1, Scaled(x, y + 1), b, Scaled(x, x) + Scaled(y + 1, y + 1));
  }

  lemma ScaledStrict(a: nat, b: nat)
    requires b >= ONE
    ensures Scaled(a, b) < Scaled(a + 1, b)
  {
    hide Scaled;
    ScaledIs(a, b);
    ScaledIs(a + 1, b);
    MulDistrib(a, 1, b);
    FloorBounds(a * b, ONE);
    FloorGe((a + 1) * b, ONE, a * b / ONE + 1);
  }

  lemma ScaledCommutes(a: nat, b: nat)
    ensures Scaled(a, b) == Scaled(b, a)
  {
    hide Scaled;
    ScaledIs(a, b);
    ScaledIs(b, a);
  }

  /** A larger reserve on the input side leaves a larger root only where the curve is flat all the
      way from the one root to the other. */
  lemma RootRisesOnlyWhereFlat(x0: nat, x1: nat, xy: nat, y0: nat, y1: nat)
    requires x0 <= x1 && y0 < y1 && Brackets(x0, xy, y0) && Brackets(x1, xy, y1)
    ensures ExactCurve(x1, y0) == xy == ExactCurve(x1, y1)
  {
    hide ExactCurve;
    CurveMonotone(x0, x1, y0, y0);
    CurveMonotone(x1, x1, y0, y1 - 1);
    CurveMonotone(x1, x1, y0, y1);
  }

  /** So from one whole unit of the input reserve on, a larger one never leaves a larger root. */
  lemma RootFalls(x0: nat, x1: nat, xy: nat, y0: nat, y1: nat)
    requires ONE <= x1 && x0 <= x1 && Brackets(x0, xy, y0) && Brackets(x1, xy, y1)
    ensures y1 <= y0
  {
    hide ExactCurve, Brackets;
    if y0 < y1 {
      RootRisesOnlyWhereFlat(x0, x1, xy, y0, y1);
      CurveMonotone(x1, x1, y0, y1 - 1);
      CurveStrict(x1, y1 - 1);
    }
  }

  lemma In18Mono(a: nat, b: nat, decimals: nat)
    requires a <= b
    ensures In18(a, decimals) <= In18(b, decimals)
  {
    FloorMono(a * ONE, b * ONE, Pow10(decimals));
  }

  /** Two quotes of one pool solve for the same curve value, and the lower root pays more. */
  lemma QuotesCompare(reserveIn: U256, reserveOut: U256, small: U256, large: U256, feeBps: nat,
                      decimalsIn: nat, decimalsOut: nat)
    requires small <= large
    requires Quote(reserveIn, reserveOut, small, feeBps, decimalsIn, decimalsOut).Ok?
    requires Quote(reserveIn, reserveOut, large, feeBps, decimalsIn, decimalsOut).Ok?
    ensures var p := Quote(reserveIn, reserveOut, small, feeBps, decimalsIn, decimalsOut).value;
      var q := Quote(reserveIn, reserveOut, large, feeBps, decimalsIn, decimalsOut).value;
      && p.k == q.k && In18(reserveIn, decimalsIn) <= p.x0 <= q.x0
      && Brackets(p.x0, p.k, p.root) && Brackets(q.x0, q.k, q.root)
      && (q.root <= p.root ==> p.out <= q.out)
  {
    hide Quote, Brackets, ExactCurve, In18;
    QuoteFacts(reserveIn, reserveOut, small, feeBps, decimalsIn, decimalsOut);
    QuoteFacts(reserveIn, reserveOut, large, feeBps, decimalsIn, decimalsOut);
    var p := Quote(reserveIn, reserveOut, small, feeBps, decimalsIn, decimalsOut).value;
    var q := Quote(reserveIn, reserveOut, large, feeBps, decimalsIn, decimalsOut).value;
    AfterFeeMono(reserveIn, reserveOut, small, large, feeBps, decimalsIn, decimalsOut);
    In18Mono(p.afterFee, q.afterFee, decimalsIn);
    if q.root <= p.root {
      MulLe(p.y - p.root, q.y - q.root, Pow10(decimalsOut));
      FloorMono((p.y - p.root) * Pow10(decimalsOut), (q.y - q.root) * Pow10(decimalsOut), ONE);
    }
  }

  /** A larger input pays less only where the curve at it is flat from the one root to the other. */
  lemma PaysLessOnlyWhereFlat(reserveIn: U256, reserveOut: U256, small: U256, large: U256, feeBps: nat,
                              decimalsIn: nat, decimalsOut: nat)
    requires small <= large
    requires Quote(reserveIn, reserveOut, small, feeBps, decimalsIn, decimalsOut).Ok?
    requires Quote(reserveIn, reserveOut, large, feeBps, decimalsIn, decimalsOut).Ok?
    requires Quote(reserveIn, reserveOut, large, feeBps, decimalsIn, decimalsOut).value.out
             < Quote(reserveIn, reserveOut, small, feeBps, decimalsIn, decimalsOut).value.out
    ensures var p := Quote(reserveIn, reserveOut, small, feeBps, decimalsIn, decimalsOut).value;
      var q := Quote(reserveIn, reserveOut, large, feeBps, decimalsIn, decimalsOut).value;
      p.root < q.root && ExactCurve(q.x0, p.root) == q.k == ExactCurve(q.x0, q.root)
  {
    hide Quote, Brackets, ExactCurve, In18;
    QuotesCompare(reserveIn, reserveOut, small, large, feeBps, decimalsIn, decimalsOut);
    var p := Quote(reserveIn, reserveOut, small, feeBps, decimalsIn, decimalsOut).value;
    var q := Quote(reserveIn, reserveOut, large, feeBps, decimalsIn, decimalsOut).value;
    RootRisesOnlyWhereFlat(p.x0, q.x0, p.k, p.root, q.root);
  }

  /** From one whole token of the input reserve on, a larger input never pays less. */
  lemma QuoteMonotone(reserveIn: U256, reserveOut: U256, small: U256, large: U256, feeBps: nat,
                      decimalsIn: nat, decimalsOut: nat)
    requires small <= large && In18(reserveIn, decimalsIn) >= ONE
    requires Quote(reserveIn, reserveOut, small, feeBps, decimalsIn, decimalsOut).Ok?
    requires Quote(reserveIn, reserveOut, large, feeBps, decimalsIn, decimalsOut).Ok?
    ensures Quote(reserveIn, reserveOut, small, feeBps, decimalsIn, decimalsOut).value.out
            <= Quote(reserveIn, reserveOut, large, feeBps, decimalsIn, decimalsOut).value.out
  {
    hide Quote, Brackets, ExactCurve, In18;
    QuotesCompare(reserveIn, reserveOut, small, large, feeBps, decimalsIn, decimalsOut);
    var p := Quote(reserveIn, reserveOut, small, feeBps, decimalsIn, decimalsOut).value;
    var q := Quote(reserveIn, reserveOut, large, feeBps, decimalsIn, decimalsOut).value;
    RootFalls(p.x0, q.x0, p.k, p.root, q.root);
  }

  lemma AfterFeeMono(reserveIn: U256, reserveOut: U256, small: U256, large: U256, feeBps: nat,
                     decimalsIn: nat, decimalsOut: nat)
    requires small <= large
    requires Quote(reserveIn, reserveOut, small, feeBps, decimalsIn, decimalsOut).Ok?
    requires Quote(reserveIn, reserveOut, large, feeBps, decimalsIn, decimalsOut).Ok?
    ensures Quote(reserveIn, reserveOut, small, feeBps, decimalsIn, decimalsOut).value.afterFee
            <= Quote(reserveIn, reserveOut, large, feeBps, decimalsIn, decimalsOut).value.afterFee
  {
    hide Quote;
    AfterFeeIs(reserveIn, reserveOut, small, feeBps, decimalsIn, decimalsOut);
    AfterFeeIs(reserveIn, reserveOut, large, feeBps, decimalsIn, decimalsOut);
    MulLe(small, large, 10_000 - feeBps);
    FloorMono(small * (10_000 - feeBps), large * (10_000 - feeBps), 10_000);
  }

  // ----- reserves of less than one unit -----

  lemma SmallCurveAnswers(x: U256, y: U256)
    requires x < ONE && y < ONE
    ensures Curve(x, y) == Ok(ExactCurve(x, y))
    ensures Slope(x, y) == Ok(Scaled(3 * x, Scaled(y, y)) + Scaled(Scaled(x, x), x))
  {
    hide MulOne, Scaled, CheckedMul;
    SmallProduct(x, y);
    SmallProduct(x, x);
    SmallProduct(y, y);
    SmallProduct(Scaled(x, y), Scaled(x, x) + Scaled(y, y));
    CheckedMulIs(3, x);
    SmallProduct(3 * x, Scaled(y, y));
    SmallProduct(Scaled(x, x), x);
  }

  lemma SmallProduct(a: U256, b: U256)
    requires a < 3 * ONE && b < 3 * ONE
    ensures MulOne(a, b) == Ok(Scaled(a, b)) && Scaled(a, b) <= a * b / ONE < 9 * ONE
    ensures a < ONE && b < ONE ==> Scaled(a, b) < ONE
  {
    ScaledIs(a, b);
    CheckedMulIs(a, b);
    MulLe(a, 3 * ONE, b);
    MulLe(b, 3 * ONE, 3 * ONE);
    FloorGe(a * b, ONE, 9 * ONE);
    if a < ONE && b < ONE {
      MulLe(a, ONE, b);
      FloorGe(a * b, ONE, ONE);
    }
  }

  /** The curve and its slope at a dust reserve, where truncation leaves only a few units. */
  lemma DustCurve()
    ensures ExactCurve(8_117, 51_237_958_457_188_371) == 1
    ensures ExactCurve(15_762, 51_237_958_457_188_371) == 2 && ExactCurve(17_196, 51_237_958_457_188_371) == 2
    ensures ExactCurve(15_762, 43_173_442_328_156_113) == 1 && ExactCurve(17_196, 43_830_551_049_780_964) == 1
  {
    hide Scaled, ExactCurve;
    DustPoint(8_117, 51_237_958_457_188_371, 415, 2_625_328_386_860_561, 1);
    DustPoint(15_762, 51_237_958_457_188_371, 807, 2_625_328_386_860_561, 2);
    DustPoint(17_196, 51_237_958_457_188_371, 881, 2_625_328_386_860_561, 2);
    DustPoint(15_762, 43_173_442_328_156_113, 680, 1_863_946_122_462_621, 1);
    DustPoint(17_196, 43_830_551_049_780_964, 753, 1_921_117_205_327_455, 1);
  }

  lemma DustPoint(x: nat, y: nat, a: nat, y2: nat, k: nat)
    requires x * x < ONE && x * y / ONE == a && y * y / ONE == y2 && a * y2 / ONE == k
    ensures ExactCurve(x, y) == k && Scaled(x, x) == 0 && Scaled(y, y) == y2
  {
    ScaledIs(x, y);
    ScaledIs(x, x);
    ScaledIs(y, y);
    ScaledIs(a, y2);
  }

  /** Two turns of the iteration: one step down, and the curve is met exactly. */
  lemma DustRoot(x0: U256, y: U256, slope: nat, root: U256)
    requires x0 < ONE && x0 * x0 < ONE && y < ONE && root < ONE
    requires ExactCurve(x0, y) == 2 && ExactCurve(x0, root) == 1
    requires Scaled(3 * x0, Scaled(y, y)) == slope > 0 && ONE / slope > 0 && root == y - ONE / slope
    requires Scaled(3 * x0, Scaled(root, root)) > 0
    ensures NewtonFrom(x0, 1, y, MAX_TURNS) == Ok(root)
  {
    hide Curve, Slope, ExactCurve, Scaled, CheckedMul;
    SmallCurveAnswers(x0, y);
    SmallCurveAnswers(x0, root);
    ScaledIs(x0, x0);
    ScaledIs(0, x0);
    CheckedMulIs(1, ONE);
    QuotientIs(ONE, slope);
    assert NewtonTurn(x0, 1, y) == Next(root);
    ZeroDelta(x0, 1, root);
    assert NewtonFrom(x0, 1, root, MAX_TURNS - 1) == Ok(root);
  }

  lemma Scale18(value: U256)
    requires value < ONE
    ensures ScaleTo18(value, 18) == Ok(value) && UnscaleFrom18(value, 18) == Ok(value)
  {
    Pow10At18();
    CheckedMulIs(value, ONE);
    QuotientIs(value * ONE, ONE);
  }

  lemma Pow10At18()
    ensures Pow10(18) == ONE
  {
    assert Pow10(2) == 100;
    assert Pow10(4) == 10_000;
    assert Pow10(6) == 1_000_000;
    assert Pow10(8) == 100_000_000;
    assert Pow10(10) == 10_000_000_000;
    assert Pow10(12) == 1_000_000_000_000;
    assert Pow10(14) == 100_000_000_000_000;
    assert Pow10(16) == 10_000_000_000_000_000;
  }

  /** One quote of the dust pool, given what Newton answers. */
  lemma DustQuote(amountIn: U256, root: U256)
    requires amountIn < 10_000 && root <= 51_237_958_457_188_371
    requires NewtonFrom(8_117 + amountIn, 1, 51_237_958_457_188_371, MAX_TURNS) == Ok(root)
    ensures var q := Quote(8_117, 51_237_958_457_188_371, amountIn, 0, 18, 18);
      q.Ok? && q.value.out == 51_237_958_457_188_371 - root
  {
    hide NewtonFrom, Curve, ExactCurve, ScaleTo18, UnscaleFrom18, CheckedMul, Quotient;
    DustCurve();
    SmallCurveAnswers(8_117, 51_237_958_457_188_371);
    CheckedMulIs(amountIn, 10_000);
    QuotientIs(amountIn * 10_000, 10_000);
    Scale18(8_117);
    Scale18(51_237_958_457_188_371);
    Scale18(amountIn);
    Scale18(51_237_958_457_188_371 - root);
  }

  /** With less than one token on the input side a larger input can pay less: 9079 units buy
      7407407407407407 where 7645 buy 8064516129032258. */
  lemma LargerDustPaysLess()
    ensures var small := Quote(8_117, 51_237_958_457_188_371, 7_645, 0, 18, 18);
      var large := Quote(8_117, 51_237_958_457_188_371, 9_079, 0, 18, 18);
      && small.Ok? && large.Ok?
      && small.value.out == 8_064_516_129_032_258 && large.value.out == 7_407_407_407_407_407
  {
    hide NewtonFrom, Quote, ExactCurve, Scaled;
    DustCurve();
    DustSlopes();
    DustRoot(15_762, 51_237_958_457_188_371, 124, 43_173_442_328_156_113);
    DustRoot(17_196, 51_237_958_457_188_371, 135, 43_830_551_049_780_964);
    DustQuote(7_645, 43_173_442_328_156_113);
    DustQuote(9_079, 43_830_551_049_780_964);
  }

  lemma DustSlopes()
    ensures Scaled(3 * 15_762, Scaled(51_237_958_457_188_371, 51_237_958_457_188_371)) == 124
    ensures Scaled(3 * 17_196, Scaled(51_237_958_457_188_371, 51_237_958_457_188_371)) == 135
    ensures Scaled(3 * 15_762, Scaled(43_173_442_328_156_113, 43_173_442_328_156_113)) == 88
    ensures Scaled(3 * 17_196, Scaled(43_830_551_049_780_964, 43_830_551_049_780_964)) == 99
  {
    hide Scaled;
    ScaledIs(51_237_958_457_188_371, 51_237_958_457_188_371);
    ScaledIs(43_173_442_328_156_113, 43_173_442_328_156_113);
    ScaledIs(43_830_551_049_780_964, 43_830_551_049_780_964);
    ScaledIs(3 * 15_762, 2_625_328_386_860_561);
    ScaledIs(3 * 17_196, 2_625_328_386_860_561);
    ScaledIs(3 * 15_762, 1_863_946_122_462_621);
    ScaledIs(3 * 17_196, 1_921_117_205_327_455);
  }
}

/** The curve of the stable quoter and its slope, rounding and all, against the real ones: from one
    whole token of the input reserve on, chords and tangents lie as they do on a convex curve. */
module StableCurve {
  import opened Arith
  import opened Wrappers
  import opened U256Math
  import opened AerodromeStable

  const TENTH: nat := 100_000_000_000_000_000

  // ----- what fits in 256 bits -----

  lemma MulOneIs(a: U256, b: U256)
    ensures MulOne(a, b) == if a * b <= U256_MAX then Ok(Scaled(a, b)) else Err
  {
    CheckedMulIs(a, b);
    ProductIs(a, b);
  }

  /** A product that fits still fits when its factors fall. */
  lemma MulOneFalls(a: U256, a': U256, b: U256, b': U256)
    requires a <= a' && b <= b' && MulOne(a', b').Ok?
    ensures MulOne(a, b).Ok? && MulOne(a, b).value <= MulOne(a', b').value
  {
    hide MulOne, Scaled;
    MulOneIs(a, b);
    MulOneIs(a', b');
    MulMono(a, a', b, b');
    ScaledMono(a, a', b, b');
  }

  /** The checked curve answers at every lower point, and is not higher there. */
  lemma CurveFalls(x: U256, x': U256, y: U256, y': U256)
    requires x <= x' && y <= y' && Curve(x', y').Ok?
    ensures Curve(x, y) == Ok(ExactCurve(x, y)) && ExactCurve(x, y) <= Curve(x', y').value
    ensures ExactCurve(x, y) * ONE <= U256_MAX
  {
    hide MulOne, Scaled;
    MulOneFalls(x, x', y, y');
    MulOneFalls(x, x', x, x');
    MulOneFalls(y, y', y, y');
    var a, b := MulOne(x, y).value, MulOne(x, x).value + MulOne(y, y).value;
    MulOneFalls(a, MulOne(x', y').value, b, MulOne(x', x').value + MulOne(y', y').value);
    CurveRefines(x, y);
    MulOneIs(a, b);
    ScaledBounds(a, b);
  }

  /** The slope on unbounded numbers. */
  function ExactSlope(x: nat, y: nat): nat {
    Scaled(3 * x, Scaled(y, y)) + Scaled(Scaled(x, x), x)
  }

  lemma SlopeRises(x: nat, x': nat, y: nat, y': nat)
    requires x <= x' && y <= y'
    ensures ExactSlope(x, y) <= ExactSlope(x', y')
  {
    hide Scaled;
    ScaledMono(y, y', y, y');
    ScaledMono(3 * x, 3 * x', Scaled(y, y), Scaled(y', y'));
    ScaledMono(x, x', x, x');
    ScaledMono(Scaled(x, x), Scaled(x', x'), x, x');
  }

  /** The checked slope answers at every lower point. */
  lemma SlopeFalls(x: U256, x': U256, y: U256, y': U256)
    requires x <= x' && y <= y' && Slope(x', y').Ok?
    ensures Slope(x, y) == Ok(ExactSlope(x, y))
  {
    hide MulOne, Scaled, CheckedMul;
    MulOneFalls(y, y', y, y');
    CheckedMulIs(3, x);
    CheckedMulIs(3, x');
    MulOneFalls(3 * x, 3 * x', MulOne(y, y).value, MulOne(y', y').value);
    MulOneFalls(x, x', x, x');
    MulOneFalls(MulOne(x, x).value, MulOne(x', x').value, x, x');
    MulOneRefines(y, y);
    MulOneRefines(3 * x, MulOne(y, y).value);
    MulOneRefines(x, x);
    MulOneRefines(MulOne(x, x).value, x);
  }

  // ----- the curve and its slope against real ones -----

  lemma ScaledBounds(a: nat, b: nat)
    ensures Scaled(a, b) * ONE <= a * b < Scaled(a, b) * ONE + ONE
  {
    hide Scaled;
    ScaledIs(a, b);
    FloorBounds(a * b, ONE);
  }

  /** The curve is x^3 y + x y^3 in units of a token, but for its roundings: less than one unit and the
      square of the two reserves together. */
  lemma CurveNear(x: nat, y: nat)
    ensures ExactCurve(x, y) * ONE * ONE * ONE <= x * y * (x * x + y * y)
    ensures x * y * (x * x + y * y) < (ExactCurve(x, y) + 1) * ONE * ONE * ONE + (x + y) * (x + y) * ONE
  {
    hide Scaled;
    var a, b := Scaled(x, y), Scaled(x, x) + Scaled(y, y);
    ScaledBounds(x, y);
    ScaledBounds(x, x);
    ScaledBounds(y, y);
    ScaledBounds(a, b);
    assert (x + y) * (x + y) == x * x + y * y + 2 * (x * y);
    ProductNear(a, b, ExactCurve(x, y), x * y, x * x + y * y);
  }

  lemma ProductNear(a: nat, b: nat, c: nat, p: nat, q: nat)
    requires a * ONE <= p < a * ONE + ONE && b * ONE <= q < b * ONE + 2 * ONE && c * ONE <= a * b < c * ONE + ONE
    ensures c * ONE * ONE * ONE <= p * q < (c + 1) * ONE * ONE * ONE + (q + 2 * p) * ONE
  {
    MulMono(a * ONE, p, b * ONE, q);
    assert a * ONE * (b * ONE) == a * b * ONE * ONE;
    MulLe(p, a * ONE + ONE, q);
    MulLe(q, b * ONE + 2 * ONE, a * ONE);
    MulDistrib(a * ONE, ONE, q);
    assert (b * ONE + 2 * ONE) * (a * ONE) == a * b * ONE * ONE + 2 * a * ONE * ONE;
  }

  /** The slope is x^3 + 3 x y^2 in units of a token, but for its roundings. */
  lemma SlopeIsNear(x: nat, y: nat)
    ensures ExactSlope(x, y) * ONE * ONE <= x * x * x + 3 * (x * y * y)
    ensures x * x * x + 3 * (x * y * y) < (ExactSlope(x, y) + 2) * ONE * ONE + 4 * x * ONE
  {
    hide Scaled, ExactSlope;
    SlopeNear(x, y);
    SlopeBelow(x, y);
    TermAbove(x, y);
    TermAbove(x, x);
  }

  lemma TermAbove(x: nat, y: nat)
    ensures x * Scaled(y, y) * ONE <= x * y * y
  {
    hide Scaled;
    ScaledBounds(y, y);
    MulLe(Scaled(y, y) * ONE, y * y, x);
    MulAssoc(y, y, x);
    MulAssoc(Scaled(y, y), ONE, x);
  }

  /** The checked curve answers exactly when each of its products and its sum fit 256 bits. */
  lemma CurveAnswersIff(x: U256, y: U256)
    ensures Curve(x, y).Ok?
       <==> && x * y <= U256_MAX && x * x <= U256_MAX && y * y <= U256_MAX
            && Scaled(x, x) + Scaled(y, y) <= U256_MAX
            && Scaled(x, y) * (Scaled(x, x) + Scaled(y, y)) <= U256_MAX
  {
    hide MulOne, Scaled;
    MulOneIs(x, y);
    MulOneIs(x, x);
    MulOneIs(y, y);
    if x * y <= U256_MAX && x * x <= U256_MAX && y * y <= U256_MAX && Scaled(x, x) + Scaled(y, y) <= U256_MAX {
      MulOneIs(MulOne(x, y).value, MulOne(x, x).value + MulOne(y, y).value);
    }
  }

  lemma SlopeAnswersIff(x: U256, y: U256)
    ensures Slope(x, y).Ok?
       <==> && 3 * x <= U256_MAX && x * x <= U256_MAX && y * y <= U256_MAX
            && 3 * x * Scaled(y, y) <= U256_MAX && Scaled(x, x) * x <= U256_MAX
            && Scaled(3 * x, Scaled(y, y)) + Scaled(Scaled(x, x), x) <= U256_MAX
  {
    hide MulOne, Scaled, CheckedMul;
    MulOneIs(y, y);
    MulOneIs(x, x);
    CheckedMulIs(3, x);
    if 3 * x <= U256_MAX && x * x <= U256_MAX && y * y <= U256_MAX {
      MulOneIs(3 * x, MulOne(y, y).value);
      MulOneIs(MulOne(x, x).value, x);
    }
  }

  /** The slope is within two roundings of the sum of its terms. */
  lemma SlopeBelow(x: nat, y: nat)
    ensures (ExactSlope(x, y) + 2) * ONE > 3 * (x * Scaled(y, y)) + Scaled(x, x) * x
    ensures ExactSlope(x, y) * ONE <= 3 * (x * Scaled(y, y)) + Scaled(x, x) * x
  {
    hide Scaled;
    ScaledBounds(3 * x, Scaled(y, y));
    ScaledBounds(Scaled(x, x), x);
    MulAssoc(3, x, Scaled(y, y));
  }

  lemma SlopeAtLeast(x: nat, y: nat)
    requires x >= ONE
    ensures Scaled(x, x) >= ONE && ExactSlope(x, y) >= Scaled(x, x) + Scaled(y, y) - 1
  {
    hide Scaled;
    ScaledIs(x, x);
    MulMono(ONE, x, ONE, x);
    FloorGe(x * x, ONE, ONE);
    SlopeBelow(x, y);
    MulLe(ONE, x, Scaled(x, x));
    MulLe(ONE, x, Scaled(y, y));
  }

  // ----- chords against tangents -----

  /** How far a scaled product moves when one factor grows by `n`. */
  lemma ScaledStep(x: nat, y: nat, n: nat)
    ensures 0 <= x * n < (Scaled(x, y + n) - Scaled(x, y) + 1) * ONE
    ensures 0 <= Scaled(x, y + n) - Scaled(x, y) && (Scaled(x, y + n) - Scaled(x, y)) * ONE < x * n + ONE
  {
    hide Scaled;
    ScaledBounds(x, y);
    ScaledBounds(x, y + n);
    ScaledMono(x, x, y, y + n);
    MulDistrib(y, n, x);
    MulMono(0, x, 0, n);
  }

  lemma SquareStep(y: nat, n: nat)
    ensures 0 <= Scaled(y + n, y + n) - Scaled(y, y)
    ensures (Scaled(y + n, y + n) - Scaled(y, y)) * ONE < n * (2 * y + n) + ONE
  {
    hide Scaled;
    ScaledBounds(y, y);
    ScaledBounds(y + n, y + n);
    ScaledMono(y, y + n, y, y + n);
    assert (y + n) * (y + n) == y * y + n * (2 * y + n);
  }

  lemma CurveStep(x: nat, y: nat, n: nat, da: int, db: int)
    requires da == Scaled(x, y + n) - Scaled(x, y) && db == Scaled(y + n, y + n) - Scaled(y, y)
    ensures da >= 0 && db >= 0
    ensures (ExactCurve(x, y + n) - ExactCurve(x, y) - 1) * ONE
            < da * (Scaled(x, x) + Scaled(y + n, y + n)) + Scaled(x, y) * db
  {
    hide Scaled;
    var a, b := Scaled(x, y), Scaled(x, x) + Scaled(y, y);
    ScaledMono(x, x, y, y + n);
    ScaledMono(y, y + n, y, y + n);
    ScaledBounds(a + da, b + db);
    ScaledBounds(a, b);
    MulDistrib(a, da, b + db);
    MulDistrib(b, db, a);
  }

  /** What lies above the lower of two points is at least a third of the tangent at the upper one,
      but for a few units. */
  lemma GapIsWide(x: nat, y: nat, m: nat)
    requires x >= ONE
    ensures m * ExactSlope(x, y + m)
            <= 3 * (ExactCurve(x, y + m) - ExactCurve(x, y)) * ONE + 7 * ExactSlope(x, y + m)
  {
    hide Scaled, ExactSlope;
    var a: int, a': int, b := Scaled(x, y + m), Scaled(x, y), Scaled(x, x) + Scaled(y + m, y + m);
    ScaledStep(x, y, m);
    SquareStep(y, m);
    WideCurve(a, a', b, Scaled(x, x) + Scaled(y, y));
    SlopeAtLeast(x, y + m);
    SlopeUnderCurve(x, y + m);
    WideGap(x, m, a - a', b, ExactCurve(x, y + m) - ExactCurve(x, y), ExactSlope(x, y + m));
  }

  lemma WideCurve(a: nat, a': nat, b: nat, b': nat)
    requires a' <= a && b' <= b
    ensures (Scaled(a, b) - Scaled(a', b')) * ONE > (a - a') * b - ONE
  {
    hide Scaled;
    ScaledBounds(a, b);
    ScaledBounds(a', b');
    MulMono(a', a', b', b);
    MulDistrib(a - a', a', b);
  }

  lemma SlopeUnderCurve(x: nat, y: nat)
    ensures ExactSlope(x, y) * ONE <= 3 * (x * (Scaled(x, x) + Scaled(y, y)))
  {
    hide Scaled, ExactSlope;
    SlopeBelow(x, y);
    MulDistrib(Scaled(x, x), Scaled(y, y), x);
    MulMono(0, x, 0, Scaled(x, x));
  }

  lemma WideGap(x: nat, m: nat, a: nat, b: nat, gap: int, slope: nat)
    requires gap * ONE > a * b - ONE && (a + 1) * ONE > x * m
    requires slope * ONE <= 3 * (x * b) && ONE <= b <= slope + 1
    ensures m * slope <= 3 * gap * ONE + 7 * slope
  {
    MulLe(x * m, a * ONE + ONE, b);
    MulDistrib(a * ONE, ONE, b);
    MulAssoc(a, ONE, b);
    MulAssoc(x, m, b);
    MulLe(slope * ONE, 3 * (x * b), m);
    MulAssoc(3, x * b, m);
    MulAssoc(slope, ONE, m);
  }

  /** Where the curve reaches two whole units, the two reserves add up to at least two tokens. */
  lemma TwoTokens(x: nat, y: nat)
    requires ExactCurve(x, y) >= 2 * ONE
    ensures x + y >= 2 * ONE
  {
    hide Scaled;
    var a, b := Scaled(x, y), Scaled(x, x) + Scaled(y, y);
    ScaledBounds(a, b);
    ScaledBounds(x, y);
    ScaledBounds(x, x);
    ScaledBounds(y, y);
    var p, q := x * y, x * x + y * y;
    MulMono(a * ONE, p, b * ONE, q);
    assert a * ONE * (b * ONE) == a * b * ONE * ONE;
    assert p * q >= 2 * ONE * ONE * ONE * ONE;
    FourthPower(p, q);
    if x + y < 2 * ONE {
      assert q + 2 * p == (x + y) * (x + y);
      MulLt(x + y, 2 * ONE, 2 * ONE);
      MulLe(x + y, 2 * ONE, x + y);
      MulLt(q + 2 * p, 4 * ONE * ONE, 4 * ONE * ONE);
      MulLe(q + 2 * p, 4 * ONE * ONE, q + 2 * p);
    }
  }

  lemma FourthPower(p: nat, q: nat)
    ensures 8 * (p * q) <= (q + 2 * p) * (q + 2 * p)
  {
    assert (q + 2 * p) * (q + 2 * p) == (q - 2 * p) * (q - 2 * p) + 8 * (p * q);
  }

  /** What the squares add to the rise over `n` units, for each of them. */
  function Chord(y: int, n: int): int {
    (y - n) * (2 * y - n)
  }

  /** By how much the tangent at `y` is steeper than that, for each unit of `x`. */
  function Bend(y: int, n: int): int {
    n * (3 * y - n)
  }

  lemma ChordAndBend(y: int, n: int)
    ensures Chord(y, n) + Bend(y, n) == 2 * (y * y)
  {
  }

  /** A bound on what the curve rises by over the `n` units below `y`, scaled three times. */
  function Rise(x: int, y: int, n: int): int {
    n * (x * (x * x + y * y) + x * Chord(y, n)) + ONE * (x * x + y * y + x * (y - n))
  }

  /** A bound below the slope at `y`, scaled twice. */
  function Tangent(x: int, y: int): int {
    x * x * x + 3 * (x * y * y) - 4 * x * ONE - 2 * ONE * ONE
  }

  /** A step down goes at most one unit past the point it aims at: the tangent of a convex curve
      stays above it, and the roundings lose less than one unit of `y`. */
  lemma GapIsNarrow(x: nat, y: nat, n: nat)
    requires x >= ONE && x + y >= 2 * ONE && 0 < n <= y
    ensures (ExactCurve(x, y) - ExactCurve(x, y - n) - 1) * ONE < (n + 1) * ExactSlope(x, y)
  {
    hide Scaled, ExactSlope, ExactCurve, Rise, Tangent;
    RiseBounded(x, y, n);
    SlopeNear(x, y);
    MulLt(0, n + 1, 1);
    TangentOverRise(x, y, n);
    MulLe(Tangent(x, y), ExactSlope(x, y) * ONE * ONE, n + 1);
    assert ExactSlope(x, y) * ONE * ONE * (n + 1) == (n + 1) * ExactSlope(x, y) * ONE * ONE;
  }

  lemma RiseBounded(x: nat, y: nat, n: nat)
    requires n <= y
    ensures (ExactCurve(x, y) - ExactCurve(x, y - n) - 1) * ONE * ONE * ONE < Rise(x, y, n)
  {
    hide Scaled, ExactCurve, Rise;
    var da: int, db: int := Scaled(x, y) - Scaled(x, y - n), Scaled(y, y) - Scaled(y - n, y - n);
    CurveStep(x, y - n, n, da, db);
    ScaledStep(x, y - n, n);
    SquareStep(y - n, n);
    ScaledBounds(x, y - n);
    SquaresBelow(x, y);
    NarrowRise(da, Scaled(x, x) + Scaled(y, y), Scaled(x, y - n), db, x * n + ONE, x * x + y * y, x * (y - n),
               n * (2 * y - n) + ONE);
    RiseIs(x, y, n);
  }

  lemma RiseIs(x: int, y: int, n: int)
    ensures Rise(x, y, n) == (x * n + ONE) * (x * x + y * y) + x * (y - n) * (n * (2 * y - n) + ONE)
  {
    hide Chord;
    var q, r := x * x + y * y, x * (y - n);
    MulDistrib(x * n, ONE, q);
    MulAssoc(x, n, q);
    ChordIs(x, y, n);
    MulDistrib(x * q, x * Chord(y, n), n);
  }

  lemma ChordIs(x: int, y: int, n: int)
    ensures x * (y - n) * (n * (2 * y - n) + ONE) == x * Chord(y, n) * n + ONE * (x * (y - n))
  {
    MulAssoc(x, y - n, 2 * y - n);
    MulAssoc(x * (y - n), n, 2 * y - n);
    MulDistrib(n * (2 * y - n), ONE, x * (y - n));
  }

  lemma SquaresBelow(x: nat, y: nat)
    ensures (Scaled(x, x) + Scaled(y, y)) * ONE <= x * x + y * y
  {
    ScaledBounds(x, x);
    ScaledBounds(y, y);
  }

  /** What a product rises by, from bounds on its factors. */
  lemma NarrowRise(da: nat, b: nat, a: nat, db: nat, p: nat, q: nat, r: nat, t: nat)
    requires da * ONE <= p && b * ONE <= q && a * ONE <= r && db * ONE <= t
    ensures (da * b + a * db) * ONE * ONE <= p * q + r * t
  {
    MulMono(da * ONE, p, b * ONE, q);
    MulMono(a * ONE, r, db * ONE, t);
    assert da * ONE * (b * ONE) == da * b * ONE * ONE;
    assert a * ONE * (db * ONE) == a * db * ONE * ONE;
  }

  lemma SlopeNear(x: nat, y: nat)
    ensures Tangent(x, y) < ExactSlope(x, y) * ONE * ONE
  {
    hide Scaled, ExactSlope;
    SlopeBelow(x, y);
    TermBelow(x, y);
    TermBelow(x, x);
  }

  lemma TermBelow(x: nat, y: nat)
    ensures x * y * y <= x * Scaled(y, y) * ONE + x * ONE
  {
    hide Scaled;
    ScaledBounds(y, y);
    MulLe(y * y, Scaled(y, y) * ONE + ONE, x);
    MulAssoc(y, y, x);
    MulDistrib(Scaled(y, y) * ONE, ONE, x);
    MulAssoc(Scaled(y, y), ONE, x);
  }

  /** What is left of one tangent when the roundings of a rise are paid for. */
  function Plane(x: int, y: int): int {
    x * x * x + 3 * (x * y * y) - ONE * (x * x + y * y + x * y)
  }

  lemma TangentOverRise(x: nat, y: nat, n: nat)
    requires x >= ONE && x + y >= 2 * ONE && 0 < n <= y
    ensures Rise(x, y, n) <= Tangent(x, y) * (n + 1)
  {
    hide Plane, Rise, Tangent, Bend;
    TangentLessRise(x, y, n);
    BendAbove(x, y, n);
    PlaneAbove(x, y);
    MulLe(ONE, x, n);
  }

  lemma TangentLessRise(x: int, y: int, n: int)
    ensures Tangent(x, y) * (n + 1) - Rise(x, y, n)
         == x * Bend(y, n) * n + Plane(x, y) - 3 * ONE * (x * n) - 4 * ONE * x - 2 * ONE * ONE * n - 2 * ONE * ONE
  {
    hide Plane, Rise, Tangent, Chord, Bend;
    var cubic, chord := x * x * x + 3 * (x * y * y), x * (x * x + y * y) + x * Chord(y, n);
    CubicIs(x, y, n);
    MulDistrib(chord, x * Bend(y, n), n);
    PlaneIs(x, y, n);
    TermsAre(x, y, n, cubic, chord);
  }

  lemma TermsAre(x: int, y: int, n: int, cubic: int, chord: int)
    requires cubic == x * x * x + 3 * (x * y * y) && chord == x * (x * x + y * y) + x * Chord(y, n)
    ensures Tangent(x, y) == cubic - 4 * x * ONE - 2 * ONE * ONE
    ensures Rise(x, y, n) == chord * n + ONE * (x * x + y * y + x * (y - n))
  {
    hide Chord;
  }

  /** The curve is convex: its tangent lies above its chord. */
  lemma CubicIs(x: int, y: int, n: int)
    ensures x * x * x + 3 * (x * y * y) == x * (x * x + y * y) + x * Chord(y, n) + x * Bend(y, n)
  {
    hide Chord, Bend;
    ChordAndBend(y, n);
    MulDistrib(Chord(y, n), Bend(y, n), x);
    MulDistrib(x * x, y * y, x);
    MulAssoc(x, y, y);
  }

  lemma PlaneIs(x: int, y: int, n: int)
    ensures Plane(x, y) == x * x * x + 3 * (x * y * y) - ONE * (x * x + y * y + x * (y - n)) - ONE * (x * n)
  {
    MulDistrib(y - n, n, x);
  }

  /** Wherever the two reserves add up to two tokens, that is at least two thirds of `x`. */
  lemma PlaneAbove(x: nat, y: nat)
    requires x >= ONE && x + y >= 2 * ONE
    ensures 3 * Plane(x, y) >= 2 * ONE * ONE * x
  {
    hide Plane;
    PlaneFactor(x, y);
    var h := x * x - x * ONE + 2 * (y * y) - y * ONE;
    TwoSquares(x, y);
    MulLe(2 * ONE * ONE, 3 * h, x);
  }

  lemma PlaneFactor(x: nat, y: nat)
    requires x >= ONE
    ensures Plane(x, y) >= (x * x - x * ONE + 2 * (y * y) - y * ONE) * x
  {
    assert Plane(x, y) == (x * x - x * ONE + 2 * (y * y) - y * ONE) * x + (x - ONE) * (y * y);
    MulMono(0, x - ONE, 0, y * y);
  }

  lemma SquareOf(a: int, b: int)
    ensures a * a - 2 * (a * b) + b * b >= 0
  {
    assert (a - b) * (a - b) == a * a - 2 * (a * b) + b * b;
  }

  lemma TwoSquares(x: int, y: int)
    requires x + y >= 2 * ONE
    ensures 3 * (x * x - x * ONE + 2 * (y * y) - y * ONE) >= 2 * ONE * ONE
  {
    SquareOf(3 * x, 4 * ONE);
    SquareOf(3 * y, 2 * ONE);
    assert 3 * x * (3 * x) == 9 * (x * x) && 3 * y * (3 * y) == 9 * (y * y);
  }

  lemma BendAbove(x: nat, y: nat, n: nat)
    requires 0 < n <= y
    ensures 3 * (x * Bend(y, n) * n) >= 15 * ONE * (x * n) + 18 * ONE * x - 2 * ONE * ONE * x
  {
    hide Bend;
    MulAssoc(x, Bend(y, n), n);
    CubeBelow(y, n);
    CubeOverLine(n);
    MulLe(15 * ONE * n + 18 * ONE - 2 * ONE * ONE, 3 * (Bend(y, n) * n), x);
    MulAssoc(3, Bend(y, n) * n, x);
  }

  lemma CubeBelow(y: nat, n: nat)
    requires n <= y
    ensures Bend(y, n) * n >= 2 * (n * n * n)
  {
    MulAssoc(n, 3 * y - n, n);
    MulLe(2 * n, 3 * y - n, n * n);
    MulAssoc(2, n, n * n);
    MulAssoc(n, n, n);
  }

  lemma CubeOverLine(n: nat)
    ensures 15 * ONE * n + 18 * ONE <= 2 * ONE * ONE + 6 * (n * n * n)
  {
    MulMono(0, n * n, 0, n);
    if n >= TENTH {
      MulMono(TENTH, n, TENTH, n);
      MulLe(TENTH * TENTH, n * n, n);
    }
  }

  // ----- one unit of the curve against two of the tangent -----

  /** Between two neighbours the curve rises by less than twice the slope, roundings included. */
  lemma UnitRise(x: nat, y: nat)
    requires x >= ONE && x + y + 1 >= 2 * ONE
    ensures (ExactCurve(x, y + 1) - ExactCurve(x, y)) * ONE < 2 * ExactSlope(x, y)
  {
    hide ExactCurve, ExactSlope;
    if y < ONE {
      UnitRiseLow(x, y);
    } else if x + y < 2 * ONE + 4 {
      UnitRiseNearOne(x - ONE, y - ONE);
    } else {
      UnitRiseHigh(x, y);
    }
  }

  /** A bound on what the curve rises by from below one token. */
  function LowRise(x: int, y: int): int {
    x * (x * x + (y + 1) * (y + 1)) + ONE * (x * x + (y + 1) * (y + 1)) + 2 * ONE * (x * y) + ONE * ONE * ONE
  }

  lemma UnitRiseLow(x: nat, y: nat)
    requires x >= ONE && y < ONE && x + y + 1 >= 2 * ONE
    ensures (ExactCurve(x, y + 1) - ExactCurve(x, y)) * ONE < 2 * ExactSlope(x, y)
  {
    hide ExactCurve, ExactSlope, LowBend;
    LowRiseBounded(x, y);
    SlopeNear(x, y);
    LowSquare(x, y);
    LowBendIs(x, y);
    LowBendAbove(x, y);
    MulLe(ONE, x, y * y);
    MulLe(y, ONE, x);
    MulAssoc(x, y, y);
  }

  lemma LowRiseBounded(x: nat, y: nat)
    requires y < ONE
    ensures (ExactCurve(x, y + 1) - ExactCurve(x, y)) * ONE * ONE * ONE < LowRise(x, y)
  {
    hide Scaled, ExactCurve, LowRise;
    var da: int, db: int := Scaled(x, y + 1) - Scaled(x, y), Scaled(y + 1, y + 1) - Scaled(y, y);
    CurveStep(x, y, 1, da, db);
    ScaledStep(x, y, 1);
    SquareStep(y, 1);
    ScaledBounds(x, y);
    SquaresBelow(x, y + 1);
    MulLe(db, 2, Scaled(x, y));
    NarrowRise(da, Scaled(x, x) + Scaled(y + 1, y + 1), Scaled(x, y), 2, x + ONE, x * x + (y + 1) * (y + 1), x * y,
               2 * ONE);
    LowRiseIs(x, y);
  }

  lemma LowRiseIs(x: int, y: int)
    ensures LowRise(x, y) == (x + ONE) * (x * x + (y + 1) * (y + 1)) + x * y * (2 * ONE) + ONE * ONE * ONE
  {
    MulDistrib(x, ONE, x * x + (y + 1) * (y + 1));
  }

  /** What the roundings leave of twice the tangent over the rise, for each unit of `x`. */
  function LowBend(x: int, y: int): int {
    x * x - x * ONE + 4 * (y * y) - 2 * y * ONE - 16 * ONE
  }

  lemma LowSquare(x: int, y: int)
    ensures x * (x * x + (y + 1) * (y + 1)) == x * x * x + x * y * y + 2 * (x * y) + x
    ensures (y + 1) * (y + 1) == y * y + 2 * y + 1
  {
    assert (y + 1) * (y + 1) == y * y + 2 * y + 1;
    MulDistrib(x * x, (y + 1) * (y + 1), x);
    MulDistrib(y * y, 2 * y + 1, x);
    MulAssoc(x, y, y);
  }

  lemma LowBendIs(x: int, y: int)
    ensures x * LowBend(x, y) == x * x * x - ONE * (x * x) + 4 * (x * y * y) - 2 * ONE * (x * y) - 16 * ONE * x
  {
    MulAssoc(x, y, y);
  }

  lemma LowBendAbove(x: nat, y: nat)
    requires x >= ONE && y < ONE && x + y + 1 >= 2 * ONE
    ensures x * LowBend(x, y) >= ONE * ONE * ONE
  {
    hide LowBend;
    LowBendSquares(x, y);
    if x >= 17 * TENTH {
      MulMono(17 * TENTH, x, 70 * TENTH * TENTH - 184 * TENTH, LowBend(x, y));
    } else {
      MulLe(163 * TENTH * TENTH - 6 * TENTH * x - 184 * TENTH, LowBend(x, y), x);
      BetweenRoots(x);
    }
  }

  lemma BetweenRoots(x: nat)
    requires 10 * TENTH <= x <= 17 * TENTH
    ensures (163 * TENTH * TENTH - 6 * TENTH * x - 184 * TENTH) * x >= ONE * ONE * ONE
  {
    MulMono(0, x - 10 * TENTH, 0, 17 * TENTH - x);
    assert (x - 10 * TENTH) * (17 * TENTH - x) == 27 * TENTH * x - 170 * TENTH * TENTH - x * x;
  }

  lemma LowBendSquares(x: nat, y: nat)
    requires x + y + 1 >= 2 * ONE
    ensures LowBend(x, y) >= 70 * TENTH * TENTH - 184 * TENTH
    ensures LowBend(x, y) >= 163 * TENTH * TENTH - 6 * TENTH * x - 184 * TENTH
  {
    SquareOf(2 * y, 11 * TENTH);
    SquareOf(x, 17 * TENTH);
    SquareOf(x, 14 * TENTH);
    assert 2 * y * (2 * y) == 4 * (y * y);
  }

  lemma UnitRiseHigh(x: nat, y: nat)
    requires x >= ONE && y >= ONE && x + y >= 2 * ONE + 4
    ensures (ExactCurve(x, y + 1) - ExactCurve(x, y)) * ONE < 2 * ExactSlope(x, y)
  {
    hide Scaled, ExactCurve, ExactSlope;
    var da: int, db: int := Scaled(x, y + 1) - Scaled(x, y), Scaled(y + 1, y + 1) - Scaled(y, y);
    CurveStep(x, y, 1, da, db);
    ScaledStep(x, y, 1);
    SquareStep(y, 1);
    ScaledBounds(x, y);
    ScaledBounds(y, y);
    HighRise(da, Scaled(x, x) + Scaled(y + 1, y + 1), Scaled(x, y), db, x, y, Scaled(y, y));
    SlopeBelow(x, y);
    SquareAbove(x);
    SquareAbove(y);
    HighSlack(x, y, Scaled(x, x), Scaled(y, y), db);
  }

  lemma SquareAbove(x: nat)
    requires x >= ONE
    ensures Scaled(x, x) >= 2 * x - ONE
  {
    hide Scaled;
    ScaledIs(x, x);
    SquareOf(x, ONE);
    FloorGe(x * x, ONE, 2 * x - ONE);
  }

  lemma HighRise(da: nat, b: nat, a: nat, db: nat, x: nat, y: nat, y2: nat)
    requires da * ONE < x + ONE && db * ONE <= 2 * y + ONE && a * ONE <= x * y && y * y <= y2 * ONE + ONE
    ensures (da * b + a * db) * ONE <= (x + ONE - 1) * b + 2 * (x * (y2 + 1)) + x * y
  {
    MulLe(da * ONE, x + ONE - 1, b);
    MulLe(db * ONE, 2 * y + ONE, a);
    assert da * ONE * b == da * b * ONE;
    assert db * ONE * a == a * db * ONE;
    assert (2 * y + ONE) * a == 2 * (a * y) + a * ONE;
    HighFactor(a, x, y, y2);
  }

  lemma HighFactor(a: nat, x: nat, y: nat, y2: nat)
    requires a * ONE <= x * y && y * y <= y2 * ONE + ONE
    ensures a * y <= x * (y2 + 1)
  {
    MulLe(a * ONE, x * y, y);
    MulLe(y * y, y2 * ONE + ONE, x);
    assert a * ONE * y == a * y * ONE;
    assert x * y * y == y * y * x;
    assert (y2 * ONE + ONE) * x == x * (y2 + 1) * ONE;
  }

  lemma HighSlack(x: nat, y: nat, x2: nat, y2: nat, db: nat)
    requires x >= ONE && y >= ONE && x + y >= 2 * ONE + 4
    requires x2 >= 2 * x - ONE && y2 >= 2 * y - ONE && db * ONE <= 2 * y + ONE
    ensures (x + ONE - 1) * (x2 + y2 + db) + 2 * (x * (y2 + 1)) + x * y + ONE * ONE
            <= 6 * (x * y2) + 2 * (x2 * x) - 4 * ONE
  {
    MulLe(2 * x - ONE, x2, x - ONE + 1);
    MulLe(2 * y - ONE, y2, 3 * x - ONE + 1);
    MulLe(db * ONE, 2 * y + ONE, x + ONE);
    assert (x + ONE) * db * ONE == db * ONE * (x + ONE);
    HighPolynomial(x - ONE, y - ONE);
    HighExpanded(x, y, x2, y2, db);
  }

  lemma HighExpanded(x: int, y: int, x2: int, y2: int, db: int)
    ensures 6 * (x * y2) + 2 * (x2 * x) - (x + ONE - 1) * (x2 + y2 + db) - 2 * (x * (y2 + 1))
         == x2 * (x - ONE + 1) + y2 * (3 * x - ONE + 1) - (x + ONE) * db + db - 2 * x
  {
  }

  lemma HighPolynomial(i: nat, j: nat)
    requires i + j >= 4
    ensures ((ONE + 2 * i) * (i + 1) + (ONE + 2 * j) * (2 * ONE + 3 * i + 1) - 2 * (ONE + i)
             - (ONE + i) * (ONE + j) - ONE * ONE - 4 * ONE) * ONE >= (3 * ONE + 2 * j) * (2 * ONE + i)
  {
    MulMono(0, i, 0, j);
    MulMono(0, i, 0, i);
  }

  lemma UnitRiseNearOne(i: nat, j: nat)
    requires i + j <= 3
    ensures (ExactCurve(ONE + i, ONE + j + 1) - ExactCurve(ONE + i, ONE + j)) * ONE
            < 2 * ExactSlope(ONE + i, ONE + j)
  {
    hide Scaled, ExactCurve, ExactSlope;
    NearOne(i, j);
    NearOne(i, j + 1);
    NearOne(i, i);
    NearOne(j, j);
    NearOne(j + 1, j + 1);
    CurveStep(ONE + i, ONE + j, 1, 1, 2);
    SlopeAtOne(ONE + i, ONE + j);
  }

  lemma SlopeAtOne(x: nat, y: nat)
    requires x >= ONE && y >= ONE
    ensures ExactSlope(x, y) >= 4 * ONE
  {
    hide Scaled;
    ScaledIs(ONE, ONE);
    ScaledIs(3 * ONE, ONE);
    ScaledMono(ONE, x, ONE, x);
    ScaledMono(ONE, y, ONE, y);
    ScaledMono(3 * ONE, 3 * x, ONE, Scaled(y, y));
    ScaledMono(ONE, Scaled(x, x), ONE, x);
  }

  lemma NearOne(i: nat, j: nat)
    requires i <= 4 && j <= 4
    ensures Scaled(ONE + i, ONE + j) == ONE + i + j
  {
    hide Scaled;
    ScaledIs(ONE + i, ONE + j);
    MulMono(0, i, 0, j);
    MulMono(i, 4, j, 4);
    assert (ONE + i) * (ONE + j) == (ONE + i + j) * ONE + i * j;
    FloorGe((ONE + i) * (ONE + j), ONE, ONE + i + j);
    FloorGe((ONE + i) * (ONE + j), ONE, ONE + i + j + 1);
  }
}

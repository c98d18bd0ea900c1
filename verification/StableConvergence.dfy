/** The stable quoter's Newton iteration settles (crates/dex/src/aerodrome.rs, `get_y`): from one
    whole token of the input reserve on, its 255 turns are always enough. */
module StableConvergence {
  import opened Arith
  import opened Wrappers
  import opened U256Math
  import opened AerodromeStable
  import opened StableCurve

  // ----- one turn of the iteration -----

  /** An iteration toward a curve of at least two units, from a point above it where nothing overflows. */
  ghost predicate Starts(x0: U256, xy: U256, top: U256) {
    && x0 >= ONE && 2 * ONE <= xy <= ExactCurve(x0, top)
    && Curve(x0, top).Ok? && Slope(x0, top).Ok?
  }

  /** The first point where the curve reaches `xy`. */
  ghost predicate IsRoot(x0: nat, xy: nat, root: nat) {
    root > 0 && ExactCurve(x0, root - 1) < xy <= ExactCurve(x0, root)
  }

  lemma {:induction false} RootExists(x0: nat, xy: nat, y: nat) returns (root: nat)
    requires 0 < xy <= ExactCurve(x0, y)
    ensures root <= y && IsRoot(x0, xy, root)
    decreases y
  {
    hide Scaled, ExactCurve;
    CurveAtZero(x0);
    if ExactCurve(x0, y - 1) < xy {
      root := y;
    } else {
      root := RootExists(x0, xy, y - 1);
    }
  }

  lemma CurveAtZero(x: nat)
    ensures ExactCurve(x, 0) == 0
  {
    hide Scaled;
    ScaledIs(x, 0);
    ScaledIs(0, Scaled(x, x) + Scaled(0, 0));
  }

  lemma DeltaBounds(gap: U256, slope: U256)
    requires slope > 0 && gap * ONE <= U256_MAX
    ensures NewtonDelta(gap, slope).Ok?
    ensures NewtonDelta(gap, slope).value * slope <= gap * ONE < (NewtonDelta(gap, slope).value + 1) * slope
  {
    hide Quotient, CheckedMul;
    CheckedMulIs(gap, ONE);
    QuotientBounds(gap * ONE, slope);
    MulDistrib(NewtonDelta(gap, slope).value, 1, slope);
  }

  /** Everything up to the start fits, and the slope there is not zero. */
  lemma FitsBelow(x0: U256, xy: U256, top: U256, y: U256)
    requires Starts(x0, xy, top) && y <= top
    ensures Curve(x0, y) == Ok(ExactCurve(x0, y)) && Slope(x0, y) == Ok(ExactSlope(x0, y)) && ExactSlope(x0, y) > 0
    ensures ExactCurve(x0, y) * ONE <= U256_MAX && xy * ONE <= U256_MAX
  {
    hide Curve, Slope, ExactCurve, ExactSlope, Scaled;
    CurveFalls(x0, x0, y, top);
    CurveFalls(x0, x0, top, top);
    SlopeFalls(x0, x0, y, top);
    SlopeAtLeast(x0, y);
  }

  /** A turn at or above the root, by how far it steps down. */
  lemma TurnAbove(x0: U256, xy: U256, top: U256, y: U256) returns (step: nat)
    requires Starts(x0, xy, top) && 0 < y <= top && xy <= ExactCurve(x0, y)
    ensures step * ExactSlope(x0, y) <= (ExactCurve(x0, y) - xy) * ONE < (step + 1) * ExactSlope(x0, y)
    ensures NewtonTurn(x0, xy, y) == if step > y then Failed
                                     else if step > 0 then Next(y - step)
                                     else if ExactCurve(x0, y) == xy || ExactCurve(x0, y - 1) < xy then Done(y)
                                     else Next(y - 1)
  {
    hide Curve, Slope, ExactCurve, ExactSlope, NewtonDelta;
    FitsBelow(x0, xy, top, y);
    FitsBelow(x0, xy, top, y - 1);
    DeltaBounds(ExactCurve(x0, y) - xy, ExactSlope(x0, y));
    step := NewtonDelta(ExactCurve(x0, y) - xy, ExactSlope(x0, y)).value;
  }

  /** Above the root a turn goes down, at most one unit past the root, and leaves at most two thirds
      of the way, but for a few units. */
  lemma StepDown(x0: U256, xy: U256, top: U256, root: U256, y: U256)
    requires Starts(x0, xy, top) && IsRoot(x0, xy, root) && root < y <= top
    ensures var turn := NewtonTurn(x0, xy, y);
      turn.Next? && root - 1 <= turn.y < y && 3 * (turn.y - root) <= 2 * (y - root) + 9
  {
    hide Curve, Slope, ExactCurve, ExactSlope, NewtonTurn;
    AboveRoot(x0, xy, root, y);
    var step := TurnAbove(x0, xy, top, y);
    StepIsBounded(x0, xy, root, y, step);
  }

  lemma AboveRoot(x0: nat, xy: nat, root: nat, y: nat)
    requires x0 >= ONE && IsRoot(x0, xy, root) && root < y
    ensures xy <= ExactCurve(x0, y - 1) < ExactCurve(x0, y)
  {
    hide ExactCurve;
    CurveMonotone(x0, x0, root, y - 1);
    CurveStrict(x0, y - 1);
  }

  lemma StepIsBounded(x0: nat, xy: nat, root: nat, y: nat, step: nat)
    requires x0 >= ONE && xy >= 2 * ONE && IsRoot(x0, xy, root) && root <= y
    requires step * ExactSlope(x0, y) <= (ExactCurve(x0, y) - xy) * ONE < (step + 1) * ExactSlope(x0, y)
    ensures step <= y - root + 1 && y - root <= 3 * step + 9
  {
    hide ExactCurve, ExactSlope;
    SlopeAtLeast(x0, y);
    StepIsShort(x0, xy, root, y, step);
    StepIsLong(x0, xy, root, y, step);
  }

  lemma StepIsShort(x0: nat, xy: nat, root: nat, y: nat, step: nat)
    requires x0 >= ONE && xy >= 2 * ONE && IsRoot(x0, xy, root) && root <= y && ExactSlope(x0, y) > 0
    requires step * ExactSlope(x0, y) <= (ExactCurve(x0, y) - xy) * ONE
    ensures step <= y - root + 1
  {
    hide ExactCurve, ExactSlope;
    TwoTokens(x0, root);
    GapIsNarrow(x0, y, y - root + 1);
    MulCancelLt(step, y - root + 2, ExactSlope(x0, y));
  }

  lemma StepIsLong(x0: nat, xy: nat, root: nat, y: nat, step: nat)
    requires x0 >= ONE && IsRoot(x0, xy, root) && root <= y && ExactSlope(x0, y) > 0
    requires (ExactCurve(x0, y) - xy) * ONE < (step + 1) * ExactSlope(x0, y)
    ensures y - root <= 3 * step + 9
  {
    hide ExactCurve, ExactSlope;
    GapIsWide(x0, root, y - root);
    MulDistrib(3 * (step + 1), 7, ExactSlope(x0, y));
    MulAssoc(3, step + 1, ExactSlope(x0, y));
    MulCancelLt(y - root, 3 * (step + 1) + 7, ExactSlope(x0, y));
  }

  /** At the root a turn ends the iteration or goes one unit down. */
  lemma AtRoot(x0: U256, xy: U256, top: U256, root: U256)
    requires Starts(x0, xy, top) && IsRoot(x0, xy, root) && root <= top
    ensures NewtonTurn(x0, xy, root) in {Done(root), Next(root - 1)}
    ensures (ExactCurve(x0, root) - xy) * ONE < ExactSlope(x0, root) ==> NewtonTurn(x0, xy, root) == Done(root)
  {
    hide Curve, Slope, ExactCurve, ExactSlope, NewtonTurn;
    var step := TurnAbove(x0, xy, top, root);
    StepIsBounded(x0, xy, root, root, step);
  }

  /** One unit below the root a turn ends the iteration, or goes back up and the next one ends it. */
  lemma BelowRoot(x0: U256, xy: U256, top: U256, root: U256)
    requires Starts(x0, xy, top) && IsRoot(x0, xy, root) && root <= top
    ensures NewtonTurn(x0, xy, root - 1) in {Done(root), Next(root)}
    ensures NewtonTurn(x0, xy, root - 1) == Next(root) ==> NewtonTurn(x0, xy, root) == Done(root)
  {
    hide Curve, Slope, ExactCurve, ExactSlope, NewtonDelta;
    FitsBelow(x0, xy, top, root - 1);
    FitsBelow(x0, xy, top, root);
    var gap, slope := xy - ExactCurve(x0, root - 1), ExactSlope(x0, root - 1);
    DeltaBounds(gap, slope);
    TwoTokens(x0, root);
    UnitRise(x0, root - 1);
    SlopeRises(x0, x0, root - 1, root);
    var step := NewtonDelta(gap, slope).value;
    MulCancelLt(step, 2, slope);
    if step > 0 {
      MulLe(1, step, slope);
      AtRoot(x0, xy, top, root);
    } else if ExactCurve(x0, root) == xy {
      ZeroDelta(x0, xy, root);
    }
  }

  // ----- the whole iteration -----

  /** From a few units above the root, or one below, every turn comes closer. */
  lemma {:induction false} NearAnswers(x0: U256, xy: U256, top: U256, root: U256, y: U256, turns: nat)
    requires Starts(x0, xy, top) && IsRoot(x0, xy, root) && root - 1 <= y <= top && root <= top
    requires turns >= y - root + 3
    ensures NewtonFrom(x0, xy, y, turns).Ok?
    decreases turns
  {
    hide Starts, IsRoot, NewtonTurn, ExactCurve;
    if y < root {
      BelowRoot(x0, xy, top, root);
      assert turns >= 2;
      assert NewtonTurn(x0, xy, root) == Done(root) ==> NewtonFrom(x0, xy, root, turns - 1).Ok?;
    } else {
      if y == root {
        AtRoot(x0, xy, top, root);
      } else {
        StepDown(x0, xy, top, root, y);
      }
      var turn := NewtonTurn(x0, xy, y);
      if turn.Next? {
        NearAnswers(x0, xy, top, root, turn.y, turns - 1);
      }
    }
  }

  /** How far above the root an iteration may start to be within a few units after `turns` turns. */
  function Reach(turns: nat): nat {
    if turns == 0 then 0 else Reach(turns - 1) * 3 / 2 + 1
  }

  lemma {:induction false} FarAnswers(x0: U256, xy: U256, top: U256, root: U256, y: U256, turns: nat)
    requires Starts(x0, xy, top) && IsRoot(x0, xy, root) && root <= y <= top && y - root <= Reach(turns) + 9
    ensures NewtonFrom(x0, xy, y, turns + 12).Ok?
    decreases turns
  {
    hide Starts, IsRoot, NewtonTurn, ExactCurve;
    if y - root <= 9 {
      NearAnswers(x0, xy, top, root, y, turns + 12);
    } else {
      StepDown(x0, xy, top, root, y);
      var moved := NewtonTurn(x0, xy, y).y;
      if moved < root {
        NearAnswers(x0, xy, top, root, moved, turns + 11);
      } else {
        FarAnswers(x0, xy, top, root, moved, turns - 1);
      }
    }
  }

  lemma {:induction false} ReachGrows(n: nat)
    ensures Reach(6 * n + 1) >= Pow10(n)
  {
    if n > 0 {
      ReachGrows(n - 1);
      SixTurns(6 * n - 5);
    }
  }

  lemma SixTurns(turns: nat)
    ensures Reach(turns + 6) >= 10 * Reach(turns)
  {
    var r := Reach(turns);
    assert Reach(turns + 1) >= r + r / 2;
    assert 2 * Reach(turns + 2) >= 3 * Reach(turns + 1);
    assert 2 * Reach(turns + 3) >= 3 * Reach(turns + 2);
    assert 2 * Reach(turns + 4) >= 3 * Reach(turns + 3);
    assert 2 * Reach(turns + 5) >= 3 * Reach(turns + 4);
    assert 2 * Reach(turns + 6) >= 3 * Reach(turns + 5);
  }

  /** A curve that fits 256 bits has a reserve of less than 10^32. */
  lemma StartIsBounded(x: U256, y: U256)
    requires x >= ONE && Curve(x, y).Ok?
    ensures y < Pow10(32)
  {
    hide MulOne, Scaled, Pow10;
    var a, b := MulOne(x, y).value, MulOne(x, x).value + MulOne(y, y).value;
    MulOneIs(x, y);
    MulOneIs(y, y);
    MulOneIs(a, b);
    Pow10At32();
    if y >= Pow10(32) {
      ScaledIs(x, y);
      ScaledIs(y, y);
      MulMono(ONE, x, Pow10(32), y);
      MulMono(Pow10(32), y, Pow10(32), y);
      FloorGe(x * y, ONE, Pow10(32));
      FloorGe(y * y, ONE, ONE * 10_000_000_000_000_000_000_000_000_000);
      MulMono(Pow10(32), a, ONE * 10_000_000_000_000_000_000_000_000_000, b);
    }
  }

  lemma Pow10At32()
    ensures Pow10(32) == 100_000_000_000_000_000_000_000_000_000_000
  {
    Pow10At18();
    assert Pow10(20) == 100 * ONE;
    assert Pow10(22) == 10_000 * ONE;
    assert Pow10(24) == 1_000_000 * ONE;
    assert Pow10(26) == 100_000_000 * ONE;
    assert Pow10(28) == 10_000_000_000 * ONE;
    assert Pow10(30) == 1_000_000_000_000 * ONE;
  }

  /** The iteration answers exactly when curve and slope fit where it starts: it never runs out of
      turns. The input reserve must be at least one token, and the curve at least two units. */
  lemma NewtonAnswersIff(x0: U256, xy: U256, start: U256)
    requires x0 >= ONE && 2 * ONE <= xy <= ExactCurve(x0, start)
    ensures NewtonFrom(x0, xy, start, MAX_TURNS).Ok? <==> Curve(x0, start).Ok? && Slope(x0, start).Ok?
  {
    hide Curve, Slope, NewtonFrom, ExactCurve, IsRoot, Pow10, Reach;
    if NewtonFrom(x0, xy, start, MAX_TURNS).Ok? {
      StartAnswers(x0, xy, start, MAX_TURNS);
    } else if Curve(x0, start).Ok? && Slope(x0, start).Ok? {
      var root := RootExists(x0, xy, start);
      StartIsBounded(x0, start);
      ReachGrows(32);
      ReachMono(193, MAX_TURNS - 12);
      FarAnswers(x0, xy, start, root, start, MAX_TURNS - 12);
    }
  }

  lemma {:induction false} ReachMono(few: nat, many: nat)
    requires few <= many
    ensures Reach(few) <= Reach(many)
    decreases many
  {
    if few < many {
      ReachMono(few, many - 1);
    }
  }
}

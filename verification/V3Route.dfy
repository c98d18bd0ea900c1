/** What a tick quote is, leg by leg (crates/dex/src/uniswap_v3.rs:150-288): a chain of swap steps, each
    toward the next initialised tick with what the steps before it left, the liquidity changing by the
    tick's net at every crossing. Nothing here mentions the walk's own functions. */
module V3Route {
  import opened Wrappers
  import opened U256Math
  import opened TickMath
  import opened SwapMath
  import opened SwapStep
  import opened SwapEngine
  import opened V3Walk
  import opened V3Quote

  /** One leg: the liquidity it meets, where it starts and aims, what it is offered, what it does. */
  datatype Leg = Leg(liquidity: nat, start: nat, target: nat, offered: nat, step: Step)

  function Out(route: seq<Leg>): nat {
    if route == [] then 0 else route[0].step.amountOut + Out(route[1..])
  }

  function LeftOf(leg: Leg): int {
    leg.offered - leg.step.amountIn - leg.step.feeAmount
  }

  /** The liquidity beyond a tick, removed down to zero at most. Negating the least 128-bit number
      gives that number again. */
  function Beyond(zfo: bool, liquidity: int, net: int): int {
    var after := if zfo && net != -0x8000_0000_0000_0000_0000_0000_0000_0000 then liquidity - net else liquidity + net;
    if after < 0 then 0 else after
  }

  /** The i-th leg aims at the i-th tick, or at the end of the price range beyond the last one. With
      liquidity it is a swap step; without, it jumps to the tick for nothing. */
  ghost predicate LegAt(zfo: bool, fee: nat, ticks: seq<TickState>, i: nat, leg: Leg)
    requires i <= |ticks|
  {
    && leg.offered > 0 && leg.start > 0
    && (i < |ticks| ==> InRange(ticks[i].tick) && leg.target == SqrtPrice(ticks[i].tick))
    && (i == |ticks| ==> leg.target == (if zfo then 1 else U256_MAX) && leg.liquidity > 0)
    && if leg.liquidity > 0 then IsStep(zfo, leg.liquidity, leg.start, leg.target, leg.offered, fee, leg.step)
       else leg.step == Step(leg.target, 0, 0, 0)
  }

  /** The next leg starts where this one crossed a tick, with what is left and the liquidity beyond. */
  ghost predicate Follows(zfo: bool, tick: TickState, leg: Leg, next: Leg) {
    && leg.step.sqrtNext == leg.target == next.start
    && next.offered == LeftOf(leg)
    && next.liquidity == Beyond(zfo, leg.liquidity, tick.liquidityNet)
  }

  /** The end of a route, by its last leg: short of a tick, or just beyond one with nothing left to
      swap or nowhere to go, or in the tail. */
  ghost predicate EndsAt(zfo: bool, ticks: seq<TickState>, route: seq<Leg>, end: WalkEnd)
    requires 0 < |route| <= |ticks| + 1
  {
    var n := |route|;
    var last := route[n - 1];
    && end.sqrtPrice == last.step.sqrtNext && end.left == LeftOf(last)
    && (end.exhausted <==> n == |ticks| + 1)
    && if n <= |ticks| && last.step.sqrtNext == last.target then
         && end.liquidity == Beyond(zfo, last.liquidity, ticks[n - 1].liquidityNet)
         && end.ticksUsed == end.crossedTicks == n
         && (end.left == 0 || (n == |ticks| && end.liquidity == 0))
       else
         && end.liquidity == last.liquidity
         && end.ticksUsed == (if n <= |ticks| then n else n - 1) && end.crossedTicks == n - 1
  }

  /** `route` leads from a pool at price `s` with liquidity `l`, and `x` to swap, to `end`. */
  ghost predicate IsRoute(zfo: bool, fee: nat, x: nat, s: nat, l: nat, ticks: seq<TickState>, route: seq<Leg>,
                          end: WalkEnd)
  {
    && |route| <= |ticks| + 1 && end.amountOut == Out(route)
    && (forall i | 0 <= i < |route| :: LegAt(zfo, fee, ticks, i, route[i]))
    && (forall i | 0 <= i < |route| - 1 :: Follows(zfo, ticks[i], route[i], route[i + 1]))
    && if route == [] then
         && (x == 0 || (ticks == [] && l == 0))
         && end == WalkEnd(0, end.left, end.sqrtPrice, end.liquidity, ticks, 0, 0, false)
         && end.left == x && end.sqrtPrice == s && end.liquidity == l
       else
         && route[0].offered == x && route[0].start == s && route[0].liquidity == l
         && EndsAt(zfo, ticks, route, end)
  }

  lemma CrossIsBeyond(zfo: bool, l: U256, net: I128)
    requires Cross(zfo, l, net).Ok?
    ensures Cross(zfo, l, net).value == Beyond(zfo, l, net)
  {
    LiquidityDeltaIs(l, if zfo then Neg128(net) else net);
  }

  /** Putting a leg that crosses its tick before a route from there. */
  lemma Extend(zfo: bool, fee: nat, ticks: seq<TickState>, leg: Leg, route: seq<Leg>, end: WalkEnd, whole: WalkEnd)
    requires fee < 1_000_000 && ticks != []
    requires LegAt(zfo, fee, ticks, 0, leg) && leg.step.sqrtNext == leg.target && LeftOf(leg) >= 0
    requires IsRoute(zfo, fee, LeftOf(leg), leg.target, Beyond(zfo, leg.liquidity, ticks[0].liquidityNet), ticks[1..],
                     route, end)
    requires leg.step.amountOut + end.amountOut <= U256_MAX && whole == Onwards(leg.step.amountOut, end)
    ensures IsRoute(zfo, fee, leg.offered, leg.start, leg.liquidity, ticks, [leg] + route, whole)
  {
    hide IsStep, Beyond, Toward, SqrtPrice, LegAt, Follows;
    var longer := [leg] + route;
    assert longer[1..] == route;
    forall i | 0 <= i < |longer| ensures LegAt(zfo, fee, ticks, i, longer[i]) {
      if i > 0 {
        assert longer[i] == route[i - 1] && LegAt(zfo, fee, ticks[1..], i - 1, route[i - 1]);
        LegLater(zfo, fee, ticks, i, route[i - 1]);
      }
    }
    forall i | 0 <= i < |longer| - 1 ensures Follows(zfo, ticks[i], longer[i], longer[i + 1]) {
      if i > 0 {
        assert Follows(zfo, ticks[1..][i - 1], route[i - 1], route[i]);
      } else {
        FirstFollows(zfo, ticks[0], leg, route[0]);
      }
    }
    if route != [] {
      assert longer[|longer| - 1] == route[|route| - 1];
      assert |route| <= |ticks[1..]| ==> ticks[1..][|route| - 1] == ticks[|longer| - 1];
    }
  }

  lemma LegLater(zfo: bool, fee: nat, ticks: seq<TickState>, i: nat, leg: Leg)
    requires fee < 1_000_000 && 0 < i <= |ticks| && LegAt(zfo, fee, ticks[1..], i - 1, leg)
    ensures LegAt(zfo, fee, ticks, i, leg)
  {
    hide IsStep, SqrtPrice;
    assert i < |ticks| ==> ticks[1..][i - 1] == ticks[i];
  }

  lemma FirstFollows(zfo: bool, tick: TickState, leg: Leg, next: Leg)
    requires leg.step.sqrtNext == leg.target == next.start && next.offered == LeftOf(leg)
    requires next.liquidity == Beyond(zfo, leg.liquidity, tick.liquidityNet)
    ensures Follows(zfo, tick, leg, next)
  {
  }

  /** The leg a walk with liquidity starts with. */
  lemma FirstLeg(zfo: bool, fee: FeePips, x: U256, s: U256, l: U256, t: U256) returns (leg: Leg)
    requires s > 0 && t > 0 && l > 0 && x > 0 && Toward(zfo, s, t) && fee < 1_000_000
    requires ComputeSwapStep(s, t, l, x, fee, zfo).Ok?
    ensures leg == Leg(l, s, t, x, ComputeSwapStep(s, t, l, x, fee, zfo).value)
    ensures IsStep(zfo, l, s, t, x, fee, leg.step)
    ensures LeftOf(leg) >= 0 && LeftAfter(x, leg.step) == Ok(LeftOf(leg))
  {
    hide ComputeSwapStep, ExactStep, IsStep;
    CheckedStepMeaning(zfo, l, s, t, x, fee);
    WalkStepFacts(zfo, fee, x, s, t, l);
    leg := Leg(l, s, t, x, ComputeSwapStep(s, t, l, x, fee, zfo).value);
  }

  /** Every answered walk has a route. */
  lemma {:induction false} WalkIsRoute(zfo: bool, fee: FeePips, x: U256, s: U256, l: U256, ticks: seq<TickState>)
    returns (route: seq<Leg>)
    requires fee < 1_000_000 && Aligned(zfo, s, ticks) && Walk(zfo, fee, x, s, l, ticks).Ok?
    ensures IsRoute(zfo, fee, x, s, l, ticks, route, Walk(zfo, fee, x, s, l, ticks).value)
    decreases |ticks|
  {
    hide ComputeSwapStep, IsStep, SqrtPrice, Cross, LeftAfter, Beyond, IsRoute;
    if x == 0 || (ticks == [] && l == 0) {
      route := [];
      StandingStill(zfo, fee, x, s, l, ticks);
    } else if ticks == [] {
      TailToward(zfo, s);
      var leg := FirstLeg(zfo, fee, x, s, l, TailTarget(zfo));
      route := [leg];
      LastLeg(zfo, fee, ticks, leg, TailStep(zfo, fee, x, s, l).value);
    } else {
      var t := SqrtRatioAtTick(ticks[0].tick).value;
      SqrtPriceRange(ticks[0].tick);
      var leg: Leg;
      if l == 0 {
        leg := Leg(0, s, t, x, Step(t, 0, 0, 0));
      } else {
        leg := FirstLeg(zfo, fee, x, s, l, t);
      }
      if leg.step.sqrtNext == t {
        var l' := Cross(zfo, l, ticks[0].liquidityNet).value;
        CrossIsBeyond(zfo, l, ticks[0].liquidityNet);
        var rest := WalkIsRoute(zfo, fee, LeftOf(leg), t, l', ticks[1..]);
        route := [leg] + rest;
        Extend(zfo, fee, ticks, leg, rest, Walk(zfo, fee, LeftOf(leg), t, l', ticks[1..]).value,
               Walk(zfo, fee, x, s, l, ticks).value);
      } else {
        route := [leg];
        LastLeg(zfo, fee, ticks, leg, Walk(zfo, fee, x, s, l, ticks).value);
      }
    }
  }

  lemma StandingStill(zfo: bool, fee: FeePips, x: U256, s: U256, l: U256, ticks: seq<TickState>)
    requires fee < 1_000_000 && (x == 0 || (ticks == [] && l == 0))
    ensures Walk(zfo, fee, x, s, l, ticks).Ok?
    ensures IsRoute(zfo, fee, x, s, l, ticks, [], Walk(zfo, fee, x, s, l, ticks).value)
  {
  }

  /** A route of one leg that crosses nothing. */
  lemma LastLeg(zfo: bool, fee: nat, ticks: seq<TickState>, leg: Leg, end: WalkEnd)
    requires fee < 1_000_000
    ensures && LegAt(zfo, fee, ticks, 0, leg) && (ticks != [] ==> leg.step.sqrtNext != leg.target)
            && end.amountOut == leg.step.amountOut && end.left == LeftOf(leg)
            && end.sqrtPrice == leg.step.sqrtNext && end.liquidity == leg.liquidity
            && end.exhausted == (ticks == []) && end.crossedTicks == 0
            && end.ticksUsed == (if ticks == [] then 0 else 1)
            ==> IsRoute(zfo, fee, leg.offered, leg.start, leg.liquidity, ticks, [leg], end)
  {
    hide IsStep, SqrtPrice;
    assert Out([leg]) == leg.step.amountOut;
  }

  /** Every answered quote is a route over the ticks ahead, at the pool's fee and from its price and
      liquidity; the ticks ahead are those on the side the price moves to, each as often as listed. */
  lemma QuoteIsRoute(pool: PoolState, ticks: seq<TickState>, tokenIn: Address, amountIn: U256)
    returns (ahead: seq<TickState>, route: seq<Leg>)
    requires Consistent(pool) && QuoteWalk(pool, ticks, tokenIn, amountIn).Ok?
    ensures PoolFeePips(pool).Ok? && PoolFeePips(pool).value < 1_000_000 && pool.liquidity.Some?
    ensures InOrder(tokenIn == pool.token0, ahead)
    ensures forall t :: multiset(ahead)[t]
                     == if (if tokenIn == pool.token0 then t.tick <= pool.tick.value else t.tick > pool.tick.value)
                        then multiset(ticks)[t] else 0
    ensures IsRoute(tokenIn == pool.token0, PoolFeePips(pool).value, amountIn, pool.sqrtPrice.value,
                    pool.liquidity.value, ahead, route, QuoteWalk(pool, ticks, tokenIn, amountIn).value)
  {
    hide Walk, Ahead, IsRoute;
    var zfo := tokenIn == pool.token0;
    ahead := Ahead(zfo, pool.tick.value, ticks);
    AheadAligned(zfo, pool, ticks);
    AheadFacts(zfo, pool.tick.value, ticks);
    forall t {
      AheadCount(zfo, pool.tick.value, ticks, t);
    }
    route := WalkIsRoute(zfo, PoolFeePips(pool).value, amountIn, pool.sqrtPrice.value, pool.liquidity.value, ahead);
  }
}

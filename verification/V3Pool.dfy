/** A pool end to end: positions, the table the listener keeps for them, and the quote walk fed
    from that table. The walk's running liquidity is at every point the liquidity of the
    positions around the price, nothing in the walk saturates, and the quote always answers. */
module V3Pool {
  import opened Arith
  import opened Wrappers
  import opened U256Math
  import opened TickMath
  import opened SwapMath
  import opened SwapStep
  import opened SwapEngine
  import opened V3Walk
  import opened V3Quote
  import opened Sorting
  import opened TickTable

  // ----- active liquidity as a function of the tick -----

  /** Stepping onto a tick from below adds its net liquidity. */
  lemma {:induction false} ActiveStep(ps: seq<Position>, t: int)
    requires WellPlaced(ps)
    ensures ActiveAt(ps, t) == ActiveAt(ps, t - 1) + NetOf(ps, t)
    decreases |ps|
  {
    if ps != [] {
      assert forall p | p in ps[1..] :: p in ps;
      ActiveStep(ps[1..], t);
    }
  }

  lemma {:induction false} NoGrossNoNet(ps: seq<Position>, t: int)
    requires GrossOf(ps, t) == 0
    ensures NetOf(ps, t) == 0
    decreases |ps|
  {
    if ps != [] {
      NoGrossNoNet(ps[1..], t);
    }
  }

  /** Between initialized ticks the active liquidity does not change. */
  lemma {:induction false} ActiveFlat(ps: seq<Position>, a: int, b: int)
    requires WellPlaced(ps) && a <= b
    requires forall t | a < t <= b :: GrossOf(ps, t) == 0
    ensures ActiveAt(ps, a) == ActiveAt(ps, b)
    decreases b - a
  {
    if a < b {
      ActiveStep(ps, b);
      NoGrossNoNet(ps, b);
      ActiveFlat(ps, a, b - 1);
    }
  }

  lemma {:induction false} OutsideInactive(ps: seq<Position>, t: int)
    requires WellPlaced(ps) && (t < MIN_TICK || t >= MAX_TICK)
    ensures ActiveAt(ps, t) == 0
    decreases |ps|
  {
    if ps != [] {
      assert ps[0] in ps;
      assert forall p | p in ps[1..] :: p in ps;
      OutsideInactive(ps[1..], t);
    }
  }

  // ----- prefix sums of the table -----

  function SumNet(ticks: seq<TickState>): int {
    if ticks == [] then 0 else SumNet(ticks[..|ticks| - 1]) + ticks[|ticks| - 1].liquidityNet
  }

  predicate Mentions(ticks: seq<TickState>, t: int) {
    exists i :: 0 <= i < |ticks| && ticks[i].tick == t
  }

  /** `ticks` lists the table of `ps` in strictly increasing tick order. */
  ghost predicate InTableOrder(ticks: seq<TickState>, ps: seq<Position>) {
    && ListedInOrder(ticks)
    && (forall x | x in ticks :: x.liquidityNet == NetOf(ps, x.tick) && GrossOf(ps, x.tick) > 0)
    && (forall t: int | GrossOf(ps, t) > 0 :: Mentions(ticks, t))
  }

  /** Nothing starts or ends strictly between two neighbours of the table. */
  lemma QuietBetween(ticks: seq<TickState>, ps: seq<Position>, n: nat, u: int)
    requires InTableOrder(ticks, ps) && n <= |ticks|
    requires n > 0 ==> ticks[n - 1].tick < u
    requires n < |ticks| ==> u < ticks[n].tick
    ensures GrossOf(ps, u) == 0
  {
    hide GrossOf, NetOf;
    forall i | 0 <= i < |ticks| ensures ticks[i].tick != u {
      assert i < n ==> ticks[i].tick <= ticks[n - 1].tick;
      assert n <= i ==> ticks[n].tick <= ticks[i].tick;
    }
    assert GrossOf(ps, u) > 0 ==> Mentions(ticks, u);
  }

  /** Every prefix of the table sums to the liquidity active from its last tick on. */
  lemma {:induction false} PrefixIsActive(ticks: seq<TickState>, ps: seq<Position>, n: nat, t: int)
    requires WellPlaced(ps) && InTableOrder(ticks, ps) && n <= |ticks|
    requires n > 0 ==> ticks[n - 1].tick <= t
    requires n < |ticks| ==> t < ticks[n].tick
    ensures SumNet(ticks[..n]) == ActiveAt(ps, t)
    decreases n
  {
    hide GrossOf, NetOf, ActiveAt, WellPlaced;
    var from := if n == 0 then (if t < MIN_TICK then t else MIN_TICK - 1) else ticks[n - 1].tick as int;
    forall u | from < u <= t ensures GrossOf(ps, u) == 0 {
      QuietBetween(ticks, ps, n, u);
    }
    ActiveFlat(ps, from, t);
    if n == 0 {
      OutsideInactive(ps, from);
    } else {
      var last := ticks[n - 1];
      assert last in ticks && ticks[..n][..n - 1] == ticks[..n - 1];
      ActiveStep(ps, last.tick);
      PrefixIsActive(ticks, ps, n - 1, last.tick - 1);
    }
  }

  /** All nets together cancel. */
  lemma NetsSumToZero(ticks: seq<TickState>, ps: seq<Position>)
    requires WellPlaced(ps) && InTableOrder(ticks, ps)
    ensures SumNet(ticks) == 0
  {
    var top := if ticks == [] || ticks[|ticks| - 1].tick < MAX_TICK then MAX_TICK else ticks[|ticks| - 1].tick as int;
    PrefixIsActive(ticks, ps, |ticks|, top);
    OutsideInactive(ps, top);
    assert ticks[..|ticks|] == ticks;
  }

  /** The sorted list of a table that summarises `ps` is in table order. */
  lemma SummaryInTableOrder(ticks: seq<TickState>, m: Table, ps: seq<Position>)
    requires Summarises(m, ps) && Lists(ticks, m) && SortedBy(ticks, (t: TickState) => t.tick as int)
    ensures InTableOrder(ticks, ps)
  {
    forall i, j | 0 <= i < j < |ticks| ensures ticks[i].tick < ticks[j].tick {
      ListsDistinct(ticks, m, i, j);
    }
    forall t: int | GrossOf(ps, t) > 0 ensures Mentions(ticks, t) {
      assert m[t] in ticks;
    }
  }

  // ----- the ticks ahead of the price -----

  /** Whether the walk, standing at position `c`, still has tick `t` ahead of it. */
  predicate IsAhead(zfo: bool, c: int, t: int) {
    if zfo then t <= c else t > c
  }

  /** Where the walk stands after crossing tick `t`. */
  function Beyond(zfo: bool, t: int): int {
    if zfo then t - 1 else t
  }

  /** `ticks` is exactly the part of the table ahead of `c`, nearest first. */
  ghost predicate Feeds(zfo: bool, ps: seq<Position>, c: int, ticks: seq<TickState>) {
    && (forall i, j :: 0 <= i < j < |ticks| ==> IsAhead(zfo, Beyond(zfo, ticks[i].tick), ticks[j].tick))
    && (forall x | x in ticks :: IsAhead(zfo, c, x.tick))
    && (forall x | x in ticks :: x.liquidityNet == NetOf(ps, x.tick) && GrossOf(ps, x.tick) > 0)
    && (forall t: int | GrossOf(ps, t) > 0 && IsAhead(zfo, c, t) :: Mentions(ticks, t))
  }

  /** No liquidity starts or ends between the walk's position and the nearest tick ahead. */
  lemma ActiveUpToNearest(zfo: bool, ps: seq<Position>, c: int, ticks: seq<TickState>)
    requires WellPlaced(ps) && Feeds(zfo, ps, c, ticks) && ticks != []
    ensures ActiveAt(ps, c) == ActiveAt(ps, if zfo then ticks[0].tick as int else ticks[0].tick - 1)
  {
    hide ActiveAt, GrossOf, NetOf;
    var t := ticks[0].tick as int;
    assert ticks[0] in ticks;
    var near, far := if zfo then t else c, if zfo then c else t - 1;
    forall u | near < u <= far ensures GrossOf(ps, u) == 0 {
      forall i | 0 <= i < |ticks| ensures ticks[i].tick != u {
        assert i > 0 ==> IsAhead(zfo, Beyond(zfo, t), ticks[i].tick);
      }
      assert GrossOf(ps, u) > 0 ==> Mentions(ticks, u);
    }
    ActiveFlat(ps, near, far);
  }

  lemma CrossExact(zfo: bool, l: nat, net: I128, l': nat)
    requires l <= I128_MAX && l' <= I128_MAX && -I128_MAX <= net <= I128_MAX
    requires l' == if zfo then l - net else l + net
    ensures Cross(zfo, l, net) == Ok(l')
  {
  }

  /** Crossing the nearest tick turns the active liquidity on one side into that on the other,
      without overflow and without saturation. */
  lemma CrossKeepsActive(zfo: bool, ps: seq<Position>, c: int, ticks: seq<TickState>)
    requires WellPlaced(ps) && Total(ps) <= I128_MAX && Feeds(zfo, ps, c, ticks) && ticks != []
    ensures ActiveAt(ps, c) <= I128_MAX && InRange(ticks[0].tick)
    ensures Cross(zfo, ActiveAt(ps, c), ticks[0].liquidityNet) == Ok(ActiveAt(ps, Beyond(zfo, ticks[0].tick)))
    ensures ActiveAt(ps, Beyond(zfo, ticks[0].tick)) as int
         == if zfo then ActiveAt(ps, c) - ticks[0].liquidityNet else ActiveAt(ps, c) + ticks[0].liquidityNet
    ensures Feeds(zfo, ps, Beyond(zfo, ticks[0].tick), ticks[1..])
  {
    hide ActiveAt, GrossOf, NetOf, Total, WellPlaced, Cross;
    var t, net := ticks[0].tick as int, ticks[0].liquidityNet;
    assert ticks[0] in ticks;
    SumBounds(ps, t);
    SumBounds(ps, c);
    SumBounds(ps, Beyond(zfo, t));
    ActiveUpToNearest(zfo, ps, c, ticks);
    ActiveStep(ps, t);
    CrossExact(zfo, ActiveAt(ps, c), net, ActiveAt(ps, Beyond(zfo, t)));
    FeedsRest(zfo, ps, c, ticks);
  }

  lemma FeedsRest(zfo: bool, ps: seq<Position>, c: int, ticks: seq<TickState>)
    requires Feeds(zfo, ps, c, ticks) && ticks != []
    ensures Feeds(zfo, ps, Beyond(zfo, ticks[0].tick), ticks[1..])
  {
    hide GrossOf, NetOf;
    var rest, b := ticks[1..], Beyond(zfo, ticks[0].tick);
    assert ticks[0] in ticks;
    forall i, j | 0 <= i < j < |rest| ensures IsAhead(zfo, Beyond(zfo, rest[i].tick), rest[j].tick) {
      assert rest[i] == ticks[i + 1] && rest[j] == ticks[j + 1];
    }
    forall x | x in rest ensures IsAhead(zfo, b, x.tick) && x in ticks {
      var j :| 0 <= j < |rest| && rest[j] == x;
      assert x == ticks[j + 1];
    }
    forall t: int | GrossOf(ps, t) > 0 && IsAhead(zfo, b, t) ensures Mentions(rest, t) {
      assert IsAhead(zfo, c, t);
      MentionsRest(ticks, t);
    }
  }

  lemma MentionsRest(ticks: seq<TickState>, t: int)
    requires Mentions(ticks, t) && ticks[0].tick != t
    ensures Mentions(ticks[1..], t)
  {
    var i :| 0 <= i < |ticks| && ticks[i].tick == t;
    assert ticks[1..][i - 1] == ticks[i];
  }

  /** With nothing ahead, nothing is active. */
  lemma NothingAheadNothingActive(zfo: bool, ps: seq<Position>, c: int)
    requires WellPlaced(ps) && Feeds(zfo, ps, c, [])
    ensures ActiveAt(ps, c) == 0
  {
    var far := if zfo then (if c < MIN_TICK then c else MIN_TICK - 1) else if c > MAX_TICK then c else MAX_TICK;
    ActiveFlat(ps, if zfo then far else c, if zfo then c else far);
    OutsideInactive(ps, far);
  }

  // ----- the walk over a pool's own table -----

  /** The liquidity a walk ends with is that of the positions around the point it reached. */
  lemma {:induction false} WalkLiquidityIsActive(zfo: bool, fee: FeePips, x: U256, s: U256, ps: seq<Position>,
                                        c: int, ticks: seq<TickState>)
    requires WellPlaced(ps) && Total(ps) <= I128_MAX && Feeds(zfo, ps, c, ticks)
    requires ActiveAt(ps, c) <= U256_MAX && Walk(zfo, fee, x, s, ActiveAt(ps, c), ticks).Ok?
    ensures var end := Walk(zfo, fee, x, s, ActiveAt(ps, c), ticks).value;
      && end.crossedTicks <= |ticks|
      && var at := if end.crossedTicks == 0 then c else Beyond(zfo, ticks[end.crossedTicks - 1].tick);
      end.liquidity == ActiveAt(ps, at) && Feeds(zfo, ps, at, end.rest)
    decreases |ticks|
  {
    hide ComputeSwapStep, SqrtPrice, Cross, LeftAfter, ActiveAt, Feeds;
    var l := ActiveAt(ps, c);
    if x == 0 {
    } else if ticks == [] {
    } else {
      CrossKeepsActive(zfo, ps, c, ticks);
      var t, b := SqrtRatioAtTick(ticks[0].tick).value, Beyond(zfo, ticks[0].tick);
      if l == 0 {
        WalkLiquidityIsActive(zfo, fee, x, t, ps, b, ticks[1..]);
      } else {
        var step := ComputeSwapStep(s, t, l, x, fee, zfo).value;
        if step.sqrtNext == t {
          WalkLiquidityIsActive(zfo, fee, LeftAfter(x, step).value, t, ps, b, ticks[1..]);
        }
      }
    }
  }

  // ----- every quote answers -----

  /** Output is monotone in liquidity. */
  lemma Token1DownMono(l: nat, l': nat, lo: nat, hi: nat)
    requires l <= l' && lo <= hi
    ensures Token1Down(l, lo, hi) <= Token1Down(l', lo, hi)
  {
    MulLe(l, l', hi - lo);
    FloorMono(l * (hi - lo), l' * (hi - lo), Q96);
  }

  lemma Token0DownMono(n: nat, n': nat, lo: nat, hi: nat)
    requires n <= n' && 0 < lo <= hi
    ensures Token0Down(n, lo, hi) <= Token0Down(n', lo, hi)
  {
    MulLe(n, n', hi - lo);
    FloorMono(n * (hi - lo), n' * (hi - lo), hi * lo);
  }

  /** Even with the largest liquidity, the whole price range pays out less than 2^256. */
  lemma AmountOutFits(zfo: bool, s: nat, t: nat)
    requires s > 0 && t > 0 && Toward(zfo, s, t) && s < SQRT_PRICE_LIMIT && t < SQRT_PRICE_LIMIT
    ensures AmountOut(zfo, LIQUIDITY_LIMIT - 1, s, t) <= U256_MAX
  {
    if zfo {
      Token1Fits(LIQUIDITY_LIMIT - 1, t, s);
    } else {
      Token0DownAtMost((LIQUIDITY_LIMIT - 1) * Q96, s, t);
    }
  }

  /** A walk fed from the pool's own table answers, never runs out of ticks with liquidity
      left, and pays out no more than the largest liquidity would. */
  lemma {:induction false} WalkAnswers(zfo: bool, fee: FeePips, x: U256, s: U256, ps: seq<Position>, c: int,
                                       ticks: seq<TickState>)
    requires WellPlaced(ps) && Total(ps) <= I128_MAX && Feeds(zfo, ps, c, ticks)
    requires fee < FEE_DENOMINATOR && s < SQRT_PRICE_LIMIT && Aligned(zfo, s, ticks)
    ensures ActiveAt(ps, c) <= U256_MAX && Walk(zfo, fee, x, s, ActiveAt(ps, c), ticks).Ok?
    ensures var end := Walk(zfo, fee, x, s, ActiveAt(ps, c), ticks).value;
      && !end.exhausted && end.sqrtPrice < SQRT_PRICE_LIMIT
      && end.sqrtPrice > 0 && Toward(zfo, s, end.sqrtPrice)
      && end.amountOut <= AmountOut(zfo, LIQUIDITY_LIMIT - 1, s, end.sqrtPrice)
    decreases |ticks|
  {
    hide ComputeSwapStep, ExactStep, SqrtPrice, Cross, LeftAfter, ActiveAt, Feeds, AmountOut, Total, WellPlaced;
    SumBounds(ps, c);
    var l := ActiveAt(ps, c);
    if x == 0 {
    } else if ticks == [] {
      NothingAheadNothingActive(zfo, ps, c);
    } else {
      CrossKeepsActive(zfo, ps, c, ticks);
      SqrtPriceRange(ticks[0].tick);
      var t, b := SqrtRatioAtTick(ticks[0].tick).value, Beyond(zfo, ticks[0].tick);
      if l == 0 {
        WalkAnswers(zfo, fee, x, t, ps, b, ticks[1..]);
        var end := Walk(zfo, fee, x, t, ActiveAt(ps, b), ticks[1..]).value;
        AmountOutSplit(zfo, LIQUIDITY_LIMIT - 1, s, t, end.sqrtPrice);
      } else {
        StepAnswers(zfo, l, s, t, x, fee);
        WalkStepFacts(zfo, fee, x, s, t, l);
        StepContract(zfo, l, s, t, x, fee);
        StepPays(zfo, l, s, t, x, fee);
        var step := ExactStep(zfo, l, s, t, x, fee);
        if step.sqrtNext == t {
          var left := x - step.amountIn - step.feeAmount;
          WalkAnswers(zfo, fee, left, t, ps, b, ticks[1..]);
          var end := Walk(zfo, fee, left, t, ActiveAt(ps, b), ticks[1..]).value;
          AmountOutSplit(zfo, LIQUIDITY_LIMIT - 1, s, t, end.sqrtPrice);
          AmountOutFits(zfo, s, end.sqrtPrice);
        }
      }
    }
  }

  lemma StepPays(zfo: bool, l: nat, s: nat, t: nat, x: nat, fee: nat)
    requires 0 < l < LIQUIDITY_LIMIT && s > 0 && t > 0 && x > 0 && Toward(zfo, s, t) && fee < FEE_DENOMINATOR
    ensures var step := ExactStep(zfo, l, s, t, x, fee);
      step.sqrtNext > 0 && Toward(zfo, s, step.sqrtNext)
      && step.amountOut <= AmountOut(zfo, LIQUIDITY_LIMIT - 1, s, step.sqrtNext)
  {
    hide Token0Down, Token1Down;
    StepContract(zfo, l, s, t, x, fee);
    var next := ExactStep(zfo, l, s, t, x, fee).sqrtNext;
    if zfo {
      Token1DownMono(l, LIQUIDITY_LIMIT - 1, next, s);
    } else {
      Token0DownMono(l * Q96, (LIQUIDITY_LIMIT - 1) * Q96, s, next);
    }
  }

  // ----- the theorem about a whole pool -----

  /** The filter and sort of the quoter pick, from the table's list, exactly the ticks ahead. */
  lemma AheadFeeds(zfo: bool, ps: seq<Position>, c: int, ticks: seq<TickState>)
    requires InTableOrder(ticks, ps)
    ensures Feeds(zfo, ps, c, Ahead(zfo, c, ticks))
  {
    var ahead := Ahead(zfo, c, ticks);
    AheadFacts(zfo, c, ticks);
    AheadDistinct(zfo, c, ticks);
    forall t: int | GrossOf(ps, t) > 0 && IsAhead(zfo, c, t) ensures Mentions(ahead, t) {
      var i :| 0 <= i < |ticks| && ticks[i].tick == t;
      assert ticks[i] in ahead;
    }
  }

  lemma {:induction false} FilterCounts(ticks: seq<TickState>, keep: TickState -> bool)
    requires ListedInOrder(ticks)
    ensures ListedInOrder(Filter(ticks, keep))
    decreases |ticks|
  {
    if ticks != [] {
      FilterCounts(ticks[1..], keep);
      var rest := Filter(ticks[1..], keep);
      forall i | 0 <= i < |rest| ensures ticks[0].tick < rest[i].tick {
        assert rest[i] in ticks[1..];
      }
    }
  }

  lemma AheadDistinct(zfo: bool, c: int, ticks: seq<TickState>)
    requires ListedInOrder(ticks)
    ensures var ahead := Ahead(zfo, c, ticks);
      forall i, j :: 0 <= i < j < |ahead| ==> ahead[i].tick != ahead[j].tick
  {
    var keep: TickState -> bool := if zfo then (t: TickState) => t.tick <= c else (t: TickState) => t.tick > c;
    var kept, ahead := Filter(ticks, keep), Ahead(zfo, c, ticks);
    FilterCounts(ticks, keep);
    assert multiset(ahead) == multiset(kept);
    forall i, j | 0 <= i < j < |ahead| ensures ahead[i].tick != ahead[j].tick {
      assert ahead[i] in multiset(ahead) && ahead[j] in multiset(ahead);
      if ahead[i].tick == ahead[j].tick {
        OrderedDistinct(kept, ahead[i], ahead[j]);
        OrderedOnce(kept, ahead[i]);
        DuplicateCount(ahead, i, j);
      }
    }
  }

  lemma OrderedDistinct(ticks: seq<TickState>, x: TickState, y: TickState)
    requires ListedInOrder(ticks) && x in ticks && y in ticks && x.tick == y.tick
    ensures x == y
  {
    var i :| 0 <= i < |ticks| && ticks[i] == x;
    var j :| 0 <= j < |ticks| && ticks[j] == y;
  }

  lemma {:induction false} OrderedOnce(ticks: seq<TickState>, x: TickState)
    requires ListedInOrder(ticks) && x in ticks
    ensures multiset(ticks)[x] == 1
    decreases |ticks|
  {
    assert ticks == [ticks[0]] + ticks[1..];
    if x in ticks[1..] {
      OrderedOnce(ticks[1..], x);
    }
  }

  /** The table built from the pool's own events feeds the walk exactly the ticks ahead. */
  lemma HistoryFeeds(h: seq<PoolEvent>, ticks: seq<TickState>, zfo: bool, c: int)
    requires LegalHistory(h)
    requires TableAfter(h).Ok? && Lists(ticks, TableAfter(h).value) && SortedBy(ticks, (t: TickState) => t.tick as int)
    ensures WellPlaced(PositionsAfter(h)) && Total(PositionsAfter(h)) <= I128_MAX
    ensures Feeds(zfo, PositionsAfter(h), c, Ahead(zfo, c, ticks))
  {
    TableFollowsPositions(h);
    SummaryInTableOrder(ticks, TableAfter(h).value, PositionsAfter(h));
    AheadFeeds(zfo, PositionsAfter(h), c, ticks);
  }

  /** The pool's table was built from its own events, its stored liquidity is that of its positions
      around the stored tick, and its price lies in that tick. */
  ghost predicate OwnTable(pool: PoolState, h: seq<PoolEvent>, ticks: seq<TickState>, tokenIn: Address) {
    && LegalHistory(h)
    && TableAfter(h).Ok? && Lists(ticks, TableAfter(h).value) && SortedBy(ticks, (t: TickState) => t.tick as int)
    && ticks != [] && tokenIn in {pool.token0, pool.token1} && PoolFeePips(pool).Ok?
    && Consistent(pool) && pool.liquidity == Some(ActiveAt(PositionsAfter(h), pool.tick.value))
  }

  /** For such a pool every quote of every amount in either direction answers, and never runs off
      the end of the table. */
  lemma PoolAlwaysQuotes(pool: PoolState, h: seq<PoolEvent>, ticks: seq<TickState>, tokenIn: Address, x: U256)
    requires OwnTable(pool, h, ticks, tokenIn)
    ensures QuoteWalk(pool, ticks, tokenIn, x).Ok?
    ensures var end := QuoteWalk(pool, ticks, tokenIn, x).value; !end.exhausted && (end.left > 0 ==> end.rest == [])
  {
    hide Walk, Ahead, SqrtPrice, ActiveAt, Feeds, Lists, LegalHistory, PositionsAfter, TableAfter, WellPlaced, Total;
    var ps, zfo, s, c := PositionsAfter(h), tokenIn == pool.token0, pool.sqrtPrice.value, pool.tick.value;
    HistoryFeeds(h, ticks, zfo, c);
    AheadAligned(zfo, pool, ticks);
    SqrtPriceRange(c + 1);
    WalkAnswers(zfo, PoolFeePips(pool).value, x, s, ps, c, Ahead(zfo, c, ticks));
    WalkEnds(zfo, PoolFeePips(pool).value, x, s, ActiveAt(ps, c), Ahead(zfo, c, ticks));
  }

  /** Its quotes are monotone and gain nothing from splitting, for every input. */
  lemma PoolQuotesMonotone(pool: PoolState, h: seq<PoolEvent>, ticks: seq<TickState>, tokenIn: Address, x: U256,
                           y: U256)
    requires OwnTable(pool, h, ticks, tokenIn) && x <= y
    ensures QuoteWalk(pool, ticks, tokenIn, x).Ok? && QuoteWalk(pool, ticks, tokenIn, y).Ok?
    ensures QuoteWalk(pool, ticks, tokenIn, x).value.amountOut <= QuoteWalk(pool, ticks, tokenIn, y).value.amountOut
  {
    hide QuoteWalk, Consistent, LegalHistory, TableAfter, Lists, ActiveAt, PositionsAfter;
    PoolAlwaysQuotes(pool, h, ticks, tokenIn, y);
    QuoteMonotone(pool, ticks, tokenIn, x, y);
  }

  lemma PoolQuotesSplit(pool: PoolState, h: seq<PoolEvent>, ticks: seq<TickState>, tokenIn: Address, a: U256, b: U256)
    requires OwnTable(pool, h, ticks, tokenIn) && a + b <= U256_MAX
    ensures QuoteWalk(pool, ticks, tokenIn, a).Ok? && QuoteWalk(pool, ticks, tokenIn, a + b).Ok?
    ensures var first := QuoteWalk(pool, ticks, tokenIn, a).value;
      var second := ContinuedQuote(pool, tokenIn, b, first);
      second.Ok? && first.amountOut + second.value.amountOut <= QuoteWalk(pool, ticks, tokenIn, a + b).value.amountOut
  {
    hide QuoteWalk, ContinuedQuote, Consistent, LegalHistory, TableAfter, Lists, ActiveAt, PositionsAfter;
    PoolAlwaysQuotes(pool, h, ticks, tokenIn, a + b);
    QuoteSplit(pool, ticks, tokenIn, a, b);
  }
}

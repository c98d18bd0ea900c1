/** What a tick price is: one tick further is one ten-thousandth of a unit price up, so the squares of
    neighbouring prices are in the ratio 10001 to 10000, up to rounding
    (crates/dex/src/uniswap_v3.rs, `sqrt_ratio_at_tick`). */
module TickPrice {
  import opened Arith
  import opened U256Math
  import opened TickMath

  // ----- the constants -----

  /** The first constant is 2^128 / sqrt(1.0001), to the unit. */
  lemma FirstMask()
    ensures var c := MaskValue(0);
      10_000 * ONE_Q128 * ONE_Q128 - 10_001 * ONE_Q128 <= c * c * 10_001 <= 10_000 * ONE_Q128 * ONE_Q128
  {
  }

  /** Every other one is the square of the one before it, within two units. */
  lemma NextMask(j: nat)
    requires j + 1 < MASK_COUNT
    ensures var c, d := MaskValue(j), MaskValue(j + 1);
      d * ONE_Q128 - 2 * ONE_Q128 <= c * c <= d * ONE_Q128 + 2 * ONE_Q128
  {
    match j
    case 0 =>
    case 1 =>
    case 2 =>
    case 3 =>
    case 4 =>
    case 5 =>
    case 6 =>
    case 7 =>
    case 8 =>
    case 9 =>
    case 10 =>
    case 11 =>
    case 12 =>
    case 13 =>
    case 14 =>
    case 15 =>
    case 16 =>
    case 17 =>
    case _ =>
  }

  // ----- neighbouring ratios -----

  /** `lo` is `hi` times the first constant, within `slack` units. */
  predicate Close(hi: nat, lo: nat, slack: nat) {
    && lo * ONE_Q128 <= hi * MaskValue(0) + slack * ONE_Q128
    && hi * MaskValue(0) <= lo * ONE_Q128 + slack * ONE_Q128
  }

  lemma MulShiftClose(hi: nat, lo: nat, slack: nat, c: nat)
    requires Close(hi, lo, slack) && c <= ONE_Q128
    ensures Close(MulShift(hi, c), MulShift(lo, c), slack + 1)
  {
    hide MaskValue;
    MaskValueRange(0);
    var hi', lo', first := MulShift(hi, c), MulShift(lo, c), MaskValue(0);
    FloorBounds(hi * c, ONE_Q128);
    FloorBounds(lo * c, ONE_Q128);
    MulLe(c, ONE_Q128, slack);
    CloseAbove(hi, lo, slack, c, first, hi', lo');
    CloseBelow(hi, lo, slack, c, first, hi', lo');
  }

  lemma CloseAbove(hi: nat, lo: nat, slack: nat, c: nat, first: nat, hi': nat, lo': nat)
    requires lo * ONE_Q128 <= hi * first + slack * ONE_Q128 && slack * c <= slack * ONE_Q128 && first <= ONE_Q128
    requires hi * c < hi' * ONE_Q128 + ONE_Q128 && lo' * ONE_Q128 <= lo * c
    ensures lo' * ONE_Q128 <= hi' * first + (slack + 1) * ONE_Q128
  {
    MulLe(lo * ONE_Q128, hi * first + slack * ONE_Q128, c);
    MulDistrib(hi * first, slack * ONE_Q128, c);
    MulAssoc(lo, ONE_Q128, c);
    MulAssoc(hi, first, c);
    MulAssoc(slack, ONE_Q128, c);
    MulLe(hi * c, hi' * ONE_Q128 + ONE_Q128, first);
    MulDistrib(hi' * ONE_Q128, ONE_Q128, first);
    MulAssoc(hi', ONE_Q128, first);
  }

  lemma CloseBelow(hi: nat, lo: nat, slack: nat, c: nat, first: nat, hi': nat, lo': nat)
    requires hi * first <= lo * ONE_Q128 + slack * ONE_Q128 && slack * c <= slack * ONE_Q128
    requires hi' * ONE_Q128 <= hi * c && lo * c < lo' * ONE_Q128 + ONE_Q128
    ensures hi' * first <= lo' * ONE_Q128 + (slack + 1) * ONE_Q128
  {
    MulLe(hi * first, lo * ONE_Q128 + slack * ONE_Q128, c);
    MulDistrib(lo * ONE_Q128, slack * ONE_Q128, c);
    MulAssoc(lo, ONE_Q128, c);
    MulAssoc(hi, first, c);
    MulAssoc(slack, ONE_Q128, c);
    MulLe(hi' * ONE_Q128, hi * c, first);
    MulAssoc(hi', ONE_Q128, first);
  }

  lemma {:induction false} ApplyMasksClose(hi: nat, lo: nat, slack: nat, n: nat, j: nat)
    requires j <= MASK_COUNT && Close(hi, lo, slack)
    ensures Close(ApplyMasks(hi, n, j), ApplyMasks(lo, n, j), slack + MASK_COUNT - j)
    decreases MASK_COUNT - j
  {
    hide MaskValue, MulShift;
    if j < MASK_COUNT {
      MaskValueRange(j);
      var c := MaskValue(j);
      if n % 2 == 1 {
        MulShiftClose(hi, lo, slack, c);
        ApplyMasksClose(MulShift(hi, c), MulShift(lo, c), slack + 1, n / 2, j + 1);
      } else {
        ApplyMasksClose(hi, lo, slack + 1, n / 2, j + 1);
      }
    }
  }

  /** Each constant is what the bits below it leave, times the first constant, within four units. */
  lemma ConstantNearAllOnes(j: nat)
    requires j < MASK_COUNT
    ensures Close(AllOnes(j), MulShift(ONE_Q128, MaskValue(j)), 4)
  {
    match j
    case 0 =>
    case 1 =>
    case 2 =>
    case 3 =>
    case 4 =>
    case 5 =>
    case 6 =>
    case 7 =>
    case 8 =>
    case 9 =>
    case 10 =>
    case 11 =>
    case 12 =>
    case 13 =>
    case 14 =>
    case 15 =>
    case 16 =>
    case 17 =>
    case 18 =>
    case _ =>
  }

  const RATIO_SLACK: nat := 24

  lemma {:induction false} CarryClose(n: nat, j: nat)
    requires j < MASK_COUNT && n + 1 < Pow2(MASK_COUNT - j)
    ensures Close(ApplyMasks(AllOnes(j), n, j), ApplyMasks(ONE_Q128, n + 1, j), RATIO_SLACK)
    decreases MASK_COUNT - j
  {
    hide MaskValue, AllOnes, ApplyMasks, MulShift, Close;
    if n % 2 == 0 {
      CarryStopsClose(n, j);
    } else {
      assert (n + 1) / 2 == n / 2 + 1;
      MaskStep(AllOnes(j), n, j, MulShift(AllOnes(j), MaskValue(j)));
      MaskStep(ONE_Q128, n + 1, j, ONE_Q128);
      AllOnesNext(j);
      CarryClose(n / 2, j + 1);
    }
  }

  lemma CarryStopsClose(n: nat, j: nat)
    requires j < MASK_COUNT && n % 2 == 0
    ensures Close(ApplyMasks(AllOnes(j), n, j), ApplyMasks(ONE_Q128, n + 1, j), RATIO_SLACK)
  {
    hide MaskValue, AllOnes, ApplyMasks, MulShift;
    var c := MulShift(ONE_Q128, MaskValue(j));
    MaskStep(AllOnes(j), n, j, AllOnes(j));
    MaskStep(ONE_Q128, n + 1, j, c);
    ConstantNearAllOnes(j);
    assert (n + 1) / 2 == n / 2;
    ApplyMasksClose(AllOnes(j), c, 4, n / 2, j + 1);
  }

  /** One more tick multiplies the ratio by the first constant, within 24 units. */
  lemma RatioClose(n: nat)
    requires n < MAX_TICK
    ensures Close(Ratio(n), Ratio(n + 1), RATIO_SLACK)
  {
    TwentyBits();
    CarryClose(n, 0);
  }

  lemma TwentyBits()
    ensures Pow2(20) == 1_048_576
  {
    assert Pow2(5) == 32;
    assert Pow2(10) == 1024;
    assert Pow2(15) == 32768;
  }

  // ----- neighbouring prices -----

  const WORD64: nat := 0x1_0000_0000_0000_0000

  /** `p` is `q` times the first constant, within three units and 24 parts in 2^64 of `q`. */
  predicate Near(p: nat, q: nat) {
    && p * ONE_Q128 * WORD64 <= q * MaskValue(0) * WORD64 + (3 * WORD64 + 24 * q) * ONE_Q128
    && q * MaskValue(0) * WORD64 <= p * ONE_Q128 * WORD64 + (3 * WORD64 + 24 * q) * ONE_Q128
  }

  lemma NearBelowZero(tick: int)
    requires MIN_TICK <= tick < 0
    ensures Near(SqrtPrice(tick), SqrtPrice(tick + 1))
  {
    hide Ratio, CeilDiv, MaskValue;
    var hi, lo := Ratio(-tick - 1), Ratio(-tick);
    var p, q := SqrtPrice(tick), SqrtPrice(tick + 1);
    RatioClose(-tick - 1);
    CeilBounds(lo, ROUNDING_UNIT);
    CeilBounds(hi, ROUNDING_UNIT);
    ShiftedNear(hi, lo, p, q, MaskValue(0));
  }

  lemma ShiftedNear(hi: nat, lo: nat, p: nat, q: nat, first: nat)
    requires first == MaskValue(0)
    requires lo * ONE_Q128 <= hi * first + 24 * ONE_Q128 && hi * first <= lo * ONE_Q128 + 24 * ONE_Q128
    requires lo <= p * ROUNDING_UNIT < lo + ROUNDING_UNIT && hi <= q * ROUNDING_UNIT < hi + ROUNDING_UNIT
    ensures Near(p, q)
  {
    hide MaskValue;
    MaskValueRange(0);
    MulLe(hi, q * ROUNDING_UNIT, first);
    MulLe(q * ROUNDING_UNIT, hi + ROUNDING_UNIT, first);
    MulDistrib(hi, ROUNDING_UNIT, first);
    MulAssoc(q, ROUNDING_UNIT, first);
  }

  lemma NearAboveZero(tick: int)
    requires 0 <= tick < MAX_TICK
    ensures Near(SqrtPrice(tick), SqrtPrice(tick + 1))
  {
    hide Ratio, CeilDiv, MaskValue;
    var hi, lo := Ratio(tick), Ratio(tick + 1);
    RatioClose(tick);
    RatioRange(tick);
    RatioRange(tick + 1);
    InvertedPrice(tick);
    var m, n := U256_MAX / hi, U256_MAX / lo;
    FloorBounds(U256_MAX, hi);
    FloorBounds(U256_MAX, lo);
    CeilBounds(m, ROUNDING_UNIT);
    CeilBounds(n, ROUNDING_UNIT);
    InverseAbove(hi, lo, m, n, MaskValue(0));
    InverseBelow(hi, lo, m, n, MaskValue(0));
    NextTick(tick);
    InverseNear(m, n, SqrtPrice(tick), SqrtPrice(tick + 1), MaskValue(0));
  }

  lemma InvertedPrice(tick: int)
    requires 0 <= tick <= MAX_TICK
    ensures Ratio(tick) > 0 && SqrtPrice(tick) == CeilDiv(U256_MAX / Ratio(tick), ROUNDING_UNIT)
  {
    hide Ratio;
    RatioRange(tick);
    if tick == 0 {
      TickZero();
    }
  }

  lemma InverseAbove(hi: nat, lo: nat, m: nat, n: nat, first: nat)
    requires lo >= WORD64 && hi * first <= lo * ONE_Q128 + 24 * ONE_Q128
    requires n * lo <= U256_MAX < m * hi + hi
    ensures n * first * WORD64 <= (m + 1) * ONE_Q128 * WORD64 + 24 * (m + 1) * ONE_Q128
  {
    MulDistrib(m, 1, hi);
    MulLe(n * lo, (m + 1) * hi, first);
    MulLe(hi * first, lo * ONE_Q128 + 24 * ONE_Q128, m + 1);
    MulAssoc(m + 1, hi, first);
    MulAssoc(m + 1, lo, ONE_Q128);
    AboveQuotient(m, n, lo, first);
  }

  lemma AboveQuotient(m: nat, n: nat, lo: nat, first: nat)
    requires lo >= WORD64 && n * lo * first <= (m + 1) * lo * ONE_Q128 + 24 * (m + 1) * ONE_Q128
    ensures n * first * WORD64 <= (m + 1) * ONE_Q128 * WORD64 + 24 * (m + 1) * ONE_Q128
  {
    var over := n * first - (m + 1) * ONE_Q128;
    MulDistrib(over, (m + 1) * ONE_Q128, lo);
    MulAssoc(n, lo, first);
    MulAssoc(m + 1, ONE_Q128, lo);
    if over > 0 {
      MulLe(WORD64, lo, over);
    }
  }

  lemma InverseBelow(hi: nat, lo: nat, m: nat, n: nat, first: nat)
    requires hi >= WORD64 && lo * ONE_Q128 <= hi * first + 24 * ONE_Q128
    requires m * hi <= U256_MAX < n * lo + lo
    ensures m * ONE_Q128 * WORD64 <= (n + 1) * first * WORD64 + 24 * (n + 1) * ONE_Q128
  {
    MulDistrib(n, 1, lo);
    MulLe(m * hi, (n + 1) * lo, ONE_Q128);
    MulLe(lo * ONE_Q128, hi * first + 24 * ONE_Q128, n + 1);
    MulAssoc(n + 1, lo, ONE_Q128);
    MulAssoc(n + 1, hi, first);
    BelowQuotient(m, n, hi, first);
  }

  lemma BelowQuotient(m: nat, n: nat, hi: nat, first: nat)
    requires hi >= WORD64 && m * hi * ONE_Q128 <= (n + 1) * first * hi + 24 * (n + 1) * ONE_Q128
    ensures m * ONE_Q128 * WORD64 <= (n + 1) * first * WORD64 + 24 * (n + 1) * ONE_Q128
  {
    var over := m * ONE_Q128 - (n + 1) * first;
    MulDistrib(over, (n + 1) * first, hi);
    MulAssoc(m, ONE_Q128, hi);
    if over > 0 {
      MulLe(WORD64, hi, over);
    }
  }

  lemma InverseNear(m: nat, n: nat, p: nat, q: nat, first: nat)
    requires first == MaskValue(0)
    requires n * first * WORD64 <= (m + 1) * ONE_Q128 * WORD64 + 24 * (m + 1) * ONE_Q128
    requires m * ONE_Q128 * WORD64 <= (n + 1) * first * WORD64 + 24 * (n + 1) * ONE_Q128
    requires m <= p * ROUNDING_UNIT < m + ROUNDING_UNIT && n <= q * ROUNDING_UNIT < n + ROUNDING_UNIT
    requires p <= q
    ensures Near(p, q)
  {
    hide MaskValue;
    MaskValueRange(0);
    MulLe(n, q * ROUNDING_UNIT, first);
    MulLe(q * ROUNDING_UNIT, n + ROUNDING_UNIT, first);
    MulDistrib(n, ROUNDING_UNIT, first);
    MulDistrib(n, 1, first);
    MulAssoc(q, ROUNDING_UNIT, first);
  }

  // ----- the law -----

  /** How far a price may be from the square root of 1.0001 times the one before it. */
  function PriceSlack(q: nat): nat {
    5 + 26 * q / WORD64
  }

  lemma NearWithinSlack(p: nat, q: nat, slack: nat, first: nat)
    requires first == MaskValue(0) && Near(p, q) && WORD64 * slack >= 3 * WORD64 + 24 * q
    ensures p * ONE_Q128 <= q * first + slack * ONE_Q128 && q * first <= p * ONE_Q128 + slack * ONE_Q128
  {
    hide MaskValue;
  }

  lemma AtMostDouble(p: nat, q: nat, slack: nat, first: nat)
    requires first == MaskValue(0) && q * first <= p * ONE_Q128 + slack * ONE_Q128
    requires slack == 4 + 24 * q / WORD64 && p >= MIN_SQRT_RATIO
    ensures q <= 2 * p && slack < PriceSlack(q) <= p
  {
    MulLe(99 * ONE_Q128, 100 * first, q);
    MulAssoc(100, first, q);
  }

  lemma SquareBelow(p: nat, q: nat, slack: nat, more: nat, first: nat)
    requires slack <= more <= p && p * ONE_Q128 <= q * first + slack * ONE_Q128
    requires first * first * 10_001 <= 10_000 * ONE_Q128 * ONE_Q128
    ensures (p - more) * (p - more) * 10_001 <= q * q * 10_000
  {
    var a := p - more;
    MulLe(a * ONE_Q128, q * first, a * ONE_Q128);
    MulLe(a * ONE_Q128, q * first, q * first);
    SquareOfProduct(a, ONE_Q128);
    SquareOfProduct(q, first);
    MulLe(first * first * 10_001, 10_000 * ONE_Q128 * ONE_Q128, q * q);
    MulAssoc(q * q, first * first, 10_001);
    assert a * a * 10_001 * (ONE_Q128 * ONE_Q128) <= q * q * 10_000 * (ONE_Q128 * ONE_Q128);
  }

  lemma SquareOfProduct(a: int, b: int)
    ensures a * b * (a * b) == a * a * (b * b)
  {
    MulAssoc(a, b, a * b);
    MulAssoc(b, a, b);
    MulAssoc(a, a, b * b);
  }

  /** The wider slack makes up for the rounding of the first constant. */
  lemma SlackGap(q: nat, slack: nat)
    requires slack == 4 + 24 * q / WORD64
    ensures slack <= PriceSlack(q) && 2 * q <= WORD64 * (PriceSlack(q) - slack)
  {
  }

  lemma Widened(a: nat, d: nat)
    ensures (a + d) * (a + d) >= a * a + 2 * (a * d)
  {
    assert (a + d) * (a + d) == a * a + 2 * (a * d) + d * d;
  }

  lemma SquareAbove(a: nat, q: nat, first: nat)
    requires q * first <= a * ONE_Q128
    requires 10_000 * ONE_Q128 * ONE_Q128 - 10_001 * ONE_Q128 <= first * first * 10_001
    ensures q * q * 10_000 * ONE_Q128 <= 10_001 * (a * a * ONE_Q128 + q * q)
  {
    MulLe(q * first, a * ONE_Q128, q * first);
    MulLe(q * first, a * ONE_Q128, a * ONE_Q128);
    SquareOfProduct(a, ONE_Q128);
    SquareOfProduct(q, first);
    MulLe(10_000 * ONE_Q128 * ONE_Q128 - 10_001 * ONE_Q128, first * first * 10_001, q * q);
    MulAssoc(q * q, first * first, 10_001);
  }

  /** For every tick the next price is the square root of 1.0001 times this one, within five units
      and 26 parts in 2^64. */
  lemma PriceStep(tick: int)
    requires MIN_TICK <= tick < MAX_TICK
    ensures var p, q := SqrtPrice(tick), SqrtPrice(tick + 1);
      var slack := PriceSlack(q);
      && slack <= p
      && (p - slack) * (p - slack) * 10_001 <= q * q * 10_000 <= (p + slack) * (p + slack) * 10_001
  {
    hide SqrtPrice, MaskValue, Near, PriceSlack;
    var p, q, first := SqrtPrice(tick), SqrtPrice(tick + 1), MaskValue(0);
    if tick < 0 {
      NearBelowZero(tick);
    } else {
      NearAboveZero(tick);
    }
    SqrtPriceRange(tick);
    var slack := 4 + 24 * q / WORD64;
    NearWithinSlack(p, q, slack, first);
    AtMostDouble(p, q, slack, first);
    FirstMask();
    SlackGap(q, slack);
    var d: nat, more: nat := PriceSlack(q) - slack, p + PriceSlack(q);
    Widened(p + slack, d);
    MulLe(p, p + slack, d);
    MulLe(2 * q, WORD64 * d, p);
    MulLe(q, 2 * p, q);
    MulAssoc(WORD64, d, p);
    MulAssoc(2, q, p);
    MulAssoc(2, p, q);
    SquareBelow(p, q, slack, PriceSlack(q), first);
    SquareAbove(p + slack, q, first);
  }
}

/** The tick-to-price table of crates/dex/src/uniswap_v3.rs (sqrt_ratio_at_tick): a chain of
    multiply-and-shift steps, one per set bit of |tick|. */
module TickMath {
  import opened Arith
  import opened Wrappers
  import opened U256Math

  type I32 = x: int | -0x8000_0000 <= x < 0x8000_0000

  const MIN_TICK: int := -887_272
  const MAX_TICK: int := 887_272
  const ONE_Q128: nat := 0x1_0000_0000_0000_0000_0000_0000_0000_0000
  const ROUNDING_UNIT: nat := 0x1_0000_0000
  const MASK_COUNT: nat := 20
  const Q192: nat := 0x1_0000_0000_0000_0000_0000_0000_0000_0000_0000_0000_0000_0000
  const MIN_SQRT_RATIO: nat := 4295128739
  const MAX_SQRT_RATIO: nat := 1461446703485210103287273052203988822378723970342

  /** The constant multiplied in for bit `j` of |tick|. */
  function MaskValue(j: nat): nat
    requires j < MASK_COUNT
  {
    match j
    case 0 => 0xfffcb933bd6fad37aa2d162d1a594001
    case 1 => 0xfff97272373d413259a46990580e213a
    case 2 => 0xfff2e50f5f656932ef12357cf3c7fdcc
    case 3 => 0xffe5caca7e10e4e61c3624eaa0941cd0
    case 4 => 0xffcb9843d60f6159c9db58835c926644
    case 5 => 0xff973b41fa98c081472e6896dfb254c0
    case 6 => 0xff2ea16466c96a3843ec78b326b52861
    case 7 => 0xfe5dee046a99a2a811c461f1969c3053
    case 8 => 0xfcbe86c7900a88aedcffc83b479aa3a4
    case 9 => 0xf987a7253ac413176f2b074cf7815e54
    case 10 => 0xf3392b0822b70005940c7a398e4b70f3
    case 11 => 0xe7159475a2c29b7443b29c7fa6e889d9
    case 12 => 0xd097f3bdfd2022b8845ad8f792aa5825
    case 13 => 0xa9f746462d870fdf8a65dc1f90e061e5
    case 14 => 0x70d869a156d2a1b890bb3df62baf32f7
    case 15 => 0x31be135f97d08fd981231505542fcfa6
    case 16 => 0x9aa508b5b7a84e1c677de54f3e99bc9
    case 17 => 0x5d6af8dedb81196699c329225ee604
    case 18 => 0x2216e584f5fa1ea926041bedfe98
    case _ => 0x48a170391f7dc42444e8fa2
  }

  function MulShift(r: nat, c: nat): nat {
    r * c / ONE_Q128
  }

  /** The ratio after the masks for bits `j` and up, `n` being |tick| shifted right by `j`. */
  function ApplyMasks(r: nat, n: nat, j: nat): nat
    requires j <= MASK_COUNT
    decreases MASK_COUNT - j, r, n
  {
    if j == MASK_COUNT then r
    else ApplyMasks(if n % 2 == 1 then MulShift(r, MaskValue(j)) else r, n / 2, j + 1)
  }

  function Ratio(n: nat): nat {
    ApplyMasks(ONE_Q128, n, 0)
  }

  /** The value of all-ones below bit `j`: the masks 0..j-1 applied one after the other. */
  function AllOnes(j: nat): nat
    requires j < MASK_COUNT
  {
    match j
    case 0 => 0x100000000000000000000000000000000
    case 1 => 0xfffcb933bd6fad37aa2d162d1a594001
    case 2 => 0xfff62bbb6d458ec3c792106391dc463e
    case 3 => 0xffe9114b9cf28d394c3203dbd44eb085
    case 4 => 0xffcede6f1d8be90b88f350424e84e5b7
    case 5 => 0xff9a80c1ada7480b1daa871d7c4d9b36
    case 6 => 0xff31e58d5a53c84fc142023ec1b1dfd7
    case 7 => 0xfe612f8183b1ea21b72fb71b03542ae4
    case 8 => 0xfcc1c2f380536bc67ee1ff564d1080b2
    case 9 => 0xf98ad8c8d7ecc0a3f8a42c9724cffb6a
    case 10 => 0xf33c480189b415235ad119427d89a1f6
    case 11 => 0xe71889a85903fd03cb7cc40bdf371a9c
    case 12 => 0xd09a9f3e93db5812d4820c2fc67a3e3a
    case 13 => 0xa9f973345b9e647c4163af91d00b255f
    case 14 => 0x70d9db6485f04ddd567e07c7b89f8e7c
    case 15 => 0x31beb65d91af63ae717a760be3b374dc
    case 16 => 0x9aa7036fd2355429c4030b032e1cf71
    case 17 => 0x5d6c2af97aaa8de0e5a6bf23f5e547
    case 18 => 0x221755388a6658e120f4a3c503cf
    case _ => 0x48a25e36942a4fc0c1f899f
  }

  lemma AllOnesNext(j: nat)
    requires j + 1 < MASK_COUNT
    ensures AllOnes(j + 1) == MulShift(AllOnes(j), MaskValue(j))
  {
    match j
    case 0 =>
    case 1 =>
    case 2 =>
    case 3 =>
    case 4 =>
    case 5 =>
    case 6 =>
    case 7 =>
    case 8 =>
    case 9 =>
    case 10 =>
    case 11 =>
    case 12 =>
    case 13 =>
    case 14 =>
    case 15 =>
    case 16 =>
    case 17 =>
    case _ =>
  }

  lemma MaskStep(r: nat, n: nat, j: nat, r': nat)
    requires j < MASK_COUNT
    requires r' == if n % 2 == 1 then MulShift(r, MaskValue(j)) else r
    ensures ApplyMasks(r, n, j) == ApplyMasks(r', n / 2, j + 1)
  {
  }

  lemma TopTick()
    ensures Ratio(MAX_TICK) == 18447437462383981825
  {
    MaskStep(ONE_Q128, MAX_TICK, 0, ONE_Q128);
    MaskStep(ONE_Q128, 443636, 1, ONE_Q128);
    MaskStep(ONE_Q128, 221818, 2, ONE_Q128);
    MaskStep(ONE_Q128, 110909, 3, 0xffe5caca7e10e4e61c3624eaa0941cd0);
    MaskStep(0xffe5caca7e10e4e61c3624eaa0941cd0, 55454, 4, 0xffe5caca7e10e4e61c3624eaa0941cd0);
    MaskStep(0xffe5caca7e10e4e61c3624eaa0941cd0, 27727, 5, 0xff7d10c63a977157da4140deb6f31a7b);
    MaskStep(0xff7d10c63a977157da4140deb6f31a7b, 13863, 6, 0xfeac1d4052f7714818b490c1138ea058);
    MaskStep(0xfeac1d4052f7714818b490c1138ea058, 6931, 7, 0xfd0c3654da9e033741d1a9f93707f6f6);
    MaskStep(0xfd0c3654da9e033741d1a9f93707f6f6, 3465, 8, 0xf9d459c5817dbafa9e376ae84dcfeb8b);
    MaskStep(0xf9d459c5817dbafa9e376ae84dcfeb8b, 1732, 9, 0xf9d459c5817dbafa9e376ae84dcfeb8b);
    MaskStep(0xf9d459c5817dbafa9e376ae84dcfeb8b, 866, 10, 0xf9d459c5817dbafa9e376ae84dcfeb8b);
    MaskStep(0xf9d459c5817dbafa9e376ae84dcfeb8b, 433, 11, 0xe183ac4e25d5949966242a64e9c80e2f);
    MaskStep(0xe183ac4e25d5949966242a64e9c80e2f, 216, 12, 0xe183ac4e25d5949966242a64e9c80e2f);
    MaskStep(0xe183ac4e25d5949966242a64e9c80e2f, 108, 13, 0xe183ac4e25d5949966242a64e9c80e2f);
    MaskStep(0xe183ac4e25d5949966242a64e9c80e2f, 54, 14, 0xe183ac4e25d5949966242a64e9c80e2f);
    MaskStep(0xe183ac4e25d5949966242a64e9c80e2f, 27, 15, 0x2bd1a4c5d2a1181aca1ef15e64c2e3cf);
    MaskStep(0x2bd1a4c5d2a1181aca1ef15e64c2e3cf, 13, 16, 0x1a785cbbdc050483e3be5812760be73);
    MaskStep(0x1a785cbbdc050483e3be5812760be73, 6, 17, 0x1a785cbbdc050483e3be5812760be73);
    MaskStep(0x1a785cbbdc050483e3be5812760be73, 3, 18, 0x3865a6455d07d2bc87c5956d2e);
    MaskStep(0x3865a6455d07d2bc87c5956d2e, 1, 19, 0x1000276a221a17501);
  }

  // ----- the masks keep the ratio in range and in order -----

  lemma MulShiftAtMost(r: nat, c: nat)
    requires c <= ONE_Q128
    ensures MulShift(r, c) <= r
  {
    MulLe(c, ONE_Q128, r);
    FloorMono(r * c, r * ONE_Q128, ONE_Q128);
    FloorGe(r * ONE_Q128, ONE_Q128, r + 1);
  }

  lemma MulShiftMono(r: nat, r': nat, c: nat)
    requires r <= r'
    ensures MulShift(r, c) <= MulShift(r', c)
  {
    MulLe(r, r', c);
    FloorMono(r * c, r' * c, ONE_Q128);
  }

  lemma MaskValueRange(j: nat)
    requires j < MASK_COUNT
    ensures 0 < MaskValue(j) < ONE_Q128
  {
  }

  lemma {:induction false} ApplyMasksAtMost(r: nat, n: nat, j: nat)
    requires j <= MASK_COUNT
    ensures ApplyMasks(r, n, j) <= r
    decreases MASK_COUNT - j
  {
    if j < MASK_COUNT {
      MaskValueRange(j);
      MulShiftAtMost(r, MaskValue(j));
      ApplyMasksAtMost(if n % 2 == 1 then MulShift(r, MaskValue(j)) else r, n / 2, j + 1);
    }
  }

  lemma {:induction false} ApplyMasksMono(r: nat, r': nat, n: nat, j: nat)
    requires j <= MASK_COUNT && r <= r'
    ensures ApplyMasks(r, n, j) <= ApplyMasks(r', n, j)
    decreases MASK_COUNT - j
  {
    if j < MASK_COUNT {
      if n % 2 == 1 {
        MulShiftMono(r, r', MaskValue(j));
        ApplyMasksMono(MulShift(r, MaskValue(j)), MulShift(r', MaskValue(j)), n / 2, j + 1);
      } else {
        ApplyMasksMono(r, r', n / 2, j + 1);
      }
    }
  }

  // ----- the gap between neighbouring ticks -----

  /** `lo` is below `hi` by at least one part in 2^14.4, up to an absolute slack. */
  predicate Apart(hi: nat, lo: nat, slack: nat) {
    65536 * lo <= 65533 * hi + slack
  }

  lemma MulShiftApart(hi: nat, lo: nat, slack: nat, c: nat)
    requires Apart(hi, lo, slack) && c <= ONE_Q128
    ensures Apart(MulShift(hi, c), MulShift(lo, c), slack + 65533)
  {
    var hi', lo' := MulShift(hi, c), MulShift(lo, c);
    FloorBounds(hi * c, ONE_Q128);
    FloorBounds(lo * c, ONE_Q128);
    MulLe(65536 * lo, 65533 * hi + slack, c);
    MulDistrib(65533 * hi, slack, c);
    MulAssoc(65536, lo, c);
    MulAssoc(65533, hi, c);
    MulLe(c, ONE_Q128, slack);
    assert 65536 * lo' * ONE_Q128 <= (65533 * (hi' + 1) + slack) * ONE_Q128;
  }

  lemma {:induction false} ApplyMasksApart(hi: nat, lo: nat, slack: nat, n: nat, j: nat)
    requires j <= MASK_COUNT && Apart(hi, lo, slack)
    ensures Apart(ApplyMasks(hi, n, j), ApplyMasks(lo, n, j), slack + 65533 * (MASK_COUNT - j))
    decreases MASK_COUNT - j
  {
    if j < MASK_COUNT {
      MaskValueRange(j);
      var c := MaskValue(j);
      MulShiftApart(hi, lo, slack, c);
      if n % 2 == 1 {
        ApplyMasksApart(MulShift(hi, c), MulShift(lo, c), slack + 65533, n / 2, j + 1);
      } else {
        ApplyMasksApart(hi, lo, slack, n / 2, j + 1);
      }
    }
  }

  /** Each constant is smaller, by the gap, than everything the bits below it can do. */
  lemma ConstantBelowAllOnes(j: nat)
    requires j < MASK_COUNT
    ensures Apart(AllOnes(j), MulShift(ONE_Q128, MaskValue(j)), 0)
  {
    match j
    case 0 =>
    case 1 =>
    case 2 =>
    case 3 =>
    case 4 =>
    case 5 =>
    case 6 =>
    case 7 =>
    case 8 =>
    case 9 =>
    case 10 =>
    case 11 =>
    case 12 =>
    case 13 =>
    case 14 =>
    case 15 =>
    case 16 =>
    case 17 =>
    case 18 =>
    case _ =>
  }

  /** Adding one flips the trailing ones of |tick| to zeros and the next bit to one; the
      bits above are the same on both sides. */
  lemma {:induction false} CarryApart(n: nat, j: nat)
    requires j < MASK_COUNT && n + 1 < Pow2(MASK_COUNT - j)
    ensures Apart(ApplyMasks(AllOnes(j), n, j), ApplyMasks(ONE_Q128, n + 1, j), 65533 * MASK_COUNT)
    decreases MASK_COUNT - j
  {
    hide MaskValue, AllOnes, ApplyMasks, MulShift, Apart;
    if n % 2 == 0 {
      CarryStops(n, j);
    } else {
      assert (n + 1) / 2 == n / 2 + 1;
      MaskStep(AllOnes(j), n, j, MulShift(AllOnes(j), MaskValue(j)));
      MaskStep(ONE_Q128, n + 1, j, ONE_Q128);
      AllOnesNext(j);
      CarryApart(n / 2, j + 1);
    }
  }

  lemma CarryStops(n: nat, j: nat)
    requires j < MASK_COUNT && n % 2 == 0
    ensures Apart(ApplyMasks(AllOnes(j), n, j), ApplyMasks(ONE_Q128, n + 1, j), 65533 * MASK_COUNT)
  {
    hide MaskValue, AllOnes, ApplyMasks, MulShift;
    var c := MulShift(ONE_Q128, MaskValue(j));
    MaskStep(AllOnes(j), n, j, AllOnes(j));
    MaskStep(ONE_Q128, n + 1, j, c);
    ConstantBelowAllOnes(j);
    assert (n + 1) / 2 == n / 2;
    ApplyMasksApart(AllOnes(j), c, 0, n / 2, j + 1);
  }

  function Pow2(k: nat): nat {
    if k == 0 then 1 else 2 * Pow2(k - 1)
  }

  lemma NeighboursApart(n: nat)
    requires n < MAX_TICK
    ensures Apart(Ratio(n), Ratio(n + 1), 65533 * MASK_COUNT)
  {
    assert Pow2(2) == 4;
    assert Pow2(4) == 16;
    assert Pow2(6) == 64;
    assert Pow2(8) == 256;
    assert Pow2(10) == 1024;
    assert Pow2(12) == 4096;
    assert Pow2(14) == 16384;
    assert Pow2(16) == 65536;
    assert Pow2(18) == 262144;
    assert Pow2(20) == 1048576;
    CarryApart(n, 0);
  }

  /** Between 2^64 and 2^128, and falling by at least 2^32 from one tick to the next. */
  lemma {:induction false} RatioRange(n: nat)
    requires n <= MAX_TICK
    ensures 18447437462383981825 <= Ratio(n) <= ONE_Q128
    decreases MAX_TICK - n
  {
    ApplyMasksAtMost(ONE_Q128, n, 0);
    if n == MAX_TICK {
      TopTick();
    } else {
      RatioRange(n + 1);
      NeighboursApart(n);
    }
  }

  lemma RatioFalls(n: nat)
    requires n < MAX_TICK
    ensures Ratio(n + 1) + ROUNDING_UNIT <= Ratio(n)
    ensures Ratio(n + 1) * 65536 <= Ratio(n) * 65534
  {
    RatioRange(n);
    NeighboursApart(n);
  }

  // ----- sqrt_ratio_at_tick -----

  predicate InRange(tick: int) {
    MIN_TICK <= tick <= MAX_TICK
  }

  function Abs(x: int): nat {
    if x < 0 then -x else x
  }

  /** The Q64.96 square-root price of a tick. */
  function SqrtPrice(tick: int): nat
    requires InRange(tick)
  {
    var ratio := Ratio(Abs(tick));
    RatioRange(Abs(tick));
    CeilDiv(if tick > 0 then U256_MAX / ratio else ratio, ROUNDING_UNIT)
  }

  lemma NextTickNegative(tick: int)
    requires InRange(tick) && tick < 0
    ensures SqrtPrice(tick) < SqrtPrice(tick + 1)
  {
    RatioFalls(Abs(tick) - 1);
    CeilGap(Ratio(Abs(tick)), Ratio(Abs(tick) - 1), ROUNDING_UNIT);
  }

  lemma CeilGap(a: nat, b: nat, unit: nat)
    requires unit > 0 && a + unit <= b
    ensures CeilDiv(a, unit) < CeilDiv(b, unit)
  {
    CeilBounds(a, unit);
    CeilBounds(b, unit);
    assert CeilDiv(a, unit) * unit < CeilDiv(b, unit) * unit;
    MulCancelLt(CeilDiv(a, unit), CeilDiv(b, unit), unit);
  }

  /** Inverting keeps the gap: 2^256 / lo exceeds 2^256 / hi by far more than 2^32. */
  lemma InverseGap(hi: nat, lo: nat)
    requires 0 < lo && hi <= ONE_Q128 && lo * 65536 <= hi * 65534
    ensures U256_MAX / hi + ROUNDING_UNIT <= U256_MAX / lo
  {
    var q := U256_MAX / hi;
    FloorGe(U256_MAX, hi, 0xffff_ffff);
    FloorBounds(U256_MAX, hi);
    FloorGe(U256_MAX, hi, 32768 * ROUNDING_UNIT);
    MulLe(hi, ONE_Q128, 32768 * ROUNDING_UNIT);
    assert 32768 * ROUNDING_UNIT <= q;
    MulLe(lo * 65536, hi * 65534, q + ROUNDING_UNIT);
    assert lo * 65536 * (q + ROUNDING_UNIT) <= hi * 65534 * (q + ROUNDING_UNIT);
    assert 65534 * (q + ROUNDING_UNIT) <= 65536 * q;
    MulLe(65534 * (q + ROUNDING_UNIT), 65536 * q, hi);
    assert (q + ROUNDING_UNIT) * lo <= q * hi;
    FloorGe(U256_MAX, lo, q + ROUNDING_UNIT);
  }

  lemma NextTickPositive(tick: int)
    requires 0 < tick < MAX_TICK
    ensures SqrtPrice(tick) < SqrtPrice(tick + 1)
  {
    hide Ratio, CeilDiv;
    RatioFalls(tick);
    RatioRange(tick);
    RatioRange(tick + 1);
    InverseGap(Ratio(tick), Ratio(tick + 1));
    CeilGap(U256_MAX / Ratio(tick), U256_MAX / Ratio(tick + 1), ROUNDING_UNIT);
  }

  lemma NextTick(tick: int)
    requires MIN_TICK <= tick < MAX_TICK
    ensures SqrtPrice(tick) < SqrtPrice(tick + 1)
  {
    if tick < 0 {
      NextTickNegative(tick);
    } else if tick == 0 {
      TickZero();
      RatioFalls(0);
      RatioRange(1);
      InverseGap(Ratio(0), Ratio(1));
      CeilGap(U256_MAX / Ratio(0), U256_MAX / Ratio(1), ROUNDING_UNIT);
    } else {
      NextTickPositive(tick);
    }
  }

  lemma {:induction false} NoBits(r: nat, j: nat)
    requires j <= MASK_COUNT
    ensures ApplyMasks(r, 0, j) == r
    decreases MASK_COUNT - j
  {
    if j < MASK_COUNT {
      NoBits(r, j + 1);
    }
  }

  lemma TickZero()
    ensures Ratio(0) == ONE_Q128
  {
    NoBits(ONE_Q128, 0);
  }

  /** Distinct ticks have distinct prices, in tick order, over the whole tick range. */
  lemma {:induction false} SqrtPriceStrictlyIncreasing(lower: int, upper: int)
    requires InRange(lower) && InRange(upper) && lower < upper
    ensures SqrtPrice(lower) < SqrtPrice(upper)
    decreases upper - lower
  {
    NextTick(upper - 1);
    if lower < upper - 1 {
      SqrtPriceStrictlyIncreasing(lower, upper - 1);
    }
  }

  lemma SqrtPriceEnds()
    ensures SqrtPrice(MIN_TICK) == MIN_SQRT_RATIO
    ensures SqrtPrice(0) == 0x1_0000_0000_0000_0000_0000_0000
    ensures SqrtPrice(MAX_TICK) == MAX_SQRT_RATIO
  {
    TopTick();
    TickZero();
  }

  /** Every price lies in the range Uniswap v3 documents, with both ends attained. */
  lemma SqrtPriceRange(tick: int)
    requires InRange(tick)
    ensures MIN_SQRT_RATIO <= SqrtPrice(tick) <= MAX_SQRT_RATIO
  {
    SqrtPriceEnds();
    if MIN_TICK < tick {
      SqrtPriceStrictlyIncreasing(MIN_TICK, tick);
    }
    if tick < MAX_TICK {
      SqrtPriceStrictlyIncreasing(tick, MAX_TICK);
    }
  }

  /** The prices of t and -t are reciprocal (their product is 2^192) up to rounding. */
  lemma SqrtPriceReciprocal(tick: int)
    requires 0 < tick <= MAX_TICK
    ensures var a, b := SqrtPrice(-tick), SqrtPrice(tick);
      Q192 - 0x1_0000_0000_0000_0000 <= a * b < Q192 + a + b
  {
    var f := Ratio(tick);
    RatioRange(tick);
    var m := U256_MAX / f;
    FloorBounds(U256_MAX, f);
    FloorGe(U256_MAX, f, 1);
    CeilBounds(f, ROUNDING_UNIT);
    CeilBounds(m, ROUNDING_UNIT);
    ReciprocalBound(f, m, SqrtPrice(-tick), SqrtPrice(tick));
  }

  lemma ReciprocalBound(f: nat, m: nat, a: nat, b: nat)
    requires 0 < f <= ONE_Q128 && 0 < m && m * f <= U256_MAX < m * f + f
    requires f <= a * ROUNDING_UNIT < f + ROUNDING_UNIT
    requires m <= b * ROUNDING_UNIT < m + ROUNDING_UNIT
    ensures Q192 - 0x1_0000_0000_0000_0000 <= a * b < Q192 + a + b
  {
    ProductOfCeilings(f, m, a, b, ROUNDING_UNIT);
    ProductOfPredecessors(f, m, a - 1, b - 1, ROUNDING_UNIT);
  }

  lemma ProductOfCeilings(f: nat, m: nat, a: nat, b: nat, unit: nat)
    requires f <= a * unit && m <= b * unit
    ensures m * f <= a * b * (unit * unit)
  {
    MulLe(m, b * unit, f);
    MulLe(f, a * unit, b * unit);
    Interchange(a, b, unit);
  }

  lemma ProductOfPredecessors(f: nat, m: nat, a: nat, b: nat, unit: nat)
    requires a * unit <= f && b * unit <= m
    ensures a * b * (unit * unit) <= m * f
  {
    MulLe(b * unit, m, f);
    MulLe(a * unit, f, b * unit);
    Interchange(a, b, unit);
  }

  lemma Interchange(a: nat, b: nat, unit: nat)
    ensures a * unit * (b * unit) == a * b * (unit * unit)
  {
    MulAssoc(a * unit, b, unit);
    MulAssoc(a, unit, b);
    MulAssoc(a * b, unit, unit);
  }

  /** The function of the source: an error outside the tick range, the price inside. */
  function SqrtRatioAtTick(tick: I32): (r: Result<U256>)
    ensures r.Ok? <==> InRange(tick)
  {
    if InRange(tick) then SqrtPriceRange(tick); Ok(SqrtPrice(tick)) else Err
  }

  /** One turn of the source's loop over the masks: multiply, check for overflow, shift. */
  function CheckedMask(ratio: U256, isSet: bool, j: nat): Result<U256>
    requires j < MASK_COUNT
  {
    if isSet then
      MaskValueRange(j);
      var product :- CheckedMul(ratio, MaskValue(j));
      Ok(product / ONE_Q128)
    else
      Ok(ratio)
  }

  /** The overflow check never fires, and the turn is one step of `ApplyMasks`. */
  lemma CheckedMaskIsStep(ratio: U256, n: nat, j: nat)
    requires j < MASK_COUNT && ratio <= ONE_Q128
    ensures var next := CheckedMask(ratio, n % 2 != 0, j);
      next.Ok? && next.value <= ONE_Q128 && ApplyMasks(ratio, n, j) == ApplyMasks(next.value, n / 2, j + 1)
  {
    var c := MaskValue(j);
    MaskValueRange(j);
    MulShiftAtMost(ratio, c);
    assert ratio * c <= U256_MAX by {
      MulLe(ratio, ONE_Q128, c);
    }
    CheckedMulIs(ratio, c);
    MaskStep(ratio, n, j, if n % 2 == 1 then MulShift(ratio, c) else ratio);
  }

  lemma MaskStart(n: nat)
    ensures Ratio(n) == ApplyMasks(if n % 2 != 0 then MaskValue(0) else ONE_Q128, n / 2, 1)
  {
    MaskStep(ONE_Q128, n, 0, if n % 2 == 1 then MulShift(ONE_Q128, MaskValue(0)) else ONE_Q128);
  }

  /** The tail of the source's function: invert above tick zero, then shift right rounding up. */
  function FinishRatio(tick: int, ratio: nat): nat
    requires ratio > 0
  {
    var inverted: nat := if tick > 0 then U256_MAX / ratio else ratio;
    if inverted % ROUNDING_UNIT == 0 then inverted / ROUNDING_UNIT else inverted / ROUNDING_UNIT + 1
  }

  lemma FinishIsSqrtPrice(tick: I32)
    requires InRange(tick)
    ensures Ratio(Abs(tick)) > 0 && SqrtRatioAtTick(tick) == Ok(FinishRatio(tick, Ratio(Abs(tick))))
  {
    RatioRange(Abs(tick));
  }

  /** The loop over the masks, run on |tick|. */
  method ComputeRatio(absTick: nat) returns (r: Result<U256>)
    ensures r.Ok? && r.value == Ratio(absTick)
  {
    var ratio: U256 := if absTick % 2 != 0 then 0xfffcb933bd6fad37aa2d162d1a594001 else ONE_Q128;
    assert ratio == if absTick % 2 != 0 then MaskValue(0) else ONE_Q128;
    hide MaskValue, ApplyMasks, Ratio, CheckedMask;
    MaskStart(absTick);
    var mask, j := 2, 1;
    while j < MASK_COUNT
      invariant 1 <= j <= MASK_COUNT
      invariant mask > 0 && ratio <= ONE_Q128
      invariant Ratio(absTick) == ApplyMasks(ratio, absTick / mask, j)
    {
      CheckedMaskIsStep(ratio, absTick / mask, j);
      var next := CheckedMask(ratio, absTick / mask % 2 != 0, j);
      if next.Err? {
        return Err;
      }
      NestedFloor(absTick, mask, 2);
      ratio, mask, j := next.value, mask * 2, j + 1;
    }
    r := Ok(ratio);
  }

  /** crates/dex/src/uniswap_v3.rs:534-586: the overflow check never fires, and the result is
      the price of the tick. */
  method ComputeSqrtRatioAtTick(tick: I32) returns (r: Result<U256>)
    ensures r == SqrtRatioAtTick(tick)
  {
    if !(MIN_TICK <= tick <= MAX_TICK) {
      return Err;
    }
    var ratio := ComputeRatio(Abs(tick));
    FinishIsSqrtPrice(tick);
    r := Ok(FinishRatio(tick, ratio.value));
  }
}

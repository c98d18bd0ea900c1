/** The exact, unbounded arithmetic of one concentrated-liquidity range
    (Uniswap v3 whitepaper, section 6.2), and the laws every swap proof rests on.

    `zfo` ("zero for one") selects the direction: token0 in, price falling, or
    token1 in, price rising. Square-root prices are Q64.96 numbers. */
module SwapMath {
  import opened Arith

  const Q96: nat := 0x1_0000_0000_0000_0000_0000_0000
  const FEE_DENOMINATOR: nat := 1_000_000

  /** `t` lies at `s` or further along in the direction of the swap. */
  predicate Toward(zfo: bool, s: nat, t: nat) {
    if zfo then t <= s else s <= t
  }

  /** Token0 between two prices: n * (hi - lo) / (hi * lo), where n = liquidity * 2^96. */
  function Token0Up(n: nat, lo: nat, hi: nat): nat
    requires 0 < lo <= hi
  {
    CeilDiv(n * (hi - lo), hi * lo)
  }

  function Token0Down(n: nat, lo: nat, hi: nat): nat
    requires 0 < lo <= hi
  {
    FloorDiv(n * (hi - lo), hi * lo)
  }

  /** Token1 between two prices: l * (hi - lo) / 2^96. */
  function Token1Up(l: nat, lo: nat, hi: nat): nat
    requires lo <= hi
  {
    CeilDiv(l * (hi - lo), Q96)
  }

  function Token1Down(l: nat, lo: nat, hi: nat): nat
    requires lo <= hi
  {
    l * (hi - lo) / Q96
  }

  /** The input that moves the price from `s` to `t`, rounded against the trader. */
  function AmountIn(zfo: bool, l: nat, s: nat, t: nat): nat
    requires s > 0 && t > 0 && Toward(zfo, s, t)
  {
    if zfo then Token0Up(l * Q96, t, s) else Token1Up(l, s, t)
  }

  /** The output paid for that move, rounded against the trader. */
  function AmountOut(zfo: bool, l: nat, s: nat, t: nat): nat
    requires s > 0 && t > 0 && Toward(zfo, s, t)
  {
    if zfo then Token1Down(l, t, s) else Token0Down(l * Q96, s, t)
  }

  /** The price after `x` (fee already taken) has been absorbed. */
  function NextPrice(zfo: bool, l: nat, s: nat, x: nat): nat
    requires l > 0 && s > 0
  {
    if zfo then CeilDiv(l * Q96 * s, l * Q96 + x * s) else s + x * Q96 / l
  }

  // ----- the reach law: NextPrice is the furthest price the input pays for -----

  lemma Token0Reach(n: nat, s: nat, x: nat, t: nat)
    requires n > 0 && 0 < t <= s
    ensures CeilDiv(n * s, n + x * s) <= t <==> Token0Up(n, t, s) <= x
  {
    CeilLe(n * s, n + x * s, t);
    CeilLe(n * (s - t), s * t, x);
    assert t * (n + x * s) == n * t + x * (s * t) by {
      MulAssoc(x, s, t);
    }
    assert n * (s - t) == n * s - n * t;
  }

  lemma Token0NextBounds(n: nat, s: nat, x: nat)
    requires n > 0 && s > 0
    ensures 0 < CeilDiv(n * s, n + x * s) <= s
  {
    assert s * (n + x * s) == n * s + x * s * s by {
      MulAssoc(x, s, s);
    }
    CeilLe(n * s, n + x * s, s);
    CeilLe(n * s, n + x * s, 0);
  }

  lemma Token1Reach(l: nat, s: nat, x: nat, t: nat)
    requires l > 0 && s <= t
    ensures t <= s + x * Q96 / l <==> Token1Up(l, s, t) <= x
  {
    FloorGe(x * Q96, l, t - s);
    CeilLe(l * (t - s), Q96, x);
  }

  lemma NextPriceToward(zfo: bool, l: nat, s: nat, x: nat)
    requires l > 0 && s > 0
    ensures NextPrice(zfo, l, s, x) > 0 && Toward(zfo, s, NextPrice(zfo, l, s, x))
  {
    if zfo {
      Token0NextBounds(l * Q96, s, x);
    }
  }

  /** A price is reachable with `x` exactly when the rounded-up input for it is at most `x`. */
  lemma Reach(zfo: bool, l: nat, s: nat, x: nat, t: nat)
    requires l > 0 && s > 0 && t > 0 && Toward(zfo, s, t)
    ensures Toward(zfo, t, NextPrice(zfo, l, s, x)) <==> AmountIn(zfo, l, s, t) <= x
  {
    if zfo {
      Token0Reach(l * Q96, s, x, t);
    } else {
      Token1Reach(l, s, x, t);
    }
  }

  // ----- splitting a move at an intermediate price -----

  lemma Token0Chain(n: nat, lo: nat, mid: nat, hi: nat)
    requires 0 < lo <= mid <= hi
    ensures n * (hi - mid) * lo + n * (mid - lo) * hi == n * (hi - lo) * mid
  {
    var a, b, c := n * hi, n * mid, n * lo;
    assert n * (hi - mid) * lo == a * lo - b * lo;
    assert n * (mid - lo) * hi == b * hi - c * hi;
    assert n * (hi - lo) * mid == a * mid - c * mid;
    assert a * lo == c * hi && b * hi == a * mid && b * lo == c * mid by {
      MulAssoc(n, hi, lo);
      MulAssoc(n, mid, hi);
      MulAssoc(n, mid, lo);
    }
  }

  lemma Token0UpSplit(n: nat, lo: nat, mid: nat, hi: nat)
    requires 0 < lo <= mid <= hi
    ensures Token0Up(n, lo, hi) <= Token0Up(n, lo, mid) + Token0Up(n, mid, hi)
  {
    var p, q := Token0Up(n, mid, hi), Token0Up(n, lo, mid);
    var u, v, w := n * (hi - mid), n * (mid - lo), n * (hi - lo);
    CeilLe(u, hi * mid, p);
    CeilLe(v, mid * lo, q);
    assert u * lo <= p * (hi * lo) * mid by {
      MulLe(u, p * (hi * mid), lo);
      Regroup(p, hi, mid, lo);
    }
    assert v * hi <= q * (hi * lo) * mid by {
      MulLe(v, q * (mid * lo), hi);
      Regroup(q, lo, mid, hi);
    }
    Token0Chain(n, lo, mid, hi);
    assert w * mid <= (p + q) * (hi * lo) * mid by {
      MulDistrib(p, q, hi * lo);
      MulDistrib(p * (hi * lo), q * (hi * lo), mid);
    }
    MulCancelLe(w, (p + q) * (hi * lo), mid);
    CeilLe(w, hi * lo, p + q);
  }

  lemma Regroup(p: nat, a: nat, m: nat, b: nat)
    ensures p * (a * m) * b == p * (a * b) * m
    ensures p * (m * a) * b == p * (b * a) * m
  {
  }

  lemma Token0DownSplit(n: nat, lo: nat, mid: nat, hi: nat)
    requires 0 < lo <= mid <= hi
    ensures Token0Down(n, lo, mid) + Token0Down(n, mid, hi) <= Token0Down(n, lo, hi)
  {
    var p, q := Token0Down(n, mid, hi), Token0Down(n, lo, mid);
    var u, v, w := n * (hi - mid), n * (mid - lo), n * (hi - lo);
    FloorGe(u, hi * mid, p);
    FloorGe(v, mid * lo, q);
    assert p * (hi * lo) * mid <= u * lo by {
      MulLe(p * (hi * mid), u, lo);
      Regroup(p, hi, mid, lo);
    }
    assert q * (hi * lo) * mid <= v * hi by {
      MulLe(q * (mid * lo), v, hi);
      Regroup(q, lo, mid, hi);
    }
    Token0Chain(n, lo, mid, hi);
    assert (p + q) * (hi * lo) * mid <= w * mid by {
      MulDistrib(p, q, hi * lo);
      MulDistrib(p * (hi * lo), q * (hi * lo), mid);
    }
    MulCancelLe((p + q) * (hi * lo), w, mid);
    FloorGe(w, hi * lo, p + q);
  }

  /** Rounding up at a stop on the way never makes the whole move cheaper. */
  lemma AmountInSplit(zfo: bool, l: nat, s: nat, m: nat, t: nat)
    requires s > 0 && m > 0 && t > 0 && Toward(zfo, s, m) && Toward(zfo, m, t)
    ensures AmountIn(zfo, l, s, t) <= AmountIn(zfo, l, s, m) + AmountIn(zfo, l, m, t)
  {
    if zfo {
      Token0UpSplit(l * Q96, t, m, s);
    } else {
      assert l * (t - s) == l * (m - s) + l * (t - m);
      CeilSubAdditive(l * (m - s), l * (t - m), Q96);
    }
  }

  /** Rounding down at a stop on the way never makes the whole move pay more. */
  lemma AmountOutSplit(zfo: bool, l: nat, s: nat, m: nat, t: nat)
    requires s > 0 && m > 0 && t > 0 && Toward(zfo, s, m) && Toward(zfo, m, t)
    ensures AmountOut(zfo, l, s, m) + AmountOut(zfo, l, m, t) <= AmountOut(zfo, l, s, t)
  {
    if zfo {
      assert l * (s - t) == l * (s - m) + l * (m - t);
      FloorSuperAdditive(l * (s - m), l * (m - t), Q96);
    } else {
      Token0DownSplit(l * Q96, s, m, t);
    }
  }
}

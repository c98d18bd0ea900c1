/** Integer division with directed rounding, and the few multiplication facts every
    proof about quotes is built from. */
module Arith {

  /** Division rounding down. */
  function FloorDiv(a: nat, b: nat): nat
    requires b > 0
  {
    a / b
  }

  /** Division rounding up. */
  function CeilDiv(a: nat, b: nat): (q: nat)
    requires b > 0
  {
    if a % b == 0 then a / b else a / b + 1
  }

  lemma MulLe(a: int, b: int, c: nat)
    requires a <= b
    ensures a * c <= b * c
  {
  }

  lemma MulLt(a: nat, b: nat, c: nat)
    requires a < b && c > 0
    ensures a * c < b * c
  {
  }

  lemma MulCancelLe(a: int, b: int, c: int)
    requires c > 0 && a * c <= b * c
    ensures a <= b
  {
  }

  lemma MulCancelLt(a: int, b: int, c: int)
    requires c > 0 && a * c < b * c
    ensures a < b
  {
  }

  /** A floor quotient is pinned by its two neighbouring multiples. */
  lemma FloorBounds(a: nat, b: nat)
    requires b > 0
    ensures (a / b) * b <= a < (a / b) * b + b
  {
  }

  /** The Galois law of floor division. */
  lemma FloorGe(a: nat, b: nat, k: nat)
    requires b > 0
    ensures k <= a / b <==> k * b <= a
  {
    FloorBounds(a, b);
    if k <= a / b {
      MulLe(k, a / b, b);
    } else {
      MulLe(a / b + 1, k, b);
    }
  }

  /** The Galois law of ceiling division. */
  lemma CeilLe(a: nat, b: nat, k: nat)
    requires b > 0
    ensures CeilDiv(a, b) <= k <==> a <= k * b
  {
    FloorBounds(a, b);
    var q := a / b;
    assert a == q * b + a % b;
    if CeilDiv(a, b) <= k {
      MulLe(CeilDiv(a, b), k, b);
      assert (q + 1) * b == q * b + b;
    } else if k < q {
      MulLe(k + 1, q, b);
      assert (k + 1) * b == k * b + b;
    }
  }

  lemma CeilBounds(a: nat, b: nat)
    requires b > 0
    ensures a <= CeilDiv(a, b) * b < a + b
  {
    CeilLe(a, b, CeilDiv(a, b));
    if CeilDiv(a, b) > 0 {
      CeilLe(a, b, CeilDiv(a, b) - 1);
      assert (CeilDiv(a, b) - 1) * b == CeilDiv(a, b) * b - b;
    }
  }

  lemma FloorMono(a: nat, a': nat, b: nat)
    requires b > 0 && a <= a'
    ensures a / b <= a' / b
  {
    FloorBounds(a, b);
    FloorGe(a', b, a / b);
  }

  lemma CeilMono(a: nat, a': nat, b: nat)
    requires b > 0 && a <= a'
    ensures CeilDiv(a, b) <= CeilDiv(a', b)
  {
    CeilBounds(a', b);
    CeilLe(a, b, CeilDiv(a', b));
  }

  lemma MulAssoc(a: int, b: int, c: int)
    ensures a * b * c == a * (b * c)
    ensures a * b * c == a * c * b
  {
  }

  lemma MulDistrib(a: int, b: int, c: int)
    ensures (a + b) * c == a * c + b * c
  {
  }

  /** Rounding down twice is rounding down once. */
  lemma NestedFloor(a: nat, b: nat, c: nat)
    requires b > 0 && c > 0
    ensures b * c > 0 && a / b / c == a / (b * c)
  {
    var whole := FloorDiv(a, b);
    NestedFloorDiv(a, b, c, whole);
  }

  /** The Galois law, of the named division. */
  lemma FloorDivGe(a: nat, b: nat, k: nat)
    requires b > 0
    ensures k <= FloorDiv(a, b) <==> k * b <= a
  {
    FloorGe(a, b, k);
  }

  lemma NestedFloorDiv(a: nat, b: nat, c: nat, whole: nat)
    requires b > 0 && c > 0 && whole == FloorDiv(a, b)
    ensures b * c > 0 && FloorDiv(whole, c) == FloorDiv(a, b * c)
  {
    hide FloorDiv;
    var p, q := FloorDiv(whole, c), FloorDiv(a, b * c);
    assert p <= q by {
      FloorDivGe(whole, c, p);
      FloorDivGe(a, b, p * c);
      MulAssoc(p, b, c);
      FloorDivGe(a, b * c, p);
    }
    assert q <= p by {
      FloorDivGe(a, b * c, q);
      MulAssoc(q, b, c);
      FloorDivGe(a, b, q * c);
      FloorDivGe(whole, c, q);
    }
  }

  /** Rounding up twice is rounding up once. */
  lemma NestedCeil(a: nat, b: nat, c: nat)
    requires b > 0 && c > 0
    ensures b * c > 0 && CeilDiv(CeilDiv(a, b), c) == CeilDiv(a, b * c)
  {
    var p, q := CeilDiv(CeilDiv(a, b), c), CeilDiv(a, b * c);
    assert q <= p by {
      CeilLe(CeilDiv(a, b), c, p);
      CeilLe(a, b, p * c);
      MulAssoc(p, b, c);
      CeilLe(a, b * c, p);
    }
    assert p <= q by {
      CeilLe(a, b * c, q);
      MulAssoc(q, b, c);
      CeilLe(a, b, q * c);
      CeilLe(CeilDiv(a, b), c, q);
    }
  }

  lemma FloorSuperAdditive(a: nat, b: nat, c: nat)
    requires c > 0
    ensures a / c + b / c <= (a + b) / c
  {
    FloorBounds(a, c);
    FloorBounds(b, c);
    MulDistrib(a / c, b / c, c);
    FloorGe(a + b, c, a / c + b / c);
  }

  lemma CeilSubAdditive(a: nat, b: nat, c: nat)
    requires c > 0
    ensures CeilDiv(a + b, c) <= CeilDiv(a, c) + CeilDiv(b, c)
  {
    var p, q := CeilDiv(a, c), CeilDiv(b, c);
    assert a + b <= (p + q) * c by {
      CeilBounds(a, c);
      CeilBounds(b, c);
      MulDistrib(p, q, c);
    }
    CeilLe(a + b, c, p + q);
  }
}

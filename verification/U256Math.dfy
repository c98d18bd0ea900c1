/** The fixed-width numbers, and 256-bit unsigned arithmetic with 512-bit intermediates as the
    quoters use it (crates/dex/src/uniswap_v3.rs, from div_round to u512_to_u256). */
module U256Math {
  import opened Arith
  import opened Wrappers

  const U256_MAX: int := 0xffff_ffff_ffff_ffff_ffff_ffff_ffff_ffff_ffff_ffff_ffff_ffff_ffff_ffff_ffff_ffff
  const U512_MAX: int := (U256_MAX + 1) * (U256_MAX + 1) - 1

  type U256 = x: int | 0 <= x <= U256_MAX
  type U512 = x: int | 0 <= x <= U512_MAX
  type U64 = x: int | 0 <= x < 0x1_0000_0000_0000_0000
  type U32 = x: int | 0 <= x < 0x1_0000_0000
  type Address = x: int | 0 <= x < 0x1_0000_0000_0000_0000_0000_0000_0000_0000_0000_0000

  /** Basis points in a whole. */
  const BPS: nat := 10_000

  // ----- products and quotients -----
  //
  // Defined by repeated addition and subtraction, so that a quote unfolds to linear arithmetic and
  // the solver meets a product or a quotient only where a proof names it.

  function Product(a: nat, b: nat): nat
    decreases b
  {
    if b == 0 then 0 else Product(a, b - 1) + a
  }

  function Quotient(a: nat, b: nat): (q: nat)
    requires b > 0
    ensures q <= a
    decreases a
  {
    if a < b then 0 else Quotient(a - b, b) + 1
  }

  lemma {:induction false} ProductIs(a: nat, b: nat)
    ensures Product(a, b) == a * b
    decreases b
  {
    if b > 0 {
      ProductIs(a, b - 1);
    }
  }

  lemma {:induction false} QuotientBounds(a: nat, b: nat)
    requires b > 0
    ensures Quotient(a, b) * b <= a < Quotient(a, b) * b + b
    decreases a
  {
    if a >= b {
      QuotientBounds(a - b, b);
      MulDistrib(Quotient(a - b, b), 1, b);
    }
  }

  lemma QuotientIs(a: nat, b: nat)
    requires b > 0
    ensures Quotient(a, b) == a / b
  {
    hide Quotient;
    var q := Quotient(a, b);
    QuotientBounds(a, b);
    FloorGe(a, b, q);
    FloorGe(a, b, q + 1);
    MulDistrib(q, 1, b);
  }

  function CheckedAdd(a: U256, b: U256): (r: Result<U256>)
    ensures r.Ok? <==> a + b <= U256_MAX
    ensures r.Ok? ==> r.value == a + b
  {
    if a + b <= U256_MAX then Ok(a + b) else Err
  }

  function CheckedMul(a: U256, b: U256): Result<U256> {
    Narrow(Product(a, b))
  }

  lemma CheckedMulIs(a: U256, b: U256)
    ensures CheckedMul(a, b) == if a * b <= U256_MAX then Ok(a * b) else Err
    ensures 0 <= a * b
  {
    ProductIs(a, b);
    MulLe(0, a, b);
  }

  function SaturatingSub(a: U256, b: U256): U256 {
    if b <= a then a - b else 0
  }

  function SaturatingAdd(a: U256, b: U256): U256 {
    if a + b <= U256_MAX then a + b else U256_MAX
  }

  function SaturatingMul(a: U256, b: U256): U256 {
    if a * b <= U256_MAX then a * b else U256_MAX
  }

  /** Narrowing a 512-bit quotient fails exactly when it does not fit. */
  function Narrow(v: nat): (r: Result<U256>)
    ensures r.Ok? <==> v <= U256_MAX
    ensures r.Ok? ==> r.value == v
  {
    if v <= U256_MAX then Ok(v) else Err
  }

  function MulDiv(a: U256, b: U256, denominator: U256): Result<U256> {
    if denominator == 0 then Err else Narrow(Quotient(Product(a, b), denominator))
  }

  /** The quotient is narrowed before the rounding unit is added, so both may overflow. */
  function RoundUp(numerator: nat, denominator: nat): Result<U256>
    requires denominator > 0
  {
    var quotient := Quotient(numerator, denominator);
    var value :- Narrow(quotient);
    if Product(quotient, denominator) == numerator then Ok(value) else CheckedAdd(value, 1)
  }

  function MulDivRoundingUp(a: U256, b: U256, denominator: U512): Result<U256> {
    if denominator == 0 then Err else RoundUp(Product(a, b), denominator)
  }

  function DivRoundUp(numerator: U256, denominator: U256): Result<U256> {
    if denominator == 0 then Err else RoundUp(numerator, denominator)
  }

  lemma MulDivIs(a: U256, b: U256, denominator: U256)
    requires denominator > 0
    ensures 0 <= a * b && MulDiv(a, b, denominator) == Narrow(a * b / denominator)
  {
    ProductIs(a, b);
    QuotientIs(a * b, denominator);
  }

  /** Products of two 256-bit numbers fit the 512-bit intermediate, with room for one more. */
  lemma ProductFits(a: U256, b: U256)
    ensures 0 <= a * b && a * b + U256_MAX <= U512_MAX
  {
    MulLe(a, U256_MAX, b);
    MulLe(b, U256_MAX, U256_MAX);
  }

  lemma RoundUpIsCeil(numerator: nat, denominator: nat)
    requires denominator > 0
    ensures RoundUp(numerator, denominator)
         == if CeilDiv(numerator, denominator) <= U256_MAX then Ok(CeilDiv(numerator, denominator)) else Err
  {
    QuotientIs(numerator, denominator);
    ProductIs(numerator / denominator, denominator);
    assert numerator == numerator / denominator * denominator + numerator % denominator;
  }
}

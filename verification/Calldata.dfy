/** The executor's calldata (crates/execution-manager/src/simulator.rs), and the decoder that the
    Solidity Contract ABI Specification, section "Formal Specification of the Encoding", gives for
    executeWithOwnFunds(address,uint256,
                        (uint8,address,address,address,address,uint24,bool,address,bytes)[],uint256,uint256). */
module Calldata {
  import opened Wrappers
  import opened U256Math

  const WORD: nat := 32
  const USIZE_MAX: nat := 0xffff_ffff_ffff_ffff
  const ADDRESS_LIMIT: nat := 0x1_0000_0000_0000_0000_0000_0000_0000_0000_0000_0000
  const UINT24_LIMIT: nat := 0x100_0000

  type Byte = x: int | 0 <= x < 256
  /** A Rust vector holds at most isize::MAX bytes. */
  type Bytes = s: seq<Byte> | |s| <= 0x7fff_ffff_ffff_ffff
  type Selector = s: seq<Byte> | |s| == 4 witness [0, 0, 0, 0]

  datatype Step = Step(dex: Byte, router: Address, pool: Address, tokenIn: Address, tokenOut: Address,
                       fee: U32, stable: bool, factory: Address, data: Bytes)

  type Steps = s: seq<Step> | |s| <= 0x7fff_ffff_ffff_ffff

  datatype Call = Call(tokenIn: Address, amountIn: U256, steps: Steps, minProfit: U256, deadline: U256)

  // ----- words -----

  function BigEndian(v: nat, n: nat): (b: seq<Byte>)
    ensures |b| == n
  {
    if n == 0 then [] else BigEndian(v / 256, n - 1) + [v % 256]
  }

  function Value(b: seq<Byte>): nat
    decreases |b|
  {
    if |b| == 0 then 0 else Value(b[..|b| - 1]) * 256 + b[|b| - 1]
  }

  function Pow256(n: nat): nat {
    if n == 0 then 1 else 256 * Pow256(n - 1)
  }

  /** A number that fits is read back from its bytes. */
  lemma {:induction false} ValueOfBigEndian(v: nat, n: nat)
    requires v < Pow256(n)
    ensures Value(BigEndian(v, n)) == v
  {
    if n > 0 {
      ValueOfBigEndian(v / 256, n - 1);
      var b := BigEndian(v, n);
      assert b[..|b| - 1] == BigEndian(v / 256, n - 1);
    }
  }

  lemma Pow256At8()
    ensures Pow256(4) == 0x1_0000_0000 && Pow256(8) == 0x1_0000_0000_0000_0000
  {
    assert Pow256(2) == 0x1_0000;
    assert Pow256(3) == 0x100_0000;
    assert Pow256(5) == 0x100_0000_0000;
    assert Pow256(6) == 0x1_0000_0000_0000;
    assert Pow256(7) == 0x100_0000_0000_0000;
  }

  lemma WordLimit()
    ensures Pow256(32) == U256_MAX + 1
  {
    Pow256At8();
    hide Pow256;
    Pow256Sum(8, 8);
    assert Pow256(16) == 0x1_0000_0000_0000_0000_0000_0000_0000_0000;
    Pow256Sum(16, 16);
  }

  lemma {:induction false} Pow256Sum(m: nat, n: nat)
    ensures Pow256(m + n) == Pow256(m) * Pow256(n)
    decreases n
  {
    if n > 0 {
      Pow256Sum(m, n - 1);
    }
  }

  function EncodeU256(v: U256): (b: seq<Byte>)
    ensures |b| == WORD
  {
    BigEndian(v, WORD)
  }

  function Zeros(n: nat): (b: seq<Byte>)
    ensures |b| == n
  {
    seq(n, i => 0)
  }

  /** Twelve zero bytes and the address's twenty. */
  function EncodeAddress(a: Address): (b: seq<Byte>)
    ensures |b| == WORD
  {
    Zeros(12) + BigEndian(a, 20)
  }

  function EncodeBool(v: bool): (b: seq<Byte>)
    ensures |b| == WORD
  {
    EncodeU256(if v then 1 else 0)
  }

  lemma {:induction false} LeadingZeros(v: nat, k: nat, n: nat)
    requires v < Pow256(n)
    ensures BigEndian(v, k + n) == Zeros(k) + BigEndian(v, n)
    decreases n
  {
    if n == 0 {
      ZeroBytes(k);
    } else {
      LeadingZeros(v / 256, k, n - 1);
    }
  }

  lemma {:induction false} ZeroBytes(k: nat)
    ensures BigEndian(0, k) == Zeros(k)
  {
    if k > 0 {
      ZeroBytes(k - 1);
    }
  }

  /** An address takes the same word as the number it is. */
  lemma AddressIsWord(a: Address)
    ensures EncodeAddress(a) == EncodeU256(a)
  {
    Pow256At8();
    hide Pow256;
    Pow256Sum(8, 8);
    assert Pow256(16) == 0x1_0000_0000_0000_0000_0000_0000_0000_0000;
    Pow256Sum(16, 4);
    LeadingZeros(a, 12, 20);
  }

  // ----- the encoding -----

  function Padding(n: nat): nat {
    (WORD - n % WORD) % WORD
  }

  function EncodeBytes(data: Bytes): seq<Byte> {
    EncodeU256(|data|) + data + Zeros(Padding(|data|))
  }

  function EncodeTuple(s: Step): seq<Byte> {
    EncodeU256(s.dex) + EncodeAddress(s.router) + EncodeAddress(s.pool) + EncodeAddress(s.tokenIn)
    + EncodeAddress(s.tokenOut) + EncodeU256(s.fee) + EncodeBool(s.stable) + EncodeAddress(s.factory)
    + EncodeU256(9 * WORD) + EncodeBytes(s.data)
  }

  /** The tuples of the first `n` steps, one after the other. */
  function Tuples(steps: seq<Step>, n: nat): seq<Byte>
    requires n <= |steps|
  {
    if n == 0 then [] else Tuples(steps, n - 1) + EncodeTuple(steps[n - 1])
  }

  /** Where the i-th tuple starts, counted from the end of the array's length word. */
  function Offset(steps: seq<Step>, i: nat): nat
    requires i <= |steps|
  {
    WORD * |steps| + |Tuples(steps, i)|
  }

  /** The offsets of the first `n` steps. */
  function Heads(steps: seq<Step>, n: nat): seq<Byte>
    requires n <= |steps| && Offset(steps, n) <= USIZE_MAX
  {
    if n == 0 then [] else Heads(steps, n - 1) + EncodeU256(Offset(steps, n - 1))
  }

  /** Fails when the running offset leaves the machine word. */
  function EncodeSteps(steps: Steps): Result<seq<Byte>> {
    if Offset(steps, |steps|) > USIZE_MAX then Err
    else Ok(EncodeU256(|steps|) + Heads(steps, |steps|) + Tuples(steps, |steps|))
  }

  function EncodeCall(selector: Selector, c: Call): Result<seq<Byte>> {
    var steps :- EncodeSteps(c.steps);
    Ok(selector + EncodeAddress(c.tokenIn) + EncodeU256(c.amountIn) + EncodeU256(160)
       + EncodeU256(c.minProfit) + EncodeU256(c.deadline) + steps)
  }

  // ----- the encoder's loops -----

  method BuildTuple(s: Step) returns (out: seq<Byte>)
    ensures out == EncodeTuple(s)
  {
    hide EncodeU256, EncodeAddress, EncodeBool, EncodeBytes;
    out := [];
    out := out + EncodeU256(s.dex);
    assert out == EncodeU256(s.dex);
    out := out + EncodeAddress(s.router);
    out := out + EncodeAddress(s.pool);
    out := out + EncodeAddress(s.tokenIn);
    out := out + EncodeAddress(s.tokenOut);
    out := out + EncodeU256(s.fee);
    out := out + EncodeBool(s.stable);
    out := out + EncodeAddress(s.factory);
    out := out + EncodeU256(9 * WORD);
    out := out + EncodeBytes(s.data);
  }

  lemma {:induction false} OffsetsGrow(steps: seq<Step>, i: nat, j: nat)
    requires i <= j <= |steps|
    ensures Offset(steps, i) <= Offset(steps, j)
    decreases j
  {
    if i < j {
      OffsetsGrow(steps, i, j - 1);
    }
  }

  method BuildSteps(steps: Steps) returns (r: Result<seq<Byte>>)
    ensures r == EncodeSteps(steps)
  {
    hide EncodeTuple, EncodeU256;
    var n := |steps|;
    var encoded: seq<seq<Byte>> := [];
    for i := 0 to n
      invariant |encoded| == i && forall k :: 0 <= k < i ==> encoded[k] == EncodeTuple(steps[k])
    {
      var t := BuildTuple(steps[i]);
      encoded := encoded + [t];
    }
    var out := EncodeU256(n);
    if WORD * n > USIZE_MAX {
      OffsetsGrow(steps, 0, n);
      return Err;
    }
    var offset := WORD * n;
    for i := 0 to n
      invariant offset == Offset(steps, i) <= USIZE_MAX
      invariant out == EncodeU256(n) + Heads(steps, i)
    {
      out := out + EncodeU256(offset);
      if offset + |encoded[i]| > USIZE_MAX {
        OffsetsGrow(steps, i + 1, n);
        return Err;
      }
      offset := offset + |encoded[i]|;
    }
    for i := 0 to n
      invariant out == EncodeU256(n) + Heads(steps, n) + Tuples(steps, i)
    {
      out := out + encoded[i];
    }
    return Ok(out);
  }

  method BuildExecuteCalldata(selector: Selector, c: Call) returns (r: Result<seq<Byte>>)
    ensures r == EncodeCall(selector, c)
  {
    hide EncodeU256, EncodeAddress, EncodeSteps;
    var out: seq<Byte> := [];
    out := out + selector;
    assert out == selector;
    out := out + EncodeAddress(c.tokenIn);
    out := out + EncodeU256(c.amountIn);
    out := out + EncodeU256(160);
    out := out + EncodeU256(c.minProfit);
    out := out + EncodeU256(c.deadline);
    var steps := BuildSteps(c.steps);
    if steps.Err? {
      return Err;
    }
    return Ok(out + steps.value);
  }

  // ----- the decoder of the ABI specification -----

  function WordAt(b: seq<Byte>, i: nat): Result<U256> {
    if i + WORD > |b| then Err else ReadWord(b[i..i + WORD])
  }

  function ReadWord(w: seq<Byte>): Result<U256> {
    var v := Value(w);
    if v > U256_MAX then Err else Ok(v)
  }

  function UintAt(b: seq<Byte>, i: nat, limit: nat): (r: Result<U256>)
    ensures r.Ok? ==> r.value < limit
  {
    var v :- WordAt(b, i);
    if v < limit then Ok(v) else Err
  }

  /** Dynamic bytes are refused unless they are completed to whole words by zeros. */
  function BytesAt(b: seq<Byte>, i: nat): Result<Bytes> {
    var n :- UintAt(b, i, 0x8000_0000_0000_0000);
    var start := i + WORD;
    if start + WholeWords(n) > |b| || exists k :: start + n <= k < start + WholeWords(n) && b[k] != 0 then Err
    else Ok(b[start..start + n])
  }

  /** The least multiple of 32 that is at least `n`. */
  function WholeWords(n: nat): nat {
    (n + 31) / 32 * 32
  }

  function TupleAt(b: seq<Byte>, i: nat): Result<Step> {
    var dex :- UintAt(b, i, 256);
    var router :- UintAt(b, i + 32, ADDRESS_LIMIT);
    var pool :- UintAt(b, i + 64, ADDRESS_LIMIT);
    var tokenIn :- UintAt(b, i + 96, ADDRESS_LIMIT);
    var tokenOut :- UintAt(b, i + 128, ADDRESS_LIMIT);
    var fee :- UintAt(b, i + 160, UINT24_LIMIT);
    var stable :- UintAt(b, i + 192, 2);
    var factory :- UintAt(b, i + 224, ADDRESS_LIMIT);
    var tail :- WordAt(b, i + 256);
    var data :- BytesAt(b, i + tail);
    Ok(Step(dex, router, pool, tokenIn, tokenOut, fee, stable == 1, factory, data))
  }

  /** The first `n` elements of the array whose offsets start at `heads`. */
  function ElementsAt(b: seq<Byte>, heads: nat, n: nat): (r: Result<seq<Step>>)
    ensures r.Ok? ==> |r.value| == n
  {
    if n == 0 then Ok([])
    else
      var before :- ElementsAt(b, heads, n - 1);
      var offset :- WordAt(b, heads + WORD * (n - 1));
      var step :- TupleAt(b, heads + offset);
      Ok(before + [step])
  }

  function ArrayAt(b: seq<Byte>, i: nat): Result<Steps> {
    var n :- UintAt(b, i, 0x8000_0000_0000_0000);
    var steps :- ElementsAt(b, i + WORD, n);
    Ok(steps)
  }

  function DecodeCall(b: seq<Byte>): Result<Call> {
    if |b| < 4 then Err
    else
      var body := b[4..];
      var tokenIn :- UintAt(body, 0, ADDRESS_LIMIT);
      var amountIn :- WordAt(body, 32);
      var tail :- WordAt(body, 64);
      var steps :- ArrayAt(body, tail);
      var minProfit :- WordAt(body, 96);
      var deadline :- WordAt(body, 128);
      Ok(Call(tokenIn, amountIn, steps, minProfit, deadline))
  }

  // ----- what lies where -----

  /** The bytes `x` lie in `b` from position `i`. */
  ghost predicate Holds(b: seq<Byte>, i: nat, x: seq<Byte>) {
    i + |x| <= |b| && b[i..i + |x|] == x
  }

  lemma HoldsSplit(b: seq<Byte>, i: nat, x: seq<Byte>, y: seq<Byte>)
    requires Holds(b, i, x + y)
    ensures Holds(b, i, x) && Holds(b, i + |x|, y)
  {
    var z := b[i..i + |x + y|];
    assert z[..|x|] == x && z[|x|..] == y;
    assert b[i..i + |x|] == z[..|x|];
    assert b[i + |x|..i + |x| + |y|] == z[|x|..];
  }

  lemma WordHeld(b: seq<Byte>, i: nat, v: U256)
    requires Holds(b, i, EncodeU256(v))
    ensures WordAt(b, i) == Ok(v)
  {
    WordLimit();
    ValueOfBigEndian(v, WORD);
  }

  lemma BytesHeld(b: seq<Byte>, i: nat, data: Bytes)
    requires Holds(b, i, EncodeBytes(data))
    ensures BytesAt(b, i) == Ok(data)
  {
    var n, start := |data|, i + WORD;
    HoldsSplit(b, i, EncodeU256(n) + data, Zeros(Padding(n)));
    HoldsSplit(b, i, EncodeU256(n), data);
    WordHeld(b, i, n);
    PaddingIs(n);
    assert b[start + n..start + n + Padding(n)] == Zeros(Padding(n));
    forall k | start + n <= k < start + WholeWords(n) ensures b[k] == 0 {
      assert b[k] == b[start + n..start + n + Padding(n)][k - start - n];
    }
  }

  function Words(ws: seq<U256>): (b: seq<Byte>)
    ensures |b| == WORD * |ws|
    decreases |ws|
  {
    if |ws| == 0 then [] else Words(ws[..|ws| - 1]) + EncodeU256(ws[|ws| - 1])
  }

  lemma {:induction false} WordsHeld(b: seq<Byte>, i: nat, ws: seq<U256>, k: nat)
    requires Holds(b, i, Words(ws)) && k < |ws|
    ensures WordAt(b, i + WORD * k) == Ok(ws[k])
    decreases |ws|
  {
    var most := ws[..|ws| - 1];
    HoldsSplit(b, i, Words(most), EncodeU256(ws[|ws| - 1]));
    if k == |ws| - 1 {
      WordHeld(b, i + WORD * k, ws[k]);
    } else {
      WordsHeld(b, i, most, k);
    }
  }

  function HeadOf(s: Step): seq<U256> {
    [s.dex, s.router, s.pool, s.tokenIn, s.tokenOut, s.fee, if s.stable then 1 else 0, s.factory, 9 * WORD]
  }

  /** A tuple is its nine head words and its bytes. */
  lemma TupleShape(s: Step)
    ensures EncodeTuple(s) == Words(HeadOf(s)) + EncodeBytes(s.data)
  {
    AddressIsWord(s.router);
    AddressIsWord(s.pool);
    AddressIsWord(s.tokenIn);
    AddressIsWord(s.tokenOut);
    AddressIsWord(s.factory);
    NineWords(HeadOf(s));
  }

  lemma NineWords(w: seq<U256>)
    requires |w| == 9
    ensures Words(w) == EncodeU256(w[0]) + EncodeU256(w[1]) + EncodeU256(w[2]) + EncodeU256(w[3]) + EncodeU256(w[4])
                        + EncodeU256(w[5]) + EncodeU256(w[6]) + EncodeU256(w[7]) + EncodeU256(w[8])
  {
    hide EncodeU256, Words;
    Snoc(w, 9);
    Snoc(w, 8);
    Snoc(w, 7);
    Snoc(w, 6);
    Snoc(w, 5);
    Snoc(w, 4);
    Snoc(w, 3);
    Snoc(w, 2);
    Snoc(w, 1);
    assert w[..9] == w && w[..0] == [];
  }

  lemma Snoc(w: seq<U256>, n: nat)
    requires 0 < n <= |w|
    ensures Words(w[..n]) == Words(w[..n - 1]) + EncodeU256(w[n - 1])
  {
    assert w[..n][..n - 1] == w[..n - 1];
  }

  /** A tuple is read back wherever it lies, unless its fee does not fit in the 24 bits declared
      for it; then it is refused. */
  lemma TupleHeld(b: seq<Byte>, i: nat, s: Step)
    requires Holds(b, i, EncodeTuple(s))
    ensures TupleAt(b, i) == if s.fee < UINT24_LIMIT then Ok(s) else Err
  {
    hide WordAt, BytesAt, EncodeTuple, Words, EncodeBytes;
    var head := HeadOf(s);
    TupleShape(s);
    HoldsSplit(b, i, Words(head), EncodeBytes(s.data));
    forall k | 0 <= k < 9 ensures WordAt(b, i + WORD * k) == Ok(head[k]) {
      WordsHeld(b, i, head, k);
    }
    assert WordAt(b, i) == Ok(head[0]) && WordAt(b, i + 32) == Ok(head[1]) && WordAt(b, i + 64) == Ok(head[2]);
    assert WordAt(b, i + 96) == Ok(head[3]) && WordAt(b, i + 128) == Ok(head[4]) && WordAt(b, i + 160) == Ok(head[5]);
    assert WordAt(b, i + 192) == Ok(head[6]) && WordAt(b, i + 224) == Ok(head[7]) && WordAt(b, i + 256) == Ok(head[8]);
    BytesHeld(b, i + 288, s.data);
  }

  // ----- the round trip -----

  lemma {:induction false} TupleInPlace(b: seq<Byte>, i: nat, steps: seq<Step>, n: nat, k: nat)
    requires k < n <= |steps| && Holds(b, i, Tuples(steps, n))
    ensures Holds(b, i + |Tuples(steps, k)|, EncodeTuple(steps[k]))
    decreases n
  {
    hide EncodeTuple;
    HoldsSplit(b, i, Tuples(steps, n - 1), EncodeTuple(steps[n - 1]));
    if k < n - 1 {
      TupleInPlace(b, i, steps, n - 1, k);
    }
  }

  lemma {:induction false} HeadsLength(steps: seq<Step>, n: nat)
    requires n <= |steps| && Offset(steps, n) <= USIZE_MAX
    ensures |Heads(steps, n)| == WORD * n
  {
    if n > 0 {
      HeadsLength(steps, n - 1);
    }
  }

  lemma {:induction false} HeadInPlace(b: seq<Byte>, i: nat, steps: seq<Step>, n: nat, k: nat)
    requires k < n <= |steps| && Offset(steps, n) <= USIZE_MAX && Holds(b, i, Heads(steps, n))
    ensures WordAt(b, i + WORD * k) == Ok(Offset(steps, k))
    decreases n
  {
    hide WordAt, Tuples;
    OffsetsGrow(steps, n - 1, n);
    HeadsLength(steps, n - 1);
    HoldsSplit(b, i, Heads(steps, n - 1), EncodeU256(Offset(steps, n - 1)));
    if k == n - 1 {
      WordHeld(b, i + WORD * k, Offset(steps, k));
    } else {
      HeadInPlace(b, i, steps, n - 1, k);
    }
  }

  /** Each offset word of the encoded array leads to its own tuple. */
  lemma OffsetLandsOnTuple(steps: Steps, b: seq<Byte>, i: nat, k: nat)
    requires EncodeSteps(steps).Ok? && Holds(b, i, EncodeSteps(steps).value) && k < |steps|
    ensures WordAt(b, i + WORD + WORD * k) == Ok(Offset(steps, k))
    ensures Holds(b, i + WORD + Offset(steps, k), EncodeTuple(steps[k]))
  {
    hide WordAt, EncodeTuple;
    var n := |steps|;
    HeadsLength(steps, n);
    HoldsSplit(b, i, EncodeU256(n) + Heads(steps, n), Tuples(steps, n));
    HoldsSplit(b, i, EncodeU256(n), Heads(steps, n));
    HeadInPlace(b, i + WORD, steps, n, k);
    TupleInPlace(b, i + WORD + WORD * n, steps, n, k);
  }

  predicate Decodable(steps: seq<Step>) {
    forall k :: 0 <= k < |steps| ==> steps[k].fee < UINT24_LIMIT
  }

  lemma {:induction false} ElementsHeld(steps: Steps, b: seq<Byte>, i: nat, n: nat)
    requires EncodeSteps(steps).Ok? && Holds(b, i, EncodeSteps(steps).value) && n <= |steps|
    ensures ElementsAt(b, i + WORD, n) == if Decodable(steps[..n]) then Ok(steps[..n]) else Err
    decreases n
  {
    hide WordAt, EncodeSteps, EncodeTuple, TupleAt, Holds;
    if n > 0 {
      ElementsHeld(steps, b, i, n - 1);
      OffsetLandsOnTuple(steps, b, i, n - 1);
      TupleHeld(b, i + WORD + Offset(steps, n - 1), steps[n - 1]);
      assert steps[..n] == steps[..n - 1] + [steps[n - 1]];
      assert Decodable(steps[..n]) ==> steps[..n][n - 1].fee < UINT24_LIMIT;
      if Decodable(steps[..n]) {
        assert forall k :: 0 <= k < n - 1 ==> steps[..n - 1][k] == steps[..n][k];
      }
    }
  }

  lemma ArrayHeld(steps: Steps, b: seq<Byte>, i: nat)
    requires EncodeSteps(steps).Ok? && Holds(b, i, EncodeSteps(steps).value)
    ensures ArrayAt(b, i) == if Decodable(steps) then Ok(steps) else Err
  {
    hide WordAt, Heads, Tuples, ElementsAt, Decodable;
    var n := |steps|;
    HoldsSplit(b, i, EncodeU256(n) + Heads(steps, n), Tuples(steps, n));
    HoldsSplit(b, i, EncodeU256(n), Heads(steps, n));
    WordHeld(b, i, n);
    ElementsHeld(steps, b, i, n);
    assert steps[..n] == steps;
  }

  lemma CallShape(selector: Selector, c: Call, steps: seq<Byte>)
    requires EncodeSteps(c.steps) == Ok(steps)
    ensures EncodeCall(selector, c)
         == Ok(selector + (Words([c.tokenIn, c.amountIn, 160, c.minProfit, c.deadline]) + steps))
  {
    hide EncodeSteps, EncodeU256, Words;
    var w: seq<U256> := [c.tokenIn, c.amountIn, 160, c.minProfit, c.deadline];
    AddressIsWord(c.tokenIn);
    FiveWords(w);
    var a, b, d, e, f := EncodeU256(w[0]), EncodeU256(w[1]), EncodeU256(w[2]), EncodeU256(w[3]), EncodeU256(w[4]);
    assert selector + a + b + d + e + f + steps == selector + (a + b + d + e + f + steps);
  }

  lemma FiveWords(w: seq<U256>)
    requires |w| == 5
    ensures Words(w) == EncodeU256(w[0]) + EncodeU256(w[1]) + EncodeU256(w[2]) + EncodeU256(w[3]) + EncodeU256(w[4])
  {
    hide EncodeU256;
    Snoc(w, 5);
    Snoc(w, 4);
    Snoc(w, 3);
    Snoc(w, 2);
    Snoc(w, 1);
    assert w[..5] == w && Words(w[..0]) == [];
  }

  /** The round trip, for any number of steps and any data: the decoder recovers the whole call
      exactly when every fee fits in its 24 bits, and refuses the calldata otherwise. */
  lemma RoundTrip(selector: Selector, c: Call, encoded: seq<Byte>)
    requires EncodeCall(selector, c) == Ok(encoded)
    ensures encoded[..4] == selector
    ensures DecodeCall(encoded) == if Decodable(c.steps) then Ok(c) else Err
  {
    hide WordAt, EncodeSteps, ArrayAt, Decodable, EncodeCall, Words;
    var steps: seq<Byte> := StepsOf(selector, c).value;
    var w: seq<U256> := [c.tokenIn, c.amountIn, 160, c.minProfit, c.deadline];
    CallShape(selector, c, steps);
    var body := Words(w) + steps;
    assert encoded[4..] == body && encoded[..4] == selector;
    assert Holds(body, 0, Words(w)) && Holds(body, 160, steps);
    forall k | 0 <= k < 5 ensures WordAt(body, 0 + WORD * k) == Ok(w[k]) {
      WordsHeld(body, 0, w, k);
    }
    assert WordAt(body, 0) == Ok(w[0]) && WordAt(body, 32) == Ok(w[1]) && WordAt(body, 64) == Ok(w[2]);
    assert WordAt(body, 96) == Ok(w[3]) && WordAt(body, 128) == Ok(w[4]);
    ArrayHeld(c.steps, body, 160);
  }

  /** The router fee of a V3 or V4 step: the pool's basis points times 100, checked against 32 bits. */
  function RouterFee(feeBps: U32): Result<U32> {
    if feeBps * 100 < 0x1_0000_0000 then Ok(feeBps * 100) else Err
  }

  /** A call of one step without data is always encoded, and refused exactly when the pool's fee is
      above 167772 basis points; 167773 is such a fee. */
  lemma WideFeeRefused(selector: Selector, s: Step, c: Call, feeBps: U32)
    requires c.steps == [s] && s.data == [] && RouterFee(feeBps) == Ok(s.fee)
    ensures EncodeCall(selector, c).Ok?
    ensures DecodeCall(EncodeCall(selector, c).value) == if feeBps <= 167_772 then Ok(c) else Err
    ensures RouterFee(167_773) == Ok(UINT24_LIMIT + 84)
  {
    hide DecodeCall, EncodeTuple;
    assert EncodeSteps(c.steps).Ok? by {
      OneTuple(c.steps, s);
    }
    RoundTrip(selector, c, EncodeCall(selector, c).value);
    assert c.steps[0] == s;
  }

  lemma OneTuple(steps: Steps, s: Step)
    requires steps == [s] && s.data == []
    ensures Offset(steps, 1) == 352
  {
    hide BigEndian, EncodeU256, EncodeAddress, EncodeBool;
    assert Tuples(steps, 1) == Tuples(steps, 0) + EncodeTuple(steps[0]);
    assert |EncodeTuple(s)| == 320;
  }

  function StepsOf(selector: Selector, c: Call): (r: Result<seq<Byte>>)
    ensures r == EncodeSteps(c.steps) && (r.Ok? <==> EncodeCall(selector, c).Ok?)
  {
    EncodeSteps(c.steps)
  }

  /** Different calls have different calldata. */
  lemma EncodingInjective(selector: Selector, c: Call, d: Call, encoded: seq<Byte>)
    requires EncodeCall(selector, c) == Ok(encoded) == EncodeCall(selector, d)
    requires Decodable(c.steps) && Decodable(d.steps)
    ensures c == d
  {
    hide EncodeCall, DecodeCall;
    RoundTrip(selector, c, encoded);
    RoundTrip(selector, d, encoded);
  }

  lemma PaddingIs(n: nat)
    ensures n + Padding(n) == WholeWords(n)
  {
  }

  /** Encoded bytes are a length word and the data, completed by zeros to the least whole number of
      words. */
  lemma BytesComplete(data: Bytes)
    ensures |EncodeBytes(data)| % 32 == 0 && 32 + |data| <= |EncodeBytes(data)| < 64 + |data|
    ensures forall k :: 32 + |data| <= k < |EncodeBytes(data)| ==> EncodeBytes(data)[k] == 0
  {
    hide EncodeU256;
    PaddingIs(|data|);
  }

  /** What a step takes: its offset word, nine head words, the length word of its data, and the data in
      whole words. */
  function StepSize(s: Step): nat {
    11 * 32 + WholeWords(|s.data|)
  }

  function StepsSize(steps: seq<Step>, n: nat): nat
    requires n <= |steps|
  {
    if n == 0 then 0 else StepsSize(steps, n - 1) + StepSize(steps[n - 1])
  }

  lemma TupleLength(s: Step)
    ensures 32 + |EncodeTuple(s)| == StepSize(s)
  {
    hide BigEndian, EncodeU256, EncodeAddress, EncodeBool, Zeros;
    PaddingIs(|s.data|);
  }

  lemma {:induction false} TuplesLength(steps: seq<Step>, n: nat)
    requires n <= |steps|
    ensures 32 * n + |Tuples(steps, n)| == StepsSize(steps, n)
  {
    hide EncodeTuple, StepSize;
    if n > 0 {
      TuplesLength(steps, n - 1);
      TupleLength(steps[n - 1]);
    }
  }

  /** A call is encoded exactly when its steps fit the machine word, and its calldata is then the
      selector, six words, and what its steps take. */
  lemma CalldataLength(selector: Selector, c: Call)
    ensures EncodeCall(selector, c).Ok? <==> StepsSize(c.steps, |c.steps|) <= 0xffff_ffff_ffff_ffff
    ensures EncodeCall(selector, c).Ok? ==>
              |EncodeCall(selector, c).value| == 4 + 6 * 32 + StepsSize(c.steps, |c.steps|)
  {
    hide Tuples, EncodeU256, EncodeAddress, StepsSize;
    TuplesLength(c.steps, |c.steps|);
    if Offset(c.steps, |c.steps|) <= USIZE_MAX {
      HeadsLength(c.steps, |c.steps|);
    }
  }
}

/** Fee choice for submissions and replacements (crates/execution-manager/src/tx_manager.rs). */
module FeePolicy {
  import opened Arith
  import opened Wrappers
  import opened U256Math

  /** What the node suggests. */
  datatype Suggestion = Suggestion(baseFee: U256, maxFee: U256, priorityFee: U256)

  datatype Fees = Fees(maxFee: U256, priorityFee: U256)

  datatype Policy = Policy(minPriorityFee: U256, priorityMultiplierBps: U64, maxFeeMultiplierBps: U64,
                           bumpBps: U64, maxReplacements: U32, replacementBlocks: U64, fallbackExecutor: Option<nat>)

  function Max(a: U256, b: U256): U256 {
    if a < b then b else a
  }

  function ApplyBps(value: U256, bps: U64): U256 {
    SaturatingMul(value, bps) / BPS
  }

  function BumpFee(value: U256, bps: U64): U256 {
    SaturatingAdd(ApplyBps(value, bps), 1)
  }

  /** `aggressive_fee_suggestion`, and the simulator's copy of it. */
  function Aggressive(s: Suggestion, p: Policy): Fees {
    var priority := Max(ApplyBps(s.priorityFee, p.priorityMultiplierBps), p.minPriorityFee);
    Fees(Max(SaturatingAdd(ApplyBps(s.baseFee, p.maxFeeMultiplierBps), priority), s.maxFee), priority)
  }

  function ReplacementFees(previous: Fees, s: Suggestion, p: Policy): Fees {
    var suggested := Aggressive(s, p);
    Fees(Max(suggested.maxFee, BumpFee(previous.maxFee, p.bumpBps)),
         Max(suggested.priorityFee, BumpFee(previous.priorityFee, p.bumpBps)))
  }

  /** The Specification section of EIP-1559 rejects a transaction whose priority fee exceeds its
      maximum fee. */
  predicate Payable(f: Fees) {
    f.priorityFee <= f.maxFee
  }

  /** value * bps, or the largest 256-bit number if it is above that. */
  function Capped(value: nat, bps: nat): nat {
    if value * bps <= U256_MAX then value * bps else U256_MAX
  }

  /** A fee scaled by basis points is what ten thousand of it fit into the capped product. */
  lemma ApplyBpsIs(value: U256, bps: U64, bid: nat)
    ensures bid <= ApplyBps(value, bps) <==> bid * 10_000 <= Capped(value, bps)
  {
    FloorGe(Capped(value, bps), 10_000, bid);
  }

  /** A bump is the least fee strictly above the scaled one, to the last fraction. */
  lemma BumpIsLeast(value: U256, bps: U64, bid: nat)
    ensures BumpFee(value, bps) <= bid <==> Capped(value, bps) < bid * 10_000
  {
    FloorGe(Capped(value, bps), 10_000, bid);
  }

  /** The suggestion is the least one that meets the floors: the scaled priority fee and the
      configured minimum; the scaled base fee plus that priority fee, unless that is more than any bid,
      and what the node asks. */
  lemma AggressiveIsLeast(s: Suggestion, p: Policy, bid: Fees)
    ensures var f := Aggressive(s, p);
      && (f.priorityFee <= bid.priorityFee <==>
            Capped(s.priorityFee, p.priorityMultiplierBps) < (bid.priorityFee + 1) * 10_000
            && p.minPriorityFee <= bid.priorityFee)
      && (f.maxFee <= bid.maxFee <==>
            && (Capped(s.baseFee, p.maxFeeMultiplierBps) < (bid.maxFee - f.priorityFee + 1) * 10_000
                || bid.maxFee == U256_MAX)
            && s.maxFee <= bid.maxFee)
  {
    hide ApplyBps;
    var f := Aggressive(s, p);
    ApplyBpsIs(s.priorityFee, p.priorityMultiplierBps, bid.priorityFee + 1);
    if bid.maxFee >= f.priorityFee {
      ApplyBpsIs(s.baseFee, p.maxFeeMultiplierBps, bid.maxFee - f.priorityFee + 1);
    }
  }

  /** A replacement is the least bid that covers the suggestion and tops both bumps. */
  lemma ReplacementIsLeast(previous: Fees, s: Suggestion, p: Policy, bid: Fees)
    ensures var r, f := ReplacementFees(previous, s, p), Aggressive(s, p);
      && (r.priorityFee <= bid.priorityFee <==>
            f.priorityFee <= bid.priorityFee && Capped(previous.priorityFee, p.bumpBps) < bid.priorityFee * 10_000)
      && (r.maxFee <= bid.maxFee <==>
            f.maxFee <= bid.maxFee && Capped(previous.maxFee, p.bumpBps) < bid.maxFee * 10_000)
  {
    hide Aggressive, BumpFee;
    BumpIsLeast(previous.priorityFee, p.bumpBps, bid.priorityFee);
    BumpIsLeast(previous.maxFee, p.bumpBps, bid.maxFee);
  }

  lemma AggressivePayable(s: Suggestion, p: Policy)
    ensures Payable(Aggressive(s, p))
  {
    hide Aggressive, ApplyBps;
    AggressiveIsLeast(s, p, Aggressive(s, p));
  }

  lemma BumpMonotone(a: U256, b: U256, bps: U64)
    requires a <= b
    ensures BumpFee(a, bps) <= BumpFee(b, bps)
  {
    MulLe(a, b, bps);
  }

  /** A replacement of a payable transaction is payable, for every bump, saturating or not. */
  lemma ReplacementPayable(previous: Fees, s: Suggestion, p: Policy)
    requires Payable(previous)
    ensures Payable(ReplacementFees(previous, s, p))
  {
    AggressivePayable(s, p);
    BumpMonotone(previous.priorityFee, previous.maxFee, p.bumpBps);
  }

  /** Below saturation a bump grows the fee by at least the configured factor. */
  lemma BumpGrows(value: U256, bps: U64)
    requires value * bps <= U256_MAX
    ensures value * bps < BumpFee(value, bps) * BPS
  {
    FloorBounds(value * bps, BPS);
  }

  /** For every bump setting: a fee rises exactly when it is zero, or when the bump is at least 100%
      and the fee at most a ten-thousandth of the 256-bit range, beyond which the product saturates. */
  lemma BumpIncreasesIff(value: U256, bps: U64)
    ensures BumpFee(value, bps) > value <==> value == 0 || (bps >= BPS && value <= U256_MAX / BPS)
  {
    if bps >= BPS {
      if value * bps <= U256_MAX {
        MulLe(BPS, bps, value);
        BumpGrows(value, bps);
      }
    } else if value > 0 {
      SmallBumpsDoNotIncrease(value, bps);
    }
  }

  lemma SmallBumpsDoNotIncrease(value: U256, bps: U64)
    requires bps < BPS && value > 0
    ensures BumpFee(value, bps) <= value
  {
    if value * bps <= U256_MAX {
      MulLt(bps, BPS, value);
      FloorGe(value * bps, BPS, value);
    } else {
      MulLe(bps, BPS, value);
      FloorGe(U256_MAX, BPS, value);
    }
  }

  lemma BumpStopsIncreasing(bps: U64)
    ensures BumpFee(U256_MAX / BPS + 1, bps) <= U256_MAX / BPS + 1
  {
    BumpIncreasesIff(U256_MAX / BPS + 1, bps);
  }

  /** A bump below 100% can lower a fee. */
  lemma SmallBumpLowers()
    ensures BumpFee(3, 5_000) < 3
  {
  }

  // ----- a run of replacements -----

  function Pow(b: nat, k: nat): nat {
    if k == 0 then 1 else b * Pow(b, k - 1)
  }

  /** `fees` is a submission followed by replacements, none of whose bumps saturates. */
  ghost predicate ReplacementRun(fees: seq<Fees>, p: Policy) {
    && (forall k :: 0 <= k < |fees| - 1 ==>
          && Unsaturated(fees[k], p)
          && exists s: Suggestion :: fees[k + 1] == ReplacementFees(fees[k], s, p))
  }

  predicate Unsaturated(f: Fees, p: Policy) {
    f.maxFee * p.bumpBps <= U256_MAX && f.priorityFee * p.bumpBps <= U256_MAX
  }

  lemma ReplacementGrows(previous: Fees, s: Suggestion, p: Policy)
    requires Unsaturated(previous, p)
    ensures previous.maxFee * p.bumpBps < ReplacementFees(previous, s, p).maxFee * BPS
    ensures previous.priorityFee * p.bumpBps < ReplacementFees(previous, s, p).priorityFee * BPS
  {
    BumpGrows(previous.maxFee, p.bumpBps);
    BumpGrows(previous.priorityFee, p.bumpBps);
  }

  lemma GrowthStep(first: nat, previous: nat, next: nat, bps: nat, k: nat)
    requires first * Pow(bps, k) <= previous * Pow(BPS, k) && previous * bps <= next * BPS
    ensures first * Pow(bps, k + 1) <= next * Pow(BPS, k + 1)
  {
    var a, b := Pow(bps, k), Pow(BPS, k);
    MulLe(first * a, previous * b, bps);
    MulLe(previous * bps, next * BPS, b);
    Rearrange(first, a, bps);
    Rearrange(next, b, BPS);
    Swap(previous, b, bps);
    Swap(next, b, BPS);
  }

  lemma Rearrange(x: nat, a: nat, b: nat)
    ensures x * (b * a) == x * a * b
  {
  }

  lemma Swap(x: nat, a: nat, b: nat)
    ensures x * a * b == x * b * a
  {
  }

  /** After k replacements both fees have grown by at least the k-th power of the bump. */
  lemma {:induction false} ReplacementsCompound(fees: seq<Fees>, p: Policy, k: nat)
    requires ReplacementRun(fees, p) && k < |fees|
    ensures fees[0].maxFee * Pow(p.bumpBps, k) <= fees[k].maxFee * Pow(BPS, k)
    ensures fees[0].priorityFee * Pow(p.bumpBps, k) <= fees[k].priorityFee * Pow(BPS, k)
    decreases k
  {
    if k > 0 {
      ReplacementsCompound(fees, p, k - 1);
      assert Unsaturated(fees[k - 1], p);
      var s: Suggestion :| fees[k - 1 + 1] == ReplacementFees(fees[k - 1], s, p);
      ReplacementGrows(fees[k - 1], s, p);
      GrowthStep(fees[0].maxFee, fees[k - 1].maxFee, fees[k].maxFee, p.bumpBps, k - 1);
      GrowthStep(fees[0].priorityFee, fees[k - 1].priorityFee, fees[k].priorityFee, p.bumpBps, k - 1);
    }
  }

  /** Each replacement strictly raises both fees when the bump is at least 100%. */
  lemma ReplacementStrictlyIncreases(previous: Fees, s: Suggestion, p: Policy)
    requires p.bumpBps >= BPS && previous.maxFee <= U256_MAX / BPS && previous.priorityFee <= U256_MAX / BPS
    ensures previous.maxFee < ReplacementFees(previous, s, p).maxFee
    ensures previous.priorityFee < ReplacementFees(previous, s, p).priorityFee
  {
    BumpIncreasesIff(previous.maxFee, p.bumpBps);
    BumpIncreasesIff(previous.priorityFee, p.bumpBps);
  }
}

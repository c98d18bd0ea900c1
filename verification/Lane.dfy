/** One sending account's lane (crates/execution-manager/src/eoa_lane.rs): the nonce it will use
    next and everything remembered about the transaction it has in flight. */
module Lane {
  import opened Wrappers
  import opened U256Math
  import opened FeePolicy

  const MAX_U64: U64 := 0xffff_ffff_ffff_ffff
  const MAX_U32: U32 := 0xffff_ffff

  datatype LaneStatus = Idle | Pending | Blocked | Cooldown

  datatype LaneState = LaneState(
    address: nat, localNonce: U64, confirmedNonce: U64,
    pendingTx: Option<nat>, pendingExecutor: Option<nat>, pendingOpportunity: Option<nat>,
    pendingSimulation: Option<nat>, pendingNonce: Option<U64>, pendingBlock: Option<U64>,
    replacementCount: U32, pendingGasLimit: Option<U256>, pendingMaxFee: Option<U256>,
    pendingPriorityFee: Option<U256>, ethBalance: U256, status: LaneStatus)

  /** What `tx_manager` returns for a transaction it has broadcast. */
  datatype Submission = Submission(txHash: nat, nonce: U64, simulation: Option<nat>, executor: nat,
                                   submittedBlock: U64, gasLimit: U256, fees: Fees)

  function NewLane(address: nat): LaneState {
    LaneState(address, 0, 0, None, None, None, None, None, None, 0, None, None, None, 0, Idle)
  }

  function SubmittedLane(s: LaneState, opportunity: nat, sub: Submission): LaneState {
    LaneState(s.address, if sub.nonce == MAX_U64 then MAX_U64 else sub.nonce + 1, s.confirmedNonce,
              Some(sub.txHash), Some(sub.executor), Some(opportunity), sub.simulation, Some(sub.nonce),
              Some(sub.submittedBlock), 0, Some(sub.gasLimit), Some(sub.fees.maxFee),
              Some(sub.fees.priorityFee), s.ethBalance, Pending)
  }

  function ReplacedLane(s: LaneState, sub: Submission): LaneState {
    s.(pendingTx := Some(sub.txHash), pendingBlock := Some(sub.submittedBlock),
       replacementCount := if s.replacementCount == MAX_U32 then MAX_U32 else s.replacementCount + 1,
       pendingGasLimit := Some(sub.gasLimit), pendingMaxFee := Some(sub.fees.maxFee),
       pendingPriorityFee := Some(sub.fees.priorityFee), status := Pending)
  }

  function ConfirmedLane(s: LaneState, confirmedNonce: U64): LaneState {
    NewLane(s.address).(localNonce := s.localNonce, confirmedNonce := confirmedNonce, ethBalance := s.ethBalance)
  }

  function ClearedLane(s: LaneState, confirmedNonce: U64, localNonce: U64, balance: U256): LaneState {
    ConfirmedLane(s, confirmedNonce).(localNonce := localNonce, ethBalance := balance)
  }

  /** Everything a pending lane needs is there, and its next nonce follows the pending one. */
  predicate PendingComplete(s: LaneState) {
    && s.pendingTx.Some? && s.pendingExecutor.Some? && s.pendingOpportunity.Some?
    && s.pendingSimulation.Some? && s.pendingNonce.Some? && s.pendingBlock.Some?
    && s.pendingGasLimit.Some? && s.pendingMaxFee.Some? && s.pendingPriorityFee.Some?
    && s.localNonce == s.pendingNonce.value + 1
    && Payable(PendingFees(s))
  }

  predicate NothingPending(s: LaneState) {
    && s.pendingTx.None? && s.pendingExecutor.None? && s.pendingOpportunity.None?
    && s.pendingSimulation.None? && s.pendingNonce.None? && s.pendingBlock.None?
    && s.pendingGasLimit.None? && s.pendingMaxFee.None? && s.pendingPriorityFee.None?
    && s.replacementCount == 0
  }

  function PendingFees(s: LaneState): Fees
    requires s.pendingMaxFee.Some? && s.pendingPriorityFee.Some?
  {
    Fees(s.pendingMaxFee.value, s.pendingPriorityFee.value)
  }

  /** A submission, any number of replacements and a clearing leave the lane as a clearing alone
      does: nothing of the pending transaction survives. */
  lemma {:induction false} ClearingForgets(s: LaneState, opportunity: nat, sub: Submission, replaced: seq<Submission>,
                                           confirmed: U64, local: U64, balance: U256)
    ensures ClearedLane(AfterReplacements(SubmittedLane(s, opportunity, sub), replaced), confirmed, local, balance)
         == ClearedLane(s, confirmed, local, balance)
    ensures NothingPending(ClearedLane(s, confirmed, local, balance))
    decreases |replaced|
  {
    if |replaced| > 0 {
      ClearingForgets(s, opportunity, sub, replaced[..|replaced| - 1], confirmed, local, balance);
    }
  }

  function AfterReplacements(s: LaneState, replaced: seq<Submission>): LaneState
    decreases |replaced|
  {
    if |replaced| == 0 then s
    else ReplacedLane(AfterReplacements(s, replaced[..|replaced| - 1]), replaced[|replaced| - 1])
  }

  class EoaLane {
    var state: LaneState

    constructor (address: nat)
      ensures state == NewLane(address)
    {
      state := LaneState(address, 0, 0, None, None, None, None, None, None, 0, None, None, None, 0, Idle);
    }

    constructor FromState(stored: LaneState)
      ensures state == stored
    {
      state := stored;
    }

    method MarkSubmitted(opportunity: nat, sub: Submission)
      modifies this
      ensures state == SubmittedLane(old(state), opportunity, sub)
    {
      state := state.(pendingTx := Some(sub.txHash), pendingExecutor := Some(sub.executor));
      state := state.(pendingOpportunity := Some(opportunity), pendingSimulation := sub.simulation);
      state := state.(pendingNonce := Some(sub.nonce), pendingBlock := Some(sub.submittedBlock));
      state := state.(replacementCount := 0, pendingGasLimit := Some(sub.gasLimit));
      state := state.(pendingMaxFee := Some(sub.fees.maxFee), pendingPriorityFee := Some(sub.fees.priorityFee));
      state := state.(localNonce := if sub.nonce < MAX_U64 then sub.nonce + 1 else MAX_U64);
      state := state.(status := Pending);
    }

    method MarkReplaced(sub: Submission)
      modifies this
      ensures state == ReplacedLane(old(state), sub)
    {
      state := state.(pendingTx := Some(sub.txHash), pendingBlock := Some(sub.submittedBlock));
      if state.replacementCount < MAX_U32 {
        state := state.(replacementCount := state.replacementCount + 1);
      }
      state := state.(pendingGasLimit := Some(sub.gasLimit));
      state := state.(pendingMaxFee := Some(sub.fees.maxFee), pendingPriorityFee := Some(sub.fees.priorityFee));
      state := state.(status := Pending);
    }

    method MarkConfirmed(confirmedNonce: U64)
      modifies this
      ensures state == ConfirmedLane(old(state), confirmedNonce)
    {
      state := state.(confirmedNonce := confirmedNonce);
      state := state.(pendingTx := None, pendingExecutor := None, pendingOpportunity := None);
      state := state.(pendingSimulation := None, pendingNonce := None, pendingBlock := None);
      state := state.(replacementCount := 0, pendingGasLimit := None);
      state := state.(pendingMaxFee := None, pendingPriorityFee := None, status := Idle);
    }

    method ClearConsumedPending(confirmedNonce: U64, localNonce: U64, balance: U256)
      modifies this
      ensures state == ClearedLane(old(state), confirmedNonce, localNonce, balance)
    {
      MarkConfirmed(confirmedNonce);
      state := state.(localNonce := localNonce);
      state := state.(ethBalance := balance);
    }

    method MarkBlocked()
      modifies this
      ensures state == old(state).(status := Blocked)
    {
      state := state.(status := Blocked);
    }

    method MarkCooldown()
      modifies this
      ensures state == old(state).(status := Cooldown)
    {
      state := state.(status := Cooldown);
    }
  }
}

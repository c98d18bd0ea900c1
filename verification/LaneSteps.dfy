/** What one operation on one lane does, given what the node and the stores answer
    (crates/execution-manager/src/main.rs and tx_manager.rs). */
module LaneSteps {
  import opened Wrappers
  import opened U256Math
  import opened FeePolicy
  import opened Lane

  datatype TxStatus = InFlight | Mined | Failed | Dropped

  datatype TxRecord = TxRecord(opportunity: nat, simulation: Option<nat>, eoa: nat, txHash: Option<nat>,
                               nonce: U64, status: TxStatus)

  const ZERO_ADDRESS: nat := 0
  const FALLBACK_GAS_LIMIT: U256 := 900_000

  /** The transaction counts and the balance the node reports for an account. */
  datatype Counts = Counts(latest: Result<U64>, pending: Result<U64>, balance: Result<U256>)

  /** Everything `handle_pending_lane` may ask for; `receipt` holds the success flag. */
  datatype Answers = Answers(receipt: Result<Option<bool>>, counts: Counts, block: Result<U64>,
                             calldata: Result<Option<seq<bv8>>>, suggestion: Result<Suggestion>,
                             sendBlock: Result<U64>, send: Result<nat>)

  // ----- records written by tx_manager.rs -----

  function RecordFor(s: LaneState, txHash: nat, status: TxStatus): TxRecord
    requires s.pendingOpportunity.Some? && s.pendingNonce.Some?
  {
    TxRecord(s.pendingOpportunity.value, s.pendingSimulation, s.address, Some(txHash), s.pendingNonce.value, status)
  }

  // ----- handling a pending lane -----

  datatype Handled = Handled(lane: LaneState, records: seq<TxRecord>, reply: Result<Option<bool>>)

  function HandlePending(s: LaneState, p: Policy, a: Answers): Handled {
    if s.pendingTx.None? || s.pendingOpportunity.None? || s.pendingNonce.None? then
      Handled(s.(status := Blocked), [], Ok(None))
    else match a.receipt
      case Err => Handled(s, [], Err)
      case Ok(None) => HandleUnmined(s, p, a)
      case Ok(Some(success)) => HandleMined(s, success, a.counts)
  }

  /** The receipt is recorded before the counts are asked for, so an error there leaves the lane
      as it was. */
  function HandleMined(s: LaneState, success: bool, c: Counts): Handled
    requires s.pendingTx.Some? && s.pendingOpportunity.Some? && s.pendingNonce.Some?
  {
    var records := [RecordFor(s, s.pendingTx.value, if success then Mined else Failed)];
    if c.latest.Err? || c.pending.Err? || c.balance.Err? then Handled(s, records, Err)
    else Handled(ClearedLane(s, c.latest.value, c.pending.value, c.balance.value), records,
                 Ok(if s.pendingSimulation.Some? then Some(success) else None))
  }

  function HandleUnmined(s: LaneState, p: Policy, a: Answers): Handled
    requires s.pendingTx.Some? && s.pendingOpportunity.Some? && s.pendingNonce.Some?
  {
    var c := a.counts;
    if c.latest.Err? then Handled(s, [], Err)
    else if c.latest.value <= s.pendingNonce.value then MaybeReplace(s, p, a)
    else if c.pending.Err? || c.balance.Err? then Handled(s, [], Err)
    else Handled(ClearedLane(s, c.latest.value, c.pending.value, c.balance.value),
                 [RecordFor(s, s.pendingTx.value, Dropped)], Ok(None))
  }

  predicate DueForReplacement(s: LaneState, p: Policy, block: U64) {
    && s.pendingBlock.Some?
    && (if block < s.pendingBlock.value then 0 else block - s.pendingBlock.value) >= p.replacementBlocks
  }

  predicate Replaceable(s: LaneState) {
    && s.pendingSimulation.Some? && s.pendingGasLimit.Some?
    && s.pendingMaxFee.Some? && s.pendingPriorityFee.Some?
  }

  function MaybeReplace(s: LaneState, p: Policy, a: Answers): Handled
    requires s.pendingTx.Some? && s.pendingOpportunity.Some? && s.pendingNonce.Some?
  {
    var same := Handled(s, [], Ok(None));
    if s.replacementCount >= p.maxReplacements || s.pendingBlock.None? then same
    else if a.block.Err? then Handled(s, [], Err)
    else if !DueForReplacement(s, p, a.block.value) || !Replaceable(s) then same
    else if a.calldata.Err? then Handled(s, [], Err)
    else if a.calldata.value.None? then same
    else match ReplacePending(s, p, a.calldata.value.value, a)
      case Err => same
      case Ok(sub) =>
        Handled(ReplacedLane(s, sub),
                [RecordFor(s, s.pendingTx.value, Dropped), RecordFor(s, sub.txHash, InFlight)], Ok(None))
  }

  function ExecutorFor(s: LaneState, p: Policy): nat {
    if s.pendingExecutor.Some? then s.pendingExecutor.value
    else if p.fallbackExecutor.Some? then p.fallbackExecutor.value
    else ZERO_ADDRESS
  }

  /** `replace_pending_transaction`: same nonce and gas limit, bumped fees. */
  function ReplacePending(s: LaneState, p: Policy, calldata: seq<bv8>, a: Answers): Result<Submission>
    requires s.pendingNonce.Some? && Replaceable(s)
  {
    if ExecutorFor(s, p) == ZERO_ADDRESS || calldata == [] then Err
    else
      var suggestion :- a.suggestion;
      var submittedBlock :- a.sendBlock;
      var txHash :- a.send;
      Ok(Submission(txHash, s.pendingNonce.value, None, ExecutorFor(s, p), submittedBlock, s.pendingGasLimit.value,
                    ReplacementFees(PendingFees(s), suggestion, p)))
  }

  // ----- synchronising an idle lane -----

  function SyncLane(s: LaneState, c: Counts): Result<LaneState> {
    var latest :- c.latest;
    var pending :- c.pending;
    var balance :- c.balance;
    Ok(s.(confirmedNonce := latest, localNonce := pending, ethBalance := balance, status := Idle))
  }

  datatype Treasury = Treasury(wallet: Option<nat>, minBalance: U256, targetBalance: U256)

  /** How often the receipt of a funding transfer is asked for. */
  const POLLS: nat := 80

  type Receipts = s: seq<Result<Option<bool>>> | |s| == POLLS witness seq(80, _ => Err)

  /** What funding a worker may be answered: the funding wallet's balance and next nonce; fees,
      block and hash of the transfer; its receipt, each time it is asked for; the worker's counts
      after it. */
  datatype Funding = Funding(balance: Result<U256>, nonce: Result<U64>, suggestion: Result<Suggestion>,
                             block: Result<U64>, send: Result<nat>, receipts: Receipts, again: Counts)

  /** Waiting from the i-th question on ends with a successful receipt. */
  function MinedFrom(receipts: Receipts, i: nat): bool
    requires i <= POLLS
    decreases POLLS - i
  {
    if i == POLLS || receipts[i].Err? then false
    else if receipts[i].value.Some? then receipts[i].value.value
    else MinedFrom(receipts, i + 1)
  }

  /** From the i-th question on, the k-th is the first that is answered, by a successful receipt. */
  predicate MinedAt(receipts: Receipts, i: nat, k: nat)
    requires k < POLLS
  {
    receipts[k] == Ok(Some(true)) && forall j :: i <= j < k ==> receipts[j] == Ok(None)
  }

  /** That is, some question is answered by a successful receipt and every earlier one by none. */
  lemma {:induction false} MinedMeaning(receipts: Receipts, i: nat)
    requires i <= POLLS
    ensures MinedFrom(receipts, i) <==>
            exists k :: i <= k < POLLS && MinedAt(receipts, i, k)
    decreases POLLS - i
  {
    if i < POLLS && receipts[i] == Ok(None) {
      MinedMeaning(receipts, i + 1);
      var next := i + 1;
      if k :| next <= k < POLLS && MinedAt(receipts, next, k) {
        assert MinedAt(receipts, i, k);
      }
      if k :| i <= k < POLLS && MinedAt(receipts, i, k) {
        assert MinedAt(receipts, next, k);
      }
    } else if i < POLLS {
      assert MinedAt(receipts, i, i) <==> receipts[i] == Ok(Some(true));
    }
  }

  predicate Transferred(f: Funding) {
    f.nonce.Ok? && f.suggestion.Ok? && f.block.Ok? && f.send.Ok? && MinedFrom(f.receipts, 0)
  }

  function FundLane(s: LaneState, t: Treasury, f: Funding): Result<LaneState> {
    if s.status != Idle || s.ethBalance >= t.minBalance then Ok(s)
    else if t.wallet.None? || t.wallet.value == s.address then Err
    else if t.targetBalance <= s.ethBalance then Ok(s)
    else
      var funds :- f.balance;
      if funds <= t.targetBalance - s.ethBalance || !Transferred(f) then Err
      else SyncLane(s, f.again)
  }

  function SyncAndFund(s: LaneState, t: Treasury, c: Counts, f: Funding): Result<LaneState> {
    var synced :- SyncLane(s, c);
    FundLane(synced, t, f)
  }

  // ----- submitting a candidate -----

  /** A simulated candidate and everything the submission of it may ask for. `simulated` is what the
      node suggested during the simulation, whose fees follow the same formula. */
  datatype Request = Request(
    opportunity: nat, simulation: nat, expired: bool, submitEnabled: bool, halted: bool,
    lock: Result<bool>, executor: Result<nat>, calldata: seq<bv8>, gasEstimate: Option<U256>,
    simulated: Option<Suggestion>, suggestion: Result<Suggestion>,
    expiredAtSend: bool, block: U64, send: Result<nat>)

  datatype Action = Skipped | Simulated | Submitted

  datatype Attempt = Attempt(lane: Option<LaneState>, records: seq<TxRecord>, reply: Result<Action>)

  function BumpGasLimit(value: U256): U256 {
    SaturatingAdd(SaturatingMul(value, 12_000) / BPS, 25_000)
  }

  function FeesFor(q: Request, p: Policy): Result<Fees> {
    if q.simulated.Some? then Ok(Aggressive(q.simulated.value, p))
    else
      var suggestion :- q.suggestion;
      Ok(Aggressive(suggestion, p))
  }

  /** `tx_manager::submit_candidate`. */
  function SubmitCandidate(q: Request, p: Policy, nonce: U64): Result<Submission> {
    var executor :- q.executor;
    if q.calldata == [] then Err
    else
      var fees :- FeesFor(q, p);
      if q.expiredAtSend then Err
      else
        var txHash :- q.send;
        Ok(Submission(txHash, nonce, Some(q.simulation), executor, q.block,
                      if q.gasEstimate.Some? then BumpGasLimit(q.gasEstimate.value) else FALLBACK_GAS_LIMIT, fees))
  }

  /** `submit_simulated_candidate` for a wallet whose stored lane, or a new one, is `s`. */
  function SubmitSimulated(s: LaneState, wallet: nat, q: Request, p: Policy): Attempt {
    if q.expired || !q.submitEnabled then Attempt(None, [], Ok(Simulated))
    else if q.halted then Attempt(None, [], Ok(Skipped))
    else if q.lock.Err? then Attempt(None, [], Err)
    else if !q.lock.value then Attempt(None, [], Ok(Skipped))
    else match SubmitCandidate(q, p, s.localNonce)
      case Ok(sub) =>
        Attempt(Some(SubmittedLane(s, q.opportunity, sub)),
                [TxRecord(q.opportunity, sub.simulation, wallet, Some(sub.txHash), sub.nonce, InFlight)],
                Ok(Submitted))
      case Err =>
        Attempt(Some(s.(status := Cooldown)),
                [TxRecord(q.opportunity, Some(q.simulation), wallet, None, s.localNonce, Dropped)], Ok(Simulated))
  }

  // ----- what a single operation keeps -----

  /** Ethereum nonces stay below 2^64 - 1 (EIP-2681). */
  const MAX_NONCE: U64 := 0xffff_ffff_ffff_fffe

  /** A lane is pending with everything it needs, or has nothing pending; it is never blocked. */
  ghost predicate Sound(s: LaneState, p: Policy) {
    && !s.status.Blocked?
    && (s.status.Pending? ==> PendingComplete(s) && s.replacementCount <= p.maxReplacements)
    && (!s.status.Pending? ==> NothingPending(s) && s.localNonce <= MAX_NONCE)
  }

  /** Counts no lower than what is already known, the pending one no lower than the latest. */
  ghost predicate CountsAllowed(c: Counts, floor: nat) {
    && (c.latest.Ok? ==> floor <= c.latest.value)
    && (c.pending.Ok? ==> c.pending.value <= MAX_NONCE)
    && (c.latest.Ok? && c.pending.Ok? ==> c.latest.value <= c.pending.value)
  }

  /** The four things handling a pending lane can do: nothing, record a receipt without clearing
      the lane, clear the lane, or replace the transaction. */
  ghost predicate Untouched(s: LaneState, h: Handled) {
    h.lane == s && h.records == []
  }

  /** The record is of the lane's pending transaction, but for its hash. */
  ghost predicate Concerns(r: TxRecord, s: LaneState) {
    && Some(r.opportunity) == s.pendingOpportunity && r.simulation == s.pendingSimulation
    && r.eoa == s.address && Some(r.nonce) == s.pendingNonce
  }

  ghost predicate Interrupted(s: LaneState, h: Handled) {
    && h.lane == s && h.reply.Err?
    && |h.records| == 1 && h.records[0].status in {Mined, Failed}
    && h.records[0].txHash == s.pendingTx && Concerns(h.records[0], s)
  }

  ghost predicate Cleared(s: LaneState, h: Handled, c: Counts) {
    && c.latest.Ok? && c.pending.Ok? && c.balance.Ok? && h.reply.Ok?
    && h.lane.status.Idle? && NothingPending(h.lane) && h.lane.address == s.address
    && h.lane.localNonce == c.pending.value && h.lane.confirmedNonce == c.latest.value
    && h.lane.ethBalance == c.balance.value
    && |h.records| == 1 && h.records[0].status != InFlight
    && h.records[0].txHash == s.pendingTx && Concerns(h.records[0], s)
  }

  ghost predicate Replaced(s: LaneState, p: Policy, h: Handled, a: Answers)
    requires PendingComplete(s)
  {
    && a.send.Ok? && a.suggestion.Ok? && a.sendBlock.Ok? && h.reply == Ok(None)
    && s.replacementCount < p.maxReplacements
    && h.lane == s.(pendingTx := Some(a.send.value), pendingBlock := Some(a.sendBlock.value),
                    replacementCount := s.replacementCount + 1,
                    pendingMaxFee := h.lane.pendingMaxFee, pendingPriorityFee := h.lane.pendingPriorityFee)
    && PendingComplete(h.lane)
    && PendingFees(h.lane) == ReplacementFees(PendingFees(s), a.suggestion.value, p)
    && |h.records| == 2 && Concerns(h.records[0], s) && Concerns(h.records[1], s)
    && h.records[0].txHash == s.pendingTx && h.records[0].status == Dropped
    && h.records[1].txHash == Some(a.send.value) && h.records[1].status == InFlight
  }

  // ----- when each of them happens -----

  predicate Unmined(a: Answers) {
    a.receipt == Ok(None)
  }

  /** The receipt is there and one of the three questions asked after recording it fails. */
  predicate CutShort(a: Answers) {
    && a.receipt.Ok? && a.receipt.value.Some?
    && (a.counts.latest.Err? || a.counts.pending.Err? || a.counts.balance.Err?)
  }

  /** The nonce is used up, by the transaction itself or by another one, and every count is known. */
  predicate Finished(s: LaneState, a: Answers) {
    && a.receipt.Ok? && a.counts.latest.Ok? && a.counts.pending.Ok? && a.counts.balance.Ok?
    && (a.receipt.value.Some? || (s.pendingNonce.Some? && a.counts.latest.value > s.pendingNonce.value))
  }

  /** At least the configured number of blocks has passed since the transaction was sent. */
  predicate Waited(s: LaneState, p: Policy, block: U64) {
    s.pendingBlock.Some? && (p.replacementBlocks == 0 || s.pendingBlock.value + p.replacementBlocks <= block)
  }

  /** The nonce is still free, the transaction has waited long enough, a replacement is left, and
      everything needed to send it is there. */
  predicate GoesOutAgain(s: LaneState, p: Policy, a: Answers) {
    && Unmined(a) && s.pendingNonce.Some? && a.counts.latest.Ok? && a.counts.latest.value <= s.pendingNonce.value
    && s.replacementCount < p.maxReplacements
    && a.block.Ok? && Waited(s, p, a.block.value)
    && a.calldata.Ok? && a.calldata.value.Some? && a.calldata.value.value != []
    && s.pendingExecutor != Some(0)
    && a.suggestion.Ok? && a.sendBlock.Ok? && a.send.Ok?
  }

  /** Handling a sound pending lane does one of the four things, each exactly when it should: the
      ledger gets the receipt's outcome, or that the transaction was dropped; a replacement keeps
      the nonce and the gas limit and goes out only while the nonce is free. */
  lemma HandlingCases(s: LaneState, p: Policy, a: Answers)
    requires Sound(s, p) && s.status.Pending?
    ensures var h := HandlePending(s, p, a);
            && (CutShort(a) ==> Interrupted(s, h))
            && (Finished(s, a) ==> Cleared(s, h, a.counts) && h.reply == a.receipt)
            && (GoesOutAgain(s, p, a) ==> Replaced(s, p, h, a))
            && (!CutShort(a) && !Finished(s, a) && !GoesOutAgain(s, p, a) ==> Untouched(s, h))
            && (a.receipt.Ok? && h.records != [] ==>
                  h.records[0].status == if a.receipt.value == Some(true) then Mined
                                         else if a.receipt.value == Some(false) then Failed else Dropped)
            && (Untouched(s, h) && h.reply.Ok? ==>
                  && h.reply == Ok(None)
                  && Unmined(a) && a.counts.latest.Ok? && a.counts.latest.value <= s.pendingNonce.value)
  {
    if Unmined(a) && a.counts.latest.Ok? && a.counts.latest.value <= s.pendingNonce.value {
      ReplacingCases(s, p, a);
    }
  }

  lemma ReplacingCases(s: LaneState, p: Policy, a: Answers)
    requires Sound(s, p) && s.status.Pending?
    requires Unmined(a) && a.counts.latest.Ok? && a.counts.latest.value <= s.pendingNonce.value
    ensures var h := MaybeReplace(s, p, a);
            if GoesOutAgain(s, p, a) then Replaced(s, p, h, a) else Untouched(s, h)
  {
    hide ReplacementFees;
    if GoesOutAgain(s, p, a) {
      ReplacementPayable(PendingFees(s), a.suggestion.value, p);
    }
  }

  /** Handling a sound pending lane errs exactly when a question it depends on is not answered. */
  lemma HandlingErrsIff(s: LaneState, p: Policy, a: Answers)
    requires Sound(s, p) && s.status.Pending?
    ensures var free := a.counts.latest.Ok? && a.counts.latest.value <= s.pendingNonce.value;
            (HandlePending(s, p, a).reply.Err? <==>
             || a.receipt.Err? || CutShort(a)
             || (Unmined(a) && a.counts.latest.Err?)
             || (Unmined(a) && !free && (a.counts.pending.Err? || a.counts.balance.Err?))
             || (Unmined(a) && free && s.replacementCount < p.maxReplacements
                 && (a.block.Err? || (Waited(s, p, a.block.value) && a.calldata.Err?))))
  {
  }

  /** No operation leaves a lane unsound. */
  lemma HandlingKeepsSound(s: LaneState, p: Policy, a: Answers, floor: nat)
    requires Sound(s, p) && s.status.Pending? && CountsAllowed(a.counts, floor)
    ensures var h := HandlePending(s, p, a); Sound(h.lane, p) && h.lane.address == s.address
  {
    hide HandlePending;
    HandlingCases(s, p, a);
  }

  lemma SyncKeepsSound(s: LaneState, p: Policy, t: Treasury, c: Counts, f: Funding, floor: nat)
    requires Sound(s, p) && !s.status.Pending? && CountsAllowed(c, floor)
    requires c.latest.Ok? ==> CountsAllowed(f.again, c.latest.value)
    ensures var r := SyncAndFund(s, t, c, f);
            r.Ok? ==> Sound(r.value, p) && r.value.status.Idle? && r.value.address == s.address
                      && floor <= r.value.confirmedNonce <= r.value.localNonce
  {
  }

  /** Synchronising takes the chain's counts and balance and nothing else, if it is answered. A lane
      that is then short of the minimum balance is funded up to the target and synchronised again:
      from another account that keeps something, by a transfer that is mined. */
  lemma SyncIs(s: LaneState, t: Treasury, c: Counts, f: Funding)
    ensures var r := SyncAndFund(s, t, c, f);
            var known := c.latest.Ok? && c.pending.Ok? && c.balance.Ok?;
            var short := known && c.balance.value < t.minBalance;
            var funded := short && c.balance.value < t.targetBalance;
            && (r.Ok? <==>
                  && known
                  && (short ==> t.wallet.Some? && t.wallet.value != s.address)
                  && (funded ==>
                        && f.balance.Ok? && c.balance.value + f.balance.value > t.targetBalance
                        && f.nonce.Ok? && f.suggestion.Ok? && f.block.Ok? && f.send.Ok?
                        && (exists k :: 0 <= k < POLLS && MinedAt(f.receipts, 0, k))
                        && f.again.latest.Ok? && f.again.pending.Ok? && f.again.balance.Ok?))
            && (r.Ok? ==>
                  var last := if funded then f.again else c;
                  r.value == s.(confirmedNonce := last.latest.value, localNonce := last.pending.value,
                                ethBalance := last.balance.value, status := Idle))
  {
    hide MinedFrom, MinedAt;
    MinedMeaning(f.receipts, 0);
  }

  lemma SubmittingKeepsSound(s: LaneState, wallet: nat, q: Request, p: Policy)
    requires Sound(s, p) && !s.status.Pending?
    ensures var r := SubmitSimulated(s, wallet, q, p);
            && (r.lane.Some? ==> Sound(r.lane.value, p) && r.lane.value.address == s.address)
            && (r.reply == Ok(Submitted) <==> r.lane.Some? && r.lane.value.status.Pending?)
            && (r.reply == Ok(Submitted) ==> r.lane.value.pendingNonce == Some(s.localNonce))
            && (r.reply != Ok(Submitted) && r.lane.Some? ==> r.lane.value == s.(status := Cooldown))
  {
    if q.suggestion.Ok? {
      AggressivePayable(q.suggestion.value, p);
    }
    if q.simulated.Some? {
      AggressivePayable(q.simulated.value, p);
    }
  }

  /** Everything a submission needs: the candidate is still wanted and not yet expired, nobody else
      holds its lock, the executor, calldata and fees are known, and the node takes it. */
  predicate GoesOut(q: Request) {
    && !q.expired && q.submitEnabled && !q.halted && q.lock == Ok(true)
    && q.executor.Ok? && q.calldata != [] && !q.expiredAtSend && q.send.Ok?
    && (q.simulated.Some? || q.suggestion.Ok?)
  }

  /** The gas limit of a submission: a fifth above the estimate, rounded down, and 25000. */
  lemma GasLimitIs(estimate: U256)
    ensures var limit := BumpGasLimit(estimate);
            && limit >= 25_000
            && (estimate * 12_000 <= U256_MAX ==>
                  (limit - 25_000) * 10_000 <= estimate * 12_000 < (limit - 24_999) * 10_000)
            && (estimate * 12_000 > U256_MAX ==> limit == U256_MAX / 10_000 + 25_000)
  {
  }

  /** A transaction is submitted exactly when all that is there; the lane then holds every part of it
      and the ledger its hash and nonce. A failure after the lock was taken cools the lane down. */
  lemma SubmittedIff(s: LaneState, wallet: nat, q: Request, p: Policy)
    ensures var r := SubmitSimulated(s, wallet, q, p);
            && (r.reply == Ok(Submitted) <==> GoesOut(q))
            && (GoesOut(q) ==>
                  var fees := Aggressive(if q.simulated.Some? then q.simulated.value else q.suggestion.value, p);
                  && r.lane == Some(LaneState(
                       s.address, if s.localNonce < 0xffff_ffff_ffff_ffff then s.localNonce + 1 else s.localNonce,
                       s.confirmedNonce, Some(q.send.value), Some(q.executor.value), Some(q.opportunity),
                       Some(q.simulation), Some(s.localNonce), Some(q.block), 0,
                       Some(if q.gasEstimate.Some? then BumpGasLimit(q.gasEstimate.value) else 900_000),
                       Some(fees.maxFee), Some(fees.priorityFee), s.ethBalance, Pending))
                  && r.records == [TxRecord(q.opportunity, Some(q.simulation), wallet, Some(q.send.value),
                                            s.localNonce, InFlight)])
            && (r.lane.Some? && !GoesOut(q) ==>
                  && r.lane.value == s.(status := Cooldown) && r.reply == Ok(Simulated)
                  && r.records == [TxRecord(q.opportunity, Some(q.simulation), wallet, None, s.localNonce, Dropped)])
            && (r.lane.None? ==> r.records == [])
            && (r.lane.Some? <==> !q.expired && q.submitEnabled && !q.halted && q.lock == Ok(true))
            && (r.reply == Ok(Skipped) <==> !q.expired && q.submitEnabled && (q.halted || q.lock == Ok(false)))
  {
    hide Aggressive, BumpGasLimit;
  }
}

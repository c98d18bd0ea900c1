/** Every run of the lane protocol: the two stores the execution manager writes, the operations on
    them, and what no interleaving of submissions, receipts, used-up nonces, replacements and
    failures can break. */
module LaneProtocol {
  import opened Wrappers
  import opened U256Math
  import opened FeePolicy
  import opened Lane
  import opened LaneSteps

  /** The lane store and the transaction ledger. */
  datatype World = World(lanes: map<nat, LaneState>, ledger: seq<TxRecord>)

  datatype Config = Config(policy: Policy, treasury: Treasury)

  datatype Event =
    | Handle(eoa: nat, answers: Answers)
    | Sync(eoa: nat, counts: Counts, funding: Funding)
    | Submit(eoa: nat, request: Request)
    /** An approval transaction of the fund wallet that could not be sent. */
    | FailApproval(eoa: nat, opportunity: nat, nonce: U64)

  function LaneOf(w: World, a: nat): LaneState {
    if a in w.lanes then w.lanes[a] else NewLane(a)
  }

  function Act(w: World, g: Config, e: Event): World {
    match e
    case Handle(a, answers) =>
      var h := HandlePending(LaneOf(w, a), g.policy, answers);
      World(w.lanes[a := h.lane], w.ledger + h.records)
    case Sync(a, counts, funding) =>
      var r := SyncAndFund(LaneOf(w, a), g.treasury, counts, funding);
      if r.Ok? then w.(lanes := w.lanes[a := r.value]) else w
    case Submit(a, request) =>
      var r := SubmitSimulated(LaneOf(w, a), a, request, g.policy);
      World(if r.lane.Some? then w.lanes[a := r.lane.value] else w.lanes, w.ledger + r.records)
    case FailApproval(a, opportunity, nonce) =>
      w.(ledger := w.ledger + [TxRecord(opportunity, None, a, None, nonce, Dropped)])
  }

  /** When the execution manager performs the operation: it handles stored pending lanes, and
      synchronises or submits from lanes that are not pending. */
  predicate Guard(w: World, e: Event) {
    match e
    case Handle(a, _) => a in w.lanes && w.lanes[a].status.Pending?
    case Sync(a, _, _) => !LaneOf(w, a).status.Pending?
    case Submit(a, _) => !LaneOf(w, a).status.Pending?
    case FailApproval(_, _, _) => true
  }

  // ----- the ledger read by transaction hash, the last record for a hash winning -----

  function LastRecord(ledger: seq<TxRecord>, txHash: nat): Option<TxRecord>
    decreases |ledger|
  {
    if |ledger| == 0 then None
    else
      var last := ledger[|ledger| - 1];
      if last.txHash == Some(txHash) then Some(last) else LastRecord(ledger[..|ledger| - 1], txHash)
  }

  predicate InFlightFor(ledger: seq<TxRecord>, eoa: nat, txHash: nat) {
    var r := LastRecord(ledger, txHash);
    r.Some? && r.value.eoa == eoa && r.value.status == InFlight
  }

  lemma AppendedRecord(ledger: seq<TxRecord>, r: TxRecord, txHash: nat)
    ensures LastRecord(ledger + [r], txHash) == if r.txHash == Some(txHash) then Some(r) else LastRecord(ledger, txHash)
  {
    assert (ledger + [r])[..|ledger + [r]| - 1] == ledger;
  }

  lemma AppendedRecords(ledger: seq<TxRecord>, r: TxRecord, q: TxRecord, txHash: nat)
    ensures LastRecord(ledger + [r, q], txHash)
         == if q.txHash == Some(txHash) then Some(q)
            else if r.txHash == Some(txHash) then Some(r) else LastRecord(ledger, txHash)
  {
    assert ledger + [r, q] == ledger + [r] + [q];
    AppendedRecord(ledger + [r], q, txHash);
    AppendedRecord(ledger, r, txHash);
  }

  // ----- what is remembered about a run to state its properties -----

  datatype Sent = Sent(eoa: nat, nonce: U64)

  /** `floor`: what the chain has shown of each account's count; `sent`: the successful
      submissions in order; `first`: the fees of each account's latest submission; `interrupted`:
      the accounts whose last handling recorded a receipt and then failed. */
  datatype History = History(floor: map<nat, nat>, sent: seq<Sent>, first: map<nat, Fees>, interrupted: set<nat>)

  function FloorOf(h: History, a: nat): nat {
    if a in h.floor then h.floor[a] else 0
  }

  function Know(floor: nat, count: Result<U64>): nat {
    if count.Ok? && count.value > floor then count.value else floor
  }

  predicate HasReceipt(s: LaneState, answers: Answers) {
    answers.receipt.Ok? && answers.receipt.value.Some? && s.pendingNonce.Some?
  }

  function Remember(w: World, h: History, g: Config, e: Event): History {
    match e
    case Handle(a, answers) =>
      var s := LaneOf(w, a);
      var mined := HasReceipt(s, answers);
      var floor := Know(FloorOf(h, a), answers.counts.latest);
      var reply := HandlePending(s, g.policy, answers).reply;
      h.(floor := h.floor[a := if mined && floor <= s.pendingNonce.value then s.pendingNonce.value + 1 else floor],
         interrupted := if reply.Ok? then h.interrupted - {a}
                        else if mined then h.interrupted + {a} else h.interrupted)
    case Sync(a, counts, _) =>
      h.(floor := h.floor[a := Know(FloorOf(h, a), counts.latest)])
    case Submit(a, request) =>
      var r := SubmitSimulated(LaneOf(w, a), a, request, g.policy);
      if r.reply == Ok(Submitted) then
        h.(sent := h.sent + [Sent(a, LaneOf(w, a).localNonce)],
           first := h.first[a := LaneFees(r.lane.value)],
           interrupted := h.interrupted - {a})
      else h
    case FailApproval(_, _, _) => h
  }

  function LaneFees(s: LaneState): Fees {
    if s.pendingMaxFee.Some? && s.pendingPriorityFee.Some? then PendingFees(s) else Fees(0, 0)
  }

  /** What is asked of the environment: transaction counts never fall and stay below 2^64 - 1, and the
      pending count is at least the latest one; a transaction with a receipt has used up its nonce; a newly signed
      transaction has a hash not in the ledger. */
  ghost predicate Allowed(w: World, h: History, e: Event) {
    match e
    case Handle(a, answers) =>
      && CountsAllowed(answers.counts, FloorOf(h, a))
      && (HasReceipt(LaneOf(w, a), answers) && answers.counts.latest.Ok? ==>
            answers.counts.latest.value > LaneOf(w, a).pendingNonce.value)
      && (answers.send.Ok? ==> LastRecord(w.ledger, answers.send.value).None?)
    case Sync(a, counts, funding) =>
      && CountsAllowed(counts, FloorOf(h, a))
      && (counts.latest.Ok? ==> CountsAllowed(funding.again, counts.latest.value))
    case Submit(a, request) =>
      (request.send.Ok? ==> LastRecord(w.ledger, request.send.value).None?)
    case FailApproval(_, _, _) => true
  }

  // ----- the invariant -----

  ghost predicate LanesSound(w: World, g: Config) {
    forall a :: a in w.lanes ==> Sound(w.lanes[a], g.policy) && w.lanes[a].address == a
  }

  ghost predicate NoncesSound(w: World, h: History) {
    && (forall i :: 0 <= i < |h.sent| ==> NonceUsed(w, h, h.sent[i]))
    && (forall i, j :: 0 <= i < j < |h.sent| && h.sent[i].eoa == h.sent[j].eoa ==> h.sent[i].nonce < h.sent[j].nonce)
    && (forall a :: a in h.interrupted ==> InterruptedKnown(w, h, a))
  }

  /** A nonce already used is below the one the lane uses next, and below the chain's count
      unless the lane is still pending. */
  ghost predicate NonceUsed(w: World, h: History, sent: Sent) {
    && sent.eoa in w.lanes
    && sent.nonce < w.lanes[sent.eoa].localNonce
    && (!w.lanes[sent.eoa].status.Pending? ==> sent.nonce < FloorOf(h, sent.eoa))
  }

  ghost predicate InterruptedKnown(w: World, h: History, a: nat) {
    a in w.lanes && w.lanes[a].pendingNonce.Some? && w.lanes[a].pendingNonce.value < FloorOf(h, a)
  }

  ghost predicate LedgerSound(w: World, h: History) {
    && (forall x: nat :: LastRecord(w.ledger, x).Some? ==> Accounted(w, x, LastRecord(w.ledger, x).value))
    && (forall a :: a in w.lanes && w.lanes[a].status.Pending? ==> Recorded(w, h, a))
  }

  /** A record in flight is the pending transaction of its account's lane. */
  ghost predicate Accounted(w: World, x: nat, r: TxRecord) {
    && r.eoa in w.lanes
    && (r.status == InFlight ==> w.lanes[r.eoa].status.Pending? && w.lanes[r.eoa].pendingTx == Some(x))
  }

  /** A pending lane's transaction is in flight in the ledger, except after an interruption, when
      the ledger already has its receipt. */
  ghost predicate Recorded(w: World, h: History, a: nat)
    requires a in w.lanes
  {
    && w.lanes[a].pendingTx.Some?
    && var r := LastRecord(w.ledger, w.lanes[a].pendingTx.value);
    && r.Some? && r.value.eoa == a && Some(r.value.nonce) == w.lanes[a].pendingNonce
    && r.value.status == (if a in h.interrupted then r.value.status else InFlight)
    && (a in h.interrupted ==> r.value.status in {Mined, Failed})
  }

  ghost predicate Inv(w: World, h: History, g: Config) {
    LanesSound(w, g) && NoncesSound(w, h) && LedgerSound(w, h)
  }

  // ----- every operation keeps it -----

  lemma ActKeepsLanes(w: World, h: History, g: Config, e: Event)
    requires LanesSound(w, g) && Guard(w, e) && Allowed(w, h, e)
    ensures LanesSound(Act(w, g, e), g)
  {
    hide HandlePending, SubmitSimulated, SyncAndFund, LastRecord;
    match e
    case Handle(a, answers) => HandlingKeepsSound(w.lanes[a], g.policy, answers, FloorOf(h, a));
    case Sync(a, counts, funding) =>
      SyncKeepsSound(LaneOf(w, a), g.policy, g.treasury, counts, funding, FloorOf(h, a));
    case Submit(a, request) => SubmittingKeepsSound(LaneOf(w, a), a, request, g.policy);
    case FailApproval(_, _, _) =>
  }

  /** A nonce used stays used: whatever replaces account `a`'s lane goes on from no lower nonce. */
  lemma NoncesCarry(w: World, h: History, a: nat, s: LaneState, w': World, h': History)
    requires NoncesSound(w, h)
    requires w'.lanes == w.lanes[a := s] && h'.sent == h.sent
    requires forall b :: b != a ==> FloorOf(h', b) == FloorOf(h, b)
    requires FloorOf(h, a) <= FloorOf(h', a)
    requires !s.status.Pending? ==>
               && FloorOf(h', a) <= s.localNonce
               && (LaneOf(w, a).status.Pending? ==> LaneOf(w, a).localNonce <= FloorOf(h', a))
    requires s.status.Pending? ==> a in w.lanes && w.lanes[a].status.Pending? && s.localNonce == w.lanes[a].localNonce
    requires h'.interrupted - {a} == h.interrupted - {a}
    requires a in h'.interrupted ==> s.pendingNonce.Some? && s.pendingNonce.value < FloorOf(h', a)
    ensures NoncesSound(w', h')
  {
    hide LastRecord, Accounted, Recorded, FloorOf;
    forall i | 0 <= i < |h'.sent| ensures NonceUsed(w', h', h'.sent[i]) {
      assert NonceUsed(w, h, h.sent[i]);
    }
    forall b | b in h'.interrupted ensures InterruptedKnown(w', h', b) {
      if b != a {
        assert b in h'.interrupted - {a};
        assert InterruptedKnown(w, h, b);
      }
    }
  }

  lemma HandlingKeepsNonces(w: World, h: History, g: Config, a: nat, answers: Answers)
    requires Inv(w, h, g) && Guard(w, Handle(a, answers)) && Allowed(w, h, Handle(a, answers))
    ensures NoncesSound(Act(w, g, Handle(a, answers)), Remember(w, h, g, Handle(a, answers)))
  {
    hide HandlePending, LastRecord, LedgerSound;
    var s, e := w.lanes[a], Handle(a, answers);
    HandlingCases(s, g.policy, answers);
    assert a in h.interrupted ==> InterruptedKnown(w, h, a);
    NoncesCarry(w, h, a, HandlePending(s, g.policy, answers).lane, Act(w, g, e), Remember(w, h, g, e));
  }

  lemma SyncingKeepsNonces(w: World, h: History, g: Config, a: nat, c: Counts, f: Funding)
    requires Inv(w, h, g) && Guard(w, Sync(a, c, f)) && Allowed(w, h, Sync(a, c, f))
    ensures NoncesSound(Act(w, g, Sync(a, c, f)), Remember(w, h, g, Sync(a, c, f)))
  {
    hide SyncAndFund, LastRecord, LedgerSound;
    SyncKeepsSound(LaneOf(w, a), g.policy, g.treasury, c, f, FloorOf(h, a));
    assert a in h.interrupted ==> InterruptedKnown(w, h, a);
  }

  lemma SubmittingKeepsNonces(w: World, h: History, g: Config, a: nat, q: Request)
    requires Inv(w, h, g) && Guard(w, Submit(a, q)) && Allowed(w, h, Submit(a, q))
    ensures NoncesSound(Act(w, g, Submit(a, q)), Remember(w, h, g, Submit(a, q)))
  {
    hide SubmitSimulated, LastRecord, LedgerSound, PendingComplete, InterruptedKnown;
    SubmittingKeepsSound(LaneOf(w, a), a, q, g.policy);
    var out := SubmitSimulated(LaneOf(w, a), a, q, g.policy);
    var s := if out.lane.Some? then out.lane.value else LaneOf(w, a);
    var w', h' := Act(w, g, Submit(a, q)), Remember(w, h, g, Submit(a, q));
    SubmittedLaneFacts(LaneOf(w, a), a, q, g.policy);
    forall i | 0 <= i < |h'.sent| ensures NonceUsed(w', h', h'.sent[i]) {
      if i < |h.sent| {
        assert NonceUsed(w, h, h.sent[i]);
      }
    }
    forall i, j | 0 <= i < j < |h'.sent| && h'.sent[i].eoa == h'.sent[j].eoa
      ensures h'.sent[i].nonce < h'.sent[j].nonce
    {
      assert NonceUsed(w, h, h.sent[i]);
    }
    forall b | b in h'.interrupted ensures InterruptedKnown(w', h', b) {
      InterruptedStays(w, h, a, b, w', h');
    }
  }

  lemma SubmittedLaneFacts(s: LaneState, wallet: nat, q: Request, p: Policy)
    requires Sound(s, p) && !s.status.Pending?
    ensures var r := SubmitSimulated(s, wallet, q, p);
      && (r.reply == Ok(Submitted) ==> r.lane.Some? && r.lane.value.localNonce == s.localNonce + 1)
      && (r.reply != Ok(Submitted) && r.lane.Some? ==> r.lane.value.localNonce == s.localNonce)
  {
    hide SubmitSimulated;
    SubmittingKeepsSound(s, wallet, q, p);
  }

  /** An interrupted account is still pending, so it is not the one submitting. */
  lemma InterruptedStays(w: World, h: History, a: nat, b: nat, w': World, h': History)
    requires b in h'.interrupted && h'.interrupted <= h.interrupted && InterruptedKnown(w, h, b)
    requires a !in w.lanes || NothingPending(w.lanes[a])
    requires forall x :: x != a && x in w.lanes ==> x in w'.lanes && w'.lanes[x] == w.lanes[x]
    requires h'.floor == h.floor
    ensures InterruptedKnown(w', h', b)
  {
  }

  /** Only records of account `a` were added, and for no other account's transactions. */
  ghost predicate OnlyOwn(before: seq<TxRecord>, after: seq<TxRecord>, a: nat) {
    forall x: nat :: LastRecord(after, x) == LastRecord(before, x) || OwnChange(before, after, a, x)
  }

  predicate OwnChange(before: seq<TxRecord>, after: seq<TxRecord>, a: nat, x: nat) {
    && LastRecord(after, x).Some? && LastRecord(after, x).value.eoa == a
    && (LastRecord(before, x).Some? ==> LastRecord(before, x).value.eoa == a)
  }

  lemma LedgerStep(w: World, h: History, g: Config, e: Event, a: nat, s: LaneState)
    requires LedgerSound(w, h) && e.eoa == a
    requires Act(w, g, e).lanes == w.lanes[a := s]
    requires OnlyOwn(w.ledger, Act(w, g, e).ledger, a)
    requires forall x: nat :: InFlightFor(Act(w, g, e).ledger, a, x) ==> s.status.Pending? && s.pendingTx == Some(x)
    requires s.status.Pending? ==> Recorded(Act(w, g, e), Remember(w, h, g, e), a)
    ensures LedgerSound(Act(w, g, e), Remember(w, h, g, e))
  {
    hide LastRecord, HandlePending, SubmitSimulated, SyncAndFund, Act;
    var after, past := Act(w, g, e), Remember(w, h, g, e);
    forall x: nat | LastRecord(after.ledger, x).Some? ensures Accounted(after, x, LastRecord(after.ledger, x).value) {
      assert LastRecord(after.ledger, x) == LastRecord(w.ledger, x) || OwnChange(w.ledger, after.ledger, a, x);
      assert InFlightFor(after.ledger, a, x) ==> s.pendingTx == Some(x);
    }
    forall b | b in after.lanes && after.lanes[b].status.Pending? ensures Recorded(after, past, b) {
      if b != a {
        assert Recorded(w, h, b);
        var x := w.lanes[b].pendingTx.value;
        assert LastRecord(after.ledger, x) == LastRecord(w.ledger, x) || OwnChange(w.ledger, after.ledger, a, x);
        assert b in past.interrupted <==> b in h.interrupted;
      }
    }
  }

  lemma OnlyPendingInFlight(w: World, h: History, a: nat)
    requires LedgerSound(w, h)
    ensures forall x: nat :: InFlightFor(w.ledger, a, x) ==>
              a in w.lanes && w.lanes[a].status.Pending? && w.lanes[a].pendingTx == Some(x)
  {
    hide LastRecord;
    forall x: nat ensures InFlightFor(w.ledger, a, x) ==>
                    a in w.lanes && w.lanes[a].status.Pending? && w.lanes[a].pendingTx == Some(x) {
      if LastRecord(w.ledger, x).Some? {
        assert Accounted(w, x, LastRecord(w.ledger, x).value);
      }
    }
  }

  lemma HandlingKeepsLedger(w: World, h: History, g: Config, a: nat, answers: Answers)
    requires Inv(w, h, g) && Guard(w, Handle(a, answers)) && Allowed(w, h, Handle(a, answers))
    ensures LedgerSound(Act(w, g, Handle(a, answers)), Remember(w, h, g, Handle(a, answers)))
  {
    hide HandlePending, LastRecord;
    var s := w.lanes[a];
    HandlingCases(s, g.policy, answers);
    var out := HandlePending(s, g.policy, answers);
    assert Recorded(w, h, a);
    assert a in h.interrupted ==> InterruptedKnown(w, h, a);
    if Untouched(s, out) {
      assert w.ledger + out.records == w.ledger && w.lanes[a := out.lane] == w.lanes;
    } else if Replaced(s, g.policy, out, answers) {
      HandlingReplaces(w, h, g, a, answers);
    } else {
      HandlingFinishes(w, h, g, a, answers);
    }
  }

  lemma HandlingReplaces(w: World, h: History, g: Config, a: nat, answers: Answers)
    requires LanesSound(w, g) && LedgerSound(w, h) && Guard(w, Handle(a, answers))
    requires Replaced(w.lanes[a], g.policy, HandlePending(w.lanes[a], g.policy, answers), answers)
    requires LastRecord(w.ledger, answers.send.value).None?
    ensures LedgerSound(Act(w, g, Handle(a, answers)), Remember(w, h, g, Handle(a, answers)))
  {
    hide HandlePending, LastRecord, ReplacementFees;
    var s := w.lanes[a];
    var out := HandlePending(s, g.policy, answers);
    assert Recorded(w, h, a);
    var after := w.ledger + out.records;
    assert out.records == [out.records[0], out.records[1]];
    forall x: nat ensures LastRecord(after, x) == if x == answers.send.value then Some(out.records[1])
                                                  else if Some(x) == s.pendingTx then Some(out.records[0])
                                                  else LastRecord(w.ledger, x) {
      AppendedRecords(w.ledger, out.records[0], out.records[1], x);
    }
    OnlyPendingInFlight(w, h, a);
    LedgerStep(w, h, g, Handle(a, answers), a, out.lane);
  }

  /** One final record for the pending transaction, whether or not the lane is cleared with it. */
  lemma HandlingFinishes(w: World, h: History, g: Config, a: nat, answers: Answers)
    requires LanesSound(w, g) && LedgerSound(w, h) && Guard(w, Handle(a, answers))
    requires var s := w.lanes[a]; var out := HandlePending(s, g.policy, answers);
             Cleared(s, out, answers.counts) || (Interrupted(s, out) && HasReceipt(s, answers))
    ensures LedgerSound(Act(w, g, Handle(a, answers)), Remember(w, h, g, Handle(a, answers)))
  {
    hide HandlePending, LastRecord;
    var s := w.lanes[a];
    var out := HandlePending(s, g.policy, answers);
    assert Recorded(w, h, a);
    var after := w.ledger + out.records;
    assert out.records == [out.records[0]];
    forall x: nat ensures LastRecord(after, x) == if Some(x) == s.pendingTx then Some(out.records[0])
                                                  else LastRecord(w.ledger, x) {
      AppendedRecord(w.ledger, out.records[0], x);
    }
    OnlyPendingInFlight(w, h, a);
    LedgerStep(w, h, g, Handle(a, answers), a, out.lane);
  }

  lemma SubmittingKeepsLedger(w: World, h: History, g: Config, a: nat, q: Request)
    requires Inv(w, h, g) && Guard(w, Submit(a, q)) && Allowed(w, h, Submit(a, q))
    ensures LedgerSound(Act(w, g, Submit(a, q)), Remember(w, h, g, Submit(a, q)))
  {
    hide LastRecord, FeesFor;
    var out := SubmitSimulated(LaneOf(w, a), a, q, g.policy);
    if out.records == [] {
      assert w.ledger + out.records == w.ledger;
    } else {
      var after := w.ledger + out.records;
      assert out.records == [out.records[0]];
      forall x: nat ensures LastRecord(after, x) == if out.records[0].txHash == Some(x) then Some(out.records[0])
                                                    else LastRecord(w.ledger, x) {
        AppendedRecord(w.ledger, out.records[0], x);
      }
      OnlyPendingInFlight(w, h, a);
      LedgerStep(w, h, g, Submit(a, q), a, out.lane.value);
    }
  }

  lemma SyncingKeepsLedger(w: World, h: History, g: Config, a: nat, c: Counts, f: Funding)
    requires Inv(w, h, g) && Guard(w, Sync(a, c, f)) && Allowed(w, h, Sync(a, c, f))
    ensures LedgerSound(Act(w, g, Sync(a, c, f)), Remember(w, h, g, Sync(a, c, f)))
  {
    hide LastRecord, SyncAndFund;
    SyncKeepsSound(LaneOf(w, a), g.policy, g.treasury, c, f, FloorOf(h, a));
    var out := SyncAndFund(LaneOf(w, a), g.treasury, c, f);
    if out.Ok? {
      OnlyPendingInFlight(w, h, a);
      LedgerStep(w, h, g, Sync(a, c, f), a, out.value);
    }
  }

  /** A record without a hash changes no lane and nothing read by hash. */
  lemma FailedApprovalKeepsInv(w: World, h: History, g: Config, e: Event)
    requires Inv(w, h, g) && e.FailApproval?
    ensures Remember(w, h, g, e) == h && NoncesSound(Act(w, g, e), h) && LedgerSound(Act(w, g, e), h)
    ensures forall x: nat :: LastRecord(Act(w, g, e).ledger, x) == LastRecord(w.ledger, x)
  {
    hide LastRecord;
    var after := Act(w, g, e);
    forall x: nat ensures LastRecord(after.ledger, x) == LastRecord(w.ledger, x) {
      AppendedRecord(w.ledger, TxRecord(e.opportunity, None, e.eoa, None, e.nonce, Dropped), x);
    }
    forall i | 0 <= i < |h.sent| ensures NonceUsed(after, h, h.sent[i]) {
      assert NonceUsed(w, h, h.sent[i]);
    }
    forall a | a in h.interrupted ensures InterruptedKnown(after, h, a) {
      assert InterruptedKnown(w, h, a);
    }
    forall x: nat | LastRecord(w.ledger, x).Some? ensures Accounted(after, x, LastRecord(w.ledger, x).value) {
      assert Accounted(w, x, LastRecord(w.ledger, x).value);
    }
    forall a | a in w.lanes && w.lanes[a].status.Pending? ensures Recorded(after, h, a) {
      assert Recorded(w, h, a);
    }
  }

  lemma ActKeepsInv(w: World, h: History, g: Config, e: Event)
    requires Inv(w, h, g) && Guard(w, e) && Allowed(w, h, e)
    ensures Inv(Act(w, g, e), Remember(w, h, g, e), g)
  {
    hide LanesSound, NoncesSound, LedgerSound, Act, Remember, Guard, Allowed;
    ActKeepsLanes(w, h, g, e);
    match e
    case Handle(a, answers) =>
      HandlingKeepsNonces(w, h, g, a, answers);
      HandlingKeepsLedger(w, h, g, a, answers);
    case Sync(a, counts, funding) =>
      SyncingKeepsNonces(w, h, g, a, counts, funding);
      SyncingKeepsLedger(w, h, g, a, counts, funding);
    case Submit(a, request) =>
      SubmittingKeepsNonces(w, h, g, a, request);
      SubmittingKeepsLedger(w, h, g, a, request);
    case FailApproval(_, _, _) =>
      FailedApprovalKeepsInv(w, h, g, e);
  }

  // ----- whole runs -----

  function Run(w: World, g: Config, trace: seq<Event>): World
    decreases |trace|
  {
    if |trace| == 0 then w else Run(Act(w, g, trace[0]), g, trace[1..])
  }

  function Recall(w: World, h: History, g: Config, trace: seq<Event>): History
    decreases |trace|
  {
    if |trace| == 0 then h else Recall(Act(w, g, trace[0]), Remember(w, h, g, trace[0]), g, trace[1..])
  }

  /** Each operation is performed when the manager performs it, in an environment as asked. */
  ghost predicate Legal(w: World, h: History, g: Config, trace: seq<Event>)
    decreases |trace|
  {
    |trace| > 0 ==>
      && Guard(w, trace[0]) && Allowed(w, h, trace[0])
      && Legal(Act(w, g, trace[0]), Remember(w, h, g, trace[0]), g, trace[1..])
  }

  const START: World := World(map[], [])
  const NO_HISTORY: History := History(map[], [], map[], {})

  lemma {:induction false} RunKeepsInv(w: World, h: History, g: Config, trace: seq<Event>)
    requires Inv(w, h, g) && Legal(w, h, g, trace)
    ensures Inv(Run(w, g, trace), Recall(w, h, g, trace), g)
    decreases |trace|
  {
    hide Inv, Act, Remember, Guard, Allowed;
    if |trace| > 0 {
      ActKeepsInv(w, h, g, trace[0]);
      RunKeepsInv(Act(w, g, trace[0]), Remember(w, h, g, trace[0]), g, trace[1..]);
    }
  }
}

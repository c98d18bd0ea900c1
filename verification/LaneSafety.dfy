/** What the invariant of the lane protocol means over every run from empty stores. */
module LaneSafety {
  import opened Arith
  import opened Wrappers
  import opened U256Math
  import opened FeePolicy
  import opened Lane
  import opened LaneSteps
  import opened LaneProtocol

  /** A run from empty stores in an environment as asked. */
  ghost predicate Reached(w: World, h: History, g: Config, trace: seq<Event>) {
    Legal(START, NO_HISTORY, g, trace) && w == Run(START, g, trace) && h == Recall(START, NO_HISTORY, g, trace)
  }

  lemma ReachedInv(w: World, h: History, g: Config, trace: seq<Event>)
    requires Reached(w, h, g, trace)
    ensures Inv(w, h, g)
  {
    RunKeepsInv(START, NO_HISTORY, g, trace);
  }

  /** Every lane is pending with all its data, the next nonce being the pending one plus one, or
      it is idle or cooling down with none; no lane is ever blocked. */
  lemma LanesAreSound(w: World, h: History, g: Config, trace: seq<Event>, a: nat)
    requires Reached(w, h, g, trace) && a in w.lanes
    ensures var s := w.lanes[a];
            || (s.status.Pending? && PendingComplete(s) && s.replacementCount <= g.policy.maxReplacements)
            || ((s.status.Idle? || s.status.Cooldown?) && NothingPending(s))
  {
    ReachedInv(w, h, g, trace);
  }

  /** The nonces of an account's successful submissions strictly increase. */
  lemma SubmittedNoncesIncrease(w: World, h: History, g: Config, trace: seq<Event>, i: nat, j: nat)
    requires Reached(w, h, g, trace) && i < j < |h.sent| && h.sent[i].eoa == h.sent[j].eoa
    ensures h.sent[i].nonce < h.sent[j].nonce
  {
    ReachedInv(w, h, g, trace);
  }

  /** Read by hash, the ledger has in flight for an account exactly its lane's pending
      transaction, and nothing when the lane is not pending. */
  lemma LedgerAgreesWithLane(w: World, h: History, g: Config, trace: seq<Event>, a: nat, x: nat)
    requires Reached(w, h, g, trace) && a !in h.interrupted
    ensures InFlightFor(w.ledger, a, x) <==>
            a in w.lanes && w.lanes[a].status.Pending? && w.lanes[a].pendingTx == Some(x)
  {
    ReachedInv(w, h, g, trace);
    LedgerAgrees(w, h, g, a, x);
  }

  lemma LedgerAgrees(w: World, h: History, g: Config, a: nat, x: nat)
    requires Inv(w, h, g) && a !in h.interrupted
    ensures InFlightFor(w.ledger, a, x) <==>
            a in w.lanes && w.lanes[a].status.Pending? && w.lanes[a].pendingTx == Some(x)
  {
    hide LastRecord;
    OnlyPendingInFlight(w, h, a);
    assert a in w.lanes && w.lanes[a].status.Pending? ==> Recorded(w, h, a);
  }

  /** No two accounts have the same transaction pending, interrupted or not. */
  lemma PendingHashesDistinct(w: World, h: History, g: Config, trace: seq<Event>, a: nat, b: nat)
    requires Reached(w, h, g, trace) && a in w.lanes && b in w.lanes && a != b
    requires w.lanes[a].status.Pending? && w.lanes[b].status.Pending?
    ensures w.lanes[a].pendingTx != w.lanes[b].pendingTx
  {
    ReachedInv(w, h, g, trace);
    assert Recorded(w, h, a) && Recorded(w, h, b);
  }

  /** A pending transaction is never forgotten: if it is no longer the lane's, the ledger has its
      fate. */
  lemma PendingNeverLost(w: World, h: History, g: Config, e: Event, a: nat)
    requires Inv(w, h, g) && Guard(w, e) && Allowed(w, h, e)
    requires a in w.lanes && w.lanes[a].status.Pending?
    ensures var after := Act(w, g, e);
            && a in after.lanes
            && var last := LastRecord(after.ledger, w.lanes[a].pendingTx.value);
            && last.Some? && last.value.eoa == a && Some(last.value.nonce) == w.lanes[a].pendingNonce
            && (after.lanes[a].pendingTx != w.lanes[a].pendingTx || !after.lanes[a].status.Pending?
                ==> last.value.status in {Mined, Failed, Dropped})
  {
    hide LastRecord, HandlePending, SubmitSimulated, SyncAndFund;
    assert Recorded(w, h, a);
    var after, past := Act(w, g, e), Remember(w, h, g, e);
    ActKeepsInv(w, h, g, e);
    LedgerChange(w, h, g, e, w.lanes[a].pendingTx.value);
    OnlyPendingInFlight(after, past, a);
  }

  predicate GivesFate(s: LaneState, x: nat, r: TxRecord) {
    && s.pendingTx == Some(x) && s.pendingOpportunity.Some? && s.pendingNonce.Some?
    && r == RecordFor(s, x, r.status) && r.status != InFlight
  }

  /** One operation changes the ledger's last word on a hash only for the handled lane's pending
      transaction, or by putting a new hash in flight. */
  lemma LedgerChange(w: World, h: History, g: Config, e: Event, x: nat)
    requires Inv(w, h, g) && Guard(w, e) && Allowed(w, h, e)
    ensures var before, after := LastRecord(w.ledger, x), LastRecord(Act(w, g, e).ledger, x);
            || after == before
            || (before.None? && after.Some? && after.value.eoa == e.eoa && after.value.status == InFlight)
            || (e.Handle? && after.Some? && GivesFate(w.lanes[e.eoa], x, after.value))
  {
    hide LastRecord, HandlePending;
    match e
    case Handle(a, answers) =>
      var s := w.lanes[a];
      HandlingCases(s, g.policy, answers);
      var records := HandlePending(s, g.policy, answers).records;
      AppendedUpToTwo(w.ledger, records, x);
    case Sync(a, counts, funding) =>
    case Submit(a, request) =>
      AppendedUpToTwo(w.ledger, SubmitSimulated(LaneOf(w, a), a, request, g.policy).records, x);
    case FailApproval(_, _, _) => FailedApprovalKeepsInv(w, h, g, e);
  }

  lemma AppendedUpToTwo(ledger: seq<TxRecord>, records: seq<TxRecord>, x: nat)
    requires |records| <= 2
    ensures LastRecord(ledger + records, x)
         == if |records| == 2 && records[1].txHash == Some(x) then Some(records[1])
            else if |records| > 0 && records[0].txHash == Some(x) then Some(records[0])
            else LastRecord(ledger, x)
  {
    if |records| == 0 {
      assert ledger + records == ledger;
    } else if |records| == 1 {
      assert records == [records[0]];
      AppendedRecord(ledger, records[0], x);
    } else {
      assert records == [records[0], records[1]];
      AppendedRecords(ledger, records[0], records[1], x);
    }
  }

  /** The fate of a transaction no lane has pending any more never changes again. */
  lemma {:induction false} FateIsFinal(w: World, h: History, g: Config, trace: seq<Event>, x: nat)
    requires Inv(w, h, g) && Legal(w, h, g, trace)
    requires LastRecord(w.ledger, x).Some? && NobodyHas(w, x)
    ensures LastRecord(Run(w, g, trace).ledger, x) == LastRecord(w.ledger, x)
    decreases |trace|
  {
    hide LastRecord, Act, Remember, Inv;
    if |trace| > 0 {
      var e := trace[0];
      FateStays(w, h, g, e, x);
      ActKeepsInv(w, h, g, e);
      FateIsFinal(Act(w, g, e), Remember(w, h, g, e), g, trace[1..], x);
    }
  }

  ghost predicate NobodyHas(w: World, x: nat) {
    forall a :: a in w.lanes ==> w.lanes[a].pendingTx != Some(x)
  }

  lemma FateStays(w: World, h: History, g: Config, e: Event, x: nat)
    requires Inv(w, h, g) && Guard(w, e) && Allowed(w, h, e)
    requires LastRecord(w.ledger, x).Some? && NobodyHas(w, x)
    ensures LastRecord(Act(w, g, e).ledger, x) == LastRecord(w.ledger, x) && NobodyHas(Act(w, g, e), x)
  {
    hide LastRecord, HandlePending, SyncAndFund, LedgerSound, NoncesSound, Remember, FeesFor;
    LedgerChange(w, h, g, e, x);
    match e
    case Handle(a, answers) => HandlingCases(w.lanes[a], g.policy, answers);
    case Sync(a, counts, funding) =>
      SyncKeepsSound(LaneOf(w, a), g.policy, g.treasury, counts, funding, FloorOf(h, a));
    case Submit(a, request) =>
    case FailApproval(_, _, _) =>
  }

  // ----- the interruption -----

  ghost predicate Agrees(w: World, a: nat) {
    forall x: nat :: InFlightFor(w.ledger, a, x) <==>
      a in w.lanes && w.lanes[a].status.Pending? && w.lanes[a].pendingTx == Some(x)
  }

  /** Handling a lane the ledger agrees with ends in agreement exactly when it is not cut short. */
  lemma HandlingAgreesIff(w: World, h: History, g: Config, a: nat, answers: Answers)
    requires Inv(w, h, g) && a !in h.interrupted
    requires Guard(w, Handle(a, answers)) && Allowed(w, h, Handle(a, answers))
    ensures Agrees(Act(w, g, Handle(a, answers)), a) <==> !CutShort(answers)
    ensures CutShort(answers) ==> Act(w, g, Handle(a, answers)).lanes == w.lanes
  {
    hide LastRecord;
    var s, e := w.lanes[a], Handle(a, answers);
    var after, past := Act(w, g, e), Remember(w, h, g, e);
    if CutShort(answers) {
      AppendedUpToTwo(w.ledger, HandlePending(s, g.policy, answers).records, s.pendingTx.value);
      assert w.lanes[a := s] == w.lanes;
      assert !InFlightFor(after.ledger, a, s.pendingTx.value);
    } else {
      HandlingNotCutShort(w, h, g, a, answers);
    }
  }

  lemma HandlingNotCutShort(w: World, h: History, g: Config, a: nat, answers: Answers)
    requires Inv(w, h, g) && a !in h.interrupted && !CutShort(answers)
    requires Guard(w, Handle(a, answers)) && Allowed(w, h, Handle(a, answers))
    ensures Agrees(Act(w, g, Handle(a, answers)), a)
  {
    hide LastRecord;
    var e := Handle(a, answers);
    ActKeepsInv(w, h, g, e);
    assert a !in Remember(w, h, g, e).interrupted;
    forall x: nat {
      LedgerAgrees(Act(w, g, e), Remember(w, h, g, e), g, a, x);
    }
  }

  /** A submission followed by a handling that is cut short, from empty stores. */
  lemma AgreementCanFail(g: Config, request: Request, answers: Answers)
    requires !request.expired && request.submitEnabled && !request.halted && request.lock == Ok(true)
    requires request.executor.Ok? && request.calldata != [] && !request.expiredAtSend && request.send.Ok?
    requires request.simulated.Some?
    requires answers == Answers(Ok(Some(true)), Counts(Err, Err, Err), Err, Err, Err, Err, Err)
    ensures var trace := [Submit(7, request), Handle(7, answers)];
            Legal(START, NO_HISTORY, g, trace) && !Agrees(Run(START, g, trace), 7)
  {
    var first, second := Submit(7, request), Handle(7, answers);
    var w, h := Act(START, g, first), Remember(START, NO_HISTORY, g, first);
    assert Inv(START, NO_HISTORY, g) && Guard(START, first) && Allowed(START, NO_HISTORY, first);
    ActKeepsInv(START, NO_HISTORY, g, first);
    assert w.lanes[7].status.Pending?;
    assert Guard(w, second) && Allowed(w, h, second);
    HandlingAgreesIff(w, h, g, 7, answers);
    TwoSteps(START, NO_HISTORY, g, first, second);
  }

  lemma TwoSteps(w: World, h: History, g: Config, first: Event, second: Event)
    requires Guard(w, first) && Allowed(w, h, first)
    requires Guard(Act(w, g, first), second) && Allowed(Act(w, g, first), Remember(w, h, g, first), second)
    ensures Legal(w, h, g, [first, second])
    ensures Run(w, g, [first, second]) == Act(Act(w, g, first), g, second)
  {
    hide Act, Remember, Guard, Allowed;
    var w1, h1 := Act(w, g, first), Remember(w, h, g, first);
    var trace := [first, second];
    assert trace[1..] == [second];
    OneStep(w1, h1, g, second);
    assert Legal(w1, h1, g, trace[1..]);
    assert Run(w1, g, trace[1..]) == Act(w1, g, second);
  }

  lemma OneStep(w: World, h: History, g: Config, e: Event)
    requires Guard(w, e) && Allowed(w, h, e)
    ensures Legal(w, h, g, [e]) && Run(w, g, [e]) == Act(w, g, e)
  {
    hide Act, Remember, Guard, Allowed;
    var trace := [e];
    assert trace[1..] == [];
    assert Legal(Act(w, g, e), Remember(w, h, g, e), g, trace[1..]);
    assert Run(Act(w, g, e), g, trace[1..]) == Act(w, g, e);
  }

  /** The next handling of an interrupted lane that answers at all clears it. */
  lemma NextHandlingRepairs(w: World, h: History, g: Config, a: nat, answers: Answers)
    requires Inv(w, h, g) && a in h.interrupted && Guard(w, Handle(a, answers)) && Allowed(w, h, Handle(a, answers))
    requires HandlePending(w.lanes[a], g.policy, answers).reply.Ok?
    ensures var after := Act(w, g, Handle(a, answers));
            && after.lanes[a].status.Idle? && NothingPending(after.lanes[a])
            && a !in Remember(w, h, g, Handle(a, answers)).interrupted
            && forall x: nat :: !InFlightFor(after.ledger, a, x)
  {
    hide LastRecord, HandlePending;
    assert InterruptedKnown(w, h, a);
    HandlingCases(w.lanes[a], g.policy, answers);
    ActKeepsInv(w, h, g, Handle(a, answers));
    OnlyPendingInFlight(Act(w, g, Handle(a, answers)), Remember(w, h, g, Handle(a, answers)), a);
  }

  // ----- fees of a whole run -----

  /** `now` has grown from `first` by the k-th power of the bump, or is so large that the bump
      saturates. */
  ghost predicate Grown(first: U256, now: U256, bps: U64, k: nat) {
    now > U256_MAX / BPS || first * Pow(bps, k) <= now * Pow(BPS, k)
  }

  lemma GrownStep(first: U256, now: U256, next: U256, bps: U64, k: nat)
    requires bps >= BPS && Grown(first, now, bps, k) && BumpFee(now, bps) <= next
    ensures Grown(first, next, bps, k + 1)
  {
    hide Pow;
    if now <= U256_MAX / BPS && now * bps <= U256_MAX {
      BumpGrows(now, bps);
      MulLe(BumpFee(now, bps), next, BPS);
      GrowthStep(first, now, next, bps, k);
    } else if now > U256_MAX / BPS {
      MulLe(U256_MAX / BPS + 1, now, bps);
      MulLe(BPS, bps, U256_MAX / BPS + 1);
    }
  }

  ghost predicate FeesGrown(w: World, h: History, g: Config) {
    forall a :: a in w.lanes && w.lanes[a].status.Pending? ==>
      && a in h.first
      && w.lanes[a].pendingMaxFee.Some? && w.lanes[a].pendingPriorityFee.Some?
      && Grown(h.first[a].maxFee, w.lanes[a].pendingMaxFee.value, g.policy.bumpBps, w.lanes[a].replacementCount)
      && Grown(h.first[a].priorityFee, w.lanes[a].pendingPriorityFee.value, g.policy.bumpBps,
               w.lanes[a].replacementCount)
  }

  lemma ActKeepsFees(w: World, h: History, g: Config, e: Event)
    requires Inv(w, h, g) && FeesGrown(w, h, g) && g.policy.bumpBps >= BPS && Guard(w, e) && Allowed(w, h, e)
    ensures FeesGrown(Act(w, g, e), Remember(w, h, g, e), g)
  {
    hide LastRecord, HandlePending, SubmitSimulated, SyncAndFund, LedgerSound, NoncesSound;
    hide Pow, BumpFee, Aggressive, Grown;
    match e
    case Handle(a, answers) =>
      var s := w.lanes[a];
      HandlingCases(s, g.policy, answers);
      var n := HandlePending(s, g.policy, answers).lane;
      if n.status.Pending? && n != s {
        GrownStep(h.first[a].maxFee, s.pendingMaxFee.value, n.pendingMaxFee.value, g.policy.bumpBps,
                  s.replacementCount);
        GrownStep(h.first[a].priorityFee, s.pendingPriorityFee.value, n.pendingPriorityFee.value, g.policy.bumpBps,
                  s.replacementCount);
      }
    case Sync(a, counts, funding) =>
      SyncKeepsSound(LaneOf(w, a), g.policy, g.treasury, counts, funding, FloorOf(h, a));
    case Submit(a, request) =>
      SubmittedFees(w, h, g, a, request);
    case FailApproval(_, _, _) =>
  }

  lemma SubmittedFees(w: World, h: History, g: Config, a: nat, q: Request)
    requires Inv(w, h, g) && FeesGrown(w, h, g) && Guard(w, Submit(a, q)) && Allowed(w, h, Submit(a, q))
    ensures FeesGrown(Act(w, g, Submit(a, q)), Remember(w, h, g, Submit(a, q)), g)
  {
    hide LastRecord, FeesFor, BumpFee, LedgerSound, NoncesSound;
    SubmittingKeepsSound(LaneOf(w, a), a, q, g.policy);
  }

  lemma {:induction false} RunKeepsFees(w: World, h: History, g: Config, trace: seq<Event>)
    requires Inv(w, h, g) && FeesGrown(w, h, g) && g.policy.bumpBps >= BPS && Legal(w, h, g, trace)
    ensures FeesGrown(Run(w, g, trace), Recall(w, h, g, trace), g)
    decreases |trace|
  {
    hide Inv, Act, Remember, Guard, Allowed, FeesGrown;
    if |trace| > 0 {
      ActKeepsInv(w, h, g, trace[0]);
      ActKeepsFees(w, h, g, trace[0]);
      RunKeepsFees(Act(w, g, trace[0]), Remember(w, h, g, trace[0]), g, trace[1..]);
    }
  }

  /** A handled lane that goes out again does so at strictly higher fees, below the part of the range
      where the bump saturates. */
  lemma ReplacedFeesRise(s: LaneState, p: Policy, a: Answers)
    requires Sound(s, p) && s.status.Pending? && p.bumpBps >= BPS
    requires GoesOutAgain(s, p, a) && s.pendingMaxFee.value <= U256_MAX / BPS
    ensures var n := HandlePending(s, p, a).lane;
            && n.status.Pending? && n.pendingMaxFee.Some? && n.pendingPriorityFee.Some?
            && n.pendingMaxFee.value > s.pendingMaxFee.value
            && n.pendingPriorityFee.value > s.pendingPriorityFee.value
  {
    hide HandlePending, ReplacementFees;
    HandlingCases(s, p, a);
    ReplacementStrictlyIncreases(PendingFees(s), a.suggestion.value, p);
  }

  /** Whatever happens in a run, a lane whose pending transaction gives way to another one pays
      strictly more than before, below the part of the range where the bump saturates. */
  lemma NewHashPaysMore(w: World, h: History, g: Config, e: Event, a: nat)
    requires Inv(w, h, g) && Guard(w, e) && Allowed(w, h, e) && g.policy.bumpBps >= BPS
    requires a in w.lanes && w.lanes[a].status.Pending? && a in Act(w, g, e).lanes
    requires Act(w, g, e).lanes[a].status.Pending? && Act(w, g, e).lanes[a].pendingTx != w.lanes[a].pendingTx
    ensures var s, n := w.lanes[a], Act(w, g, e).lanes[a];
            && PendingComplete(s) && PendingComplete(n)
            && (s.pendingMaxFee.value <= U256_MAX / BPS ==>
                  && n.pendingMaxFee.value > s.pendingMaxFee.value
                  && n.pendingPriorityFee.value > s.pendingPriorityFee.value)
  {
    hide LastRecord, HandlePending, SubmitSimulated, SyncAndFund, LedgerSound, NoncesSound;
    var s := w.lanes[a];
    if e.Handle? && e.eoa == a {
      HandlingCases(s, g.policy, e.answers);
      if s.pendingMaxFee.value <= U256_MAX / BPS {
        ReplacedFeesRise(s, g.policy, e.answers);
      }
    }
  }

  /** Over every run with a bump of at least 100%: a pending transaction replaced k times pays at
      least its first fees times the k-th power of the bump, unless a fee has reached the part of
      the range where the bump saturates; its priority fee never exceeds its maximum fee. */
  lemma ReplacedFeesCompound(w: World, h: History, g: Config, trace: seq<Event>, a: nat)
    requires Reached(w, h, g, trace) && g.policy.bumpBps >= BPS && a in w.lanes && w.lanes[a].status.Pending?
    ensures a in h.first && w.lanes[a].pendingMaxFee.Some? && w.lanes[a].pendingPriorityFee.Some?
    ensures var s, f, k := w.lanes[a], h.first[a], w.lanes[a].replacementCount;
            && (s.pendingMaxFee.value <= U256_MAX / BPS ==>
                  f.maxFee * Pow(g.policy.bumpBps, k) <= s.pendingMaxFee.value * Pow(BPS, k))
            && (s.pendingPriorityFee.value <= U256_MAX / BPS ==>
                  f.priorityFee * Pow(g.policy.bumpBps, k) <= s.pendingPriorityFee.value * Pow(BPS, k))
            && Payable(PendingFees(s))
            && k <= g.policy.maxReplacements
  {
    hide Pow;
    ReachedInv(w, h, g, trace);
    assert Sound(w.lanes[a], g.policy);
    RunKeepsFees(START, NO_HISTORY, g, trace);
  }
}

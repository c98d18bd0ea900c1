/** The execution manager as it runs (crates/execution-manager/src/main.rs): lane selection,
    reconciliation, one submission a cycle. Whatever it is answered, what it does to the stores is
    a run of the lane protocol. */
module ExecutionManager {
  import opened Wrappers
  import opened U256Math
  import opened FeePolicy
  import opened Lane
  import opened LaneSteps
  import opened LaneProtocol
  import opened LaneSafety

  // ----- runs without the demands on the environment -----

  /** Every operation is performed only when the protocol performs it. */
  ghost predicate Guarded(w: World, g: Config, trace: seq<Event>)
    decreases |trace|
  {
    |trace| > 0 ==> Guard(w, trace[0]) && Guarded(Act(w, g, trace[0]), g, trace[1..])
  }

  ghost predicate Fair(w: World, h: History, g: Config, trace: seq<Event>)
    decreases |trace|
  {
    |trace| > 0 ==>
      Allowed(w, h, trace[0]) && Fair(Act(w, g, trace[0]), Remember(w, h, g, trace[0]), g, trace[1..])
  }

  predicate Sends(w: World, g: Config, e: Event) {
    e.Submit? && SubmitSimulated(LaneOf(w, e.eoa), e.eoa, e.request, g.policy).reply == Ok(Submitted)
  }

  /** How many transactions a run submits. */
  function Submissions(w: World, g: Config, trace: seq<Event>): nat
    decreases |trace|
  {
    if |trace| == 0 then 0
    else (if Sends(w, g, trace[0]) then 1 else 0) + Submissions(Act(w, g, trace[0]), g, trace[1..])
  }

  lemma {:induction false} FairRunsAreLegal(w: World, h: History, g: Config, trace: seq<Event>)
    ensures Guarded(w, g, trace) && Fair(w, h, g, trace) <==> Legal(w, h, g, trace)
    decreases |trace|
  {
    hide Guard, Allowed, Act, Remember;
    if |trace| > 0 {
      FairRunsAreLegal(Act(w, g, trace[0]), Remember(w, h, g, trace[0]), g, trace[1..]);
    }
  }

  lemma {:induction false} SubmissionsAreRemembered(w: World, h: History, g: Config, trace: seq<Event>)
    ensures |Recall(w, h, g, trace).sent| == |h.sent| + Submissions(w, g, trace)
    decreases |trace|
  {
    hide Act, SubmitSimulated, HandlePending;
    if |trace| > 0 {
      SubmissionsAreRemembered(Act(w, g, trace[0]), Remember(w, h, g, trace[0]), g, trace[1..]);
    }
  }

  lemma {:induction false} OneMore(w: World, g: Config, trace: seq<Event>, e: Event)
    ensures Run(w, g, trace + [e]) == Act(Run(w, g, trace), g, e)
    ensures Guarded(w, g, trace + [e]) <==> Guarded(w, g, trace) && Guard(Run(w, g, trace), e)
    ensures Submissions(w, g, trace + [e])
         == Submissions(w, g, trace) + if Sends(Run(w, g, trace), g, e) then 1 else 0
    decreases |trace|
  {
    hide Guard, Act, Sends;
    var longer := trace + [e];
    if |trace| == 0 {
      assert longer == [e] && longer[1..] == [];
      assert Run(Act(w, g, e), g, longer[1..]) == Act(w, g, e);
      assert Guarded(Act(w, g, e), g, longer[1..]);
      assert Submissions(Act(w, g, e), g, longer[1..]) == 0;
    } else {
      assert longer[1..] == trace[1..] + [e];
      OneMore(Act(w, g, trace[0]), g, trace[1..], e);
    }
  }

  // ----- the manager -----

  /** What reconciling one worker may be answered. */
  datatype WorkerAnswers = WorkerAnswers(answers: Answers, counts: Counts, funding: Funding)

  /** What one cycle meets: the circuit breaker at each of the three places it is asked, and the
      answers to the two reconciliations. */
  datatype Cycle = Cycle(submitEnabled: bool, haltedBefore: bool, haltedAfterPending: bool,
                         haltedAfterAll: bool, pending: seq<Answers>, all: seq<WorkerAnswers>)

  // ----- what the loops of a cycle do, operation by operation -----

  /** The stores reached, the operations performed on the way, and the outcome. */
  datatype Progress = Progress(world: World, trace: seq<Event>, reply: Result<bool>)

  function After(trace: seq<Event>, p: Progress): Progress {
    Progress(p.world, trace + p.trace, p.reply)
  }

  predicate IsPending(w: World, a: nat) {
    a in w.lanes && w.lanes[a].status.Pending?
  }

  lemma Continue(before: seq<Event>, next: seq<Event>, p: Progress)
    ensures After(before, After(next, p)) == After(before + next, p)
  {
  }

  /** Handles the workers from the i-th on whose stored lane is pending; the first error ends it. */
  function PendingSteps(w: World, g: Config, workers: seq<nat>, answers: seq<Answers>, i: nat): Progress
    requires |answers| == |workers| && i <= |workers|
    decreases |workers| - i
  {
    if i == |workers| then Progress(w, [], Ok(false))
    else if !IsPending(w, workers[i]) then PendingSteps(w, g, workers, answers, i + 1)
    else
      var e := Handle(workers[i], answers[i]);
      if HandlePending(w.lanes[workers[i]], g.policy, answers[i]).reply.Err? then Progress(Act(w, g, e), [e], Err)
      else After([e], PendingSteps(Act(w, g, e), g, workers, answers, i + 1))
  }

  /** Handles the worker's lane if it is pending, and synchronises it unless it still is. */
  function WorkerSteps(w: World, g: Config, a: nat, asked: WorkerAnswers): Progress {
    if !IsPending(w, a) then SyncSteps(w, g, a, asked)
    else
      var e := Handle(a, asked.answers);
      if HandlePending(w.lanes[a], g.policy, asked.answers).reply.Err? then Progress(Act(w, g, e), [e], Err)
      else if IsPending(Act(w, g, e), a) then Progress(Act(w, g, e), [e], Ok(false))
      else After([e], SyncSteps(Act(w, g, e), g, a, asked))
  }

  function SyncSteps(w: World, g: Config, a: nat, asked: WorkerAnswers): Progress {
    var e := Sync(a, asked.counts, asked.funding);
    Progress(Act(w, g, e), [e],
             if SyncAndFund(LaneOf(w, a), g.treasury, asked.counts, asked.funding).Ok? then Ok(false) else Err)
  }

  /** Reconciles the workers from the i-th on; the first error ends it. */
  function AllSteps(w: World, g: Config, workers: seq<nat>, asked: seq<WorkerAnswers>, i: nat): Progress
    requires |asked| == |workers| && i <= |workers|
    decreases |workers| - i
  {
    if i == |workers| then Progress(w, [], Ok(false))
    else
      var p := WorkerSteps(w, g, workers[i], asked[i]);
      if p.reply.Err? then p else After(p.trace, AllSteps(p.world, g, workers, asked, i + 1))
  }

  /** Submits the candidates from the i-th on until one is sent. */
  function BatchSteps(w: World, g: Config, a: nat, requests: seq<Request>, i: nat): Progress
    requires i <= |requests|
    decreases |requests| - i
  {
    if i == |requests| then Progress(w, [], Ok(false))
    else
      var e := Submit(a, requests[i]);
      var action := SubmitSimulated(LaneOf(w, a), a, requests[i], g.policy).reply;
      if action.Err? then Progress(Act(w, g, e), [e], Err)
      else if action.value.Submitted? then Progress(Act(w, g, e), [e], Ok(true))
      else After([e], BatchSteps(Act(w, g, e), g, a, requests, i + 1))
  }

  predicate ReadyIn(w: World, g: Config, a: nat) {
    a in w.lanes && w.lanes[a].status.Idle? && w.lanes[a].ethBalance >= g.treasury.minBalance
  }

  function FirstReady(w: World, g: Config, workers: seq<nat>): (r: Option<nat>)
    ensures r.Some? ==> r.value in workers && ReadyIn(w, g, r.value)
    ensures r.None? ==> forall a :: a in workers ==> !ReadyIn(w, g, a)
    ensures r.Some? ==> exists k: nat :: IsFirstReady(w, g, workers, k, r.value)
    decreases |workers|
  {
    if |workers| == 0 then None
    else if ReadyIn(w, g, workers[0]) then
      assert IsFirstReady(w, g, workers, 0, workers[0]);
      Some(workers[0])
    else
      var later := FirstReady(w, g, workers[1..]);
      assert later.Some? ==> forall k: nat | IsFirstReady(w, g, workers[1..], k, later.value) ::
                               IsFirstReady(w, g, workers, k + 1, later.value);
      later
  }

  /** Worker `a`, the k-th, has a stored lane that is idle and holds the minimum balance, and no
      worker before it has. */
  ghost predicate IsFirstReady(w: World, g: Config, workers: seq<nat>, k: nat, a: nat) {
    && k < |workers| && workers[k] == a
    && a in w.lanes && w.lanes[a].status == Idle && w.lanes[a].ethBalance >= g.treasury.minBalance
    && forall j | 0 <= j < k :: workers[j] in w.lanes && w.lanes[workers[j]].status == Idle ==>
                                  w.lanes[workers[j]].ethBalance < g.treasury.minBalance
  }

  /** How a worker is chosen: pending lanes are handled first; if no worker is ready then, every
      lane is reconciled and the choice is made once more. */
  function SelectSteps(w: World, g: Config, workers: seq<nat>, c: Cycle): Selection
    requires |c.pending| == |workers| && |c.all| == |workers|
  {
    var first := PendingSteps(w, g, workers, c.pending, 0);
    var ready := FirstReady(first.world, g, workers);
    if first.reply.Err? || c.haltedAfterPending then Selection(first.world, first.trace, Err)
    else if ready.Some? then Selection(first.world, first.trace, Ok(ready.value))
    else
      var all := AllSteps(first.world, g, workers, c.all, 0);
      var again := FirstReady(all.world, g, workers);
      Selection(all.world, first.trace + all.trace,
                if all.reply.Err? || c.haltedAfterAll || again.None? then Err else Ok(again.value))
  }

  datatype Selection = Selection(world: World, trace: seq<Event>, worker: Result<nat>)

  /** What the preflight of a batch leaves: the approvals that could not be sent, and the requests
      that are tried, unless it fails. */
  datatype Offer = Offer(notes: seq<Note>, requests: Result<seq<Request>>)

  datatype Note = Note(eoa: nat, opportunity: nat, nonce: U64)

  function Notes(notes: seq<Note>): (r: seq<Event>)
    ensures |r| == |notes|
    ensures forall i :: 0 <= i < |notes| ==> r[i] == FailApproval(notes[i].eoa, notes[i].opportunity, notes[i].nonce)
  {
    seq(|notes|, i requires 0 <= i < |notes| => FailApproval(notes[i].eoa, notes[i].opportunity, notes[i].nonce))
  }

  /** The part of a cycle after a worker is chosen. */
  function OfferSteps(w: World, g: Config, a: nat, offer: Offer): Progress {
    var noted := Run(w, g, Notes(offer.notes));
    After(Notes(offer.notes), if offer.requests.Err? then Progress(noted, [], Err)
                              else BatchSteps(noted, g, a, offer.requests.value, 0))
  }

  /** A whole cycle, given what its batch offers. */
  function CycleSteps(w: World, g: Config, workers: seq<nat>, c: Cycle, offer: Offer): Progress
    requires |c.pending| == |workers| && |c.all| == |workers|
  {
    if !c.submitEnabled then Progress(w, [], Ok(false))
    else if c.haltedBefore then Progress(w, [], Err)
    else
      var s := SelectSteps(w, g, workers, c);
      if s.worker.Err? then Progress(s.world, s.trace, Err)
      else After(s.trace, OfferSteps(s.world, g, s.worker.value, offer))
  }

  // ----- what reconciling and choosing come to -----

  /** The wallets of the workers are derived from different seeds. */
  ghost predicate Distinct(workers: seq<nat>) {
    forall i, j :: 0 <= i < j < |workers| ==> workers[i] != workers[j]
  }

  ghost predicate HandlingFails(w: World, g: Config, a: nat, answers: Answers) {
    a in w.lanes && w.lanes[a].status == Pending && HandlePending(w.lanes[a], g.policy, answers).reply.Err?
  }

  /** What the lanes are once the workers from the i-th up to the n-th were handled: each pending one's
      what handling makes of it, every other lane as it was. */
  ghost predicate HandledUpTo(w: World, g: Config, workers: seq<nat>, answers: seq<Answers>, i: nat, n: nat,
                              lanes: map<nat, LaneState>)
    requires i <= n <= |workers| == |answers|
  {
    && lanes.Keys == w.lanes.Keys
    && (forall a | a in w.lanes && (a !in workers[i..n] || w.lanes[a].status != Pending) :: lanes[a] == w.lanes[a])
    && (forall j | i <= j < n && workers[j] in w.lanes && w.lanes[workers[j]].status == Pending ::
          lanes[workers[j]] == HandlePending(w.lanes[workers[j]], g.policy, answers[j]).lane)
  }

  /** The first worker from the i-th on whose handling fails is the n-th. */
  ghost predicate FailsFirst(w: World, g: Config, workers: seq<nat>, answers: seq<Answers>, i: nat, n: nat) {
    && i <= n < |workers| == |answers| && HandlingFails(w, g, workers[n], answers[n])
    && forall j | i <= j < n :: !HandlingFails(w, g, workers[j], answers[j])
  }

  /** Every pending worker's lane is handled once, and no other lane touched, up to the first worker
      whose handling fails; the pass fails exactly when there is one. */
  lemma {:induction false} PendingMeaning(w: World, g: Config, workers: seq<nat>, answers: seq<Answers>, i: nat)
    requires |answers| == |workers| && i <= |workers| && Distinct(workers)
    ensures var p := PendingSteps(w, g, workers, answers, i);
      || (p.reply == Ok(false) && HandledUpTo(w, g, workers, answers, i, |workers|, p.world.lanes)
          && forall j | i <= j < |workers| :: !HandlingFails(w, g, workers[j], answers[j]))
      || (p.reply == Err && exists n: nat :: FailsFirst(w, g, workers, answers, i, n)
                                        && HandledUpTo(w, g, workers, answers, i, n + 1, p.world.lanes))
    decreases |workers| - i
  {
    hide HandlePending, HandledUpTo, Act;
    if i == |workers| {
      NothingHandled(w, g, workers, answers);
    } else {
      var a, p := workers[i], PendingSteps(w, g, workers, answers, i);
      if HandlingFails(w, g, a, answers[i]) {
        assert FailsFirst(w, g, workers, answers, i, i);
        FailedHandled(w, g, workers, answers, i);
      } else {
        var next := AfterHandling(w, g, a, answers[i]);
        PendingMeaning(next, g, workers, answers, i + 1);
        LaterFailures(w, g, workers, answers, i);
        if p.reply.Err? {
          var n: nat :| FailsFirst(next, g, workers, answers, i + 1, n)
                   && HandledUpTo(next, g, workers, answers, i + 1, n + 1, p.world.lanes);
          HandledNext(w, g, workers, answers, i, n + 1, p.world.lanes);
          assert FailsFirst(w, g, workers, answers, i, n);
        } else {
          HandledNext(w, g, workers, answers, i, |workers|, p.world.lanes);
        }
      }
    }
  }

  lemma NothingHandled(w: World, g: Config, workers: seq<nat>, answers: seq<Answers>)
    requires |answers| == |workers|
    ensures HandledUpTo(w, g, workers, answers, |workers|, |workers|, w.lanes)
  {
  }

  lemma FailedHandled(w: World, g: Config, workers: seq<nat>, answers: seq<Answers>, i: nat)
    requires |answers| == |workers| && i < |workers| && IsPending(w, workers[i])
    ensures HandledUpTo(w, g, workers, answers, i, i + 1, Act(w, g, Handle(workers[i], answers[i])).lanes)
  {
    hide HandlePending;
    assert workers[i..i + 1] == [workers[i]];
  }

  function AfterHandling(w: World, g: Config, a: nat, answers: Answers): World {
    if IsPending(w, a) then Act(w, g, Handle(a, answers)) else w
  }

  /** Handling one worker changes nothing about the others. */
  lemma LaterFailures(w: World, g: Config, workers: seq<nat>, answers: seq<Answers>, i: nat)
    requires |answers| == |workers| && i < |workers| && Distinct(workers)
    ensures var next := AfterHandling(w, g, workers[i], answers[i]);
      forall j | i < j < |workers| ::
        HandlingFails(next, g, workers[j], answers[j]) == HandlingFails(w, g, workers[j], answers[j])
  {
    hide HandlePending;
  }

  lemma HandledNext(w: World, g: Config, workers: seq<nat>, answers: seq<Answers>, i: nat, n: nat,
                    lanes: map<nat, LaneState>)
    requires |answers| == |workers| && i < n <= |workers| && Distinct(workers)
    requires HandledUpTo(AfterHandling(w, g, workers[i], answers[i]), g, workers, answers, i + 1, n, lanes)
    ensures HandledUpTo(w, g, workers, answers, i, n, lanes)
  {
    hide HandlePending;
    var next := AfterHandling(w, g, workers[i], answers[i]);
    assert next.lanes.Keys == w.lanes.Keys;
    assert workers[i..n] == [workers[i]] + workers[i + 1..n];
    assert workers[i] !in workers[i + 1..n];
    forall j | i <= j < n && workers[j] in w.lanes && w.lanes[workers[j]].status == Pending
      ensures lanes[workers[j]] == HandlePending(w.lanes[workers[j]], g.policy, answers[j]).lane
    {
      assert workers[j] in next.lanes;
    }
    forall a | a in w.lanes && (a !in workers[i..n] || w.lanes[a].status != Pending) ensures lanes[a] == w.lanes[a] {
      assert next.lanes[a] == w.lanes[a];
    }
  }

  // ----- what reconciling every lane comes to -----

  /** The lane of worker `a`, a new one if none is stored, after it was handled if it was pending. */
  function AfterPending(w: World, g: Config, a: nat, answers: Answers): LaneState {
    if a in w.lanes && w.lanes[a].status == Pending then HandlePending(w.lanes[a], g.policy, answers).lane
    else LaneOf(w, a)
  }

  predicate StillPending(w: World, g: Config, a: nat, answers: Answers) {
    a in w.lanes && w.lanes[a].status == Pending && AfterPending(w, g, a, answers).status == Pending
  }

  /** Handling the lane fails, or it is not pending any more and synchronising or funding it fails. */
  ghost predicate ReconcileFails(w: World, g: Config, a: nat, asked: WorkerAnswers) {
    || HandlingFails(w, g, a, asked.answers)
    || (!StillPending(w, g, a, asked.answers)
        && SyncAndFund(AfterPending(w, g, a, asked.answers), g.treasury, asked.counts, asked.funding).Err?)
  }

  /** A lane that is still pending is the handled one; any other is synchronised and funded. */
  ghost predicate ReconciledTo(w: World, g: Config, a: nat, asked: WorkerAnswers, lane: LaneState) {
    var handled := AfterPending(w, g, a, asked.answers);
    if StillPending(w, g, a, asked.answers) then lane == handled
    else SyncAndFund(handled, g.treasury, asked.counts, asked.funding) == Ok(lane)
  }

  ghost predicate SameLane(before: map<nat, LaneState>, after: map<nat, LaneState>, a: nat) {
    (a in before <==> a in after) && (a in before ==> before[a] == after[a])
  }

  lemma WorkerMeaning(w: World, g: Config, a: nat, asked: WorkerAnswers)
    ensures var p := WorkerSteps(w, g, a, asked);
      && p.reply == (if ReconcileFails(w, g, a, asked) then Err else Ok(false))
      && (p.reply.Ok? ==> a in p.world.lanes && ReconciledTo(w, g, a, asked, p.world.lanes[a]))
      && forall b | b != a :: SameLane(w.lanes, p.world.lanes, b)
  {
    hide HandlePending, SyncAndFund;
  }

  /** The workers from the i-th up to the n-th are reconciled, and no other lane up to the m-th is touched. */
  ghost predicate ReconciledUpTo(w: World, g: Config, workers: seq<nat>, asked: seq<WorkerAnswers>, i: nat, n: nat,
                                 m: nat, lanes: map<nat, LaneState>)
    requires i <= n <= m <= |workers| == |asked|
  {
    && (forall j | i <= j < n :: workers[j] in lanes && ReconciledTo(w, g, workers[j], asked[j], lanes[workers[j]]))
    && (forall a | a !in workers[i..m] :: SameLane(w.lanes, lanes, a))
  }

  ghost predicate ReconcileFailsFirst(w: World, g: Config, workers: seq<nat>, asked: seq<WorkerAnswers>, i: nat,
                                      n: nat) {
    && i <= n < |workers| == |asked| && ReconcileFails(w, g, workers[n], asked[n])
    && forall j | i <= j < n :: !ReconcileFails(w, g, workers[j], asked[j])
  }

  /** Every worker's lane is reconciled once, up to the first one where that fails; the pass fails
      exactly when there is one. */
  lemma {:induction false} AllMeaning(w: World, g: Config, workers: seq<nat>, asked: seq<WorkerAnswers>, i: nat)
    requires |asked| == |workers| && i <= |workers| && Distinct(workers)
    ensures var p := AllSteps(w, g, workers, asked, i);
      || (p.reply == Ok(false) && ReconciledUpTo(w, g, workers, asked, i, |workers|, |workers|, p.world.lanes)
          && forall j | i <= j < |workers| :: !ReconcileFails(w, g, workers[j], asked[j]))
      || (p.reply == Err && exists n: nat :: ReconcileFailsFirst(w, g, workers, asked, i, n)
                                             && ReconciledUpTo(w, g, workers, asked, i, n, n + 1, p.world.lanes))
    decreases |workers| - i
  {
    hide WorkerSteps, ReconcileFails, ReconciledTo;
    if i < |workers| {
      var one, p := WorkerSteps(w, g, workers[i], asked[i]), AllSteps(w, g, workers, asked, i);
      WorkerMeaning(w, g, workers[i], asked[i]);
      if one.reply.Err? {
        assert ReconcileFailsFirst(w, g, workers, asked, i, i);
        assert workers[i..i + 1] == [workers[i]];
      } else {
        AllMeaning(one.world, g, workers, asked, i + 1);
        LaterReconciled(w, one.world, g, workers, asked, i);
        if p.reply.Err? {
          var n: nat :| ReconcileFailsFirst(one.world, g, workers, asked, i + 1, n)
                        && ReconciledUpTo(one.world, g, workers, asked, i + 1, n, n + 1, p.world.lanes);
          ReconciledNext(w, one.world, g, workers, asked, i, n, n + 1, p.world.lanes);
          assert ReconcileFailsFirst(w, g, workers, asked, i, n);
        } else {
          ReconciledNext(w, one.world, g, workers, asked, i, |workers|, |workers|, p.world.lanes);
        }
      }
    }
  }

  /** What reconciling one worker comes to depends on its own lane alone. */
  lemma OwnLaneOnly(w: World, next: World, g: Config, a: nat, asked: WorkerAnswers)
    requires SameLane(w.lanes, next.lanes, a)
    ensures ReconcileFails(next, g, a, asked) <==> ReconcileFails(w, g, a, asked)
    ensures forall lane :: ReconciledTo(next, g, a, asked, lane) <==> ReconciledTo(w, g, a, asked, lane)
  {
    hide HandlePending, SyncAndFund;
  }

  lemma LaterReconciled(w: World, next: World, g: Config, workers: seq<nat>, asked: seq<WorkerAnswers>, i: nat)
    requires |asked| == |workers| && i < |workers| && Distinct(workers)
    requires forall b | b != workers[i] :: SameLane(w.lanes, next.lanes, b)
    ensures forall j | i < j < |workers| ::
              ReconcileFails(next, g, workers[j], asked[j]) == ReconcileFails(w, g, workers[j], asked[j])
  {
    hide ReconcileFails, ReconciledTo;
    forall j | i < j < |workers|
      ensures ReconcileFails(next, g, workers[j], asked[j]) == ReconcileFails(w, g, workers[j], asked[j])
    {
      OwnLaneOnly(w, next, g, workers[j], asked[j]);
    }
  }

  lemma ReconciledNext(w: World, next: World, g: Config, workers: seq<nat>, asked: seq<WorkerAnswers>, i: nat, n: nat,
                       m: nat, lanes: map<nat, LaneState>)
    requires |asked| == |workers| && i < n <= m <= |workers| && Distinct(workers)
    requires forall b | b != workers[i] :: SameLane(w.lanes, next.lanes, b)
    requires workers[i] in next.lanes && ReconciledTo(w, g, workers[i], asked[i], next.lanes[workers[i]])
    requires ReconciledUpTo(next, g, workers, asked, i + 1, n, m, lanes)
    ensures ReconciledUpTo(w, g, workers, asked, i, n, m, lanes)
  {
    hide ReconcileFails, ReconciledTo;
    assert workers[i..m] == [workers[i]] + workers[i + 1..m];
    assert SameLane(next.lanes, lanes, workers[i]);
    forall j | i <= j < n ensures workers[j] in lanes && ReconciledTo(w, g, workers[j], asked[j], lanes[workers[j]]) {
      if j > i {
        OwnLaneOnly(w, next, g, workers[j], asked[j]);
      }
    }
    forall a | a !in workers[i..m] ensures SameLane(w.lanes, lanes, a) {
      assert workers[i] in workers[i..m] && a !in workers[i + 1..m];
      assert SameLane(w.lanes, next.lanes, a) && SameLane(next.lanes, lanes, a);
    }
  }

  // ----- when a worker is chosen -----

  /** A worker is chosen exactly when no handling fails, the breaker does not halt the cycle, and some
      worker is ready then, or is after a pass over all lanes that does not fail either. */
  lemma SelectIff(w: World, g: Config, workers: seq<nat>, c: Cycle)
    requires |c.pending| == |workers| && |c.all| == |workers| && Distinct(workers)
    ensures var s := SelectSteps(w, g, workers, c);
      var first := PendingSteps(w, g, workers, c.pending, 0).world;
      var all := AllSteps(first, g, workers, c.all, 0).world;
      var ready := exists a :: a in workers && ReadyIn(first, g, a);
      && (s.worker.Ok? <==>
            && (forall j | 0 <= j < |workers| :: !HandlingFails(w, g, workers[j], c.pending[j]))
            && !c.haltedAfterPending
            && (ready || ((forall j | 0 <= j < |workers| :: !ReconcileFails(first, g, workers[j], c.all[j]))
                          && !c.haltedAfterAll && exists a :: a in workers && ReadyIn(all, g, a))))
      && (s.worker.Ok? ==> exists k: nat :: IsFirstReady(s.world, g, workers, k, s.worker.value))
      && s.world == if (exists n: nat :: FailsFirst(w, g, workers, c.pending, 0, n)) || c.haltedAfterPending || ready
                    then first else all
  {
    hide PendingSteps, AllSteps, HandlingFails, ReconcileFails, HandledUpTo, ReconciledUpTo, FirstReady, ReadyIn;
    var first := PendingSteps(w, g, workers, c.pending, 0).world;
    PendingMeaning(w, g, workers, c.pending, 0);
    AllMeaning(first, g, workers, c.all, 0);
  }

  /** An idle worker with the minimum balance is enough, unless a handling fails or the breaker halts. */
  lemma IdleWorkerIsEnough(w: World, g: Config, workers: seq<nat>, c: Cycle, a: nat)
    requires |c.pending| == |workers| && |c.all| == |workers| && Distinct(workers) && !c.haltedAfterPending
    requires forall j | 0 <= j < |workers| :: !HandlingFails(w, g, workers[j], c.pending[j])
    requires a in workers && a in w.lanes
    requires w.lanes[a].status == Idle && w.lanes[a].ethBalance >= g.treasury.minBalance
    ensures SelectSteps(w, g, workers, c).worker.Ok?
  {
    hide PendingSteps, AllSteps, HandlingFails, ReconcileFails;
    PendingMeaning(w, g, workers, c.pending, 0);
    SelectIff(w, g, workers, c);
    var first := PendingSteps(w, g, workers, c.pending, 0).world;
    assert first.lanes[a] == w.lanes[a];
    assert ReadyIn(first, g, a);
  }

  // ----- one cycle, as a run -----

  /** The progress is a run from `w` that submits `sends` transactions. */
  ghost predicate IsRun(w: World, g: Config, p: Progress, sends: nat) {
    p.world == Run(w, g, p.trace) && Guarded(w, g, p.trace) && Submissions(w, g, p.trace) == sends
  }

  lemma {:induction false} RunsJoin(w: World, g: Config, first: seq<Event>, p: Progress, sends: nat)
    requires Guarded(w, g, first) && IsRun(Run(w, g, first), g, p, sends)
    ensures IsRun(w, g, After(first, p), Submissions(w, g, first) + sends)
    decreases |first|
  {
    hide Guard, Act, Sends;
    var whole := first + p.trace;
    if |first| == 0 {
      assert whole == p.trace;
    } else {
      assert whole[0] == first[0] && whole[1..] == first[1..] + p.trace;
      RunsJoin(Act(w, g, first[0]), g, first[1..], p, sends);
    }
  }

  lemma OneEvent(w: World, g: Config, e: Event, reply: Result<bool>)
    requires Guard(w, e)
    ensures IsRun(w, g, Progress(Act(w, g, e), [e], reply), if Sends(w, g, e) then 1 else 0)
  {
    hide Guard, Act, Sends;
    OneMore(w, g, [], e);
    assert [] + [e] == [e];
  }

  lemma EventThen(w: World, g: Config, e: Event, p: Progress, sends: nat)
    requires Guard(w, e) && IsRun(Act(w, g, e), g, p, sends)
    ensures IsRun(w, g, After([e], p), sends + if Sends(w, g, e) then 1 else 0)
  {
    hide Guard, Act, Sends;
    OneEvent(w, g, e, Err);
    RunsJoin(w, g, [e], p, sends);
  }

  lemma {:induction false} PendingStepsRun(w: World, g: Config, workers: seq<nat>, answers: seq<Answers>, i: nat)
    requires |answers| == |workers| && i <= |workers|
    ensures IsRun(w, g, PendingSteps(w, g, workers, answers, i), 0)
    decreases |workers| - i
  {
    hide Act, HandlePending;
    if i < |workers| {
      if IsPending(w, workers[i]) {
        var e := Handle(workers[i], answers[i]);
        OneEvent(w, g, e, Err);
        PendingStepsRun(Act(w, g, e), g, workers, answers, i + 1);
        EventThen(w, g, e, PendingSteps(Act(w, g, e), g, workers, answers, i + 1), 0);
      } else {
        PendingStepsRun(w, g, workers, answers, i + 1);
      }
    }
  }

  lemma WorkerStepsRun(w: World, g: Config, a: nat, asked: WorkerAnswers)
    ensures IsRun(w, g, WorkerSteps(w, g, a, asked), 0)
  {
    hide Act, HandlePending, SyncAndFund;
    var synced := Sync(a, asked.counts, asked.funding);
    if IsPending(w, a) {
      var e := Handle(a, asked.answers);
      OneEvent(w, g, e, WorkerSteps(w, g, a, asked).reply);
      if !IsPending(Act(w, g, e), a) {
        var p := SyncSteps(Act(w, g, e), g, a, asked);
        OneEvent(Act(w, g, e), g, synced, p.reply);
        EventThen(w, g, e, p, 0);
      }
    } else {
      OneEvent(w, g, synced, WorkerSteps(w, g, a, asked).reply);
    }
  }

  lemma {:induction false} AllStepsRun(w: World, g: Config, workers: seq<nat>, asked: seq<WorkerAnswers>, i: nat)
    requires |asked| == |workers| && i <= |workers|
    ensures IsRun(w, g, AllSteps(w, g, workers, asked, i), 0)
    decreases |workers| - i
  {
    hide WorkerSteps;
    if i < |workers| {
      var p := WorkerSteps(w, g, workers[i], asked[i]);
      WorkerStepsRun(w, g, workers[i], asked[i]);
      AllStepsRun(p.world, g, workers, asked, i + 1);
      RunsJoin(w, g, p.trace, AllSteps(p.world, g, workers, asked, i + 1), 0);
    }
  }

  lemma SubmitOutcome(w: World, g: Config, a: nat, q: Request)
    requires !LaneOf(w, a).status.Pending?
    ensures var r := SubmitSimulated(LaneOf(w, a), a, q, g.policy);
            r.reply == Ok(Submitted) || !LaneOf(Act(w, g, Submit(a, q)), a).status.Pending?
  {
  }

  lemma {:induction false} BatchStepsRun(w: World, g: Config, a: nat, requests: seq<Request>, i: nat)
    requires i <= |requests| && !LaneOf(w, a).status.Pending?
    ensures var p := BatchSteps(w, g, a, requests, i); IsRun(w, g, p, if p.reply == Ok(true) then 1 else 0)
    decreases |requests| - i
  {
    hide Act, SubmitSimulated;
    if i < |requests| {
      var e := Submit(a, requests[i]);
      SubmitOutcome(w, g, a, requests[i]);
      OneEvent(w, g, e, BatchSteps(w, g, a, requests, i).reply);
      var action := SubmitSimulated(LaneOf(w, a), a, requests[i], g.policy).reply;
      if action.Ok? && !action.value.Submitted? {
        BatchStepsRun(Act(w, g, e), g, a, requests, i + 1);
        var p := BatchSteps(Act(w, g, e), g, a, requests, i + 1);
        EventThen(w, g, e, p, if p.reply == Ok(true) then 1 else 0);
      }
    }
  }

  /** Choosing a worker is a run that submits nothing and ends with a ready worker. */
  lemma SelectIsRun(w: World, g: Config, workers: seq<nat>, c: Cycle, reply: Result<bool>)
    requires |c.pending| == |workers| && |c.all| == |workers|
    ensures var s := SelectSteps(w, g, workers, c);
      && IsRun(w, g, Progress(s.world, s.trace, reply), 0)
      && (s.worker.Ok? ==> s.worker.value in workers && ReadyIn(s.world, g, s.worker.value))
  {
    hide IsRun, PendingSteps, AllSteps;
    var first := PendingSteps(w, g, workers, c.pending, 0);
    PendingStepsRun(w, g, workers, c.pending, 0);
    ReplyAside(w, g, first, 0, reply);
    if first.reply.Ok? && !c.haltedAfterPending && FirstReady(first.world, g, workers).None? {
      var all := AllSteps(first.world, g, workers, c.all, 0);
      AllStepsRun(first.world, g, workers, c.all, 0);
      ReplyAside(first.world, g, all, 0, reply);
      Chained(w, g, first, all.(reply := reply), 0);
    }
  }

  /** Whatever a cycle is answered, it is a run of the protocol, and it submits one transaction if
      it reports so and none otherwise. */
  lemma CycleIsRun(w: World, g: Config, workers: seq<nat>, c: Cycle, offer: Offer)
    requires |c.pending| == |workers| && |c.all| == |workers|
    ensures var p := CycleSteps(w, g, workers, c, offer); IsRun(w, g, p, if p.reply == Ok(true) then 1 else 0)
  {
    hide IsRun, SelectSteps, OfferSteps;
    if c.submitEnabled && !c.haltedBefore {
      var s := SelectSteps(w, g, workers, c);
      SelectIsRun(w, g, workers, c, Err);
      if s.worker.Ok? {
        var p := OfferSteps(s.world, g, s.worker.value, offer);
        OfferIsRun(s.world, g, s.worker.value, offer);
        Chained(w, g, Progress(s.world, s.trace, Err), p, if p.reply == Ok(true) then 1 else 0);
      }
    } else {
      Nothing(w, g, CycleSteps(w, g, workers, c, offer).reply);
    }
  }

  /** Notes change the ledger only. */
  lemma {:induction false} NotesAreRun(w: World, g: Config, notes: seq<Note>, reply: Result<bool>)
    ensures IsRun(w, g, Progress(Run(w, g, Notes(notes)), Notes(notes), reply), 0)
    ensures Run(w, g, Notes(notes)).lanes == w.lanes
    decreases |notes|
  {
    hide Sends;
    if |notes| > 0 {
      var e := Notes(notes)[0];
      assert Notes(notes)[1..] == Notes(notes[1..]);
      NotesAreRun(Act(w, g, e), g, notes[1..], reply);
      assert !Sends(w, g, e) by {
        NoteSendsNothing(w, g, e);
      }
    }
  }

  lemma NoteSendsNothing(w: World, g: Config, e: Event)
    requires e.FailApproval?
    ensures !Sends(w, g, e)
  {
  }

  lemma OfferIsRun(w: World, g: Config, a: nat, offer: Offer)
    requires ReadyIn(w, g, a)
    ensures var p := OfferSteps(w, g, a, offer); IsRun(w, g, p, if p.reply == Ok(true) then 1 else 0)
  {
    hide IsRun, BatchSteps, Act, Run, Notes;
    var noted := Run(w, g, Notes(offer.notes));
    NotesAreRun(w, g, offer.notes, Err);
    if offer.requests.Ok? {
      var p := BatchSteps(noted, g, a, offer.requests.value, 0);
      BatchStepsRun(noted, g, a, offer.requests.value, 0);
      Chained(w, g, Progress(noted, Notes(offer.notes), Err), p, if p.reply == Ok(true) then 1 else 0);
    } else {
      Nothing(noted, g, Err);
      Chained(w, g, Progress(noted, Notes(offer.notes), Err), Progress(noted, [], Err), 0);
    }
  }

  // ----- when a batch submits -----

  /** The request runs into an error before anything is signed: its lock cannot be asked for. */
  predicate Errs(q: Request) {
    !q.expired && q.submitEnabled && !q.halted && q.lock.Err?
  }

  /** The request at `at` has all it needs, and none from `i` on before it errs. */
  ghost predicate GoesOutAt(requests: seq<Request>, i: nat, at: nat) {
    i <= at < |requests| && GoesOut(requests[at]) && forall j | i <= j < at :: !Errs(requests[j])
  }

  /** A batch submits exactly when one of its requests has all it needs and none before it errs,
      whatever the lane and the stores hold; it is the first such request, and the last tried. */
  lemma {:induction false} BatchSubmitsIff(w: World, g: Config, a: nat, requests: seq<Request>, i: nat)
    requires i <= |requests|
    ensures var p := BatchSteps(w, g, a, requests, i); var last := i + |p.trace| - 1;
      && (p.reply == Ok(true) <==> exists at :: GoesOutAt(requests, i, at))
      && (p.reply == Ok(true) ==>
            && i <= last && GoesOutAt(requests, i, last) && p.trace[last - i] == Submit(a, requests[last])
            && forall j | i <= j < last :: !GoesOut(requests[j]))
    decreases |requests| - i
  {
    hide Act, SubmitSimulated, GoesOut, Errs;
    if i < |requests| {
      SubmittedIff(LaneOf(w, a), a, requests[i], g.policy);
      ErrsIff(LaneOf(w, a), a, requests[i], g.policy);
      BatchSubmitsIff(Act(w, g, Submit(a, requests[i])), g, a, requests, i + 1);
      var next := BatchSteps(Act(w, g, Submit(a, requests[i])), g, a, requests, i + 1).reply;
      if GoesOut(requests[i]) {
        assert GoesOutAt(requests, i, i);
      } else if !Errs(requests[i]) && next == Ok(true) {
        var at :| GoesOutAt(requests, i + 1, at);
        assert GoesOutAt(requests, i, at);
      } else {
        assert forall at :: GoesOutAt(requests, i, at) ==> !Errs(requests[i]) && GoesOutAt(requests, i + 1, at);
      }
    }
  }

  lemma ErrsIff(s: LaneState, wallet: nat, q: Request, p: Policy)
    ensures SubmitSimulated(s, wallet, q, p).reply.Err? <==> Errs(q)
    ensures GoesOut(q) ==> !Errs(q)
  {
  }

  lemma Nothing(w: World, g: Config, reply: Result<bool>)
    ensures IsRun(w, g, Progress(w, [], reply), 0)
  {
  }

  lemma ReplyAside(w: World, g: Config, p: Progress, sends: nat, reply: Result<bool>)
    requires IsRun(w, g, p, sends)
    ensures IsRun(w, g, p.(reply := reply), sends)
  {
  }

  lemma Chained(w: World, g: Config, first: Progress, p: Progress, sends: nat)
    requires IsRun(w, g, first, 0) && IsRun(first.world, g, p, sends)
    ensures IsRun(w, g, After(first.trace, p), sends)
  {
    RunsJoin(w, g, first.trace, p, sends);
  }

  class Manager {
    const config: Config
    const workers: seq<nat>
    var lanes: map<nat, LaneState>
    var ledger: seq<TxRecord>
    ghost var log: seq<Event>

    ghost function Stores(): World
      reads this
    {
      World(lanes, ledger)
    }

    /** The stores are what the logged operations made of empty ones, each performed when the
        protocol performs it. */
    ghost predicate Valid()
      reads this
    {
      && Stores() == Run(START, config, log)
      && Guarded(START, config, log)
      && forall a :: a in lanes ==> lanes[a].address == a
    }

    ghost function Sent(): nat
      reads this
    {
      Submissions(START, config, log)
    }

    constructor (config: Config, workers: seq<nat>)
      ensures Valid() && log == [] && this.config == config && this.workers == workers
    {
      this.config, this.workers := config, workers;
      lanes, ledger, log := map[], [], [];
    }

    /** If the environment behaved as asked since the start, everything proved of runs holds. */
    lemma SafeWhenFair()
      requires Valid() && Fair(START, NO_HISTORY, config, log)
      ensures Reached(Stores(), Recall(START, NO_HISTORY, config, log), config, log)
      ensures |Recall(START, NO_HISTORY, config, log).sent| == Sent()
    {
      FairRunsAreLegal(START, NO_HISTORY, config, log);
      SubmissionsAreRemembered(START, NO_HISTORY, config, log);
    }

    ghost method Log(e: Event, before: World)
      requires before == Run(START, config, log) && Guarded(START, config, log) && Guard(before, e)
      modifies this`log
      ensures log == old(log) + [e] && Guarded(START, config, log)
      ensures Run(START, config, log) == Act(before, config, e)
      ensures Sent() == old(Sent()) + if Sends(before, config, e) then 1 else 0
    {
      OneMore(START, config, log, e);
      log := log + [e];
    }

    method SetLaneState(s: LaneState)
      modifies this`lanes
      ensures lanes == old(lanes)[s.address := s]
    {
      lanes := lanes[s.address := s];
    }

    method RecordTransaction(r: TxRecord)
      modifies this`ledger
      ensures ledger == old(ledger) + [r]
    {
      ledger := ledger + [r];
    }

    /** `h` is what became of the lane and the stores. */
    twostate predicate Did(lane: EoaLane, h: Handled)
      reads this, lane
    {
      && ledger == old(ledger) + h.records
      && lanes == old(lanes)[old(lane.state).address := h.lane]
      && (h.reply.Ok? ==> lane.state == h.lane)
    }

    method HandlePendingLane(lane: EoaLane, answers: Answers) returns (reply: Result<Option<bool>>)
      requires lane.state.address in lanes && lanes[lane.state.address] == lane.state
      modifies this`lanes, this`ledger, lane
      ensures Did(lane, HandlePending(old(lane.state), config.policy, answers))
      ensures reply == HandlePending(old(lane.state), config.policy, answers).reply
    {
      var s := lane.state;
      assert lanes[s.address := s] == lanes;
      assert ledger + [] == ledger;
      if s.pendingTx.None? || s.pendingOpportunity.None? || s.pendingNonce.None? {
        lane.MarkBlocked();
        SetLaneState(lane.state);
        return Ok(None);
      }
      if answers.receipt.Err? {
        return Err;
      }
      if answers.receipt.value.None? {
        var cleared := ClearLaneIfPendingNonceConsumed(lane, answers.counts);
        if cleared.Err? {
          return Err;
        }
        if cleared.value {
          return Ok(None);
        }
        reply := MaybeReplacePendingTx(lane, answers);
        return;
      }
      var success := answers.receipt.value.value;
      RecordTransaction(RecordFor(s, s.pendingTx.value, if success then Mined else Failed));
      if answers.counts.latest.Err? {
        return Err;
      }
      lane.MarkConfirmed(answers.counts.latest.value);
      if answers.counts.pending.Err? {
        return Err;
      }
      lane.state := lane.state.(localNonce := answers.counts.pending.value);
      if answers.counts.balance.Err? {
        return Err;
      }
      lane.state := lane.state.(ethBalance := answers.counts.balance.value);
      SetLaneState(lane.state);
      return Ok(if s.pendingSimulation.Some? then Some(success) else None);
    }

    method ClearLaneIfPendingNonceConsumed(lane: EoaLane, c: Counts) returns (cleared: Result<bool>)
      requires lane.state.address in lanes && lanes[lane.state.address] == lane.state
      requires lane.state.pendingTx.Some? && lane.state.pendingOpportunity.Some? && lane.state.pendingNonce.Some?
      modifies this`lanes, this`ledger, lane
      ensures cleared != Ok(true) ==> lane.state == old(lane.state) && lanes == old(lanes) && ledger == old(ledger)
      ensures cleared == Ok(false) <==> c.latest.Ok? && c.latest.value <= old(lane.state).pendingNonce.value
      ensures cleared == Ok(true) <==>
              c.latest.Ok? && c.latest.value > old(lane.state).pendingNonce.value && c.pending.Ok? && c.balance.Ok?
      ensures cleared == Ok(true) ==>
              Did(lane, Handled(ClearedLane(old(lane.state), c.latest.value, c.pending.value, c.balance.value),
                                [RecordFor(old(lane.state), old(lane.state).pendingTx.value, Dropped)], Ok(None)))
    {
      if c.latest.Err? {
        return Err;
      }
      if c.latest.value <= lane.state.pendingNonce.value {
        return Ok(false);
      }
      if c.pending.Err? || c.balance.Err? {
        return Err;
      }
      RecordTransaction(RecordFor(lane.state, lane.state.pendingTx.value, Dropped));
      lane.ClearConsumedPending(c.latest.value, c.pending.value, c.balance.value);
      SetLaneState(lane.state);
      return Ok(true);
    }

    method MaybeReplacePendingTx(lane: EoaLane, answers: Answers) returns (reply: Result<Option<bool>>)
      requires lane.state.address in lanes && lanes[lane.state.address] == lane.state
      requires lane.state.pendingTx.Some? && lane.state.pendingOpportunity.Some? && lane.state.pendingNonce.Some?
      modifies this`lanes, this`ledger, lane
      ensures Did(lane, MaybeReplace(old(lane.state), config.policy, answers))
      ensures reply == MaybeReplace(old(lane.state), config.policy, answers).reply
    {
      hide ReplacementFees;
      var s, p := lane.state, config.policy;
      assert lanes[s.address := s] == lanes;
      assert ledger + [] == ledger;
      if s.replacementCount >= p.maxReplacements || s.pendingBlock.None? {
        return Ok(None);
      }
      if answers.block.Err? {
        return Err;
      }
      var block, submitted := answers.block.value, s.pendingBlock.value;
      var waited := if block < submitted then 0 else block - submitted;
      if waited < p.replacementBlocks || !Replaceable(s) {
        return Ok(None);
      }
      if answers.calldata.Err? {
        return Err;
      }
      if answers.calldata.value.None? {
        return Ok(None);
      }
      var replaced := ReplacePending(s, p, answers.calldata.value.value, answers);
      if replaced.Ok? {
        RecordTransaction(RecordFor(s, s.pendingTx.value, Dropped));
        RecordTransaction(RecordFor(s, replaced.value.txHash, InFlight));
        lane.MarkReplaced(replaced.value);
        SetLaneState(lane.state);
      }
      return Ok(None);
    }

    /** Handles the stored lane of worker `a`, which must be pending. */
    method HandleWorker(a: nat, answers: Answers) returns (reply: Result<Option<bool>>)
      requires Valid() && a in lanes && lanes[a].status.Pending?
      modifies this
      ensures Valid() && log == old(log) + [Handle(a, answers)] && Sent() == old(Sent())
      ensures Stores() == Act(old(Stores()), config, Handle(a, answers))
      ensures reply == HandlePending(old(lanes)[a], config.policy, answers).reply
    {
      hide HandlePending, Run, Guarded, Submissions;
      ghost var before := Stores();
      var lane := new EoaLane.FromState(lanes[a]);
      reply := HandlePendingLane(lane, answers);
      HandlingKeepsAddress(before.lanes[a], config.policy, answers);
      Log(Handle(a, answers), before);
    }

    /** The stores and the log are what `p` says, the log counted from `start` on. */
    ghost predicate Made(start: seq<Event>, p: Progress)
      reads this
    {
      Stores() == p.world && log == start + p.trace
    }

    method ReconcilePendingWorkerLanes(answers: seq<Answers>) returns (reply: Result<bool>)
      requires Valid() && |answers| == |workers|
      modifies this
      ensures Valid() && Sent() == old(Sent())
      ensures var p := PendingSteps(old(Stores()), config, workers, answers, 0);
              Made(old(log), p) && reply == p.reply
    {
      hide Act, HandlePending, Run, Guarded, Submissions;
      ghost var start, whole := log, PendingSteps(Stores(), config, workers, answers, 0);
      ghost var done: seq<Event> := [];
      for i := 0 to |workers|
        invariant Valid() && Sent() == old(Sent())
        invariant log == start + done
        invariant whole == After(done, PendingSteps(Stores(), config, workers, answers, i))
      {
        if workers[i] in lanes && lanes[workers[i]].status.Pending? {
          var handled := HandleWorker(workers[i], answers[i]);
          done := done + [Handle(workers[i], answers[i])];
          if handled.Err? {
            return Err;
          }
        }
      }
      return Ok(false);
    }

    method SyncIdleLane(lane: EoaLane, c: Counts) returns (reply: Result<()>)
      modifies lane
      ensures reply.Ok? <==> SyncLane(old(lane.state), c).Ok?
      ensures reply.Ok? ==> lane.state == SyncLane(old(lane.state), c).value
    {
      if c.latest.Err? || c.pending.Err? {
        return Err;
      }
      lane.state := lane.state.(confirmedNonce := c.latest.value);
      lane.state := lane.state.(localNonce := c.pending.value);
      if c.balance.Err? {
        return Err;
      }
      lane.state := lane.state.(ethBalance := c.balance.value);
      lane.state := lane.state.(status := Idle);
      return Ok(());
    }

    method FundWorkerLaneIfNeeded(lane: EoaLane, f: Funding) returns (reply: Result<()>)
      modifies lane
      ensures reply.Ok? <==> FundLane(old(lane.state), config.treasury, f).Ok?
      ensures reply.Ok? ==> lane.state == FundLane(old(lane.state), config.treasury, f).value
    {
      var s, t := lane.state, config.treasury;
      if s.status != Idle || s.ethBalance >= t.minBalance {
        return Ok(());
      }
      if t.wallet.None? || t.wallet.value == s.address {
        return Err;
      }
      var value := if t.targetBalance < s.ethBalance then 0 else t.targetBalance - s.ethBalance;
      if value == 0 {
        return Ok(());
      }
      if f.balance.Err? || f.balance.value <= value || f.nonce.Err? {
        return Err;
      }
      if f.suggestion.Err? || f.block.Err? || f.send.Err? {
        return Err;
      }
      var mined := WaitForWorkerFundingReceipt(f.receipts);
      if !mined {
        return Err;
      }
      reply := SyncIdleLane(lane, f.again);
    }

    /** Asks for the receipt until there is one, an error, or no attempt left. */
    method WaitForWorkerFundingReceipt(receipts: Receipts) returns (mined: bool)
      ensures mined <==> exists k :: 0 <= k < POLLS && MinedAt(receipts, 0, k)
      ensures mined == MinedFrom(receipts, 0)
    {
      MinedMeaning(receipts, 0);
      for i := 0 to POLLS
        invariant MinedFrom(receipts, 0) == MinedFrom(receipts, i)
      {
        if receipts[i].Err? {
          return false;
        }
        if receipts[i].value.Some? {
          return receipts[i].value.value;
        }
      }
      return false;
    }

    /** Synchronises the stored lane of worker `a`, or a new one, which must not be pending. */
    method SyncWorker(a: nat, c: Counts, f: Funding) returns (reply: Result<()>)
      requires Valid() && !LaneOf(Stores(), a).status.Pending?
      modifies this
      ensures Valid() && log == old(log) + [Sync(a, c, f)] && Sent() == old(Sent())
      ensures Stores() == Act(old(Stores()), config, Sync(a, c, f))
      ensures reply.Ok? <==> SyncAndFund(LaneOf(old(Stores()), a), config.treasury, c, f).Ok?
    {
      hide Run, Guarded, Submissions;
      ghost var before := Stores();
      var lane := new EoaLane.FromState(if a in lanes then lanes[a] else NewLane(a));
      reply := SyncIdleLane(lane, c);
      if reply.Ok? {
        reply := FundWorkerLaneIfNeeded(lane, f);
        if reply.Ok? {
          SetLaneState(lane.state);
        }
      }
      Log(Sync(a, c, f), before);
    }

    method ReconcileWorker(a: nat, asked: WorkerAnswers) returns (reply: Result<bool>)
      requires Valid()
      modifies this
      ensures Valid() && Sent() == old(Sent())
      ensures var p := WorkerSteps(old(Stores()), config, a, asked); Made(old(log), p) && reply == p.reply
    {
      hide Act, HandlePending, SyncAndFund, Run, Guarded, Submissions;
      if a in lanes && lanes[a].status.Pending? {
        var handled := HandleWorker(a, asked.answers);
        if handled.Err? {
          return Err;
        }
        if a in lanes && lanes[a].status.Pending? {
          return Ok(false);
        }
      }
      var synced := SyncWorker(a, asked.counts, asked.funding);
      return if synced.Ok? then Ok(false) else Err;
    }

    method ReconcileWorkerLanes(asked: seq<WorkerAnswers>) returns (reply: Result<bool>)
      requires Valid() && |asked| == |workers|
      modifies this
      ensures Valid() && Sent() == old(Sent())
      ensures var p := AllSteps(old(Stores()), config, workers, asked, 0); Made(old(log), p) && reply == p.reply
    {
      hide Act, WorkerSteps, Run, Guarded, Submissions;
      ghost var start, whole := log, AllSteps(Stores(), config, workers, asked, 0);
      ghost var done: seq<Event> := [];
      for i := 0 to |workers|
        invariant Valid() && Sent() == old(Sent())
        invariant log == start + done
        invariant whole == After(done, AllSteps(Stores(), config, workers, asked, i))
      {
        done := done + WorkerSteps(Stores(), config, workers[i], asked[i]).trace;
        var reconciled := ReconcileWorker(workers[i], asked[i]);
        if reconciled.Err? {
          return Err;
        }
      }
      return Ok(false);
    }

    /** The first worker whose stored lane is idle and funded. */
    method SelectCachedReadyWorker() returns (selected: Option<nat>)
      ensures selected == FirstReady(Stores(), config, workers)
    {
      ghost var w := Stores();
      for i := 0 to |workers|
        invariant FirstReady(w, config, workers) == FirstReady(w, config, workers[i..])
      {
        assert workers[i..][1..] == workers[i + 1..];
        if workers[i] in lanes && lanes[workers[i]].status.Idle?
           && lanes[workers[i]].ethBalance >= config.treasury.minBalance
        {
          return Some(workers[i]);
        }
      }
      return None;
    }

    /** Submits from wallet `a`, whose lane must not be pending. */
    method SubmitSimulatedCandidate(a: nat, q: Request) returns (reply: Result<Action>)
      requires Valid() && !LaneOf(Stores(), a).status.Pending?
      modifies this
      ensures Valid() && log == old(log) + [Submit(a, q)]
      ensures Stores() == Act(old(Stores()), config, Submit(a, q))
      ensures reply == SubmitSimulated(LaneOf(old(Stores()), a), a, q, config.policy).reply
      ensures Sent() == old(Sent()) + if reply == Ok(Submitted) then 1 else 0
      ensures reply == Ok(Submitted) ==> a in lanes && lanes[a].status.Pending?
      ensures reply != Ok(Submitted) ==> !LaneOf(Stores(), a).status.Pending?
    {
      hide Run, Guarded, Submissions, SubmitCandidate;
      ghost var before := Stores();
      assert ledger + [] == ledger;
      reply := Ok(Simulated);
      if q.expired || !q.submitEnabled {
      } else if q.halted {
        reply := Ok(Skipped);
      } else if q.lock.Err? {
        reply := Err;
      } else if !q.lock.value {
        reply := Ok(Skipped);
      } else {
        var lane := new EoaLane.FromState(if a in lanes then lanes[a] else NewLane(a));
        var nonce := lane.state.localNonce;
        var submission := SubmitCandidate(q, config.policy, nonce);
        if submission.Ok? {
          var sub := submission.value;
          lane.MarkSubmitted(q.opportunity, sub);
          SetLaneState(lane.state);
          RecordTransaction(TxRecord(q.opportunity, sub.simulation, a, Some(sub.txHash), sub.nonce, InFlight));
          reply := Ok(Submitted);
        } else {
          lane.MarkCooldown();
          SetLaneState(lane.state);
          RecordTransaction(TxRecord(q.opportunity, Some(q.simulation), a, None, nonce, Dropped));
        }
      }
      Log(Submit(a, q), before);
    }

    /** Records an approval transaction of wallet `note.eoa` that could not be sent. */
    method RecordFailedApproval(note: Note)
      requires Valid()
      modifies this`ledger, this`log
      ensures Valid() && Sent() == old(Sent())
      ensures log == old(log) + Notes([note]) && Stores() == Act(old(Stores()), config, Notes([note])[0])
      ensures ledger == old(ledger) + [TxRecord(note.opportunity, None, note.eoa, None, note.nonce, Dropped)]
    {
      hide Run, Guarded, Submissions;
      ghost var before := Stores();
      RecordTransaction(TxRecord(note.opportunity, None, note.eoa, None, note.nonce, Dropped));
      Log(FailApproval(note.eoa, note.opportunity, note.nonce), before);
    }

    /** Tries the candidates in turn from one wallet until one is submitted, and says which. */
    method RunLiveSubmissionBatch(a: nat, requests: seq<Request>) returns (reply: Result<bool>, at: nat)
      requires Valid() && !LaneOf(Stores(), a).status.Pending?
      modifies this
      ensures Valid() && Sent() == old(Sent()) + if reply == Ok(true) then 1 else 0
      ensures var p := BatchSteps(old(Stores()), config, a, requests, 0);
              Made(old(log), p) && reply == p.reply
      ensures reply == Ok(true) ==> a in lanes && lanes[a].status.Pending?
      ensures reply == Ok(true) ==>
              at < |requests| && |log| == |old(log)| + at + 1 && log[|log| - 1] == Submit(a, requests[at])
    {
      hide Act, SubmitSimulated, Run, Guarded, Submissions;
      ghost var start, whole := log, BatchSteps(Stores(), config, a, requests, 0);
      ghost var done: seq<Event> := [];
      at := 0;
      for i := 0 to |requests|
        invariant Valid() && Sent() == old(Sent()) && !LaneOf(Stores(), a).status.Pending?
        invariant log == start + done && |done| == i
        invariant whole == After(done, BatchSteps(Stores(), config, a, requests, i))
      {
        var action := SubmitSimulatedCandidate(a, requests[i]);
        ghost var sofar := done;
        done := done + [Submit(a, requests[i])];
        Continue(sofar, [Submit(a, requests[i])], BatchSteps(Stores(), config, a, requests, i + 1));
        if action.Err? {
          return Err, 0;
        }
        if action.value.Submitted? {
          return Ok(true), i;
        }
      }
      return Ok(false), 0;
    }

    /** Handles the pending lanes and chooses a worker, reconciling every lane if none is ready. */
    method SelectWorker(c: Cycle) returns (worker: Result<nat>)
      requires Valid() && |c.pending| == |workers| && |c.all| == |workers|
      modifies this
      ensures Valid() && Sent() == old(Sent())
      ensures var s := SelectSteps(old(Stores()), config, workers, c);
              Stores() == s.world && log == old(log) + s.trace && worker == s.worker
      ensures worker.Ok? ==> worker.value in workers && ReadyIn(Stores(), config, worker.value)
    {
      hide Act, Run, Guarded, Submissions, PendingSteps, AllSteps, FirstReady;
      var pending := ReconcilePendingWorkerLanes(c.pending);
      if pending.Err? || c.haltedAfterPending {
        return Err;
      }
      var selected := SelectCachedReadyWorker();
      if selected.None? {
        var all := ReconcileWorkerLanes(c.all);
        if all.Err? || c.haltedAfterAll {
          return Err;
        }
        selected := SelectCachedReadyWorker();
        if selected.None? {
          return Err;
        }
      }
      return Ok(selected.value);
    }
  }

  lemma HandlingKeepsAddress(s: LaneState, p: Policy, a: Answers)
    ensures HandlePending(s, p, a).lane.address == s.address
  {
  }
}

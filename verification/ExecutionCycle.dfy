/** One whole execution cycle (crates/execution-manager/src/main.rs): a worker is chosen, the
    candidate queue is drained and coalesced, keys already submitted are dropped, and the candidates
    whose simulation succeeds are tried by profit. */
module ExecutionCycle {
  import opened Wrappers
  import opened U256Math
  import opened LaneSteps
  import opened LaneProtocol
  import opened ExecutionManager
  import opened Candidates
  import opened CurrentBlock
  import opened Sorting

  /** What the approval preflight of one candidate meets: whether its calldata and approvals can be
      derived, whether an approval is missing, whether the fund wallet has a transaction pending,
      whether an executor is known, the fund wallet's nonce, and whether the approval was sent. */
  datatype Checks = Checks(encodable: bool, missing: bool, adminPending: Result<bool>, executorKnown: bool,
                           nonce: Result<U64>, sent: bool)

  /** What trying one candidate meets: the approval preflight, the profit of its simulation if that
      succeeds, and the answers to its submission. */
  datatype Trial = Trial(checks: Checks, simulated: Option<U256>, request: Request)

  type Trials = Candidate -> Trial

  function RequestOf(c: Candidate, trials: Trials): Request {
    trials(c).request.(opportunity := c.id)
  }

  // ----- which candidates of a batch reach submission -----

  /** `live_approval_preflight`: nothing when the candidate may go on, else what was done about it. */
  function LiveApprovalPreflight(k: Checks, fund: Option<nat>): Result<Option<Action>> {
    if !k.encodable then Ok(Some(Skipped))
    else if !k.missing then Ok(None)
    else if fund.None? || k.adminPending.Err? then Err
    else if k.adminPending.value || !k.executorKnown then Ok(Some(Skipped))
    else if k.nonce.Err? then Err
    else Ok(Some(Simulated))
  }

  /** A candidate goes on exactly when it can be encoded and has every approval. A missing one is an
      error without a fund wallet, or if it or its nonce cannot be asked; it is tried only when the
      fund wallet has nothing pending and an executor is known, and never counts as a submission. */
  lemma PreflightAnswers(k: Checks, fund: Option<nat>)
    ensures var lacking := k.encodable && k.missing; var free := k.adminPending == Ok(false) && k.executorKnown;
            var answer := LiveApprovalPreflight(k, fund);
            && (answer == Ok(None) <==> k.encodable && !k.missing)
            && (answer.Err? <==> lacking && (fund.None? || k.adminPending.Err? || (free && k.nonce.Err?)))
            && (answer == Ok(Some(Simulated)) <==> lacking && fund.Some? && free && k.nonce.Ok?)
            && answer != Ok(Some(Submitted))
  {
  }

  predicate Passes(c: Candidate, m: Moment, trials: Trials, fund: Option<nat>) {
    !IsStale(c, m) && LiveApprovalPreflight(trials(c).checks, fund) == Ok(None)
  }

  /** A candidate whose preflight errs, which ends the batch. */
  predicate Ends(c: Candidate, m: Moment, trials: Trials, fund: Option<nat>) {
    !IsStale(c, m) && LiveApprovalPreflight(trials(c).checks, fund).Err?
  }

  /** The record of an approval that was tried and could not be sent. */
  function NoteOf(c: Candidate, m: Moment, trials: Trials, fund: Option<nat>): seq<Note> {
    var k := trials(c).checks;
    if !IsStale(c, m) && LiveApprovalPreflight(k, fund) == Ok(Some(Simulated)) && !k.sent
    then [Note(fund.value, c.id, k.nonce.value)] else []
  }

  datatype Preflight = Preflight(notes: seq<Note>, ready: Result<seq<Candidate>>)

  /** The preflight from the i-th candidate on, with what was noted and those that are ready so far. */
  function PreflightFrom(cs: seq<Candidate>, m: Moment, trials: Trials, fund: Option<nat>, i: nat, notes: seq<Note>,
                         ready: seq<Candidate>): Preflight
    requires i <= |cs|
    decreases |cs| - i
  {
    if i == |cs| || |ready| >= MAX_KEPT then Preflight(notes, Ok(ready))
    else if Ends(cs[i], m, trials, fund) then Preflight(notes, Err)
    else PreflightFrom(cs, m, trials, fund, i + 1, notes + NoteOf(cs[i], m, trials, fund),
                       if Passes(cs[i], m, trials, fund) then ready + [cs[i]] else ready)
  }

  /** The notes of a list of candidates, in order. */
  function NotesOf(cs: seq<Candidate>, m: Moment, trials: Trials, fund: Option<nat>): seq<Note> {
    if cs == [] then [] else NoteOf(cs[0], m, trials, fund) + NotesOf(cs[1..], m, trials, fund)
  }

  /** A candidate is noted exactly when its approval was tried and could not be sent, under the fund
      wallet and its nonce; the notes of a list are those of its candidates, in order. */
  lemma {:induction false} NotesMeaning(cs: seq<Candidate>, c: Candidate, m: Moment, trials: Trials, fund: Option<nat>)
    ensures var k := trials(c).checks;
            NotesOf(cs + [c], m, trials, fund) == NotesOf(cs, m, trials, fund) +
              if !IsStale(c, m) && k.encodable && k.missing && fund.Some? && k.adminPending == Ok(false)
                 && k.executorKnown && k.nonce.Ok? && !k.sent
              then [Note(fund.value, c.id, k.nonce.value)] else []
    decreases |cs|
  {
    if cs == [] {
      assert ([c])[1..] == [];
      assert NotesOf([c], m, trials, fund) == NoteOf(c, m, trials, fund) + NotesOf([], m, trials, fund);
    } else {
      hide NoteOf, IsStale;
      assert (cs + [c])[1..] == cs[1..] + [c];
      NotesMeaning(cs[1..], c, m, trials, fund);
    }
  }

  /** The preflight fails exactly when some candidate ends it; otherwise the ready ones are the
      candidates that pass, in order, and every approval that could not be sent is noted. */
  lemma {:induction false} PreflightMeaning(cs: seq<Candidate>, m: Moment, trials: Trials, fund: Option<nat>, i: nat,
                                            notes: seq<Note>, ready: seq<Candidate>)
    requires i <= |cs| && |ready| + |cs| - i <= MAX_KEPT
    ensures var p := PreflightFrom(cs, m, trials, fund, i, notes, ready);
      && (p.ready.Ok? <==> forall j :: i <= j < |cs| ==> !Ends(cs[j], m, trials, fund))
      && (p.ready.Ok? ==>
            && p.ready.value == ready + Filter(cs[i..], (c: Candidate) => Passes(c, m, trials, fund))
            && p.notes == notes + NotesOf(cs[i..], m, trials, fund))
    decreases |cs| - i
  {
    hide Passes, NoteOf, Ends, Filter, NotesOf;
    FirstOfRest(cs, m, trials, fund, i);
    if i < |cs| && !Ends(cs[i], m, trials, fund) {
      var passed := if Passes(cs[i], m, trials, fund) then [cs[i]] else [];
      var noted := NoteOf(cs[i], m, trials, fund);
      PreflightMeaning(cs, m, trials, fund, i + 1, notes + noted, if passed == [] then ready else ready + passed);
      assert ready + passed == if passed == [] then ready else ready + passed;
      Regroup(ready, passed, Filter(cs[i + 1..], (c: Candidate) => Passes(c, m, trials, fund)));
      Regroup(notes, noted, NotesOf(cs[i + 1..], m, trials, fund));
    } else if i == |cs| {
      assert ready + [] == ready && notes + [] == notes;
    }
  }

  lemma Regroup<T>(a: seq<T>, b: seq<T>, c: seq<T>)
    ensures a + b + c == a + (b + c)
  {
  }

  lemma FirstOfRest(cs: seq<Candidate>, m: Moment, trials: Trials, fund: Option<nat>, i: nat)
    requires i <= |cs|
    ensures var keep := (c: Candidate) => Passes(c, m, trials, fund);
      && Filter(cs[i..], keep) == (if i == |cs| then []
                                   else (if keep(cs[i]) then [cs[i]] else []) + Filter(cs[i + 1..], keep))
      && NotesOf(cs[i..], m, trials, fund) == (if i == |cs| then []
                                               else NoteOf(cs[i], m, trials, fund)
                                                    + NotesOf(cs[i + 1..], m, trials, fund))
  {
    hide Passes, NoteOf;
    if i < |cs| {
      assert cs[i..][0] == cs[i] && cs[i..][1..] == cs[i + 1..];
    }
  }

  function Rank(trials: Trials): Candidate -> int {
    (c: Candidate) => if trials(c).simulated.Some? then -(trials(c).simulated.value as int) else 0
  }

  /** The candidates whose simulation succeeds, most profitable first. */
  function Successful(ready: seq<Candidate>, trials: Trials): (r: seq<Candidate>)
    ensures forall c :: c in r ==> c in ready && trials(c).simulated.Some?
  {
    var passed := Filter(ready, (c: Candidate) => trials(c).simulated.Some?);
    SortByElements(passed, Rank(trials));
    SortBy(passed, Rank(trials))
  }

  lemma MostProfitableFirst(ready: seq<Candidate>, trials: Trials, i: nat, j: nat)
    requires i < j < |Successful(ready, trials)|
    ensures var r := Successful(ready, trials); trials(r[i]).simulated.value >= trials(r[j]).simulated.value
  {
    var passed := Filter(ready, (c: Candidate) => trials(c).simulated.Some?);
    SortBySorted(passed, Rank(trials));
    var r := Successful(ready, trials);
    assert r[i] in r && r[j] in r;
    assert Rank(trials)(r[i]) <= Rank(trials)(r[j]);
  }

  /** The candidates a batch offers for submission, in the order they are tried. */
  function Offered(cs: seq<Candidate>, m: Moment, trials: Trials, fund: Option<nat>): (r: seq<Candidate>)
    ensures forall c :: c in r ==> c in cs
  {
    var p := PreflightFrom(cs, m, trials, fund, 0, [], []);
    if p.ready.Ok? then
      ReadyAreCandidates(cs, m, trials, fund, 0, [], []);
      Successful(p.ready.value, trials)
    else []
  }

  lemma {:induction false} ReadyAreCandidates(cs: seq<Candidate>, m: Moment, trials: Trials, fund: Option<nat>, i: nat,
                                              notes: seq<Note>, ready: seq<Candidate>)
    requires i <= |cs| && forall c :: c in ready ==> c in cs
    ensures var p := PreflightFrom(cs, m, trials, fund, i, notes, ready).ready;
      p.Ok? ==> forall c :: c in p.value ==> c in cs
    decreases |cs| - i
  {
    hide Passes, NoteOf;
    if i < |cs| && |ready| < MAX_KEPT && !Ends(cs[i], m, trials, fund) {
      ReadyAreCandidates(cs, m, trials, fund, i + 1, notes + NoteOf(cs[i], m, trials, fund),
                         if Passes(cs[i], m, trials, fund) then ready + [cs[i]] else ready);
    }
  }

  function Requests(cs: seq<Candidate>, trials: Trials): (r: seq<Request>)
    ensures |r| == |cs| && forall i :: 0 <= i < |cs| ==> r[i] == RequestOf(cs[i], trials)
  {
    seq(|cs|, i requires 0 <= i < |cs| => RequestOf(cs[i], trials))
  }

  /** What the batch of a cycle notes and offers. */
  function OfferOf(cs: seq<Candidate>, m: Moment, trials: Trials, fund: Option<nat>): Offer {
    var p := PreflightFrom(cs, m, trials, fund, 0, [], []);
    Offer(p.notes, if p.ready.Ok? then Ok(Requests(Offered(cs, m, trials, fund), trials)) else Err)
  }

  lemma OfferIs(cs: seq<Candidate>, m: Moment, trials: Trials, fund: Option<nat>)
    ensures var p := PreflightFrom(cs, m, trials, fund, 0, [], []); var offered := Offered(cs, m, trials, fund);
            && OfferOf(cs, m, trials, fund)
               == Offer(p.notes, if p.ready.Ok? then Ok(Requests(offered, trials)) else Err)
            && (p.ready.Ok? ==> offered == Successful(p.ready.value, trials))
  {
    hide PreflightFrom, Successful, Requests;
  }

  /** The candidate is recent, can be encoded, has every approval, and its simulation succeeds. */
  predicate Worth(c: Candidate, m: Moment, trials: Trials) {
    && m.block <= c.block + m.maxLag
    && trials(c).checks.encodable && !trials(c).checks.missing && trials(c).simulated.Some?
  }

  /** A batch of at most 128 that does not fail offers the candidates that are worth it, each as often
      as it is there. */
  lemma OfferedMeaning(cs: seq<Candidate>, m: Moment, trials: Trials, fund: Option<nat>, c: Candidate)
    requires |cs| <= 128
    ensures OfferOf(cs, m, trials, fund).requests.Ok? ==>
              multiset(Offered(cs, m, trials, fund))[c] == if Worth(c, m, trials) then multiset(cs)[c] else 0
  {
    hide PreflightFrom, Ends, NotesOf;
    var passes, pays := (c: Candidate) => Passes(c, m, trials, fund), (c: Candidate) => trials(c).simulated.Some?;
    PreflightMeaning(cs, m, trials, fund, 0, [], []);
    assert cs[0..] == cs;
    var p := PreflightFrom(cs, m, trials, fund, 0, [], []);
    if p.ready.Ok? {
      assert p.ready.value == Filter(cs, passes);
      FilterCount(cs, passes, c);
      FilterCount(p.ready.value, pays, c);
      PreflightAnswers(trials(c).checks, fund);
    }
  }

  // ----- the keys already submitted -----

  /** No key was submitted twice, and exactly those are known whose block has not been left behind. */
  ghost predicate KeysKept(sent: seq<Key>, known: set<Key>, left: U64) {
    && (forall i, j :: 0 <= i < j < |sent| ==> sent[i] != sent[j])
    && (forall k :: k in known <==> k in sent && k.block >= left)
  }

  function PrunedKeys(known: set<Key>, block: U64): set<Key> {
    set k | k in known && k.block >= block
  }

  lemma PruningKeeps(sent: seq<Key>, known: set<Key>, left: U64, block: U64)
    requires KeysKept(sent, known, left) && left <= block
    ensures KeysKept(sent, PrunedKeys(known, block), block)
  {
  }

  lemma OneMoreKey(sent: seq<Key>, known: set<Key>, left: U64, k: Key)
    requires KeysKept(sent, known, left) && k !in sent && k.block >= left
    ensures KeysKept(sent + [k], known + {k}, left)
  {
  }

  /** A fresh candidate's key is known exactly when it was ever sent. */
  lemma KnownIffSent(sent: seq<Key>, known: set<Key>, c: Candidate, m: Moment)
    requires KeysKept(sent, known, FirstFreshBlock(m)) && IsFresh(c, m)
    ensures KeyOf(c) in known <==> KeyOf(c) in sent
  {
    FreshKey(c, m);
  }

  // ----- the candidates of a cycle -----

  lemma {:induction false} FilterRanked(cs: seq<Candidate>, keep: Candidate -> bool)
    requires Ranked(cs)
    ensures Ranked(Filter(cs, keep)) && |Filter(cs, keep)| <= |cs|
    decreases |cs|
  {
    if cs != [] {
      FilterRanked(cs[1..], keep);
      var rest := Filter(cs[1..], keep);
      forall i | 0 <= i < |rest| ensures KeyOf(rest[i]) != KeyOf(cs[0]) && cs[0].profit >= rest[i].profit {
        assert rest[i] in cs[1..];
      }
    }
  }

  /** Leaving out what was sent before leaves the best of the rest. */
  lemma LeavingOutSent(cs: seq<Candidate>, taken: seq<Candidate>, m: Moment, sent: seq<Key>, known: set<Key>)
    requires KeepsBestFresh(cs, taken, m, []) && KeysKept(sent, known, FirstFreshBlock(m))
    ensures KeepsBestFresh(Filter(cs, (c: Candidate) => KeyOf(c) !in known), taken, m, sent)
  {
    hide IsFresh, Ranked, KeysKept;
    var rest := Filter(cs, (c: Candidate) => KeyOf(c) !in known);
    FilterRanked(cs, (c: Candidate) => KeyOf(c) !in known);
    forall o | o in rest ensures o in taken && IsFresh(o, m) && KeyOf(o) !in sent {
      KnownIffSent(sent, known, o, m);
    }
    forall c | c in taken && IsFresh(c, m) && KeyOf(c) !in sent ensures Outdone(c, rest) {
      KnownIffSent(sent, known, c, m);
      assert Outdone(c, cs);
    }
  }

  lemma NotSentYet(c: Candidate, cs: seq<Candidate>, taken: seq<Candidate>, m: Moment, sent: seq<Key>)
    requires KeepsBestFresh(cs, taken, m, sent) && c in cs
    ensures KeyOf(c) !in sent && KeyOf(c).block >= FirstFreshBlock(m)
  {
    FreshKey(c, m);
  }

  /** Of the kept candidates, the fresh ones taken, the coalesced ones are the best. */
  lemma CoalescedAreBest(cs: seq<Candidate>, kept: seq<Candidate>, taken: seq<Candidate>, m: Moment)
    requires |kept| <= 128 && |cs| <= |kept| && forall c :: c in kept <==> c in Kept(taken, m)
    requires DistinctKeys(cs) && forall c :: c in cs ==> Has(kept, KeyOf(c)) && c == Best(kept, KeyOf(c))
    requires forall c :: c in kept ==> exists o :: o in cs && KeyOf(o) == KeyOf(c)
    requires forall i, j :: 0 <= i < j < |cs| ==> cs[i].profit >= cs[j].profit
    ensures KeepsBestFresh(cs, taken, m, [])
  {
    hide Kept, IsFresh, BestAt;
    forall c ensures c in Kept(taken, m) <==> c in taken && IsFresh(c, m) {
      KeptPartition(taken, m, c);
      assert c in Kept(taken, m) <==> multiset(Kept(taken, m))[c] > 0;
      assert c in taken <==> multiset(taken)[c] > 0;
    }
    forall o | o in cs ensures o in kept {
      assert kept[BestAt(kept, KeyOf(o))] in kept;
    }
    forall c | c in taken && IsFresh(c, m) ensures Outdone(c, cs) {
      var j :| 0 <= j < |kept| && kept[j] == c;
      BestMeaning(kept, KeyOf(c), j);
      var o :| o in cs && KeyOf(o) == KeyOf(c);
      assert o.profit >= c.profit;
    }
  }

  lemma DrainedPart(before: seq<Candidate>, after: seq<Candidate>, m: Moment, arrivals: seq<seq<Candidate>>,
                    rounds: nat, popped: nat)
    requires rounds <= |arrivals| && (rounds == |arrivals| || popped <= rounds * 128)
    requires var q := Pruned(before, FirstFreshBlock(m)) + Pushed(arrivals, rounds);
             popped == DrainLength(q, m, 0) && after == q[popped..]
    ensures var q := Pruned(before, FirstFreshBlock(m)) + Pushed(arrivals, rounds);
            Drains(before, after, m, arrivals, q[..popped]) && |Kept(q[..popped], m)| <= 128
  {
    hide Pruned, Pushed, DrainLength, Kept;
    var q := Pruned(before, FirstFreshBlock(m)) + Pushed(arrivals, rounds);
    assert q[..popped] + q[popped..] == q;
    assert DrainsIn(before, after, m, Pushed(arrivals, rounds), q[..popped]);
    FewKept(q, m);
  }

  lemma FewKept(q: seq<Candidate>, m: Moment)
    ensures |Kept(q[..DrainLength(q, m, 0)], m)| <= 128
  {
    hide DrainLength;
    DrainBounds(q, m, 0);
  }

  // ----- what a cycle does -----

  /** The first block a cycle takes candidates from, when the store holds `current`. */
  function FirstTaken(current: Option<U64>, maxLag: U64): U64 {
    if current.None? then 0 else SaturatingSub(current.value, maxLag)
  }

  datatype Setup = Setup(config: Config, workers: seq<nat>, maxLag: U64)

  /** What the main loop meets before a cycle and in it: the blocks the market data writes and the
      candidates pushed before it, the clock, what is pushed while it drains, and its answers. */
  datatype Tick = Tick(writes: seq<U64>, pushed: seq<Candidate>, now: int, cycle: Cycle,
                       arrivals: seq<seq<Candidate>>, trials: Trials)

  predicate Asked(u: Setup, k: Tick) {
    |k.cycle.pending| == |u.workers| == |k.cycle.all|
  }

  /** Everything a cycle reads or changes: lanes and ledger, the candidate queue, the submitted keys
      that are known, all keys ever sent in order, and the blocks written. */
  datatype Snapshot = Snapshot(world: World, queue: seq<Candidate>, known: set<Key>, sent: seq<Key>, writes: seq<U64>)

  /** What a cycle came to: its reply, the operations it performed, the candidates it took off the
      queue and those left of them to be tried. */
  datatype Report = Report(reply: Result<bool>, trace: seq<Event>, taken: seq<Candidate>, cs: seq<Candidate>)

  /** The queue and the blocks once producers and the market data have added to them. */
  function Arrived(s: Snapshot, k: Tick): Snapshot {
    s.(queue := s.queue + k.pushed, writes := s.writes + k.writes)
  }

  function OfferIn(u: Setup, k: Tick, m: Moment, cs: seq<Candidate>): Offer {
    OfferOf(cs, m, k.trials, u.config.treasury.wallet)
  }

  /** The cycle reaches the queue: it does not submit at all, or it has chosen a worker. */
  predicate Reaches(u: Setup, w: World, k: Tick)
    requires Asked(u, k)
  {
    !k.cycle.submitEnabled || (!k.cycle.haltedBefore && SelectSteps(w, u.config, u.workers, k.cycle).worker.Ok?)
  }

  /** One cycle takes `s` to `t`: nothing happens without a current block; lanes and ledger go through
      the specified cycle; the queue is drained exactly when a worker is chosen or nothing is to be
      submitted, and the best fresh candidates, without those sent before, are what the cycle offers. */
  ghost predicate Cycled(u: Setup, s: Snapshot, k: Tick, t: Snapshot, r: Report)
    requires Asked(u, k)
  {
    match Stored(s.writes)
    case None => t == s && r == Report(Ok(false), [], [], [])
    case Some(block) =>
      var m := Moment(k.now, block, u.maxLag);
      && Progress(t.world, r.trace, r.reply)
         == CycleSteps(s.world, u.config, u.workers, k.cycle, OfferIn(u, k, m, r.cs))
      && t.writes == s.writes
      && (if !Reaches(u, s.world, k) then t == s.(world := t.world) && r.taken == r.cs == []
          else
            && Drains(s.queue, t.queue, m, k.arrivals, r.taken)
            && KeepsBestFresh(r.cs, r.taken, m, if k.cycle.submitEnabled then s.sent else [])
            && if k.cycle.submitEnabled then Remembers(u, s, k, m, t, r) else t == s.(queue := t.queue))
  }

  /** The keys of blocks left behind are forgotten. If the cycle submitted, the candidate of its last
      operation, the one at that place among those offered, joins the keys. */
  ghost predicate Remembers(u: Setup, s: Snapshot, k: Tick, m: Moment, t: Snapshot, r: Report)
    requires Asked(u, k) && SelectSteps(s.world, u.config, u.workers, k.cycle).worker.Ok?
  {
    var chosen := SelectSteps(s.world, u.config, u.workers, k.cycle);
    var offered := Offered(r.cs, m, k.trials, u.config.treasury.wallet);
    var before := |chosen.trace| + |OfferIn(u, k, m, r.cs).notes|;
    var known := PrunedKeys(s.known, FirstFreshBlock(m));
    if r.reply == Ok(true) then
      && 0 <= |r.trace| - 1 - before < |offered|
      && var o := offered[|r.trace| - 1 - before];
         && t.sent == s.sent + [KeyOf(o)] && t.known == known + {KeyOf(o)}
         && r.trace[|r.trace| - 1] == Submit(chosen.worker.value, RequestOf(o, k.trials))
    else t.sent == s.sent && t.known == known
  }

  lemma CycleCases(w: World, g: Config, workers: seq<nat>, c: Cycle, offer: Offer)
    requires |c.pending| == |workers| && |c.all| == |workers|
    ensures var p := CycleSteps(w, g, workers, c, offer);
      var s := SelectSteps(w, g, workers, c);
      if !c.submitEnabled || c.haltedBefore then p == Progress(w, [], if c.submitEnabled then Err else Ok(false))
      else if s.worker.Err? then p == Progress(s.world, s.trace, Err)
      else p == After(s.trace, OfferSteps(s.world, g, s.worker.value, offer))
  {
  }

  // ----- which candidate a cycle submits -----

  /** The cycle is to submit and has chosen a worker, at the block stored. */
  ghost predicate Chosen(u: Setup, s: Snapshot, k: Tick, block: U64)
    requires Asked(u, k)
  {
    && Stored(s.writes) == Some(block) && k.cycle.submitEnabled && !k.cycle.haltedBefore
    && SelectSteps(s.world, u.config, u.workers, k.cycle).worker.Ok?
  }

  ghost predicate NoneEnds(u: Setup, k: Tick, m: Moment, cs: seq<Candidate>) {
    forall d :: d in cs ==> !Ends(d, m, k.trials, u.config.treasury.wallet)
  }

  /** The profit a candidate's simulation shows, which decides the order they are tried in. */
  function Gain(c: Candidate, trials: Trials): int {
    if trials(c).simulated.Some? then trials(c).simulated.value else 0
  }

  /** The first of the offered candidates that goes out, if no earlier one errs, is what a cycle submits. */
  lemma CycleTries(u: Setup, s: Snapshot, k: Tick, t: Snapshot, r: Report, block: U64)
    requires Asked(u, k) && Cycled(u, s, k, t, r) && Chosen(u, s, k, block)
    ensures var m := Moment(k.now, block, u.maxLag);
            var requests := Requests(Offered(r.cs, m, k.trials, u.config.treasury.wallet), k.trials);
            var chosen := SelectSteps(s.world, u.config, u.workers, k.cycle);
            var last := |r.trace| - 1 - |chosen.trace| - |OfferIn(u, k, m, r.cs).notes|;
            && (r.reply == Ok(true) <==> NoneEnds(u, k, m, r.cs) && exists at :: GoesOutAt(requests, 0, at))
            && (r.reply == Ok(true) ==>
                  && 0 <= last && GoesOutAt(requests, 0, last)
                  && forall j | 0 <= j < last :: !GoesOut(requests[j]))
  {
    hide SelectSteps, BatchSteps, PreflightFrom, Offered, Requests, KeepsBestFresh, Drains, PrunedKeys, Ends;
    hide GoesOut, GoesOutAt, Notes, Run, RequestOf, Worth;
    var m := Moment(k.now, block, u.maxLag);
    var chosen, offer := SelectSteps(s.world, u.config, u.workers, k.cycle), OfferIn(u, k, m, r.cs);
    CycleCases(s.world, u.config, u.workers, k.cycle, offer);
    FewLeft(u, s, k, t, r, block);
    OfferFails(r.cs, m, k.trials, u.config.treasury.wallet);
    if offer.requests.Ok? {
      var noted := Run(chosen.world, u.config, Notes(offer.notes));
      BatchSubmitsIff(noted, u.config, chosen.worker.value, offer.requests.value, 0);
    }
  }

  /** A batch of at most 128 fails exactly when some candidate ends it. */
  lemma OfferFails(cs: seq<Candidate>, m: Moment, trials: Trials, fund: Option<nat>)
    requires |cs| <= 128
    ensures OfferOf(cs, m, trials, fund).requests.Err? <==> exists d :: d in cs && Ends(d, m, trials, fund)
  {
    hide PreflightFrom, Ends, NotesOf, Passes;
    PreflightMeaning(cs, m, trials, fund, 0, [], []);
  }

  /** Offered are the candidates worth it, and no more, the largest gain first. */
  lemma OfferedAre(cs: seq<Candidate>, m: Moment, trials: Trials, fund: Option<nat>)
    requires |cs| <= 128 && forall d :: d in cs ==> !Ends(d, m, trials, fund)
    ensures var offered := Offered(cs, m, trials, fund);
            && (forall c :: c in offered <==> c in cs && Worth(c, m, trials))
            && forall i, j :: 0 <= i < j < |offered| ==> Gain(offered[i], trials) >= Gain(offered[j], trials)
  {
    hide PreflightFrom, Ends, Successful;
    var offered := Offered(cs, m, trials, fund);
    OfferFails(cs, m, trials, fund);
    forall c ensures c in offered <==> c in cs && Worth(c, m, trials) {
      OfferedMeaning(cs, m, trials, fund, c);
      assert c in offered <==> multiset(offered)[c] > 0;
      assert c in cs <==> multiset(cs)[c] > 0;
    }
    var ready := PreflightFrom(cs, m, trials, fund, 0, [], []).ready.value;
    forall i, j | 0 <= i < j < |offered| ensures Gain(offered[i], trials) >= Gain(offered[j], trials) {
      MostProfitableFirst(ready, trials, i, j);
      assert offered[i] in offered && offered[j] in offered;
    }
  }

  /** A cycle that has chosen a worker submits as soon as one of its candidates is worth it and has all
      a submission needs, no candidate ends the preflight, and none that gains as much errs. */
  lemma CycleSubmits(u: Setup, s: Snapshot, k: Tick, t: Snapshot, r: Report, block: U64, c: Candidate)
    requires Asked(u, k) && Cycled(u, s, k, t, r) && Chosen(u, s, k, block)
    requires var m := Moment(k.now, block, u.maxLag);
             && NoneEnds(u, k, m, r.cs)
             && c in r.cs && Worth(c, m, k.trials) && GoesOut(RequestOf(c, k.trials))
             && forall d :: d in r.cs && Worth(d, m, k.trials) && Gain(d, k.trials) >= Gain(c, k.trials) ==>
                              !Errs(RequestOf(d, k.trials))
    ensures r.reply == Ok(true)
  {
    hide Cycled, Offered, Worth, GoesOut, Errs, RequestOf, Gain, KeepsBestFresh, Ends, OfferOf;
    var m := Moment(k.now, block, u.maxLag);
    var fund := u.config.treasury.wallet;
    FewLeft(u, s, k, t, r, block);
    OfferedAre(r.cs, m, k.trials, fund);
    CycleTries(u, s, k, t, r, block);
    var offered := Offered(r.cs, m, k.trials, fund);
    var requests := Requests(offered, k.trials);
    var at :| 0 <= at < |offered| && offered[at] == c;
    forall j | 0 <= j < at ensures !Errs(requests[j]) {
      assert offered[j] in offered;
    }
    assert GoesOutAt(requests, 0, at);
  }

  lemma FewLeft(u: Setup, s: Snapshot, k: Tick, t: Snapshot, r: Report, block: U64)
    requires Asked(u, k) && Cycled(u, s, k, t, r) && Chosen(u, s, k, block)
    ensures |r.cs| <= 128 && Remembers(u, s, k, Moment(k.now, block, u.maxLag), t, r)
    ensures KeepsBestFresh(r.cs, r.taken, Moment(k.now, block, u.maxLag), s.sent)
    ensures Drains(s.queue, t.queue, Moment(k.now, block, u.maxLag), k.arrivals, r.taken)
  {
    hide CycleSteps, SelectSteps, Drains, Remembers, OfferOf, Ranked;
  }

  /** What a cycle submits is one of its candidates, worth it and with all a submission needs; every
      one that gains more has not all it needs, and none of them errs. Its key is the one that joins
      those sent, and its request, under its own name, the last operation performed. */
  lemma SubmittedIsBest(u: Setup, s: Snapshot, k: Tick, t: Snapshot, r: Report, block: U64) returns (o: Candidate)
    requires Asked(u, k) && Cycled(u, s, k, t, r) && Chosen(u, s, k, block) && r.reply == Ok(true)
    ensures var m := Moment(k.now, block, u.maxLag);
            && NoneEnds(u, k, m, r.cs)
            && o in r.cs && Worth(o, m, k.trials) && GoesOut(k.trials(o).request)
            && (forall d :: d in r.cs && Worth(d, m, k.trials) && Gain(d, k.trials) > Gain(o, k.trials) ==>
                              !GoesOut(k.trials(d).request) && !Errs(k.trials(d).request))
            && t.sent == s.sent + [Key(o.block, o.path, o.tokenIn, o.amountIn)]
            && |r.trace| > 0 && r.trace[|r.trace| - 1].Submit?
            && r.trace[|r.trace| - 1].request == k.trials(o).request.(opportunity := o.id)
  {
    hide Cycled, Offered, Worth, Gain, KeepsBestFresh, Ends, OfferOf, SelectSteps, PrunedKeys, GoesOut, Errs;
    hide Drains, FirstFreshBlock;
    var m := Moment(k.now, block, u.maxLag);
    var fund := u.config.treasury.wallet;
    FewLeft(u, s, k, t, r, block);
    CycleTries(u, s, k, t, r, block);
    OfferedAre(r.cs, m, k.trials, fund);
    var offered := Offered(r.cs, m, k.trials, fund);
    var requests := Requests(offered, k.trials);
    var last := |r.trace| - 1 - |SelectSteps(s.world, u.config, u.workers, k.cycle).trace|
                - |OfferIn(u, k, m, r.cs).notes|;
    o := offered[last];
    assert o in offered;
    UnderOwnName(o, k.trials);
    forall d | d in r.cs && Worth(d, m, k.trials) && Gain(d, k.trials) > Gain(o, k.trials)
      ensures !GoesOut(k.trials(d).request) && !Errs(k.trials(d).request)
    {
      var j :| 0 <= j < |offered| && offered[j] == d;
      UnderOwnName(d, k.trials);
      assert j < last;
      assert requests[j] == RequestOf(d, k.trials);
    }
  }

  /** A short queue is drained whole. */
  lemma ShortQueueIsTaken(before: seq<Candidate>, after: seq<Candidate>, m: Moment, arrivals: seq<seq<Candidate>>,
                          taken: seq<Candidate>)
    requires |before| <= 128 && Drains(before, after, m, arrivals, taken)
    ensures forall c :: c in before && IsFresh(c, m) ==> c in taken
  {
    hide Pruned, Pushed, DrainLength, IsExpired, Kept;
    var rounds: nat :| rounds <= |arrivals| && DrainsIn(before, after, m, Pushed(arrivals, rounds), taken);
    var front, q := Pruned(before, FirstFreshBlock(m)), taken + after;
    DrainBounds(q, m, 0);
    PrunedLength(before, FirstFreshBlock(m));
    assert |front| <= |taken|;
    forall c | c in before && IsFresh(c, m) ensures c in taken {
      PrunedIs(before, [], FirstFreshBlock(m), c);
      PrunedIffStale(c, m);
      assert c in front;
      var i :| 0 <= i < |front| && front[i] == c;
      assert q[i] == c;
    }
  }

  /** The candidate meets nothing that could stop it or those behind it. */
  predicate Fine(c: Candidate, m: Moment, trials: Trials) {
    Worth(c, m, trials) && GoesOut(trials(c).request)
  }

  /** A fresh candidate in a queue of at most 128 whose key was never sent makes the cycle submit, if
      the fresh candidates taken with it meet nothing that stops them either. */
  lemma QueuedCandidateGoesOut(u: Setup, s: Snapshot, k: Tick, t: Snapshot, r: Report, block: U64, c: Candidate)
    requires Asked(u, k) && Cycled(u, s, k, t, r) && Chosen(u, s, k, block)
    requires var m := Moment(k.now, block, u.maxLag);
             && |s.queue| <= 128 && c in s.queue && m.now <= c.expiresAt && m.block <= c.block + m.maxLag
             && KeyOf(c) !in s.sent
             && forall d :: d in r.taken && IsFresh(d, m) ==> Fine(d, m, k.trials)
    ensures r.reply == Ok(true)
  {
    hide Cycled, Worth, GoesOut, Drains, RequestOf, Gain, Kept;
    var m := Moment(k.now, block, u.maxLag);
    FewLeft(u, s, k, t, r, block);
    ShortQueueIsTaken(s.queue, t.queue, m, k.arrivals, r.taken);
    FreshIff(c, m);
    assert Outdone(c, r.cs);
    var o :| o in r.cs && KeyOf(o) == KeyOf(c) && o.profit >= c.profit;
    forall d | d in r.cs ensures Fine(d, m, k.trials) && !Ends(d, m, k.trials, u.config.treasury.wallet)
                                 && !Errs(RequestOf(d, k.trials)) && GoesOut(RequestOf(d, k.trials)) {
      FineGoesOn(d, m, k.trials, u.config.treasury.wallet);
    }
    CycleSubmits(u, s, k, t, r, block, o);
  }

  lemma FineGoesOn(c: Candidate, m: Moment, trials: Trials, fund: Option<nat>)
    requires Fine(c, m, trials)
    ensures !Ends(c, m, trials, fund) && !Errs(RequestOf(c, trials)) && GoesOut(RequestOf(c, trials))
  {
  }

  /** Whether a request goes out or errs does not depend on the candidate's name. */
  lemma UnderOwnName(c: Candidate, trials: Trials)
    ensures GoesOut(RequestOf(c, trials)) <==> GoesOut(trials(c).request)
    ensures Errs(RequestOf(c, trials)) <==> Errs(trials(c).request)
  {
  }

  class Executor {
    const manager: Manager
    const queue: CandidateQueue
    const blocks: CurrentBlockStore
    const maxLag: U64
    var submittedKeys: set<Key>
    /** Every key submitted so far, in order. */
    ghost var sent: seq<Key>
    /** The first block not left behind. */
    ghost var left: U64

    /** No key was ever sent twice: every one that a candidate may still have is remembered, because
        the blocks left behind stay behind. */
    ghost predicate Valid()
      reads this, manager, blocks
    {
      && manager.Valid() && blocks.Valid()
      && KeysKept(sent, submittedKeys, left) && left <= FirstTaken(blocks.current, maxLag)
      && |sent| == manager.Sent()
    }

    ghost function Own(): Setup {
      Setup(manager.config, manager.workers, maxLag)
    }

    ghost function Now(): Snapshot
      reads this, manager, queue, blocks
    {
      Snapshot(manager.Stores(), queue.candidates, submittedKeys, sent, blocks.writes)
    }

    constructor (manager: Manager, queue: CandidateQueue, blocks: CurrentBlockStore, maxLag: U64)
      requires manager.Valid() && manager.log == [] && blocks.Valid()
      ensures Valid() && sent == []
      ensures this.manager == manager && this.queue == queue && this.blocks == blocks && this.maxLag == maxLag
    {
      this.manager, this.queue, this.blocks, this.maxLag := manager, queue, blocks, maxLag;
      submittedKeys, sent, left := {}, [], 0;
    }

    /** Drains the queue and keeps the best fresh candidate of every key. */
    method TakeCandidates(m: Moment, arrivals: seq<seq<Candidate>>)
      returns (cs: seq<Candidate>, ghost taken: seq<Candidate>)
      modifies queue
      ensures Drains(old(queue.candidates), queue.candidates, m, arrivals, taken)
      ensures KeepsBestFresh(cs, taken, m, [])
    {
      hide Kept, Pruned, Pushed, SortBy, DrainLength, DistinctKeys, StaleCount, BestAt, Drains, KeepsBestFresh;
      ghost var before := queue.candidates;
      var kept, popped, expired, stale, rounds := queue.PopFreshCandidates(m, arrivals);
      ghost var q := Pruned(before, FirstFreshBlock(m)) + Pushed(arrivals, rounds);
      taken := q[..popped];
      SortByElements(Kept(q[..popped], m), Loss);
      DrainedPart(before, queue.candidates, m, arrivals, rounds, popped);
      var coalesced;
      cs, coalesced := CoalesceCandidatesByExecutionKey(kept);
      CoalescedAreBest(cs, kept, taken, m);
    }

    /** Forgets the keys of blocks left behind, and drops the candidates whose key is still known:
        those that were sent before. */
    method DropSubmitted(m: Moment, candidates: seq<Candidate>, ghost taken: seq<Candidate>)
      returns (cs: seq<Candidate>)
      requires Valid() && KeepsBestFresh(candidates, taken, m, [])
      requires FirstFreshBlock(m) == FirstTaken(blocks.current, maxLag)
      modifies `submittedKeys, `left
      ensures Valid() && left == FirstFreshBlock(m)
      ensures submittedKeys == PrunedKeys(old(submittedKeys), left)
      ensures KeepsBestFresh(cs, taken, m, sent)
      ensures forall c :: c in candidates && c !in cs ==> KeyOf(c) in submittedKeys
    {
      hide KeysKept, IsFresh, KeepsBestFresh, PrunedKeys;
      PruningKeeps(sent, submittedKeys, left, FirstFreshBlock(m));
      left := FirstFreshBlock(m);
      submittedKeys := PrunedKeys(submittedKeys, FirstFreshBlock(m));
      var known := submittedKeys;
      LeavingOutSent(candidates, taken, m, sent, known);
      cs := Filter(candidates, (c: Candidate) => KeyOf(c) !in known);
    }

    /** The loop over the candidates before simulation: records the approvals that could not be sent. */
    method RunPreflight(cs: seq<Candidate>, m: Moment, trials: Trials) returns (p: Preflight)
      requires manager.Valid()
      modifies manager`ledger, manager`log
      ensures manager.Valid() && manager.Sent() == old(manager.Sent())
      ensures p == PreflightFrom(cs, m, trials, manager.config.treasury.wallet, 0, [], [])
      ensures manager.log == old(manager.log) + Notes(p.notes)
      ensures manager.Stores() == Run(old(manager.Stores()), manager.config, Notes(p.notes))
    {
      hide Run, Act, Guarded, Submissions, LiveApprovalPreflight;
      ghost var w, start := manager.Stores(), manager.log;
      var fund := manager.config.treasury.wallet;
      var notes: seq<Note>, ready: seq<Candidate> := [], [];
      NoNotes(w, manager.config);
      for i := 0 to |cs|
        invariant manager.Valid() && manager.Sent() == old(manager.Sent())
        invariant manager.log == start + Notes(notes) && manager.Stores() == Run(w, manager.config, Notes(notes))
        invariant PreflightFrom(cs, m, trials, fund, 0, [], []) == PreflightFrom(cs, m, trials, fund, i, notes, ready)
      {
        if |ready| >= MAX_KEPT {
          return Preflight(notes, Ok(ready));
        }
        if SaturatingSub(m.block, cs[i].block) > m.maxLag {
          assert notes + [] == notes;
          continue;
        }
        var k := trials(cs[i]).checks;
        var answer := LiveApprovalPreflight(k, fund);
        PreflightAnswers(k, fund);
        if answer.Err? {
          return Preflight(notes, Err);
        }
        if answer.value.Some? {
          assert !answer.value.value.Submitted?;
          if answer.value.value.Simulated? && !k.sent {
            var note := Note(fund.value, cs[i].id, k.nonce.value);
            manager.RecordFailedApproval(note);
            NotesGrow(w, manager.config, notes, note);
            assert start + Notes(notes) + Notes([note]) == start + Notes(notes + [note]);
            notes := notes + [note];
          } else {
            assert notes + [] == notes;
          }
          continue;
        }
        assert notes + [] == notes;
        ready := ready + [cs[i]];
      }
      return Preflight(notes, Ok(ready));
    }

    /** Tries the offered candidates in turn and remembers the key of the one submitted. */
    method SubmitBest(a: nat, k: Tick, m: Moment, cs: seq<Candidate>, ghost taken: seq<Candidate>)
      returns (reply: Result<bool>, ghost trace: seq<Event>)
      requires Valid() && KeepsBestFresh(cs, taken, m, sent) && left == FirstFreshBlock(m)
      requires ReadyIn(manager.Stores(), manager.config, a)
      modifies manager, `submittedKeys, `sent
      ensures Valid() && manager.Sent() == old(manager.Sent()) + if reply == Ok(true) then 1 else 0
      ensures Progress(manager.Stores(), trace, reply)
           == OfferSteps(old(manager.Stores()), manager.config, a, OfferIn(Own(), k, m, cs))
      ensures manager.log == old(manager.log) + trace
      ensures Adds(old(Now()), a, k, m, cs, trace, reply)
    {
      hide BatchSteps, PreflightFrom, KeysKept, KeepsBestFresh, FirstFreshBlock, Successful, Notes, RequestOf;
      hide Run, Submissions, Guarded, FirstTaken, OfferOf, Offered, Requests;
      ghost var w, start, fund := manager.Stores(), manager.log, manager.config.treasury.wallet;
      var preflight := RunPreflight(cs, m, k.trials);
      NotesAreRun(w, manager.config, preflight.notes, Err);
      OfferIs(cs, m, k.trials, fund);
      trace := Notes(preflight.notes);
      if preflight.ready.Err? {
        return Err, trace;
      }
      var offered := Successful(preflight.ready.value, k.trials);
      var at;
      reply, at := manager.RunLiveSubmissionBatch(a, Requests(offered, k.trials));
      trace := manager.log[|start|..];
      if reply == Ok(true) {
        var key := KeyOf(offered[at]);
        NotSentYet(offered[at], cs, taken, m, sent);
        OneMoreKey(sent, submittedKeys, left, key);
        submittedKeys := submittedKeys + {key};
        sent := sent + [key];
      }
    }

    /** The one candidate submitted, if any, is the one whose operation came last; its key joins. */
    ghost predicate Adds(s: Snapshot, a: nat, k: Tick, m: Moment, cs: seq<Candidate>, trace: seq<Event>,
                         reply: Result<bool>)
      reads this, manager
    {
      var offered := Offered(cs, m, k.trials, manager.config.treasury.wallet);
      var before := |OfferIn(Own(), k, m, cs).notes|;
      if reply == Ok(true) then
        && 0 <= |trace| - 1 - before < |offered|
        && var o := offered[|trace| - 1 - before];
           && sent == s.sent + [KeyOf(o)] && submittedKeys == s.known + {KeyOf(o)}
           && trace[|trace| - 1] == Submit(a, RequestOf(o, k.trials))
      else sent == s.sent && submittedKeys == s.known
    }

    /** The part of a cycle after worker `a` is chosen. */
    method RunBatch(a: nat, k: Tick, m: Moment) returns (reply: Result<bool>, ghost r: Report)
      requires Valid() && FirstFreshBlock(m) == FirstTaken(blocks.current, maxLag)
      requires ReadyIn(manager.Stores(), manager.config, a)
      modifies this, manager, queue
      ensures Valid() && manager.Sent() == old(manager.Sent()) + if reply == Ok(true) then 1 else 0
      ensures Drains(old(queue.candidates), queue.candidates, m, k.arrivals, r.taken)
      ensures KeepsBestFresh(r.cs, r.taken, m, old(sent))
      ensures Progress(manager.Stores(), r.trace, reply)
           == OfferSteps(old(manager.Stores()), manager.config, a, OfferIn(Own(), k, m, r.cs))
      ensures manager.log == old(manager.log) + r.trace && r.reply == reply
      ensures var known := PrunedKeys(old(submittedKeys), FirstFreshBlock(m));
              Adds(old(Now()).(known := known), a, k, m, r.cs, r.trace, reply)
    {
      hide OfferSteps, OfferOf, KeysKept, Offered, RequestOf, ReadyIn, Drains, KeepsBestFresh, PrunedKeys;
      hide FirstFreshBlock, FirstTaken;
      var drained, taken := TakeCandidates(m, k.arrivals);
      var candidates := DropSubmitted(m, drained, taken);
      ghost var trace;
      reply, trace := SubmitBest(a, k, m, candidates, taken);
      r := Report(reply, trace, taken, candidates);
    }

    /** One cycle, at the block the store holds. */
    method RunExecutionCycle(k: Tick) returns (reply: Result<bool>, ghost r: Report)
      requires Valid() && Asked(Own(), k)
      modifies this, manager, queue
      ensures Valid() && manager.Sent() == old(manager.Sent()) + if reply == Ok(true) then 1 else 0
      ensures Cycled(Own(), old(Now()), k, Now(), r) && r.reply == reply
      ensures manager.log == old(manager.log) + r.trace
      ensures old(sent) <= sent
    {
      hide CycleSteps, SelectSteps, OfferSteps, OfferOf, KeysKept, Offered, Requests, ReadyIn;
      hide Drains, KeepsBestFresh, PrunedKeys, FirstFreshBlock, FirstTaken, RequestOf, Notes;
      ghost var u, s := Own(), Now();
      r := Report(Ok(false), [], [], []);
      var block := blocks.GetCurrentBlock();
      if block.None? {
        return Ok(false), r;
      }
      var m := Moment(k.now, block.value, maxLag);
      FirstBlocks(m, blocks.current);
      if !k.cycle.submitEnabled {
        var simulatedOnly, popped := TakeCandidates(m, k.arrivals);
        r := r.(taken := popped, cs := simulatedOnly);
        CycleCases(s.world, u.config, u.workers, k.cycle, OfferIn(u, k, m, r.cs));
        return Ok(false), r;
      }
      if k.cycle.haltedBefore {
        CycleCases(s.world, u.config, u.workers, k.cycle, OfferIn(u, k, m, r.cs));
        return Err, r.(reply := Err);
      }
      var worker := manager.SelectWorker(k.cycle);
      ghost var chosen := SelectSteps(s.world, u.config, u.workers, k.cycle);
      if worker.Err? {
        CycleCases(s.world, u.config, u.workers, k.cycle, OfferIn(u, k, m, r.cs));
        return Err, Report(Err, chosen.trace, [], []);
      }
      reply, r := RunBatch(worker.value, k, m);
      r := r.(trace := chosen.trace + r.trace);
      CycleCases(s.world, u.config, u.workers, k.cycle, OfferIn(u, k, m, r.cs));
    }

    /** The main loop: one cycle for every tick until one errs, each from where the one before and what
        arrived in between left things. However blocks are written and whatever the cycles are
        answered, no key is ever submitted twice. */
    method RunCycles(ticks: seq<Tick>)
      returns (reply: Result<()>, ghost states: seq<Snapshot>, ghost reports: seq<Report>)
      requires Valid() && forall t :: t in ticks ==> Asked(Own(), t)
      modifies this, manager, queue, blocks
      ensures Valid() && |sent| == manager.Sent() && old(sent) <= sent
      ensures forall i, j :: 0 <= i < j < |sent| ==> sent[i] != sent[j]
      ensures |reports| <= |ticks| && |states| == |reports| + 1
      ensures states[0] == old(Now()) && states[|reports|] == Now()
      ensures forall i | 0 <= i < |reports| ::
                Cycled(Own(), Arrived(states[i], ticks[i]), ticks[i], states[i + 1], reports[i])
      ensures forall i | 0 <= i < |reports| - 1 :: reports[i].reply.Ok?
      ensures if reply.Ok? then |reports| == |ticks| && (reports != [] ==> reports[|reports| - 1].reply.Ok?)
              else reports != [] && reports[|reports| - 1].reply.Err?
    {
      hide Cycled;
      states, reports := [Now()], [];
      for i := 0 to |ticks|
        invariant Valid() && old(sent) <= sent
        invariant |reports| == i && |states| == i + 1 && states[0] == old(Now()) && states[i] == Now()
        invariant forall j | 0 <= j < i ::
                    Cycled(Own(), Arrived(states[j], ticks[j]), ticks[j], states[j + 1], reports[j])
        invariant forall j | 0 <= j < i :: reports[j].reply.Ok?
      {
        WriteBlocks(ticks[i].writes);
        queue.PushCandidates(ticks[i].pushed);
        assert Now() == Arrived(states[i], ticks[i]);
        var submitted, report := RunExecutionCycle(ticks[i]);
        states, reports := states + [Now()], reports + [report];
        if submitted.Err? {
          return Err, states, reports;
        }
      }
      return Ok(()), states, reports;
    }

    /** What the market data does between two cycles. */
    method WriteBlocks(writes: seq<U64>)
      requires Valid()
      modifies blocks
      ensures Valid() && blocks.writes == old(blocks.writes) + writes
    {
      hide KeysKept;
      assert blocks.writes + writes[..0] == blocks.writes;
      for i := 0 to |writes|
        invariant Valid() && blocks.writes == old(blocks.writes) + writes[..i]
      {
        FirstTakenNeverFalls(blocks.writes, writes[i], maxLag);
        blocks.SetCurrentBlock(writes[i]);
        assert old(blocks.writes) + writes[..i + 1] == old(blocks.writes) + writes[..i] + [writes[i]];
      }
      assert writes[..|writes|] == writes;
    }
  }

  /** Whatever is written, the first block a cycle takes candidates from does not fall. */
  lemma FirstTakenNeverFalls(writes: seq<U64>, b: U64, maxLag: U64)
    ensures FirstTaken(Stored(writes), maxLag) <= FirstTaken(Stored(writes + [b]), maxLag)
  {
    if writes != [] {
      StoredNeverFalls(writes, [b]);
    }
  }

  lemma FirstBlocks(m: Moment, current: Option<U64>)
    requires current == Some(m.block)
    ensures FirstFreshBlock(m) == FirstTaken(current, m.maxLag)
  {
  }

  lemma NoNotes(w: World, g: Config)
    ensures Notes([]) == [] && Run(w, g, Notes([])) == w
  {
  }

  lemma NotesGrow(w: World, g: Config, notes: seq<Note>, note: Note)
    ensures Notes(notes + [note]) == Notes(notes) + Notes([note])
    ensures Run(w, g, Notes(notes + [note])) == Act(Run(w, g, Notes(notes)), g, Notes([note])[0])
  {
    hide Act;
    assert Notes([note]) == [Notes([note])[0]];
    OneMore(w, g, Notes(notes), Notes([note])[0]);
  }

  lemma FreshKey(c: Candidate, m: Moment)
    requires IsFresh(c, m)
    ensures KeyOf(c).block >= FirstFreshBlock(m)
  {
    PrunedIffStale(c, m);
  }
}

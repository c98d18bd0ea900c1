/** The candidate queue (crates/storage/src/lib.rs) and what an execution cycle takes from it
    (crates/execution-manager/src/main.rs). */
module Candidates {
  import opened U256Math
  import opened Sorting

  const MAX_DRAIN: nat := 2_048
  const MAX_KEPT: nat := 128
  const CHUNK: nat := 128

  datatype Candidate = Candidate(id: nat, expiresAt: int, block: U64, path: string, tokenIn: nat,
                                 amountIn: U256, profit: U256)

  /** What two candidates must share to be the same execution. */
  datatype Key = Key(block: U64, path: string, tokenIn: nat, amountIn: U256)

  function KeyOf(c: Candidate): Key {
    Key(c.block, c.path, c.tokenIn, c.amountIn)
  }

  /** Two candidates have one key exactly when block, path, input token and input amount agree. */
  lemma SameKeyIff(c: Candidate, d: Candidate)
    ensures KeyOf(c) == KeyOf(d) <==>
            c.block == d.block && c.path == d.path && c.tokenIn == d.tokenIn && c.amountIn == d.amountIn
  {
  }

  function Loss(c: Candidate): int {
    var profit: int := c.profit;
    -profit
  }

  // ----- draining -----

  /** When a cycle looks at the queue, and how old a candidate it takes. */
  datatype Moment = Moment(now: int, block: U64, maxLag: U64)

  predicate IsExpired(c: Candidate, m: Moment) {
    m.now > c.expiresAt
  }

  predicate IsStale(c: Candidate, m: Moment) {
    SaturatingSub(m.block, c.block) > m.maxLag
  }

  predicate IsFresh(c: Candidate, m: Moment) {
    !IsExpired(c, m) && !IsStale(c, m)
  }

  /** Fresh is one that has not expired and is at most `maxLag` blocks behind. */
  lemma FreshIff(c: Candidate, m: Moment)
    ensures IsFresh(c, m) <==> m.now <= c.expiresAt && m.block <= c.block + m.maxLag
  {
  }

  function FirstFreshBlock(m: Moment): U64 {
    SaturatingSub(m.block, m.maxLag)
  }

  /** Pruning the queue by block removes exactly the candidates the drain would reject as stale. */
  lemma PrunedIffStale(c: Candidate, m: Moment)
    ensures c.block >= FirstFreshBlock(m) <==> !IsStale(c, m)
  {
  }

  function Pruned(q: seq<Candidate>, block: U64): seq<Candidate> {
    Filter(q, (c: Candidate) => c.block >= block)
  }

  /** Pruning keeps every candidate of the block or a later one as often as it was there, and none
      of an earlier one; what it makes of a longer queue is what it makes of the parts. */
  lemma PrunedIs(q: seq<Candidate>, more: seq<Candidate>, block: U64, c: Candidate)
    ensures multiset(Pruned(q, block))[c] == if block <= c.block then multiset(q)[c] else 0
    ensures Pruned(q + more, block) == Pruned(q, block) + Pruned(more, block)
  {
    var keep := (c: Candidate) => c.block >= block;
    FilterCount(q, keep, c);
    FilterJoins(q, more, keep);
  }

  function Kept(popped: seq<Candidate>, m: Moment): (r: seq<Candidate>)
    ensures |r| <= |popped|
    decreases |popped|
  {
    if |popped| == 0 then []
    else
      var before := Kept(popped[..|popped| - 1], m);
      if IsFresh(popped[|popped| - 1], m) then before + [popped[|popped| - 1]] else before
  }

  /** How many candidates a drain that pops one at a time takes: it stops at the end of the queue,
      after 2048, or when 128 are kept. */
  function DrainLength(q: seq<Candidate>, m: Moment, popped: nat): (n: nat)
    requires popped <= |q|
    ensures popped <= n <= |q|
    decreases |q| - popped
  {
    if popped == |q| || popped >= MAX_DRAIN || |Kept(q[..popped], m)| >= MAX_KEPT then popped
    else DrainLength(q, m, popped + 1)
  }

  /** The drain ends at the end of the queue, after 2048 candidates or with the 128th it keeps, and
      not before one of the three. */
  lemma {:induction false} DrainBounds(q: seq<Candidate>, m: Moment, popped: nat)
    requires popped <= |q| && popped <= 2_048 && |Kept(q[..popped], m)| <= 128
    ensures var n := DrainLength(q, m, popped);
            && n <= 2_048 && |Kept(q[..n], m)| <= 128
            && (n == |q| || n == 2_048 || |Kept(q[..n], m)| == 128)
            && forall p | popped <= p < n :: |Kept(q[..p], m)| < 128
    decreases |q| - popped
  {
    if popped < |q| && popped < MAX_DRAIN && |Kept(q[..popped], m)| < MAX_KEPT {
      assert q[..popped + 1][..popped] == q[..popped];
      DrainBounds(q, m, popped + 1);
    }
  }

  lemma {:induction false} KeptBounds(q: seq<Candidate>, m: Moment, low: nat, high: nat)
    requires low <= high <= |q|
    ensures |Kept(q[..low], m)| <= |Kept(q[..high], m)| <= |Kept(q[..low], m)| + (high - low)
    decreases high
  {
    if low < high {
      assert q[..high][..high - 1] == q[..high - 1];
      KeptBounds(q, m, low, high - 1);
    }
  }

  /** A chunk no longer than what may still be popped and kept takes the drain no further than
      one candidate at a time would. */
  lemma {:induction false} ChunkIsSteps(q: seq<Candidate>, m: Moment, popped: nat, chunk: nat)
    requires popped + chunk <= |q| && popped + chunk <= MAX_DRAIN
    requires |Kept(q[..popped], m)| + chunk <= MAX_KEPT
    ensures DrainLength(q, m, popped) == DrainLength(q, m, popped + chunk)
    decreases chunk
  {
    if chunk > 0 {
      KeptBounds(q, m, popped, popped + 1);
      ChunkIsSteps(q, m, popped + 1, chunk - 1);
    }
  }

  /** The one-at-a-time drain has not stopped before it reaches position `p`. */
  ghost predicate GoesOn(q: seq<Candidate>, m: Moment, p: nat)
    requires p <= |q|
  {
    p < MAX_DRAIN && |Kept(q[..p], m)| < MAX_KEPT
  }

  lemma {:induction false} DrainReaches(q: seq<Candidate>, m: Moment, start: nat, popped: nat)
    requires start <= popped <= |q| && forall p :: start <= p < popped ==> GoesOn(q, m, p)
    ensures DrainLength(q, m, start) == DrainLength(q, m, popped)
    decreases popped - start
  {
    if start < popped {
      assert GoesOn(q, m, start);
      DrainReaches(q, m, start + 1, popped);
    }
  }

  /** How many of the popped candidates are rejected for their block alone. */
  function StaleCount(popped: seq<Candidate>, m: Moment): (n: nat)
    ensures n <= |popped|
    decreases |popped|
  {
    if |popped| == 0 then 0
    else
      var c := popped[|popped| - 1];
      StaleCount(popped[..|popped| - 1], m) + if !IsExpired(c, m) && IsStale(c, m) then 1 else 0
  }

  /** The check for staleness rejects only what was pushed after the pruning. */
  lemma {:induction false} OnlyLateArrivalsStale(q: seq<Candidate>, late: seq<Candidate>, m: Moment, n: nat)
    requires n <= |Pruned(q, FirstFreshBlock(m)) + late|
    ensures var all := Pruned(q, FirstFreshBlock(m)) + late;
      StaleCount(all[..n], m) <= if n <= |all| - |late| then 0 else n - (|all| - |late|)
    decreases n
  {
    hide Pruned;
    var all := Pruned(q, FirstFreshBlock(m)) + late;
    if n > 0 {
      assert all[..n][..n - 1] == all[..n - 1];
      OnlyLateArrivalsStale(q, late, m, n - 1);
      if n <= |all| - |late| {
        assert all[n - 1] in Pruned(q, FirstFreshBlock(m));
        NothingStale(q, m);
      }
    }
  }

  lemma NothingStale(q: seq<Candidate>, m: Moment)
    ensures forall c :: c in Pruned(q, FirstFreshBlock(m)) ==> !IsStale(c, m)
  {
    forall c | c in Pruned(q, FirstFreshBlock(m)) ensures !IsStale(c, m) {
      PrunedIffStale(c, m);
    }
  }

  /** What producers push: one list before each pop of the drain, and nothing after the last. */
  function Pushed(arrivals: seq<seq<Candidate>>, n: nat): seq<Candidate>
    requires n <= |arrivals|
  {
    if n == 0 then [] else Pushed(arrivals, n - 1) + arrivals[n - 1]
  }

  /** The kept candidates are those of the popped prefix that are fresh, each as often. */
  lemma {:induction false} KeptPartition(popped: seq<Candidate>, m: Moment, c: Candidate)
    ensures multiset(Kept(popped, m))[c] == if IsFresh(c, m) then multiset(popped)[c] else 0
    decreases |popped|
  {
    if |popped| > 0 {
      KeptPartition(popped[..|popped| - 1], m, c);
      assert popped == popped[..|popped| - 1] + [popped[|popped| - 1]];
    }
  }

  lemma {:induction false} KeptJoins(popped: seq<Candidate>, more: seq<Candidate>, m: Moment)
    ensures Kept(popped + more, m) == Kept(popped, m) + Kept(more, m)
    decreases |more|
  {
    hide IsFresh;
    if |more| == 0 {
      assert popped + more == popped;
    } else {
      var n := |popped + more| - 1;
      assert (popped + more)[..n] == popped + more[..|more| - 1];
      KeptJoins(popped, more[..|more| - 1], m);
    }
  }

  /** `taken` is what a drain takes off the front of the queue: of what pruning leaves of it and of
      what is pushed before the drain ends, as much as a one-at-a-time drain takes. */
  ghost predicate Drains(before: seq<Candidate>, after: seq<Candidate>, m: Moment, arrivals: seq<seq<Candidate>>,
                         taken: seq<Candidate>) {
    exists rounds | 0 <= rounds <= |arrivals| :: DrainsIn(before, after, m, Pushed(arrivals, rounds), taken)
                                                 && (rounds == |arrivals| || |taken| <= rounds * 128)
  }

  ghost predicate DrainsIn(before: seq<Candidate>, after: seq<Candidate>, m: Moment, pushed: seq<Candidate>,
                           taken: seq<Candidate>) {
    taken + after == Pruned(before, FirstFreshBlock(m)) + pushed && |taken| == DrainLength(taken + after, m, 0)
  }

  /** Of all fresh candidates taken whose key is not among `known`, `cs` holds for every key a most
      profitable one, and nothing else; the most profitable come first. */
  ghost predicate KeepsBestFresh(cs: seq<Candidate>, taken: seq<Candidate>, m: Moment, known: seq<Key>) {
    && |cs| <= 128
    && (forall o :: o in cs ==> o in taken && IsFresh(o, m) && KeyOf(o) !in known)
    && (forall c :: c in taken && IsFresh(c, m) && KeyOf(c) !in known ==> Outdone(c, cs))
    && Ranked(cs)
  }

  /** No key twice, and the most profitable first. */
  ghost predicate Ranked(cs: seq<Candidate>) {
    forall i, j :: 0 <= i < j < |cs| ==> KeyOf(cs[i]) != KeyOf(cs[j]) && cs[i].profit >= cs[j].profit
  }

  /** One of `cs` has the candidate's key and at least its profit. */
  ghost predicate Outdone(c: Candidate, cs: seq<Candidate>) {
    exists o :: o in cs && KeyOf(o) == KeyOf(c) && o.profit >= c.profit
  }

  class CandidateQueue {
    var candidates: seq<Candidate>

    constructor ()
      ensures candidates == []
    {
      candidates := [];
    }

    method PruneCandidatesBeforeBlock(block: U64) returns (removed: nat)
      modifies this
      ensures candidates == Pruned(old(candidates), block)
      ensures removed == |old(candidates)| - |candidates|
    {
      if block == 0 {
        EverythingKept(candidates);
        return 0;
      }
      var before := |candidates|;
      PrunedLength(candidates, block);
      candidates := Pruned(candidates, block);
      return before - |candidates|;
    }

    method PopCandidates(limit: nat) returns (out: seq<Candidate>)
      modifies this
      ensures |out| == if |old(candidates)| < limit then |old(candidates)| else limit
      ensures out + candidates == old(candidates)
    {
      out := [];
      while |out| < limit && |candidates| > 0
        invariant out + candidates == old(candidates) && |out| <= limit
      {
        out := out + [candidates[0]];
        candidates := candidates[1..];
      }
    }

    method PushCandidates(cs: seq<Candidate>)
      modifies this
      ensures candidates == old(candidates) + cs
    {
      candidates := candidates + cs;
    }

    /** The chunked drain takes what a one-at-a-time drain takes of the pruned queue and whatever
        producers push while it runs, and keeps the fresh ones by falling profit. */
    method PopFreshCandidates(m: Moment, arrivals: seq<seq<Candidate>>)
      returns (kept: seq<Candidate>, popped: nat, expired: nat, stale: nat, ghost rounds: nat)
      modifies this
      ensures rounds <= |arrivals| && (rounds == |arrivals| || popped <= rounds * 128)
      ensures var q := Pruned(old(candidates), FirstFreshBlock(m)) + Pushed(arrivals, rounds);
              && popped == DrainLength(q, m, 0) && candidates == q[popped..]
              && kept == SortBy(Kept(q[..popped], m), Loss)
              && popped == |kept| + expired + stale
              && stale == StaleCount(q[..popped], m)
    {
      hide Drained, Pruned, Pushed, SortBy, DrainLength, Kept, StaleCount;
      var pruned := PruneCandidatesBeforeBlock(FirstFreshBlock(m));
      ghost var start := candidates;
      kept, popped, expired, stale, rounds := Drain(m, arrivals);
      ghost var q := start + Pushed(arrivals, rounds);
      DrainEnds(q, m, kept, popped, expired, stale);
      Sorted(q, m, popped);
      kept := SortBy(kept, Loss);
    }

    /** The loop of the drain, until a limit is reached or a pop finds nothing. */
    method Drain(m: Moment, arrivals: seq<seq<Candidate>>)
      returns (kept: seq<Candidate>, popped: nat, expired: nat, stale: nat, ghost rounds: nat)
      modifies this
      ensures rounds <= |arrivals| && (rounds == |arrivals| || popped <= rounds * 128)
      ensures var q := old(candidates) + Pushed(arrivals, rounds);
              && Drained(q, m, kept, popped, expired, stale)
              && popped <= |q| && candidates == q[popped..]
              && (popped == |q| || popped >= MAX_DRAIN || |kept| >= MAX_KEPT)
    {
      hide Drained, Pushed;
      ghost var q := candidates;
      kept, popped, expired, stale, rounds := [], 0, 0, 0, 0;
      NothingDrained(q, m);
      NothingPushed(arrivals);
      var round := 0;
      while |kept| < MAX_KEPT && popped < MAX_DRAIN
        invariant popped <= |q| && candidates == q[popped..] && popped <= MAX_DRAIN && |kept| <= MAX_KEPT
        invariant popped <= round * CHUNK
        invariant rounds == Min(round, |arrivals|) && q == old(candidates) + Pushed(arrivals, rounds)
        invariant Drained(q, m, kept, popped, expired, stale)
        decreases MAX_DRAIN - popped
      {
        if round < |arrivals| {
          PushCandidates(arrivals[round]);
          StreamGrows(q, arrivals[round], m, kept, popped, expired, stale);
          PushedNext(arrivals, rounds);
          Reassociate(old(candidates), Pushed(arrivals, rounds), arrivals[round]);
          q := q + arrivals[round];
          rounds := rounds + 1;
        }
        round := round + 1;
        var chunk := PopCandidates(Min(CHUNK, Min(MAX_DRAIN - popped, MAX_KEPT - |kept|)));
        if |chunk| == 0 {
          break;
        }
        ChunkOf(q, popped, chunk, candidates);
        kept, popped, expired, stale := Sift(m, chunk, kept, popped, expired, stale, q);
      }
    }
  }

  lemma Reassociate(a: seq<Candidate>, b: seq<Candidate>, c: seq<Candidate>)
    ensures a + b + c == a + (b + c)
  {
  }

  lemma ChunkOf(q: seq<Candidate>, popped: nat, chunk: seq<Candidate>, rest: seq<Candidate>)
    requires popped <= |q| && chunk + rest == q[popped..]
    ensures popped + |chunk| <= |q| && chunk == q[popped..popped + |chunk|] && rest == q[popped + |chunk|..]
  {
    assert chunk == (chunk + rest)[..|chunk|] && rest == (chunk + rest)[|chunk|..];
  }

  /** The drain so far: the counts and the kept list are those of the popped prefix, and a
      one-at-a-time drain would not have stopped before. */
  ghost predicate Drained(q: seq<Candidate>, m: Moment, kept: seq<Candidate>, popped: nat, expired: nat, stale: nat) {
    && popped <= |q| && kept == Kept(q[..popped], m) && stale == StaleCount(q[..popped], m)
    && popped == |kept| + expired + stale
    && forall p :: 0 <= p < popped ==> GoesOn(q, m, p)
  }

  lemma NothingDrained(q: seq<Candidate>, m: Moment)
    ensures Drained(q, m, [], 0, 0, 0)
  {
  }

  lemma DrainEnds(q: seq<Candidate>, m: Moment, kept: seq<Candidate>, popped: nat, expired: nat, stale: nat)
    requires Drained(q, m, kept, popped, expired, stale)
    requires popped == |q| || popped >= MAX_DRAIN || |kept| >= MAX_KEPT
    ensures popped == DrainLength(q, m, 0) && kept == Kept(q[..popped], m) && stale == StaleCount(q[..popped], m)
    ensures popped == |kept| + expired + stale
  {
    DrainReaches(q, m, 0, popped);
  }

  lemma Sorted(q: seq<Candidate>, m: Moment, popped: nat)
    requires popped <= |q|
    ensures |SortBy(Kept(q[..popped], m), Loss)| == |Kept(q[..popped], m)|
  {
    SortByElements(Kept(q[..popped], m), Loss);
  }

  lemma NothingPushed(arrivals: seq<seq<Candidate>>)
    ensures Pushed(arrivals, 0) == []
  {
  }

  lemma PushedNext(arrivals: seq<seq<Candidate>>, n: nat)
    requires n < |arrivals|
    ensures Pushed(arrivals, n + 1) == Pushed(arrivals, n) + arrivals[n]
  {
  }

  /** What was drained so far is the same part of a longer queue. */
  lemma StreamGrows(q: seq<Candidate>, more: seq<Candidate>, m: Moment, kept: seq<Candidate>, popped: nat,
                    expired: nat, stale: nat)
    requires Drained(q, m, kept, popped, expired, stale)
    ensures Drained(q + more, m, kept, popped, expired, stale)
    ensures popped <= |q| && (q + more)[popped..] == q[popped..] + more
  {
    hide Kept, StaleCount;
    assert (q + more)[..popped] == q[..popped];
    forall p | 0 <= p < popped ensures GoesOn(q + more, m, p) {
      assert GoesOn(q, m, p);
      assert (q + more)[..p] == q[..p];
    }
  }

  function Min(a: nat, b: nat): nat {
    if a < b then a else b
  }

  /** The inner loop of the drain: sorts one chunk into kept, expired and stale. */
  method Sift(m: Moment, chunk: seq<Candidate>, kept0: seq<Candidate>, popped0: nat, expired0: nat, stale0: nat,
              ghost q: seq<Candidate>)
    returns (kept: seq<Candidate>, popped: nat, expired: nat, stale: nat)
    requires popped0 + |chunk| <= |q| && chunk == q[popped0..popped0 + |chunk|]
    requires popped0 + |chunk| <= MAX_DRAIN && |kept0| + |chunk| <= MAX_KEPT
    requires Drained(q, m, kept0, popped0, expired0, stale0)
    ensures popped == popped0 + |chunk| && |kept| <= |kept0| + |chunk|
    ensures Drained(q, m, kept, popped, expired, stale)
  {
    hide Drained, IsExpired;
    kept, popped, expired, stale := kept0, popped0, expired0, stale0;
    for i := 0 to |chunk|
      invariant popped == popped0 + i && |kept| <= |kept0| + i
      invariant Drained(q, m, kept, popped, expired, stale)
    {
      var candidate := chunk[i];
      OneMoreDrained(q, m, kept, popped, expired, stale);
      popped := popped + 1;
      if IsExpired(candidate, m) {
        expired := expired + 1;
        continue;
      }
      if SaturatingSub(m.block, candidate.block) > m.maxLag {
        stale := stale + 1;
        continue;
      }
      kept := kept + [candidate];
    }
  }

  lemma OneMoreDrained(q: seq<Candidate>, m: Moment, kept: seq<Candidate>, popped: nat, expired: nat, stale: nat)
    requires Drained(q, m, kept, popped, expired, stale)
    requires popped < |q| && popped < MAX_DRAIN && |kept| < MAX_KEPT
    ensures var c := q[popped];
      if IsExpired(c, m) then Drained(q, m, kept, popped + 1, expired + 1, stale)
      else if IsStale(c, m) then Drained(q, m, kept, popped + 1, expired, stale + 1)
      else Drained(q, m, kept + [c], popped + 1, expired, stale)
  {
    assert q[..popped + 1][..popped] == q[..popped] && q[..popped + 1][popped] == q[popped];
    assert GoesOn(q, m, popped);
  }

  lemma {:induction false} EverythingKept(q: seq<Candidate>)
    ensures Pruned(q, 0) == q
    decreases |q|
  {
    if q != [] {
      EverythingKept(q[1..]);
      assert q == [q[0]] + q[1..];
    }
  }

  lemma {:induction false} PrunedLength(q: seq<Candidate>, block: U64)
    ensures |Pruned(q, block)| <= |q|
    decreases |q|
  {
    if q != [] {
      PrunedLength(q[1..], block);
    }
  }

  // ----- coalescing -----

  /** Where the candidate kept for a key stands: the first of those with the largest profit; -1
      when there is none. */
  function BestAt(s: seq<Candidate>, k: Key): (i: int)
    ensures -1 <= i < |s|
    decreases |s|
  {
    if |s| == 0 then -1
    else
      var n := |s| - 1;
      var i := BestAt(s[..n], k);
      if KeyOf(s[n]) == k && (i < 0 || s[n].profit > s[i].profit) then n else i
  }

  predicate Has(s: seq<Candidate>, k: Key) {
    BestAt(s, k) >= 0
  }

  function Best(s: seq<Candidate>, k: Key): Candidate
    requires Has(s, k)
  {
    s[BestAt(s, k)]
  }

  /** No candidate of its key has more profit than the one kept, and no earlier one as much; a key
      has none exactly when no candidate has the key. */
  lemma {:induction false} BestMeaning(s: seq<Candidate>, k: Key, j: nat)
    requires j < |s| && KeyOf(s[j]) == k
    ensures Has(s, k) && KeyOf(Best(s, k)) == k
    ensures s[j].profit <= Best(s, k).profit
    ensures j < BestAt(s, k) ==> s[j].profit < Best(s, k).profit
    decreases |s|
  {
    var n := |s| - 1;
    var before := s[..n];
    if j < n {
      BestMeaning(before, k, j);
    } else if BestAt(before, k) >= 0 {
      BestHasKey(before, k);
    }
  }

  lemma {:induction false} BestHasKey(s: seq<Candidate>, k: Key)
    requires Has(s, k)
    ensures KeyOf(Best(s, k)) == k
    decreases |s|
  {
    var n := |s| - 1;
    if BestAt(s, k) < n {
      BestHasKey(s[..n], k);
    }
  }

  ghost predicate DistinctKeys(s: seq<Candidate>) {
    forall i, j :: 0 <= i < j < |s| ==> KeyOf(s[i]) != KeyOf(s[j])
  }

  lemma {:induction false} InsertDistinct(c: Candidate, s: seq<Candidate>)
    requires DistinctKeys(s) && forall i :: 0 <= i < |s| ==> KeyOf(s[i]) != KeyOf(c)
    ensures DistinctKeys(Insert(c, s, Loss))
    decreases |s|
  {
    if s != [] && Loss(c) > Loss(s[0]) {
      InsertDistinct(c, s[1..]);
      var rest := Insert(c, s[1..], Loss);
      forall i | 0 <= i < |rest| ensures KeyOf(rest[i]) != KeyOf(s[0]) {
        assert rest[i] in multiset(rest);
        assert rest[i] == c || rest[i] in s[1..];
      }
    }
  }

  lemma {:induction false} SortDistinct(s: seq<Candidate>)
    requires DistinctKeys(s)
    ensures DistinctKeys(SortBy(s, Loss))
    decreases |s|
  {
    if s != [] {
      var rest := SortBy(s[1..], Loss);
      SortDistinct(s[1..]);
      SortByElements(s[1..], Loss);
      forall i | 0 <= i < |rest| ensures KeyOf(rest[i]) != KeyOf(s[0]) {
        assert rest[i] in s[1..];
      }
      InsertDistinct(s[0], rest);
    }
  }

  ghost predicate KeepsBest(best: map<Key, Candidate>, s: seq<Candidate>) {
    && (forall k :: k in best <==> Has(s, k))
    && (forall k :: k in best ==> best[k] == Best(s, k) && KeyOf(best[k]) == k)
  }

  lemma OneMoreCandidate(best: map<Key, Candidate>, s: seq<Candidate>, n: nat)
    requires n < |s| && KeepsBest(best, s[..n])
    ensures var c := s[n]; var k := KeyOf(c);
            KeepsBest(if k !in best || c.profit > best[k].profit then best[k := c] else best, s[..n + 1])
  {
    assert s[..n + 1][..n] == s[..n];
  }

  /** The loop over the candidates: the best of every key, and how many were not kept. */
  method BestByKey(candidates: seq<Candidate>) returns (best: map<Key, Candidate>, coalesced: nat)
    ensures KeepsBest(best, candidates) && |best| + coalesced == |candidates|
  {
    hide BestAt, KeepsBest;
    best, coalesced := map[], 0;
    assert KeepsBest(best, candidates[..0]) by {
      NothingKept();
      assert candidates[..0] == [];
    }
    for n := 0 to |candidates|
      invariant KeepsBest(best, candidates[..n])
      invariant |best| + coalesced == n
    {
      var candidate := candidates[n];
      var key := KeyOf(candidate);
      OneMoreCandidate(best, candidates, n);
      if key !in best {
        best := best[key := candidate];
      } else {
        coalesced := coalesced + 1;
        if candidate.profit > best[key].profit {
          best := best[key := candidate];
        }
      }
    }
    assert candidates[..|candidates|] == candidates;
  }

  lemma NothingKept()
    ensures KeepsBest(map[], [])
  {
  }

  /** One candidate for every key, its best; by falling profit; the rest are counted. */
  method CoalesceCandidatesByExecutionKey(candidates: seq<Candidate>) returns (out: seq<Candidate>, coalesced: nat)
    ensures DistinctKeys(out)
    ensures forall c :: c in out ==> Has(candidates, KeyOf(c)) && c == Best(candidates, KeyOf(c))
    ensures forall c :: c in candidates ==> exists o :: o in out && KeyOf(o) == KeyOf(c)
    ensures forall i, j :: 0 <= i < j < |out| ==> out[i].profit >= out[j].profit
    ensures |out| + coalesced == |candidates|
  {
    hide SortBy, DistinctKeys, BestAt;
    var best;
    best, coalesced := BestByKey(candidates);
    var values := Values(best);
    forall c | c in candidates ensures exists o :: o in values && KeyOf(o) == KeyOf(c) {
      var j :| 0 <= j < |candidates| && candidates[j] == c;
      BestMeaning(candidates, KeyOf(c), j);
      assert best[KeyOf(c)] in values;
    }
    out := SortBy(values, Loss);
    SortRanks(values);
    forall c | c in candidates ensures exists o :: o in out && KeyOf(o) == KeyOf(c) {
      var o :| o in values && KeyOf(o) == KeyOf(c);
      assert o in out;
    }
  }

  lemma SortRanks(s: seq<Candidate>)
    requires DistinctKeys(s)
    ensures var r := SortBy(s, Loss);
            && DistinctKeys(r) && |r| == |s|
            && (forall c :: c in r <==> c in s)
            && (forall i, j :: 0 <= i < j < |r| ==> r[i].profit >= r[j].profit)
  {
    hide SortBy;
    SortDistinct(s);
    SortByElements(s, Loss);
    SortBySorted(s, Loss);
    var r := SortBy(s, Loss);
    forall i, j | 0 <= i < j < |r| ensures r[i].profit >= r[j].profit {
      assert Loss(r[i]) <= Loss(r[j]);
    }
  }

  /** The values of a map, in no particular order. */
  method Values(m: map<Key, Candidate>) returns (out: seq<Candidate>)
    requires forall k :: k in m ==> KeyOf(m[k]) == k
    ensures DistinctKeys(out) && |out| == |m|
    ensures forall c :: c in out ==> KeyOf(c) in m && m[KeyOf(c)] == c
    ensures forall k :: k in m ==> m[k] in out
  {
    out := [];
    var left := m.Keys;
    while left != {}
      invariant left <= m.Keys && |out| + |left| == |m.Keys|
      invariant DistinctKeys(out)
      invariant forall c :: c in out ==> KeyOf(c) in m && m[KeyOf(c)] == c && KeyOf(c) !in left
      invariant forall k :: k in m && k !in left ==> m[k] in out
      decreases |left|
    {
      var k :| k in left;
      left := left - {k};
      out := out + [m[k]];
    }
  }
}

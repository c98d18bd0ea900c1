/** The initialized-tick table of a pool and the liquidity positions it summarises.

    The market-data listener never sees positions: it receives Mint, Burn and ModifyLiquidity
    events, turns each into two tick deltas, and edits the table in place
    (crates/market-data/src/state_updater.rs:202-264, crates/market-data/src/listener.rs:3517-3585). */
module TickTable {
  import opened Wrappers
  import opened U256Math
  import opened TickMath
  import opened SwapEngine
  import opened V3Walk
  import opened Sorting

  datatype TickDelta = TickDelta(tick: I32, grossDelta: I128, netDelta: I128)

  const I128_MAX: int := 0x7fff_ffff_ffff_ffff_ffff_ffff_ffff_ffff

  /** The deltas of a Mint or Burn event; an amount beyond i128 is an error. */
  function V3TickDeltas(isMint: bool, lower: I32, upper: I32, amount: U256): Result<seq<TickDelta>> {
    if amount > I128_MAX then Err
    else if isMint then Ok([TickDelta(lower, amount, amount), TickDelta(upper, amount, 0 - amount)])
    else Ok([TickDelta(lower, 0 - amount, 0 - amount), TickDelta(upper, 0 - amount, amount)])
  }

  /** The deltas of a Uniswap v4 ModifyLiquidity event. */
  function V4TickDeltas(lower: I32, upper: I32, liquidityDelta: I128): Result<seq<TickDelta>> {
    if liquidityDelta == 0 then Ok([])
    else if liquidityDelta == -I128_MAX - 1 then Err
    else Ok([TickDelta(lower, liquidityDelta, liquidityDelta), TickDelta(upper, liquidityDelta, 0 - liquidityDelta)])
  }

  // ----- the table as a map, and the edit of one delta -----

  type Table = map<int, TickState>

  function CheckedAdd128(a: I128, b: I128): Result<I128> {
    if -I128_MAX - 1 <= a + b <= I128_MAX then Ok(a + b) else Err
  }

  function EditedTick(before: TickState, delta: TickDelta): Result<TickState> {
    var net :- CheckedAdd128(before.liquidityNet, delta.netDelta);
    var gross :- ApplyLiquidityDelta(before.liquidityGross, delta.grossDelta);
    Ok(TickState(delta.tick, net, gross))
  }

  function TickAt(m: Table, tick: I32): TickState {
    if tick in m then m[tick] else TickState(tick, 0, 0)
  }

  function ApplyDelta(m: Table, delta: TickDelta): Result<Table> {
    var edited :- EditedTick(TickAt(m, delta.tick), delta);
    Ok(if edited.liquidityGross == 0 then m - {delta.tick} else m[delta.tick := edited])
  }

  /** One delta in numbers: the tick's sums move by it, gross down to zero at most; a tick without gross
      liquidity has no entry; sums that leave their width are an error. */
  lemma DeltaIs(m: Table, delta: TickDelta)
    ensures var entry := TickAt(m, delta.tick);
      var net, sum := entry.liquidityNet + delta.netDelta, entry.liquidityGross + delta.grossDelta;
      var gross := if sum < 0 then 0 else sum;
      ApplyDelta(m, delta)
      == (if !(-I128_MAX - 1 <= net <= I128_MAX) || gross > U256_MAX then Err
          else if gross == 0 then Ok(m - {delta.tick as int})
          else Ok(m[delta.tick as int := TickState(delta.tick, net, gross)]))
  {
    LiquidityDeltaIs(TickAt(m, delta.tick).liquidityGross, delta.grossDelta);
  }

  function ApplyDeltas(m: Table, deltas: seq<TickDelta>): Result<Table> {
    if deltas == [] then Ok(m)
    else
      var before :- ApplyDeltas(m, deltas[..|deltas| - 1]);
      ApplyDelta(before, deltas[|deltas| - 1])
  }

  // ----- the in-place edit of a list of ticks -----

  /** `ticks` lists each entry of `m` once, in some order. */
  ghost predicate Lists(ticks: seq<TickState>, m: Table) {
    && (forall x | x in ticks :: multiset(ticks)[x] == 1 && x.tick as int in m && m[x.tick] == x)
    && (forall t | t in m :: m[t].tick == t && m[t] in ticks)
  }

  predicate ListedInOrder(ticks: seq<TickState>) {
    forall i, j :: 0 <= i < j < |ticks| ==> ticks[i].tick < ticks[j].tick
  }

  lemma DuplicateCount(s: seq<TickState>, i: nat, j: nat)
    requires i < j < |s| && s[i] == s[j]
    ensures multiset(s)[s[i]] >= 2
  {
    assert s == s[..j] + [s[j]] + s[j + 1..];
    assert s[i] in s[..j];
    assert s[i] in multiset(s[..j]);
  }

  lemma ListsDistinct(ticks: seq<TickState>, m: Table, i: nat, j: nat)
    requires Lists(ticks, m) && i < j < |ticks|
    ensures ticks[i].tick != ticks[j].tick
  {
    if ticks[i] == ticks[j] {
      DuplicateCount(ticks, i, j);
    }
  }

  lemma PermutationLists(ticks: seq<TickState>, other: seq<TickState>, m: Table)
    requires Lists(ticks, m) && multiset(ticks) == multiset(other)
    ensures Lists(other, m)
  {
    forall x ensures x in other <==> x in ticks {
      assert x in multiset(other) <==> x in multiset(ticks);
    }
  }

  lemma AppendLists(ticks: seq<TickState>, m: Table, x: TickState)
    requires Lists(ticks, m) && x.tick as int !in m
    ensures Lists(ticks + [x], m[x.tick as int := x])
  {
    assert x !in ticks;
    assert forall y :: multiset(ticks + [x])[y] == multiset(ticks)[y] + multiset([x])[y];
  }

  lemma RemoveLists(ticks: seq<TickState>, m: Table, x: TickState, others: seq<TickState>)
    requires Lists(ticks, m) && x in ticks && multiset(others) == multiset(ticks) - multiset{x}
    ensures Lists(others, m - {x.tick as int})
  {
    forall y ensures y in others <==> y in ticks && y != x {
      assert y in others <==> y in multiset(others);
      assert y in ticks <==> y in multiset(ticks);
    }
  }

  function IndexOf(ticks: seq<TickState>, tick: int): (i: nat)
    ensures i <= |ticks|
    ensures i < |ticks| ==> ticks[i].tick == tick
    ensures forall j :: 0 <= j < i ==> ticks[j].tick != tick
  {
    if ticks == [] then 0
    else if ticks[0].tick == tick then 0
    else 1 + IndexOf(ticks[1..], tick)
  }

  /** Vec::swap_remove: the last element takes the place of the removed one. */
  function SwapRemove(ticks: seq<TickState>, i: nat): (r: seq<TickState>)
    requires i < |ticks|
    ensures multiset(r) == multiset(ticks) - multiset{ticks[i]}
  {
    var last := |ticks| - 1;
    assert ticks == ticks[..last] + [ticks[last]];
    if i == last then ticks[..last] else ticks[..last][i := ticks[last]]
  }

  lemma ReplaceLists(ticks: seq<TickState>, m: Table, i: nat, x: TickState)
    requires Lists(ticks, m) && i < |ticks| && x.tick == ticks[i].tick
    ensures Lists(ticks[i := x], m[x.tick as int := x])
  {
    var others, t := SwapRemove(ticks, i), x.tick as int;
    RemoveLists(ticks, m, ticks[i], others);
    AppendLists(others, m - {t}, x);
    assert m[t := x] == (m - {t})[t := x];
    PermutationLists(others + [x], ticks[i := x], m[t := x]);
  }

  /** The edited list of one turn of the loop over the deltas. */
  function EditList(ticks: seq<TickState>, delta: TickDelta): Result<seq<TickState>> {
    var i := IndexOf(ticks, delta.tick);
    var edited :- EditedTick(if i < |ticks| then ticks[i] else TickState(delta.tick, 0, 0), delta);
    Ok(if edited.liquidityGross == 0 then (if i < |ticks| then SwapRemove(ticks, i) else ticks)
       else if i < |ticks| then ticks[i := edited] else ticks + [edited])
  }

  lemma EditLists(ticks: seq<TickState>, m: Table, delta: TickDelta)
    requires Lists(ticks, m)
    ensures EditList(ticks, delta).Ok? <==> ApplyDelta(m, delta).Ok?
    ensures EditList(ticks, delta).Ok? ==> Lists(EditList(ticks, delta).value, ApplyDelta(m, delta).value)
  {
    hide ApplyLiquidityDelta, CheckedAdd128, SwapRemove;
    var i, t := IndexOf(ticks, delta.tick), delta.tick as int;
    assert t in m ==> m[t] in ticks;
    assert TickAt(m, delta.tick) == if i < |ticks| then ticks[i] else TickState(delta.tick, 0, 0);
    var edited := EditedTick(TickAt(m, delta.tick), delta);
    if edited.Ok? {
      if i < |ticks| {
        if edited.value.liquidityGross == 0 {
          RemoveLists(ticks, m, ticks[i], SwapRemove(ticks, i));
        } else {
          ReplaceLists(ticks, m, i, edited.value);
        }
      } else if edited.value.liquidityGross == 0 {
        assert m - {t} == m;
      } else {
        AppendLists(ticks, m, edited.value);
      }
    }
  }

  // ----- the store and the listener's method -----

  function TableIn(filed: map<(int, int), TickState>, pool: int): Table {
    map k | k in filed && k.0 == pool :: k.1 := filed[k]
  }

  /** Filing a tick sets its entry in its pool's table and leaves the other tables alone. */
  lemma TableInFiled(filed: map<(int, int), TickState>, pool: int, x: TickState, other: int)
    ensures TableIn(filed[(pool, x.tick as int) := x], pool) == TableIn(filed, pool)[x.tick as int := x]
    ensures other != pool ==> TableIn(filed[(pool, x.tick as int) := x], other) == TableIn(filed, other)
  {
    var after := filed[(pool, x.tick as int) := x];
    forall t ensures t in TableIn(after, pool) <==> t in TableIn(filed, pool)[x.tick as int := x] {
      assert (pool, t).1 == t;
    }
    if other != pool {
    }
  }

  /** The table a list of ticks is filed as: of several entries for a tick the last one counts. */
  function Filed(ticks: seq<TickState>): Table
    decreases |ticks|
  {
    if |ticks| == 0 then map[]
    else
      var last := ticks[|ticks| - 1];
      Filed(ticks[..|ticks| - 1])[last.tick as int := last]
  }

  lemma {:induction false} FiledPrefix(ticks: seq<TickState>, n: nat, t: int)
    requires n <= |ticks|
    ensures t in Filed(ticks[..n]) ==> Filed(ticks[..n])[t].tick == t && Filed(ticks[..n])[t] in ticks
    ensures (exists j :: 0 <= j < n && ticks[j].tick == t) ==> t in Filed(ticks[..n])
    decreases n
  {
    if n > 0 {
      assert ticks[..n][..n - 1] == ticks[..n - 1];
      FiledPrefix(ticks, n - 1, t);
    }
  }

  /** Of several entries for a tick the last one counts. */
  lemma {:induction false} LastEntryCounts(ticks: seq<TickState>, i: nat)
    requires i < |ticks| && forall j :: i < j < |ticks| ==> ticks[j].tick != ticks[i].tick
    ensures ticks[i].tick as int in Filed(ticks) && Filed(ticks)[ticks[i].tick] == ticks[i]
    decreases |ticks|
  {
    if i < |ticks| - 1 {
      LastEntryCounts(ticks[..|ticks| - 1], i);
    }
  }

  /** A list without repeated ticks is filed as the table it lists. */
  lemma FiledLists(ticks: seq<TickState>, m: Table)
    requires Lists(ticks, m)
    ensures Filed(ticks) == m
  {
    assert ticks[..|ticks|] == ticks;
    forall t ensures (t in Filed(ticks) <==> t in m) && (t in m ==> Filed(ticks)[t] == m[t]) {
      FiledPrefix(ticks, |ticks|, t);
      if t in m {
        var j :| 0 <= j < |ticks| && ticks[j] == m[t];
        assert ticks[j].tick == t;
      }
    }
  }

  lemma Dropped(filed: map<(int, int), TickState>, pool: int)
    ensures var left := map k | k in filed && k.0 != pool :: filed[k];
      TableIn(left, pool) == Filed([]) && forall other | other != pool :: TableIn(left, other) == TableIn(filed, other)
  {
  }

  lemma FiledNext(ticks: seq<TickState>, n: nat)
    requires n < |ticks|
    ensures Filed(ticks[..0]) == Filed([])
    ensures Filed(ticks[..n + 1]) == Filed(ticks[..n])[ticks[n].tick as int := ticks[n]]
  {
    assert ticks[..n + 1][..n] == ticks[..n];
  }

  /** The tick map of the in-memory store, keyed by pool and tick
      (crates/storage/src/lib.rs:363-385). */
  class TickStore {
    var ticks: map<(int, int), TickState>

    constructor ()
      ensures ticks == map[]
    {
      ticks := map[];
    }

    function PoolTable(pool: int): Table
      reads this
    {
      TableIn(ticks, pool)
    }

    /** Every entry is filed under its own tick. */
    predicate Valid()
      reads this
    {
      forall k | k in ticks :: ticks[k].tick == k.1
    }

    /** The pool's ticks, in key order. */
    method GetPoolTicks(pool: int) returns (r: seq<TickState>)
      requires Valid()
      ensures Lists(r, PoolTable(pool)) && SortedBy(r, (t: TickState) => t.tick as int)
    {
      var keys := set k | k in ticks && k.0 == pool;
      var found: seq<TickState> := [];
      ghost var seen: Table := map[];
      while keys != {}
        invariant keys <= set k | k in ticks && k.0 == pool
        invariant seen == map k | k in ticks && k.0 == pool && k !in keys :: k.1 := ticks[k]
        invariant Lists(found, seen)
        decreases keys
      {
        var k :| k in keys;
        AppendLists(found, seen, ticks[k]);
        found := found + [ticks[k]];
        seen := seen[k.1 := ticks[k]];
        keys := keys - {k};
      }
      assert seen == PoolTable(pool);
      r := SortBy(found, (t: TickState) => t.tick as int);
      SortBySorted(found, (t: TickState) => t.tick as int);
      PermutationLists(found, r, seen);
    }

    /** Drops the pool's old ticks, then files the new ones; of two for the same tick the later one
        stays. */
    method ReplacePoolTicks(pool: int, newTicks: seq<TickState>)
      requires Valid()
      modifies this
      ensures Valid() && PoolTable(pool) == Filed(newTicks)
      ensures forall other | other != pool :: PoolTable(other) == old(PoolTable(other))
    {
      hide TableIn, Filed;
      ghost var before := ticks;
      ticks := map k | k in ticks && k.0 != pool :: ticks[k];
      Dropped(before, pool);
      for i := 0 to |newTicks|
        invariant Valid() && TableIn(ticks, pool) == Filed(newTicks[..i])
        invariant forall other | other != pool :: TableIn(ticks, other) == TableIn(before, other)
      {
        forall other {
          TableInFiled(ticks, pool, newTicks[i], other);
        }
        FiledNext(newTicks, i);
        ticks := ticks[(pool, newTicks[i].tick as int) := newTicks[i]];
      }
      assert newTicks[..|newTicks|] == newTicks;
    }

    /** Folds the deltas into the pool's table. An error leaves the store as it was. */
    method ApplyTickDeltas(pool: int, deltas: seq<TickDelta>) returns (ok: bool)
      requires Valid()
      modifies this
      ensures Valid()
      ensures ok == old(ApplyDeltas(PoolTable(pool), deltas)).Ok?
      ensures PoolTable(pool) == if ok then old(ApplyDeltas(PoolTable(pool), deltas)).value else old(PoolTable(pool))
      ensures forall other | other != pool :: PoolTable(other) == old(PoolTable(other))
    {
      hide PoolTable, Valid, EditList, ApplyDelta, SortBy, Lists;
      ghost var before := PoolTable(pool);
      var found := GetPoolTicks(pool);
      ghost var m := before;
      var i := 0;
      while i < |deltas|
        invariant 0 <= i <= |deltas|
        invariant ApplyDeltas(before, deltas[..i]) == Ok(m) && Lists(found, m)
        modifies {}
      {
        assert deltas[..i + 1][..i] == deltas[..i];
        EditLists(found, m, deltas[i]);
        var edited := EditList(found, deltas[i]);
        if edited.Err? {
          ApplyDeltasErr(before, deltas, i + 1);
          return false;
        }
        m := ApplyDelta(m, deltas[i]).value;
        found := edited.value;
        i := i + 1;
      }
      assert deltas[..i] == deltas;
      if deltas != [] {
        var sorted := SortBy(found, (t: TickState) => t.tick as int);
        PermutationLists(found, sorted, m);
        FiledLists(sorted, m);
        ReplacePoolTicks(pool, sorted);
      }
      return true;
    }
  }

  /** An error on a prefix is an error on the whole. */
  lemma {:induction false} ApplyDeltasErr(m: Table, deltas: seq<TickDelta>, n: nat)
    requires n <= |deltas| && ApplyDeltas(m, deltas[..n]).Err?
    ensures ApplyDeltas(m, deltas).Err?
    decreases |deltas|
  {
    if n == |deltas| {
      assert deltas[..n] == deltas;
    } else {
      assert deltas[..|deltas| - 1][..n] == deltas[..n];
      ApplyDeltasErr(m, deltas[..|deltas| - 1], n);
    }
  }

  // ----- positions -----

  /** A liquidity position of the pool, as the pool contract itself keeps it. */
  datatype Position = Position(lower: int, upper: int, liquidity: nat)

  /** What one Mint (delta >= 0) or Burn (delta <= 0) does: it changes one position, or opens one. */
  datatype Change = Change(index: nat, lower: I32, upper: I32, delta: int)

  function Holds(b: bool, liquidity: nat): nat {
    if b then liquidity else 0
  }

  /** The liquidity that starts or ends at a tick. */
  function GrossOf(ps: seq<Position>, t: int): nat {
    if ps == [] then 0
    else GrossOf(ps[1..], t) + Holds(ps[0].lower == t, ps[0].liquidity) + Holds(ps[0].upper == t, ps[0].liquidity)
  }

  /** The liquidity that starts at a tick, less what ends there. */
  function NetOf(ps: seq<Position>, t: int): int {
    if ps == [] then 0
    else NetOf(ps[1..], t) + Holds(ps[0].lower == t, ps[0].liquidity) - Holds(ps[0].upper == t, ps[0].liquidity)
  }

  /** The liquidity of the positions whose range contains the tick. */
  function ActiveAt(ps: seq<Position>, t: int): nat {
    if ps == [] then 0
    else ActiveAt(ps[1..], t) + Holds(ps[0].lower <= t < ps[0].upper, ps[0].liquidity)
  }

  function Total(ps: seq<Position>): nat {
    if ps == [] then 0 else Total(ps[1..]) + ps[0].liquidity
  }

  /** The table holds exactly the ticks some liquidity starts or ends at, with their sums. */
  ghost predicate Summarises(m: Table, ps: seq<Position>) {
    && (forall t :: t in m <==> GrossOf(ps, t) > 0)
    && (forall t | t in m :: m[t].tick == t)
    && (forall t | t in m :: m[t].liquidityNet == NetOf(ps, t) && m[t].liquidityGross == GrossOf(ps, t))
  }

  function After(ps: seq<Position>, c: Change): seq<Position>
    requires c.index <= |ps|
    requires (if c.index < |ps| then ps[c.index].liquidity else 0) + c.delta >= 0
  {
    if c.index < |ps| then ps[c.index := Position(c.lower, c.upper, ps[c.index].liquidity + c.delta)]
    else ps + [Position(c.lower, c.upper, c.delta)]
  }

  /** What the pool contract guarantees of a change: the range is not empty, no position is
      burned below zero, and total liquidity stays within a signed 128-bit number. */
  predicate Legal(ps: seq<Position>, c: Change) {
    && c.lower < c.upper && InRange(c.lower) && InRange(c.upper)
    && c.index <= |ps|
    && (c.index < |ps| ==> ps[c.index].lower == c.lower && ps[c.index].upper == c.upper)
    && (if c.index < |ps| then ps[c.index].liquidity else 0) + c.delta >= 0
    && Total(ps) <= I128_MAX && Total(After(ps, c)) <= I128_MAX
  }

  predicate WellPlaced(ps: seq<Position>) {
    forall p | p in ps :: p.lower < p.upper && InRange(p.lower) && InRange(p.upper)
  }

  /** The deltas the listener derives from a change. */
  function DeltasOf(c: Change): seq<TickDelta>
    requires -I128_MAX <= c.delta <= I128_MAX
  {
    [TickDelta(c.lower, c.delta, c.delta), TickDelta(c.upper, c.delta, 0 - c.delta)]
  }

  /** An event of the pool, and the position it is about. */
  datatype PoolEvent =
    | Mint(index: nat, lower: I32, upper: I32, amount: U256)
    | Burn(index: nat, lower: I32, upper: I32, amount: U256)
    | ModifyLiquidity(index: nat, lower: I32, upper: I32, liquidityDelta: I128)

  function Decoded(e: PoolEvent): Result<seq<TickDelta>> {
    match e
    case Mint(_, lower, upper, amount) => V3TickDeltas(true, lower, upper, amount)
    case Burn(_, lower, upper, amount) => V3TickDeltas(false, lower, upper, amount)
    case ModifyLiquidity(_, lower, upper, delta) => V4TickDeltas(lower, upper, delta)
  }

  /** The change to its position that the event reports. */
  function Reported(e: PoolEvent): Change {
    match e
    case Mint(index, lower, upper, amount) => Change(index, lower, upper, amount)
    case Burn(index, lower, upper, amount) => Change(index, lower, upper, 0 - amount)
    case ModifyLiquidity(index, lower, upper, delta) => Change(index, lower, upper, delta)
  }

  /** The decoders of all three events give the deltas of the change reported, or none for a change
      of nothing. */
  lemma EventsAreChanges(e: PoolEvent)
    requires -I128_MAX <= Reported(e).delta <= I128_MAX
    ensures Decoded(e) == Ok(if e.ModifyLiquidity? && e.liquidityDelta == 0 then [] else DeltasOf(Reported(e)))
  {
  }

  // ----- sums over positions -----

  /** Changing one position shifts every sum by that position's share of the change. */
  lemma {:induction false} AfterSums(ps: seq<Position>, c: Change, t: int)
    requires c.index <= |ps|
    requires (if c.index < |ps| then ps[c.index].liquidity else 0) + c.delta >= 0
    requires c.index < |ps| ==> ps[c.index].lower == c.lower && ps[c.index].upper == c.upper
    ensures var starts, ends := if c.lower == t then c.delta else 0, if c.upper == t then c.delta else 0;
      && GrossOf(After(ps, c), t) == GrossOf(ps, t) + starts + ends
      && NetOf(After(ps, c), t) == NetOf(ps, t) + starts - ends
    ensures Total(After(ps, c)) == Total(ps) + c.delta
    decreases |ps|
  {
    var after := After(ps, c);
    if ps == [] {
      assert after == [Position(c.lower, c.upper, c.delta)];
      assert after[1..] == [];
    } else if c.index == 0 {
      assert after[1..] == ps[1..];
    } else {
      assert after[1..] == After(ps[1..], c.(index := c.index - 1));
      AfterSums(ps[1..], c.(index := c.index - 1), t);
    }
  }

  lemma {:induction false} SumBounds(ps: seq<Position>, t: int)
    requires WellPlaced(ps)
    ensures 0 <= NetOf(ps, t) + GrossOf(ps, t) && NetOf(ps, t) <= GrossOf(ps, t)
    ensures GrossOf(ps, t) <= Total(ps)
    ensures ActiveAt(ps, t) <= Total(ps)
    ensures GrossOf(ps, t) > 0 ==> InRange(t)
    decreases |ps|
  {
    if ps != [] {
      assert forall p | p in ps[1..] :: p in ps;
      SumBounds(ps[1..], t);
    }
  }

  lemma WellPlacedAfter(ps: seq<Position>, c: Change)
    requires WellPlaced(ps) && Legal(ps, c)
    ensures WellPlaced(After(ps, c)) && -I128_MAX <= c.delta <= I128_MAX
  {
    AfterSums(ps, c, 0);
  }

  // ----- the table follows the positions -----

  /** One delta moves the entry of its tick from `(gross, net)` to the shifted sums. */
  lemma ApplyDeltaAt(m: Table, delta: TickDelta, gross: int, net: int)
    requires var entry := TickAt(m, delta.tick);
      gross == entry.liquidityGross + delta.grossDelta && net == entry.liquidityNet + delta.netDelta
    requires 0 <= gross <= U256_MAX && -I128_MAX <= net <= I128_MAX
    ensures ApplyDelta(m, delta)
         == Ok(if gross == 0 then m - {delta.tick as int}
               else m[delta.tick as int := TickState(delta.tick, net, gross)])
  {
    hide ApplyDelta;
    DeltaIs(m, delta);
  }

  /** A legal change, applied as the listener applies it, never fails, and the table then
      summarises the changed positions. */
  lemma ChangeKeepsSummary(m: Table, ps: seq<Position>, c: Change)
    requires WellPlaced(ps) && Summarises(m, ps) && Legal(ps, c)
    ensures -I128_MAX <= c.delta <= I128_MAX
    ensures ApplyDeltas(m, DeltasOf(c)).Ok?
    ensures Summarises(ApplyDeltas(m, DeltasOf(c)).value, After(ps, c))
  {
    hide After, WellPlaced, ApplyDelta, ApplyDeltas, GrossOf, NetOf, Total;
    WellPlacedAfter(ps, c);
    var after, deltas := After(ps, c), DeltasOf(c);
    var lower, upper := c.lower as int, c.upper as int;
    forall t ensures SumsShift(ps, after, c, t) {
      AfterSums(ps, c, t);
      SumBounds(ps, t);
      SumBounds(after, t);
    }
    assert SumsShift(ps, after, c, lower) && SumsShift(ps, after, c, upper);
    ApplyDeltaAt(m, deltas[0], GrossOf(after, lower), NetOf(after, lower));
    var mid := ApplyDelta(m, deltas[0]).value;
    ApplyDeltaAt(mid, deltas[1], GrossOf(after, upper), NetOf(after, upper));
    var last := ApplyDelta(mid, deltas[1]).value;
    PairApplies(m, deltas);
    BothEntriesFollow(m, ps, after, c, last);
  }

  /** The table the two deltas leave, written out, summarises the changed positions. */
  lemma BothEntriesFollow(m: Table, ps: seq<Position>, after: seq<Position>, c: Change, last: Table)
    requires Summarises(m, ps)
    requires forall t :: SumsShift(ps, after, c, t)
    requires Fits(after, c.lower) && Fits(after, c.upper)
    requires last == WithEntry(WithEntry(m, after, c.lower), after, c.upper)
    ensures Summarises(last, after)
  {
    hide GrossOf, NetOf;
    forall t ensures (t in last <==> GrossOf(after, t) > 0)
                     && (t in last ==> last[t].tick == t && last[t].liquidityNet == NetOf(after, t)
                                       && last[t].liquidityGross == GrossOf(after, t)) {
      assert SumsShift(ps, after, c, t);
    }
  }

  predicate Fits(ps: seq<Position>, t: int) {
    GrossOf(ps, t) <= U256_MAX && -I128_MAX <= NetOf(ps, t) <= I128_MAX
  }

  /** The table with the entry the positions call for at one tick. */
  function WithEntry(m: Table, ps: seq<Position>, t: I32): Table
    requires Fits(ps, t)
  {
    if GrossOf(ps, t) == 0 then m - {t as int} else m[t as int := TickState(t, NetOf(ps, t), GrossOf(ps, t))]
  }

  /** The sums at one tick before and after a change, and how large they can be. */
  ghost predicate SumsShift(ps: seq<Position>, after: seq<Position>, c: Change, t: int) {
    var starts, ends := if c.lower == t then c.delta else 0, if c.upper == t then c.delta else 0;
    && GrossOf(after, t) == GrossOf(ps, t) + starts + ends && NetOf(after, t) == NetOf(ps, t) + starts - ends
    && GrossOf(after, t) <= I128_MAX && 0 <= NetOf(after, t) + GrossOf(after, t) && NetOf(after, t) <= GrossOf(after, t)
    && 0 <= NetOf(ps, t) + GrossOf(ps, t) && NetOf(ps, t) <= GrossOf(ps, t)
  }

  lemma PairApplies(m: Table, deltas: seq<TickDelta>)
    requires |deltas| == 2
    ensures ApplyDeltas(m, deltas)
         == if ApplyDelta(m, deltas[0]).Err? then Err else ApplyDelta(ApplyDelta(m, deltas[0]).value, deltas[1])
  {
    assert deltas[..1][..0] == [] && deltas[..1][0] == deltas[0];
    assert ApplyDeltas(m, deltas[..1]) == ApplyDelta(m, deltas[0]);
  }

  // ----- undoing -----

  ghost predicate WellKept(m: Table) {
    forall t | t in m :: m[t].tick == t && m[t].liquidityGross > 0
  }

  lemma UndoDelta(m: Table, delta: TickDelta, undo: TickDelta)
    requires WellKept(m) && ApplyDelta(m, delta).Ok? && delta.grossDelta >= 0
    requires undo.tick == delta.tick && undo.grossDelta + delta.grossDelta == 0 && undo.netDelta + delta.netDelta == 0
    requires delta.grossDelta == 0 ==> delta.netDelta == 0
    ensures ApplyDelta(ApplyDelta(m, delta).value, undo) == Ok(m)
  {
    var t, entry := delta.tick as int, TickAt(m, delta.tick);
    var n := ApplyDelta(m, delta).value;
    assert TickAt(n, undo.tick)
        == TickState(delta.tick, entry.liquidityNet + delta.netDelta, entry.liquidityGross + delta.grossDelta);
    var back := ApplyDelta(n, undo).value;
    assert t in m ==> m[t] == entry;
    assert back == m;
  }

  lemma DeltasCommute(m: Table, d: TickDelta, e: TickDelta)
    requires d.tick != e.tick && ApplyDelta(m, d).Ok? && ApplyDelta(m, e).Ok?
    ensures ApplyDelta(ApplyDelta(m, d).value, e).Ok?
    ensures ApplyDelta(ApplyDelta(m, d).value, e) == ApplyDelta(ApplyDelta(m, e).value, d)
  {
    hide EditedTick;
    var md, me := ApplyDelta(m, d).value, ApplyDelta(m, e).value;
    assert TickAt(md, e.tick) == TickAt(m, e.tick) && TickAt(me, d.tick) == TickAt(m, d.tick);
    assert ApplyDelta(md, e).value == ApplyDelta(me, d).value;
  }

  /** Burning what was just minted restores the table exactly, whatever it held. */
  lemma BurnUndoesMint(m: Table, lower: I32, upper: I32, amount: U256)
    requires WellKept(m) && amount <= I128_MAX && lower != upper
    requires ApplyDeltas(m, V3TickDeltas(true, lower, upper, amount).value).Ok?
    ensures ApplyDeltas(ApplyDeltas(m, V3TickDeltas(true, lower, upper, amount).value).value,
                        V3TickDeltas(false, lower, upper, amount).value) == Ok(m)
  {
    hide ApplyDelta, ApplyDeltas;
    var mint, burn := V3TickDeltas(true, lower, upper, amount).value, V3TickDeltas(false, lower, upper, amount).value;
    PairApplies(m, mint);
    var half := ApplyDelta(m, mint[0]).value;
    PairApplies(ApplyDeltas(m, mint).value, burn);
    UndoDelta(m, mint[0], burn[0]);
    DeltasCommute(half, mint[1], burn[0]);
    UndoDelta(m, mint[1], burn[1]);
  }

  /** A burn at ticks the table never saw leaves it as it was. */
  lemma UnseenBurn(m: Table, lower: I32, upper: I32, amount: U256)
    requires amount <= I128_MAX && lower as int !in m && upper as int !in m
    ensures ApplyDeltas(m, V3TickDeltas(false, lower, upper, amount).value) == Ok(m)
  {
    hide ApplyDelta, ApplyDeltas;
    var burn := V3TickDeltas(false, lower, upper, amount).value;
    PairApplies(m, burn);
    DeltaIs(m, burn[0]);
    DeltaIs(m, burn[1]);
    assert m - {lower as int} == m && m - {upper as int} == m;
  }

  // ----- whole histories -----

  ghost predicate LegalHistory(h: seq<PoolEvent>)
    decreases |h|, 0
  {
    h != [] ==> LegalHistory(h[..|h| - 1]) && Legal(PositionsAfter(h[..|h| - 1]), Reported(h[|h| - 1]))
  }

  ghost function PositionsAfter(h: seq<PoolEvent>): seq<Position>
    requires LegalHistory(h)
    decreases |h|, 1
  {
    if h == [] then [] else After(PositionsAfter(h[..|h| - 1]), Reported(h[|h| - 1]))
  }

  /** The table a listener holds after the events of `h`, having started empty: it decodes each one
      and applies its deltas. */
  ghost function TableAfter(h: seq<PoolEvent>): Result<Table>
    decreases |h|
  {
    if h == [] then Ok(map[])
    else
      var before :- TableAfter(h[..|h| - 1]);
      var deltas :- Decoded(h[|h| - 1]);
      ApplyDeltas(before, deltas)
  }

  /** After any legal history of events, each is decoded and applied without error, and the
      listener's table summarises the pool's positions. */
  lemma {:induction false} TableFollowsPositions(h: seq<PoolEvent>)
    requires LegalHistory(h)
    ensures WellPlaced(PositionsAfter(h)) && Total(PositionsAfter(h)) <= I128_MAX
    ensures TableAfter(h).Ok? && Summarises(TableAfter(h).value, PositionsAfter(h))
    decreases |h|
  {
    hide Decoded, ApplyDeltas, Summarises, DeltasOf;
    if h != [] {
      var before, last := h[..|h| - 1], h[|h| - 1];
      TableFollowsPositions(before);
      WellPlacedAfter(PositionsAfter(before), Reported(last));
      EventsAreChanges(last);
      ChangeKeepsSummary(TableAfter(before).value, PositionsAfter(before), Reported(last));
      if last.ModifyLiquidity? && last.liquidityDelta == 0 {
        NothingChanges(TableAfter(before).value, PositionsAfter(before), Reported(last));
      }
    } else {
      NoPositions();
    }
  }

  lemma NoPositions()
    ensures Summarises(map[], [])
  {
  }

  /** A change of nothing leaves every sum, and so the table, as it was. */
  lemma NothingChanges(m: Table, ps: seq<Position>, c: Change)
    requires WellPlaced(ps) && Summarises(m, ps) && Legal(ps, c) && c.delta == 0
    ensures ApplyDeltas(m, []) == Ok(m) && Summarises(m, After(ps, c))
  {
    hide After, GrossOf, NetOf;
    forall t ensures GrossOf(After(ps, c), t) == GrossOf(ps, t) && NetOf(After(ps, c), t) == NetOf(ps, t) {
      AfterSums(ps, c, t);
    }
  }
}

# Verified models of the arbitrage bot's quoting, execution and encoding cores

The repository watches decentralised exchanges on Base, quotes cyclic trades with its own integer
reimplementation of the pools, and submits the profitable ones from a pool of sending accounts.
This project models the parts of it whose mistakes cost money, and proves what they promise.

* **Concentrated liquidity** (`TickMath`, `TickPrice`, `SwapMath`, `SwapStep`, `SwapEngine`, `V3Walk`,
  `V3Quote`, `V3Route`).
  The tick price, one swap step, the walk over initialised ticks and the three quoters on top. An
  exact unbounded layer carries the laws (Uniswap v3 whitepaper, section 6); a checked layer with
  the source's 256- and 512-bit arithmetic is shown to answer the exact values whenever it answers,
  and when it answers is characterised. Both simulation loops and the mask loop are methods with the
  source's variables, proved against the walk and the tick price. `TickPrice` and `V3Route` say what
  these are without the functions that compute them: powers of 1.0001, and legs in plain numbers.
* **The tick table** (`TickTable`, `V3Pool`). Mint, Burn and ModifyLiquidity events become deltas,
  the listener edits an unordered list in place, the store files it by pool. Over every legal history
  the table summarises the positions, and a pool quoted from its own table never fails.
* **Aerodrome pools** (`AerodromeVolatile`, `AerodromeStable`, `StableCurve`, `StableConvergence`,
  `StableQuotes`). The constant-product quote, and the stable quote with its Newton iteration on
  x^3 y + x y^3 in truncating fixed point. The truncated curve and slope keep enough of a convex curve
  that, from one token in each reserve on, the iteration settles within its 255 turns.
* **The lane protocol** (`FeePolicy`, `Lane`, `LaneSteps`, `LaneProtocol`, `LaneSafety`,
  `ExecutionManager`, `ExecutionCycle`). Each sending account has a lane: its next nonce and the
  transaction it has in flight. The operations (submit, handle a pending lane, synchronise, record a
  failed approval) are functions of what the node and the stores answer; a transition system runs them
  in any order the manager can produce, and the `Manager` class is the imperative execution manager,
  whose every cycle is proved to be such a run. The environment is asked only this: transaction counts
  never fall and the pending ones stay at or below 2^64 - 2 (EIP-2681), and the pending count is at
  least the latest one; a transaction with a receipt has used up its nonce; a newly signed transaction
  has a hash the ledger does not know. Everything else it answers, errors included, is arbitrary.
  `ExecutionCycle` puts queue, preflight, simulation and lanes together into the whole cycle and the
  loop around it. While one process runs, no execution key is ever submitted twice
  (`ExecutionCycle.Executor.RunCycles`); that rests on the block store alone, and the 300-second
  submission lock is one more answer. What a cycle submits is the best candidate that can go out, and
  it submits one whenever one can (`ExecutionCycle.SubmittedIsBest`, `ExecutionCycle.CycleSubmits`).
* **Calldata** (`Calldata`). The encoder of the executor call, and the decoder that the section
  "Formal Specification of the Encoding" of the Solidity Contract ABI Specification prescribes.
* **Queues and stores** (`DedupCache`, `Candidates`, `CurrentBlock`). The bounded duplicate cache, the
  candidate drain, the coalescing by execution key, and the block number that only rises.

`Arith`, `U256Math`, `Sorting` and `Wrappers` hold what these share. The checked products and
quotients are defined by repeated addition and subtraction and identified with `*` and `/` by lemma,
so that a quote unfolds to linear arithmetic and each proof names the products it needs. Every
failure of the source is the single value `Err`. `dafny verify dfyconfig.toml` checks the project.

## What turned out false, and exactly when

* Selling token1 past the last tick aims at the largest 256-bit price, so the step errs when reaching
  it would cost more token1 than 256 bits hold, however small the trade: `V3Walk.Token1TailAnswersIff`
  has the condition, `V3Walk.Token1TailFails` an instance, `V3Quote.RisingPastTheLastTickFails` a whole
  pool. A pool quoted from its complete table never gets there (`V3Pool.PoolAlwaysQuotes`).
* A replacement bump raises a fee exactly when the fee is zero, or the bump is at least 100% and the
  fee at most a ten-thousandth of the 256-bit range, above which the product saturates
  (`FeePolicy.BumpIncreasesIff`, for every setting). The setting is not checked, and one below 100% can
  lower a fee (`FeePolicy.SmallBumpLowers`); very large fees stop rising (`FeePolicy.BumpStopsIncreasing`).
* A stable pool with less than one token on the input side can pay less for a larger input
  (`AerodromeStable.LargerDustPaysLess`): truncation leaves the curve flat there. From one token on it
  never does (`AerodromeStable.QuoteMonotone`), and anywhere it does so only where the curve is flat
  between the two roots (`AerodromeStable.PaysLessOnlyWhereFlat`).
* The stable quoter's iteration need not settle: with less than one token on the input side three points
  can follow each other until the turns run out, and the quote errs though nothing overflows
  (`StableQuotes.QuoteNeedNotSettle`). With at least one token on each side it always settles
  (`StableQuotes.QuoteAnswersIff`).
* Lane and ledger agree after handling a pending lane exactly when no count query fails after the
  receipt was recorded; otherwise the lane stays pending while the ledger already has the receipt,
  until the next handling that answers (`LaneSafety.HandlingAgreesIff`, `LaneSafety.AgreementCanFail`,
  `LaneSafety.NextHandlingRepairs`).
* The encoder accepts 32-bit fees where the call declares 24: calldata with a larger fee is refused by a
  decoder, and that is the only way the round trip can fail (`Calldata.RoundTrip`). The router fee is
  the pool's basis points times 100, checked only against 32 bits, so every pool fee above 167772 basis
  points is such a case (`Calldata.WideFeeRefused`).
* Dead code: the overflow error of the tick-price loop (`TickMath.CheckedMaskIsStep`), the "stable y
  overflow" branch (`AerodromeStable.RootNeverAboveReserve`), every transition to a blocked lane
  (`LaneSafety.LanesAreSound`), the branch of the batch that stops after a submitted approval
  (crates/execution-manager/src/main.rs:656-669; the preflight answers a sent approval with `Simulated`,
  `ExecutionCycle.PreflightAnswers`), and the saturation in applying a liquidity delta to a pool quoted from
  its own table (`V3Pool.CrossKeepsActive`). The second staleness check of the drain is not dead, but
  rejects only what producers push between the pruning and the pops (`Candidates.OnlyLateArrivalsStale`).

## Model

| member | source | states |
|---|---|---|
| TickMath.SqrtPriceStrictlyIncreasing | crates/dex/src/uniswap_v3.rs:534-586 | over the whole tick range a higher tick has a strictly higher price |
| TickMath.SqrtPriceEnds | crates/dex/src/uniswap_v3.rs:534-586 | the prices of the lowest, middle and highest tick are the documented 4295128739, 2^96 and 1461446703485210103287273052203988822378723970342 |
| TickMath.SqrtPriceRange | crates/dex/src/uniswap_v3.rs:534-586 | every tick price lies between those two ends |
| TickMath.SqrtPriceReciprocal | crates/dex/src/uniswap_v3.rs:534-586 | the prices of t and -t multiply to 2^192, within 2^64 below and the sum of the two prices above |
| TickMath.RatioRange | crates/dex/src/uniswap_v3.rs:540-574 | the running ratio stays between 2^64 and 2^128 for every tick |
| TickMath.RatioFalls | crates/dex/src/uniswap_v3.rs:540-574 | one more tick lowers the ratio by a whole rounding unit and by at least two parts in 65536, so rounding never makes two ticks equal |
| TickMath.CheckedMaskIsStep | crates/dex/src/uniswap_v3.rs:568-573 | the overflow error of the mask loop never fires |
| TickMath.ComputeRatio | crates/dex/src/uniswap_v3.rs:540-574 | the mask loop always answers, with the ratio of the absolute tick, which FirstMask, NextMask and RatioClose pin to the powers of 1.0001 |
| TickMath.ComputeSqrtRatioAtTick | crates/dex/src/uniswap_v3.rs:534-586 | the whole method answers the tick price, which PriceStep and SqrtPriceEnds pin to the powers of 1.0001, and errs exactly outside the tick range |
| TickPrice.FirstMask | crates/dex/src/uniswap_v3.rs:541-542 | the first constant is the square root of 1/1.0001 in 128 fractional bits: its square times 10001 misses 10000 * 2^256 by at most 10001 * 2^128, from below |
| TickPrice.NextMask | crates/dex/src/uniswap_v3.rs:547-567 | every constant after it is the square of the one before, within two units |
| TickPrice.RatioClose | crates/dex/src/uniswap_v3.rs:540-574 | the ratios of two neighbouring absolute ticks are the first constant apart, within the rounding of the loop |
| TickPrice.PriceStep | crates/dex/src/uniswap_v3.rs:534-586 | a tick is a factor of 1.0001: for every tick the square of the next price times 10000 is the square of this price times 10001, each price taken within five units and 26 parts in 2^64 |
| SwapMath.Reach | crates/dex/src/uniswap_v3.rs:393-443 | a price can be reached with an input exactly when the rounded-up cost of the move is at most that input |
| SwapMath.AmountInSplit | crates/dex/src/uniswap_v3.rs:393-418 | stopping on the way never makes a move cheaper |
| SwapMath.AmountOutSplit | crates/dex/src/uniswap_v3.rs:393-418 | stopping on the way never makes a move pay more |
| SwapStep.FeeCovers | crates/dex/src/uniswap_v3.rs:316-351 | an amount survives the fee exactly when the input covers it and the fee charged on it |
| SwapStep.StepContract | crates/dex/src/uniswap_v3.rs:298-360 | the step ends between current and target price, at the target exactly when the input pays for it; input and fee never exceed what was offered and use it up when the step stops short |
| SwapStep.StepMeaning | crates/dex/src/uniswap_v3.rs:298-360 | the whole step in plain numbers: it reaches the target exactly when the input less the fee pays for it; the fee charged is then the least that leaves that input, else everything that is left over; price, input and output are the exact ones rounded against the trader |
| SwapStep.InputIsNet | crates/dex/src/uniswap_v3.rs:316-351 | what is charged as input is at most the share of input and fee together that the fee leaves, target reached or not |
| SwapStep.StepRoundsAgainstTrader | crates/dex/src/uniswap_v3.rs:298-360 | the input is never below and the output never above the exact real amounts, and each is within one unit of them |
| SwapStep.StepMono | crates/dex/src/uniswap_v3.rs:298-360 | more input goes at least as far and pays at least as much |
| SwapStep.StepSplit | crates/dex/src/uniswap_v3.rs:298-360 | two partial steps never beat the one step with the summed input |
| SwapStep.StepWithinSpot | crates/dex/src/uniswap_v3.rs:298-360 | a step never beats the spot price it starts from |
| SwapStep.StepWithinNetSpot | crates/dex/src/uniswap_v3.rs:298-360 | input and fee together, less the fee share and valued at the spot price, cover the output |
| SwapStep.RoundTripLoses | crates/dex/src/uniswap_v3.rs:298-443 | swapping in and swapping the output back within a range returns at most what went in after the fee |
| SwapEngine.Amount0Exact | crates/dex/src/uniswap_v3.rs:393-408 | the two-stage division rounds like one division, and errs exactly when the result does not fit |
| SwapEngine.Amount1Exact | crates/dex/src/uniswap_v3.rs:410-418 | the checked amount is the exact one, or an error when it does not fit |
| SwapEngine.DirectedNextExact | crates/dex/src/uniswap_v3.rs:420-443 | the next price is the exact one whenever it answers, and when it answers is known exactly |
| SwapEngine.StepRefines | crates/dex/src/uniswap_v3.rs:298-360 | whenever the checked step answers, it answers the exact step, fee included |
| SwapEngine.CheckedStepMeaning | crates/dex/src/uniswap_v3.rs:298-360 | so an answered checked step is that step in plain numbers, in either direction and whether or not the target is reached |
| SwapEngine.LiquidityDeltaIs | crates/dex/src/uniswap_v3.rs:445-453 | crossing adds the signed net, saturating at zero, and errs exactly above 256 bits |
| SwapEngine.SellToken0AnswersIff | crates/dex/src/uniswap_v3.rs:298-360 | exact condition for the step to answer when token0 is sold |
| SwapEngine.SellToken1AnswersIff | crates/dex/src/uniswap_v3.rs:298-360 | exact condition for the step to answer when token1 is sold |
| SwapEngine.StepAnswers | crates/dex/src/uniswap_v3.rs:298-532 | with liquidity below 2^128 and prices below 2^172 the step answers for every amount and every fee below one |
| V3Walk.SplittingNeverHelps | crates/dex/src/uniswap_v3.rs:150-288 | for any tick list, whenever a + b is answered, walking with a and then with b from where that ended is answered too and yields at most as much |
| V3Walk.SplitInsideRange | crates/dex/src/uniswap_v3.rs:150-288 | the case of the same law in which the first part stops inside a range |
| V3Walk.WalkMonotone | crates/dex/src/uniswap_v3.rs:150-288 | whenever a larger input is answered so is a smaller one, which yields no more and ends at a price no further along |
| V3Walk.SmallerStepAnswers | crates/dex/src/uniswap_v3.rs:298-360 | a step that answers for some input answers for every smaller one |
| V3Walk.ContinuedStepAnswers | crates/dex/src/uniswap_v3.rs:298-360 | a step that stopped short can be continued by any amount the whole step would take |
| V3Walk.WalkWithinSpot | crates/dex/src/uniswap_v3.rs:150-288 | the input spent less the fee share of it, valued at the starting spot price, covers the output over the whole walk: no crossed range is free of fee, empty ranges and exhausted tail included |
| V3Walk.WalkEnds | crates/dex/src/uniswap_v3.rs:150-288 | input is left over only when the ticks have run out, and the price moves only one way |
| V3Walk.WalkRest | crates/dex/src/uniswap_v3.rs:150-288 | the ticks not crossed are the tail of the list and the diagnostics count the others |
| V3Walk.Token1TailAnswersIff | crates/dex/src/uniswap_v3.rs:262-285 | the step after the last tick, selling token1, answers exactly when the cost of reaching the largest 256-bit price fits 256 bits |
| V3Walk.Token1TailFails | crates/dex/src/uniswap_v3.rs:262-285 | a concrete liquidity and price at which it errs for every input |
| V3Route.WalkIsRoute | crates/dex/src/uniswap_v3.rs:150-288 | every answered walk is a list of legs in plain numbers: each starts where the one before ended, aims at the next tick or the extreme price, spends what is left and moves by the step in plain numbers; a reached tick adds its net on the side the walk is going; outputs add up and the diagnostics count the legs |
| V3Quote.SimulateZeroForOne | crates/dex/src/uniswap_v3.rs:150-218 | the loop that sells token0 is the walk over the ticks at or below the current one, highest first |
| V3Quote.SimulateOneForZero | crates/dex/src/uniswap_v3.rs:220-288 | the loop that sells token1 is the walk over the ticks above the current one, lowest first |
| V3Quote.QuoteExactInWithTicks | crates/dex/src/uniswap_v3.rs:98-148 | the quoter answers that walk in the direction of the input token, and errs for any other token; QuoteIsRoute says in numbers what the walk is |
| V3Route.QuoteIsRoute | crates/dex/src/uniswap_v3.rs:98-288 | every answered quote is such a list of legs, over the ticks on the side the price moves to, each as often as listed and in the order they are reached, at the pool's fee and from its price and liquidity |
| V3Quote.FeeIs | crates/dex/src/uniswap_v3.rs:362-375 | explicit pips win; a fee in basis points leaves the same share of every input, and is refused exactly for Slipstream pools and from 100% on |
| V3Quote.SpotQuoteIs | crates/dex/src/uniswap_v3.rs:64-85 | the spot quote is the floor of the input times the squared price, or divided by it, and errs exactly when a 256-bit stage overflows |
| V3Quote.CurrentTickMeaning | crates/dex/src/uniswap_v3.rs:22-62 | the single-range quoter moves to the furthest price the input less the fee pays for, and pays what that move is worth within one unit |
| V3Quote.AheadAligned | crates/dex/src/uniswap_v3.rs:150-288 | filtering and sorting put every target on the right side of a consistent price, whatever list is given |
| V3Quote.QuoteAtMostSpot | crates/dex/src/uniswap_v3.rs:64-148 | in both directions the quote never exceeds the spot quote of the same input, nor the spot value of the input less the fee share |
| V3Quote.QuoteMonotone | crates/dex/src/uniswap_v3.rs:98-148 | whenever a larger input is quoted so is a smaller one, and for no more |
| V3Quote.QuoteSplit | crates/dex/src/uniswap_v3.rs:98-148 | whenever the sum is quoted so are its two parts, the second from where the first ended, and they never add up to more |
| V3Quote.RisingPastTheLastTickFails | crates/dex/src/uniswap_v3.rs:98-148 | a concrete pool with one tick for which every positive amount of token1 errs |
| V3Quote.CurrentTickQuoteIsWalk | crates/dex/src/uniswap_v3.rs:22-62 | the single-range quoter answers what the tick walk answers whenever the input does not reach the next target |
| V3Quote.CurrentTickRoundTrip | crates/dex/src/uniswap_v3.rs:22-62 | whenever selling x is quoted, all it bought can be sold back at the moved price, for at most x |
| TickTable.EditLists | crates/market-data/src/listener.rs:3517-3585 | editing the unordered list in place (assign, push or swap-remove) does what the delta does to the table, and errs exactly when that does |
| TickTable.DeltaIs | crates/market-data/src/listener.rs:3517-3585 | one delta adds to gross and net in plain numbers, gross stopping at zero, removes a tick left without gross, and errs exactly when net leaves 128 bits or gross 256 |
| TickTable.UnseenBurn | crates/market-data/src/listener.rs:3517-3585 | burning at ticks that were never recorded changes nothing |
| TickTable.TickStore.GetPoolTicks | crates/storage/src/lib.rs:376-385 | a pool's ticks, each once, by rising tick |
| TickTable.TickStore.ReplacePoolTicks | crates/storage/src/lib.rs:363-374 | the pool has exactly the given ticks afterwards, the last of several for a tick counting, and no other pool changes |
| TickTable.LastEntryCounts | crates/storage/src/lib.rs:363-374 | of several entries for a tick the last is the one filed |
| TickTable.FiledLists | crates/storage/src/lib.rs:363-374 | a list without repeated ticks is filed as the table it lists |
| TickTable.TickStore.ApplyTickDeltas | crates/market-data/src/listener.rs:3517-3585 | the stored table becomes the one the deltas call for, or stays as it was when a delta errs |
| TickTable.ChangeKeepsSummary | crates/market-data/src/listener.rs:3517-3585 | a legal change never errs, and afterwards the table holds exactly the ticks with gross liquidity, with the positions' gross and net sums |
| TickTable.BurnUndoesMint | crates/market-data/src/state_updater.rs:202-264 | burning what was just minted restores the table exactly |
| TickTable.TableFollowsPositions | crates/market-data/src/listener.rs:3517-3585 | after every legal history the table summarises the positions |
| V3Pool.PrefixIsActive | crates/market-data/src/listener.rs:3517-3585 | every prefix of the nets sums to the liquidity active there |
| V3Pool.NetsSumToZero | crates/market-data/src/listener.rs:3517-3585 | all nets together cancel |
| V3Pool.CrossKeepsActive | crates/dex/src/uniswap_v3.rs:445-453 | crossing a tick turns the liquidity active on one side into that on the other, without overflow and without saturating |
| V3Pool.WalkLiquidityIsActive | crates/dex/src/uniswap_v3.rs:150-288 | the liquidity a walk ends with is that of the positions around the point it reached |
| V3Pool.WalkAnswers | crates/dex/src/uniswap_v3.rs:150-288 | a walk over a pool's own table always answers and never runs off its end |
| V3Pool.HistoryFeeds | crates/market-data/src/listener.rs:3517-3585 | the stored table of any legal history, filtered and sorted, is what the walk needs |
| V3Pool.PoolAlwaysQuotes | crates/dex/src/uniswap_v3.rs:98-148 | for a pool whose table was built from its own events every quote of every amount in either direction answers |
| V3Pool.PoolQuotesMonotone | crates/dex/src/uniswap_v3.rs:98-148 | for such a pool quotes are monotone over all inputs, unconditionally |
| V3Pool.PoolQuotesSplit | crates/dex/src/uniswap_v3.rs:98-148 | for such a pool splitting never helps, over all inputs, unconditionally |
| AerodromeVolatile.QuoteIsLargestAllowed | crates/dex/src/aerodrome.rs:16-45 | an answered quote is the largest output the constant-product curve allows for the input less its fee |
| AerodromeVolatile.QuoteAnswersIff | crates/dex/src/aerodrome.rs:16-45 | a quote is answered exactly when both reserves are positive and the input is zero, or the fee is a fraction and numerator and denominator fit 256 bits |
| AerodromeVolatile.OutputBelowReserve | crates/dex/src/aerodrome.rs:16-45 | the output is strictly below the reserve |
| AerodromeVolatile.OutputMonotone | crates/dex/src/aerodrome.rs:16-45 | whenever a larger input is answered so is a smaller one, which yields no more |
| AerodromeVolatile.ProductKept | crates/dex/src/aerodrome.rs:16-45 | the product of the reserves never falls |
| AerodromeVolatile.RoundTripLoses | crates/dex/src/aerodrome.rs:16-45 | trading the output back on the updated reserves returns at most the input |
| AerodromeVolatile.SplittingNeverHelps | crates/dex/src/aerodrome.rs:16-45 | whenever a trade is answered so is its first part, and a second part on the updated reserves never makes the two pay more |
| AerodromeStable.GetY | crates/dex/src/aerodrome.rs:188-240 | the Newton loop answers what at most 255 turns of the iteration answer |
| AerodromeStable.CurveMonotone | crates/dex/src/aerodrome.rs:124-164 | rounding and all, the curve rises in both reserves |
| AerodromeStable.CurveRefines | crates/dex/src/aerodrome.rs:124-164 | the checked curve is the unbounded one whenever it answers |
| StableCurve.CurveNear | crates/dex/src/aerodrome.rs:124-143 | the truncated curve is x y (x^2 + y^2) in 18 decimals: never above it, and below it by less than one unit and the square of the reserves in tokens |
| StableCurve.SlopeIsNear | crates/dex/src/aerodrome.rs:166-186 | the truncated slope is x^3 + 3 x y^2 in 18 decimals: never above it, and below it by less than two units and four times x in tokens |
| StableCurve.CurveAnswersIff | crates/dex/src/aerodrome.rs:124-143 | the checked curve errs exactly when one of its five intermediate values leaves 256 bits |
| StableCurve.SlopeAnswersIff | crates/dex/src/aerodrome.rs:166-186 | the checked slope errs exactly when one of its six intermediate values leaves 256 bits |
| AerodromeStable.RootBracketed | crates/dex/src/aerodrome.rs:188-240 | an answer y has f(x0, y) at or above the target and, unless it is exact or zero, f(x0, y - 1) below it, from any start |
| AerodromeStable.RootNotAboveStart | crates/dex/src/aerodrome.rs:188-240 | started at or above the target the answer is not above the start |
| AerodromeStable.RootNeverAboveReserve | crates/dex/src/aerodrome.rs:72-79 | the "stable y overflow" branch cannot be taken |
| AerodromeStable.ComputePow10 | crates/dex/src/aerodrome.rs:98-106 | the loop answers the power of ten, and errs exactly when it does not fit 256 bits |
| AerodromeStable.QuoteAmountOut | crates/dex/src/aerodrome.rs:52-85 | the method answers the quote whose every part QuoteFacts fixes, its input checks and errors included |
| AerodromeStable.QuoteFacts | crates/dex/src/aerodrome.rs:52-85 | an answered quote counts exactly the input times (10000 - fee) / 10000, solves at the scaled reserve plus that, and pays the scaled reserve of the other side less the bracketed root, scaled back; everything is taken at the pre-trade curve |
| AerodromeStable.AfterFeeIs | crates/dex/src/aerodrome.rs:66-71 | the part of the input that counts, for every fee and amount |
| AerodromeStable.CurveKept | crates/dex/src/aerodrome.rs:52-85 | the quote never exceeds the reserve and the curve through the reserves never falls, for any decimals on either side |
| AerodromeStable.CurveStrict | crates/dex/src/aerodrome.rs:145-164 | with at least one whole token on the other side the curve rises with every unit |
| AerodromeStable.RootRisesOnlyWhereFlat | crates/dex/src/aerodrome.rs:188-240 | for any reserves a larger input reserve leaves a larger root only where the curve keeps the target value from the one root to the other |
| AerodromeStable.RootFalls | crates/dex/src/aerodrome.rs:188-240 | a larger input reserve of at least one token never leaves a larger root |
| AerodromeStable.QuoteMonotone | crates/dex/src/aerodrome.rs:52-85 | of two answered quotes of a pool with at least one token on the input side, the larger input never pays less |
| AerodromeStable.PaysLessOnlyWhereFlat | crates/dex/src/aerodrome.rs:52-85 | for any pool, of two answered quotes the larger input pays less only where its curve is flat between the two roots |
| AerodromeStable.LargerDustPaysLess | crates/dex/src/aerodrome.rs:52-85 | a concrete pool with less than one token on the input side where a larger input pays less |
| StableCurve.TwoTokens | crates/dex/src/aerodrome.rs:124-143 | wherever the truncated curve reaches two units, the two reserves add up to at least two tokens |
| StableCurve.GapIsWide | crates/dex/src/aerodrome.rs:145-186 | from one token on, the chord of the truncated curve below a point is at least a third of the computed tangent there, but for seven units of the slope |
| StableCurve.GapIsNarrow | crates/dex/src/aerodrome.rs:145-186 | on reserves of two tokens in all, the chord over n units exceeds the computed tangent by less than one unit of the other reserve, all roundings included |
| StableCurve.UnitRise | crates/dex/src/aerodrome.rs:145-186 | between neighbours the truncated curve rises by less than twice the computed slope, all roundings included |
| StableConvergence.StepDown | crates/dex/src/aerodrome.rs:188-240 | a turn above the root goes down, passes the root by at most one unit, and leaves at most two thirds of the way and three units |
| StableConvergence.AtRoot | crates/dex/src/aerodrome.rs:188-240 | a turn at the root ends the iteration or goes one unit below |
| StableConvergence.BelowRoot | crates/dex/src/aerodrome.rs:188-240 | a turn one unit below the root ends the iteration, or goes back and the next turn ends it |
| StableConvergence.FarAnswers | crates/dex/src/aerodrome.rs:188-240 | started within the reach of n turns above the root the iteration answers in n + 12 turns |
| StableConvergence.NewtonAnswersIff | crates/dex/src/aerodrome.rs:188-240 | with at least one token on the input side and a curve of at least two units, the 255 turns answer exactly when curve and slope fit 256 bits at the start |
| StableQuotes.QuoteAnswersIff | crates/dex/src/aerodrome.rs:52-85 | a quote of a pool with at least one token on each side errs exactly when the fee is no fraction or something does not fit 256 bits at its start; never because the iteration does not settle or the output does not scale back |
| StableQuotes.SmallerQuoteAnswers | crates/dex/src/aerodrome.rs:52-85 | for such a pool every smaller input of an answered quote is answered, and pays no more |
| StableQuotes.LoopNeverAnswers | crates/dex/src/aerodrome.rs:188-240 | three concrete points follow each other for any number of turns |
| StableQuotes.QuoteNeedNotSettle | crates/dex/src/aerodrome.rs:52-85 | a concrete pool with less than one token on the input side whose quote errs though nothing overflows |
| FeePolicy.AggressivePayable | crates/execution-manager/src/tx_manager.rs:565-590 | the priority fee never exceeds the maximum fee, as the Specification section of EIP-1559 requires |
| FeePolicy.AggressiveIsLeast | crates/execution-manager/src/tx_manager.rs:565-590 | the first fees are the least that meet the multiplied suggestion, the configured minimum and the suggested maximum |
| FeePolicy.ApplyBpsIs | crates/execution-manager/src/tx_manager.rs:596-601 | a multiplier in basis points is the largest whole fee within it, saturating products included |
| FeePolicy.BumpIsLeast | crates/execution-manager/src/tx_manager.rs:592-594 | the bumped fee is the least whole fee strictly above the fee times the bump, saturating products included |
| FeePolicy.ReplacementIsLeast | crates/execution-manager/src/tx_manager.rs:314-322 | a replacement pays in both fees the least that tops the bumped old fee and meets the new suggestion |
| FeePolicy.ReplacementPayable | crates/execution-manager/src/tx_manager.rs:314-322 | a replacement of a payable transaction is payable, saturating or not |
| FeePolicy.BumpGrows | crates/execution-manager/src/tx_manager.rs:592-601 | below saturation the bumped fee exceeds the fee times the configured factor |
| FeePolicy.BumpIncreasesIff | crates/execution-manager/src/tx_manager.rs:592-601 | for every bump setting and every fee: the fee rises exactly when it is zero, or the bump is at least 100% and the fee at most a ten-thousandth of the 256-bit range |
| FeePolicy.BumpStopsIncreasing | crates/execution-manager/src/tx_manager.rs:592-601 | a concrete fee the bump does not raise |
| FeePolicy.SmallBumpLowers | crates/execution-manager/src/tx_manager.rs:592-601 | a concrete fee that a bump below 100% lowers |
| FeePolicy.ReplacementsCompound | crates/execution-manager/src/tx_manager.rs:296-321 | after k replacements both fees have grown by the k-th power of the bump |
| FeePolicy.ReplacementStrictlyIncreases | crates/execution-manager/src/tx_manager.rs:296-321 | each replacement raises both fees |
| Lane.EoaLane.constructor | crates/execution-manager/src/eoa_lane.rs:12-32 | a new lane is idle with nothing pending |
| Lane.EoaLane.MarkSubmitted | crates/execution-manager/src/eoa_lane.rs:34-58 | all pending data is the submission's, the next nonce follows it (saturating), the replacement count starts over |
| Lane.EoaLane.MarkReplaced | crates/execution-manager/src/eoa_lane.rs:60-76 | hash, block, gas limit and fees are the replacement's, the count rises by one; nonce, executor, opportunity and simulation stay |
| Lane.EoaLane.MarkConfirmed | crates/execution-manager/src/eoa_lane.rs:78-91 | nothing pending is left; next nonce and balance stay |
| Lane.EoaLane.ClearConsumedPending | crates/execution-manager/src/eoa_lane.rs:93-102 | nothing pending is left and nonces and balance are the chain's |
| Lane.EoaLane.MarkBlocked | crates/execution-manager/src/eoa_lane.rs:104-106 | the lane is blocked and nothing else changes |
| Lane.EoaLane.MarkCooldown | crates/execution-manager/src/eoa_lane.rs:108-110 | the lane cools down and nothing else changes |
| Lane.ClearingForgets | crates/execution-manager/src/eoa_lane.rs:34-102 | a submission and any number of replacements leave no trace after the lane is cleared |
| LaneSteps.HandlingCases | crates/execution-manager/src/main.rs:1732-1965 | handling a pending lane records a receipt and is cut short, clears the lane, replaces the transaction or does nothing, each exactly under its own answers; a replacement keeps nonce and gas limit |
| LaneSteps.ReplacingCases | crates/execution-manager/src/main.rs:1867-1965 | a replacement goes out exactly when one is left, enough blocks have passed and everything needed is there |
| LaneSteps.HandlingErrsIff | crates/execution-manager/src/main.rs:1732-1965 | handling errs exactly when a question it depends on is not answered: receipt, counts, block or calldata |
| LaneSteps.HandlingKeepsSound | crates/execution-manager/src/main.rs:1732-1865 | handling leaves a lane pending with all its data or with none, never blocked |
| LaneSteps.SyncKeepsSound | crates/execution-manager/src/main.rs:1718-1730 | synchronising and funding end idle, the next nonce at or above the confirmed count and that at or above what the chain had shown |
| LaneSteps.SyncIs | crates/execution-manager/src/main.rs:1368-1434 | the exact nonces and balance after synchronising, and when a lane is funded: below the minimum and the target, from another account that keeps something, by a transfer that is mined |
| LaneSteps.SubmittingKeepsSound | crates/execution-manager/src/main.rs:1078-1206 | a submission uses the lane's next nonce and leaves it pending; a failure leaves it cooling down |
| LaneSteps.SubmittedIff | crates/execution-manager/src/main.rs:1078-1206 | a transaction is submitted exactly when all it needs is there; then every field of the lane and of the record is that of the request; a failure after the lock cools the lane down and records a drop |
| LaneSteps.GasLimitIs | crates/execution-manager/src/tx_manager.rs:557-563 | the gas limit is a fifth above the estimate, rounded down, and 25000, saturating |
| LaneProtocol.ActKeepsInv | crates/execution-manager/src/main.rs:1078-1206 | every operation of the protocol keeps the invariant of lanes, nonces and ledger |
| LaneProtocol.HandlingKeepsLedger | crates/execution-manager/src/main.rs:1732-1965 | handling keeps the ledger, read by hash, in step with the lanes |
| LaneProtocol.SubmittingKeepsLedger | crates/execution-manager/src/main.rs:1157-1204 | submitting keeps the ledger, read by hash, in step with the lanes |
| LaneProtocol.HandlingKeepsNonces | crates/execution-manager/src/main.rs:1732-1865 | handling never lets a used nonce come back |
| LaneProtocol.FailedApprovalKeepsInv | crates/execution-manager/src/main.rs:1010-1035 | the record of an approval that could not be sent changes no lane and nothing the ledger says of any hash |
| LaneProtocol.RunKeepsInv | crates/execution-manager/src/main.rs:1301-1366 | every legal run keeps the invariant of lanes, nonces and ledger |
| LaneSafety.LanesAreSound | crates/execution-manager/src/main.rs:1732-1760 | over every run a lane is pending with all its data, the next nonce one above the pending one, or has none; no lane is ever blocked; the replacement count stays within its limit |
| LaneSafety.SubmittedNoncesIncrease | crates/execution-manager/src/main.rs:1078-1206 | over every run the nonces of an account's successful submissions strictly increase |
| LaneSafety.LedgerAgreesWithLane | crates/execution-manager/src/tx_manager.rs:414-532 | over every run the ledger, the last record of a hash winning, has in flight exactly the lane's pending transaction and nothing when the lane is not pending |
| LaneSafety.PendingHashesDistinct | crates/execution-manager/src/main.rs:1732-1965 | no two accounts have the same transaction pending |
| LaneSafety.PendingNeverLost | crates/execution-manager/src/main.rs:1732-1965 | when an operation takes a pending transaction off its lane, the ledger has its fate under its account and nonce |
| LaneSafety.LedgerChange | crates/execution-manager/src/tx_manager.rs:414-532 | one operation changes the last word on a hash only by giving the handled pending transaction its fate or by putting a new hash in flight |
| LaneSafety.FateIsFinal | crates/execution-manager/src/tx_manager.rs:414-532 | the fate of a transaction no lane has pending never changes again, over every run |
| LaneSafety.HandlingAgreesIff | crates/execution-manager/src/main.rs:1790-1802 | handling keeps lane and ledger in agreement exactly when no question fails after a receipt was recorded |
| LaneSafety.AgreementCanFail | crates/execution-manager/src/main.rs:1790-1802 | a concrete run of two operations after which they disagree |
| LaneSafety.NextHandlingRepairs | crates/execution-manager/src/main.rs:1732-1865 | the next handling that answers clears the lane and restores agreement |
| LaneSafety.RunKeepsFees | crates/execution-manager/src/tx_manager.rs:296-321 | over every run the compounding of replacement fees is kept |
| LaneSafety.ReplacedFeesCompound | crates/execution-manager/src/tx_manager.rs:296-321 | over every run a transaction replaced k times pays at least its first fees times the k-th power of the bump, until a fee reaches the saturating part of the range, and stays payable |
| LaneSafety.ReplacedFeesRise | crates/execution-manager/src/main.rs:1867-1965 | handling a lane that goes out again raises both its pending fees, for a bump of at least 100% and a fee below the saturating part of the range |
| LaneSafety.NewHashPaysMore | crates/execution-manager/src/main.rs:1867-1965 | whatever operation a run performs, a pending transaction that gives way to another one does so to one with both fees higher, in the same range |
| ExecutionManager.PendingStepsRun | crates/execution-manager/src/main.rs:1339-1366 | reconciling the pending lanes is a run that submits nothing |
| ExecutionManager.AllStepsRun | crates/execution-manager/src/main.rs:1301-1337 | reconciling all lanes is a run that submits nothing |
| ExecutionManager.PendingMeaning | crates/execution-manager/src/main.rs:1339-1366 | the pass handles every pending worker's lane once and touches no other, up to the first whose handling fails, and fails exactly when there is one |
| ExecutionManager.WorkerMeaning | crates/execution-manager/src/main.rs:1314-1335 | one worker's lane is still pending after handling, or synchronised and funded; no other lane changes; the errors are exactly those of the three |
| ExecutionManager.AllMeaning | crates/execution-manager/src/main.rs:1301-1337 | the pass reconciles every worker's lane so, up to the first that fails, and fails exactly when there is one |
| ExecutionManager.SelectIff | crates/execution-manager/src/main.rs:244-290 | a worker is chosen exactly when no handling fails, the breaker does not halt and some worker is ready, or is after a full pass that does not fail; it is the first ready one |
| ExecutionManager.IdleWorkerIsEnough | crates/execution-manager/src/main.rs:244-290 | an idle worker with the minimum balance is enough unless a handling fails or the breaker halts |
| ExecutionManager.SelectIsRun | crates/execution-manager/src/main.rs:244-290 | choosing a worker is a run that submits nothing and ends with a configured worker that is idle and funded |
| ExecutionManager.BatchStepsRun | crates/execution-manager/src/main.rs:766-792 | a batch submits one transaction if it says so and none otherwise |
| ExecutionManager.BatchSubmitsIff | crates/execution-manager/src/main.rs:766-792 | a batch submits exactly when one of its requests has all it needs and no earlier one errs, whatever the stores hold; it is the first such request and the last tried |
| ExecutionManager.CycleIsRun | crates/execution-manager/src/main.rs:222-385 | whatever it is answered, a cycle is a run of the protocol and submits at most one transaction |
| ExecutionManager.Manager.SafeWhenFair | crates/execution-manager/src/main.rs:222-385 | at any moment, if the environment behaved, the stores are those of a legal run, so everything proved of runs holds |
| ExecutionManager.Manager.HandlePendingLane | crates/execution-manager/src/main.rs:1732-1827 | the method does to lane, store and ledger what the specification of handling says |
| ExecutionManager.Manager.ClearLaneIfPendingNonceConsumed | crates/execution-manager/src/main.rs:1820-1865 | clears exactly when the count has passed the nonce and every question is answered; otherwise touches nothing |
| ExecutionManager.Manager.MaybeReplacePendingTx | crates/execution-manager/src/main.rs:1867-1989 | the method does what the specification of replacing says |
| ExecutionManager.Manager.SyncIdleLane | crates/execution-manager/src/main.rs:1718-1730 | the lane takes the chain's counts and balance and is idle |
| ExecutionManager.Manager.FundWorkerLaneIfNeeded | crates/execution-manager/src/main.rs:1368-1434 | an idle lane below the minimum is funded from another account that can pay, and synchronised once the transfer is mined; otherwise untouched or an error |
| ExecutionManager.Manager.WaitForWorkerFundingReceipt | crates/execution-manager/src/main.rs:1438-1449 | waiting ends well exactly when one of the eighty questions is answered by a successful receipt and every earlier one by none |
| ExecutionManager.Manager.ReconcilePendingWorkerLanes | crates/execution-manager/src/main.rs:1339-1366 | performs the specified operations on stores and log, submits nothing |
| ExecutionManager.Manager.ReconcileWorker | crates/execution-manager/src/main.rs:1314-1335 | handles a pending lane and synchronises it unless it is still pending |
| ExecutionManager.Manager.ReconcileWorkerLanes | crates/execution-manager/src/main.rs:1301-1337 | performs the specified operations on stores and log, submits nothing |
| ExecutionManager.FirstReady | crates/execution-manager/src/main.rs:1451-1474 | the chosen worker is the first configured one whose stored lane is idle and holds the minimum balance, and there is none only when no worker's does |
| ExecutionManager.Manager.SelectCachedReadyWorker | crates/execution-manager/src/main.rs:1451-1474 | chooses the first ready worker |
| ExecutionManager.Manager.SelectWorker | crates/execution-manager/src/main.rs:244-290 | handles the pending lanes, and reconciles every lane only if no worker is ready then |
| ExecutionManager.Manager.SubmitSimulatedCandidate | crates/execution-manager/src/main.rs:1078-1206 | one submission attempt on a lane that is not pending, which stays so unless the attempt succeeded |
| ExecutionManager.Manager.RecordFailedApproval | crates/execution-manager/src/main.rs:1010-1035 | an approval that could not be sent leaves one dropped record without hash or simulation, and changes no lane |
| ExecutionManager.Manager.RunLiveSubmissionBatch | crates/execution-manager/src/main.rs:766-792 | tries requests in order, stops at the first success or error, says which one went out, and never submits from a pending lane |
| ExecutionCycle.PreflightMeaning | crates/execution-manager/src/main.rs:617-679 | the preflight errs exactly when the check of some recent candidate errs; otherwise the ready ones are those that encode and have every approval, in order, and every approval that could not be sent is noted |
| ExecutionCycle.PreflightAnswers | crates/execution-manager/src/main.rs:822-1038 | when the check of one candidate lets it on, errs, or tries an approval, in terms of what it meets |
| ExecutionCycle.NotesMeaning | crates/execution-manager/src/main.rs:1010-1035 | the notes are exactly the approvals that were tried and could not be sent, in order, with the fund wallet's nonce |
| ExecutionCycle.OfferedMeaning | crates/execution-manager/src/main.rs:617-764 | a batch that does not fail offers exactly the candidates that pass and whose simulation succeeds, each as often as it is there |
| ExecutionCycle.OfferFails | crates/execution-manager/src/main.rs:640-653 | a batch fails exactly when the check of some candidate errs |
| ExecutionCycle.MostProfitableFirst | crates/execution-manager/src/main.rs:762-764 | candidates are tried by falling simulated profit |
| ExecutionCycle.Executor.RunPreflight | crates/execution-manager/src/main.rs:617-679 | the loop answers that preflight and writes a ledger record for every note |
| ExecutionCycle.PruningKeeps | crates/execution-manager/src/main.rs:442-444 | the known keys are always exactly the keys ever sent of blocks not left behind |
| CurrentBlock.StoredIsGreatest | crates/storage/src/lib.rs:332-341 | the store holds the greatest number ever written, and none exactly when nothing was |
| CurrentBlock.StoredNeverFalls | crates/storage/src/lib.rs:332-341 | no list of further writes makes the stored number fall |
| CurrentBlock.CurrentBlockStore.SetCurrentBlock | crates/storage/src/lib.rs:332-336 | the stored number is what the whole list of writes, this one last, leaves |
| ExecutionCycle.Executor.TakeCandidates | crates/execution-manager/src/main.rs:291-295 | what a drain takes leaves the front of the queue, the rest stays; of the fresh candidates taken one of every key is kept, with at least the profit of any other, and nothing else; most profitable first |
| ExecutionCycle.Executor.DropSubmitted | crates/execution-manager/src/main.rs:296-309 | exactly those are dropped whose key was ever sent, and each of them is among the known keys; the rest keep order and meaning |
| ExecutionCycle.Executor.SubmitBest | crates/execution-manager/src/main.rs:590-792 | a batch records the approvals that failed, offers the candidates that pass the preflight and whose simulation succeeds, by profit, and adds the key it submits, and no other, to the known and the sent ones |
| ExecutionCycle.Executor.RunExecutionCycle | crates/execution-manager/src/main.rs:222-385 | one cycle, at the stored block: lanes and ledger go through the specified cycle, the queue is drained exactly when a worker is chosen or nothing is to be submitted, the best fresh candidates never sent before are offered, and the one submitted joins the keys |
| ExecutionCycle.CycleSubmits | crates/execution-manager/src/main.rs:291-385 | a cycle that has chosen a worker submits whenever one of its candidates passes, simulates and has all a submission needs, no candidate's check errs, and none that gains as much errs |
| ExecutionCycle.SubmittedIsBest | crates/execution-manager/src/main.rs:291-385 | what a cycle submits is one of its candidates that passes, simulates and has all it needs; every one that gains more lacks something; its key joins the sent ones and its request, under its own id, is the last operation |
| ExecutionCycle.ShortQueueIsTaken | crates/execution-manager/src/main.rs:1597-1653 | of a queue of at most 128 every fresh candidate is taken |
| ExecutionCycle.QueuedCandidateGoesOut | crates/execution-manager/src/main.rs:222-385 | a fresh candidate in a queue of at most 128 whose key was never sent makes the cycle submit, when the fresh ones taken with it meet nothing that stops them |
| ExecutionCycle.Executor.RunCycles | crates/execution-manager/src/main.rs:204-219 | the loop runs one cycle for each tick, each from where the one before and what arrived in between left things, and stops at the first error; however blocks are written and whatever the cycles are answered, no key is submitted twice, and the keys are as many as the transactions submitted |
| Calldata.ValueOfBigEndian | crates/execution-manager/src/simulator.rs:826-836 | a number that fits is read back from its bytes |
| Calldata.AddressIsWord | crates/execution-manager/src/simulator.rs:820-824 | an address takes the same word as the number it is |
| Calldata.BuildTuple | crates/execution-manager/src/simulator.rs:474-487 | the appended bytes are the tuple's encoding, which the decoder reads back and which has no superfluous word |
| Calldata.BuildSteps | crates/execution-manager/src/simulator.rs:447-472 | the loops with the running checked offset build the array's encoding, and err exactly when the total leaves the machine word |
| Calldata.BuildExecuteCalldata | crates/execution-manager/src/simulator.rs:365-384 | the built bytes are the encoding of the call, which the decoder reads back and whose length CalldataLength gives |
| Calldata.BytesHeld | crates/execution-manager/src/simulator.rs:842-848 | the decoder, which refuses any padding but zeros up to a whole word, reads dynamic bytes back wherever they lie |
| Calldata.BytesComplete | crates/execution-manager/src/simulator.rs:842-848 | dynamic bytes take the least whole number of words for a length and the data, and everything after the data is zero |
| Calldata.TupleHeld | crates/execution-manager/src/simulator.rs:474-487 | the decoder reads a tuple back wherever it lies, or refuses it exactly when its fee exceeds 24 bits |
| Calldata.OffsetLandsOnTuple | crates/execution-manager/src/simulator.rs:457-471 | each offset word leads to its own tuple |
| Calldata.RoundTrip | crates/execution-manager/src/simulator.rs:365-384 | for any number of steps and any data the decoder of the ABI specification recovers the whole call exactly when every fee fits 24 bits, and refuses it otherwise |
| Calldata.WideFeeRefused | crates/execution-manager/src/simulator.rs:635-661 | a one-step call is encoded for every pool fee, and refused by the decoder exactly when the fee is above 167772 basis points |
| Calldata.EncodingInjective | crates/execution-manager/src/simulator.rs:365-384 | different calls have different calldata |
| Calldata.CalldataLength | crates/execution-manager/src/simulator.rs:365-384 | the exact length: selector, six words, and for each step its offset, its words and its data rounded up; the call is encoded exactly when the steps' part fits the machine word |
| DedupCache.RecentCache.Insert | crates/market-data/src/listener.rs:4961-4973 | a key is refused exactly when it is among the last limit accepted ones; the queue is that window and the set its elements, in step with the whole history |
| DedupCache.WindowDistinct | crates/market-data/src/listener.rs:4946-4974 | the window never holds a key twice |
| DedupCache.RepeatsAreFarApart | crates/market-data/src/listener.rs:4986-5013 | a key is accepted again only after more than limit positions |
| Candidates.CandidateQueue.PruneCandidatesBeforeBlock | crates/storage/src/lib.rs:425-433 | keeps exactly the candidates from the block on and answers how many went |
| Candidates.PrunedIs | crates/storage/src/lib.rs:425-433 | pruning keeps every candidate of the block or later as often as it was there, none of an earlier one, and the order |
| Candidates.FreshIff | crates/execution-manager/src/main.rs:1636-1648 | fresh means not expired and at most the configured number of blocks behind |
| Candidates.SameKeyIff | crates/execution-manager/src/main.rs:406-424 | two candidates are one execution exactly when block, path, input token and amount agree |
| Candidates.CandidateQueue.PopCandidates | crates/storage/src/lib.rs:439-449 | takes the longest prefix up to the limit |
| Candidates.CandidateQueue.PopFreshCandidates | crates/execution-manager/src/main.rs:1597-1693 | the chunked drain takes exactly the prefix a one-at-a-time drain takes of the pruned queue and whatever is pushed meanwhile, keeps its fresh candidates by falling profit, and kept, expired and stale add up to popped |
| Candidates.CandidateQueue.Drain | crates/execution-manager/src/main.rs:1619-1653 | the loop stops only at a limit or when a pop finds nothing |
| Candidates.ChunkIsSteps | crates/execution-manager/src/main.rs:1619-1653 | a chunk within both limits takes the drain no further than single candidates would |
| Candidates.DrainBounds | crates/execution-manager/src/main.rs:1619-1653 | at most 2048 are popped and at most 128 kept; the drain stops at a limit or at the end, and not before |
| Candidates.KeptPartition | crates/execution-manager/src/main.rs:1636-1652 | the kept candidates are the fresh ones of the popped prefix, each as often |
| Candidates.NothingStale | crates/execution-manager/src/main.rs:1614-1617 | pruning leaves no stale candidate in the queue |
| Candidates.OnlyLateArrivalsStale | crates/execution-manager/src/main.rs:1642-1648 | the second check for staleness rejects at most what was pushed after the pruning |
| Candidates.BestMeaning | crates/execution-manager/src/main.rs:451-472 | the candidate kept for a key has its key's largest profit, and is the first with it |
| Candidates.CoalesceCandidatesByExecutionKey | crates/execution-manager/src/main.rs:451-472 | one candidate for every key, its best, by falling profit; kept and coalesced add up to the input |
| Arith.NestedFloor | crates/dex/src/uniswap_v3.rs:393-408 | rounding down twice is rounding down once |
| Arith.NestedCeil | crates/dex/src/uniswap_v3.rs:393-408 | rounding up twice is rounding up once |
| U256Math.ProductIs | crates/dex/src/uniswap_v3.rs:477-527 | the product the checked layer computes is the product |
| U256Math.QuotientIs | crates/dex/src/uniswap_v3.rs:477-527 | the quotient the checked layer computes is the quotient rounded down |
| U256Math.MulDivIs | crates/dex/src/uniswap_v3.rs:477-482 | the 512-bit product divided and narrowed is the quotient rounded down, or an error when it does not fit |
| U256Math.CheckedMulIs | crates/dex/src/aerodrome.rs:124-143 | the checked product is the product, or an error exactly when it does not fit |
| U256Math.RoundUpIsCeil | crates/dex/src/uniswap_v3.rs:494-527 | the source's quotient-and-remainder rounding is the ceiling |

## Left out

- Balancer quoting: floating point with `powf`, no integer semantics.
- StableConvergence.NewtonAnswersIff: with less than one token on the input side the iteration settles for some pools and not for others, and which is not characterised; every other property of the stable quoter is of the answers it gives.
- AerodromeVolatile.RoundTripLoses: the return quote, like the second part of a split, need not be answered on the updated reserves; the bound is of its answer.
- AerodromeStable.QuoteMonotone: below one token it fails for some inputs and holds for others; AerodromeStable.PaysLessOnlyWhereFlat says where it can fail, not that it does.
- TickTable.ChangeKeepsSummary: a legal history keeps total liquidity within a signed 128-bit number, which the pool contract's per-tick limit implies; the contract itself is not part of this model.
- Decoding logs into events, and the early returns for pools of another kind.
- V3Quote.QuoteExactInWithTicks: pool addresses, block numbers and timestamps of the pool state are omitted; the current-tick quoter's asynchronous wrapper is a plain function.
- LaneSafety.LedgerAgreesWithLane: the stores are the in-memory ones, whose writes always succeed; a write that fails between the lane and the ledger is not modelled.
- LaneSafety.SubmittedNoncesIncrease: of successful submissions; a broadcast whose answer was lost counts as failed, as it does in the source.
- LaneSafety.ReplacedFeesCompound: for a bump of at least 100%; below that FeePolicy.BumpIncreasesIff says no fee above zero rises.
- ExecutionCycle.Executor.RunCycles: of one process; the remembered keys start empty after a restart, when only the submission lock is left.
- ExecutionCycle.Executor.RunExecutionCycle: what one candidate meets (approval check, simulation, submission) is an answer looked up by candidate; simulations of the same profit are tried in queue order, where the source takes the order they finish in; the circuit breaker's statistics are omitted, and of a dry run everything after the candidates are taken: its simulations, its report, and its error when no simulation wallet is configured.
- ExecutionManager.PendingMeaning, and the lemmas about reconciling that follow it, speak of workers that are all different; the source derives their keys from different seeds.
- TickPrice.PriceStep: bounds the product of all roundings of a price; the exact last bits are what the loop makes of the constants.
- ExecutionManager.Manager.WaitForWorkerFundingReceipt: the pauses between questions are omitted; signing is part of sending.
- Lane.EoaLane.MarkSubmitted: timestamps and the JSON form of the lane are omitted.
- LaneSteps.SubmittingKeepsSound: which executor a candidate goes to is an answer; error texts, gas used and realised profit of a ledger record are omitted.
- Calldata.BuildExecuteCalldata: the selector is a parameter, since Keccak-256 is not modelled, and steps come in as encoder inputs; router, factory and trust lookups and hexadecimal parsing are omitted.
- Candidates.CoalesceCandidatesByExecutionKey: hash-map iteration order is arbitrary, so candidates of equal profit come in any order.
- Redis and Postgres stores, JSON-RPC, websockets, signing, logging, pool discovery, metadata, search strategy, monitoring and configuration: remote calls, tables and user interface.

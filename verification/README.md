# A verified model of the liquidation bot

The bot mirrors Aave V3 positions off-chain from event logs, ranks users at risk in an indexed min-heap and
computes liquidations in exact integer arithmetic. This project models those parts in Dafny and proves what they
promise. `dafny verify dfyconfig.toml` checks all of it.

## What is modelled

| file | part of the bot |
|---|---|
| `RayMath.dfy`, `Hex.dfy` | fixed-point arithmetic, hexadecimal text (`pkg/math/math.go`) |
| `Models.dfy` | value types, integer widths, sums over the iteration order of a map |
| `RiskHeap.dfy`, `RiskTable.dfy` | the intrusive heap with Go's `container/heap`, and heap plus lookup under `updateHeap` |
| `HealthFactor.dfy`, `LazyEMode.dfy`, `RiskEngine.dfy` | `computeHFMath` and `calculateHF`, as functions and on the shared store |
| `Bitmap.dfy`, `Valuation.dfy` | E-Mode bitmaps as sets of reserves; what a snapshot means in terms of the stored numbers alone |
| `Liquidation.dfy`, `Profit.dfy`, `StrategyEngine.dfy` | one (debt, collateral) pair, what its profit estimate is worth, and the search over all pairs |
| `Settlement.dfy`, `Recipes.dfy` | each figure of a pair, and a returned recipe, bounded from both sides in exact arithmetic |
| `Events.dfy`, `Ledgers.dfy`, `Effects.dfy` | log decoding; the state after each event; its effect field by field |
| `Store.dfy` | the in-memory state as objects updated in place, with its reverse subscriber index |
| `Replay.dfy`, `LogSort.dfy`, `DirtyUsers.dfy`, `LogReplayEngine.dfy` | chunked history, sorting, hand-over, live stream, dirty users |
| `GraphClient.dfy`, `Bootstrapper.dfy` | cursor pagination and the seeding of the store |
| `Drift.dfy`, `Classification.dfy`, `WholeRun.dfy` | distance of the local positions from the chain over whole runs, and which users are still classified right |

Objects the source updates in place are classes with the same fields; each method is proved against a function on
values, and the properties are proved about those functions. `StateStore.Ledger()` is the value of the store that
the log determines. `Market` is what a calculation reads besides the position.

## How the source is represented

- `big.Int` is `int`; `big.Int.Div` is Euclidean like Dafny's `/`. `uint8`, `uint16`, `uint64`, `ParseUint`,
  `Int64`, `Uint64` and the conversion to `uint8` keep their widths and wrap-around.
- A section under the store's lock is one atomic step, and so is one round of `calculateHF`, which releases the
  lock around its remote calls. Map iteration is any enumeration of the keys without repetition.
- Remote answers are parameters: `eth_getLogs`, the latest block, E-Mode queries and GraphQL pages, each of which may
  fail. The stream is the sequence of arrivals; `drained` says whether the buffer was empty after one.
- `Topics[0]` is represented by the event whose signature it hashes; Keccak-256 itself is not computed. The parsing
  at the head of each handler is gathered in `Events.Decode`, and the state change is a method per event.
- `sort.Sort` is an insertion sort through `Less` and `Swap`; `Replay.SortIsUnique` shows that any other sort of
  logs with distinct positions gives the same sequence.
- Prices are positive, amounts and indices unsigned, a bonus at least 10000 and a protocol fee at most 10000 basis
  points where a property needs it. There is no reorganisation. `bWs + 10` stays below 2^64.

## Where the code does less than it seems to

- **Hand-over.** The repository's own README promises a seamless start (its line 72). `StartIsExactIff`: the processed
  logs are those after the snapshot in every run if and only if the anchor is below `bWs`. For a single run with any
  anchor, `ReplayIsExactIff` gives the condition on the stream: the first arrival beyond (`bWs`, 0) is later than the
  anchor. Otherwise a log of the anchor's block that arrives again is applied on top of the snapshot;
  `HandOverCreditsTwice` shows the balance credited twice.
- **E-Mode learnt from an event.** `UserEModeSet` marks the category as fetched although its configuration may be
  unknown, and then it is never fetched. `LazyAgreesIff`: lazy and eager calculation agree in every market exactly
  when the category is not missing in this way. `MissingCategoryIsConservative`: the error only understates the
  health factor.
- **Last partition.** The upper bound of partition `0xf` is exclusive, so a borrower with the address `0xff...ff` is
  never fetched (`EveryUserOnceIff`).
- **Suppliers without debt** are not in the bootstrap query. A supplier who borrows later is tracked from zero, so
  its collateral lags by everything it held at the anchor (`SnapshotLagIff`, `UnloadedDrift`).
- **Collateral flags.** A reserve whose two balances are dust is skipped by the bootstrap, and its collateral flag with
  it; a later supply is then not counted as collateral. `SnapshotFlagIff`: a flag is kept exactly when the chain has
  none, or the user borrows and one balance is more than ten units. `BorrowerFlagIff`: at any later point it is the
  chain's if and only if it was kept or a collateral event of that reserve has been replayed.
- **Profit estimate.** A positive `expectedProfitUSD` is not always a profit. `RecipesTrustworthyIff`: at a debt price and
  decimals every returned recipe pays in exact rationals if and only if no amount of the debt token below 3980000
  whole tokens deceives, a finite check on the cost of single amounts. Without a search: with `unit = 10^decimals` and
  any common divisor `h` of price and unit, `9995 * price < 10000 * (10^6 * unit + h)` suffices (`ProfitIsReal`), and
  from `9995 * price >= (10^10 + 19900) * unit` on some admissible pair is always misleading (`ProfitIsFalseAbove`).
  Only the band between the two depends on the divisors of price and unit; per base unit of the token it is less than
  two hundred-millionths of a USD wide.
- **Round trips.** Scaled to real and back is the identity for every balance exactly at indices of at least one RAY
  (`ScaledRoundTripIff`).
- **Category ids** above 255 in the GraphQL answer are taken for another category (`CategoryReadIff`).
- `minDebtThreshold` is 100000000, one USD at eight decimals; its comment says 0.1 USD. The model has the code's value.

## Model

| member | source | states |
|---|---|---|
| RayMath.RayMulNearest | pkg/math/math.go:42-47 | RayMul rounds to the nearest integer, halves up |
| RayMath.RayDivNearest | pkg/math/math.go:31-39 | RayDiv rounds to the nearest integer |
| RayMath.ScaledRoundTrip | pkg/math/math.go:30-47 | scaled to real and back is the identity at every index of at least RAY |
| RayMath.ScaledRoundTripIff | pkg/math/math.go:30-47 | the round trip holds for all scaled balances if and only if the index is at least RAY |
| RayMath.AmountRoundTrip | pkg/math/math.go:30-47 | real to scaled and back errs by at most (i + RAY) / (2 RAY), by nothing up to RAY |
| Sums.SumPermutation | internal/engine/risk_engine.go:342-391 | a total accumulated over a map does not depend on the iteration order |
| RiskHeaps.RiskHeap.Swap | internal/models/risk.go:24-28 | exchanges two slots and their keys and keeps every back-pointer |
| RiskHeaps.RiskHeap.Push | internal/models/risk.go:30-35 | appends the item with its slot as back-pointer |
| RiskHeaps.RiskHeap.Pop | internal/models/risk.go:37-45 | removes the last item, which no longer occurs and has index -1 |
| RiskHeaps.RiskHeap.Remove | internal/engine/risk_engine.go:430 | heap.Remove takes out exactly the item of the slot and restores order and back-pointers |
| RiskHeaps.RiskHeap.Fix | internal/engine/risk_engine.go:438 | heap.Fix restores the order after one key changed, with the same items |
| RiskHeaps.RiskHeap.HeapPush | internal/engine/risk_engine.go:441 | heap.Push adds one item and keeps order and back-pointers |
| RiskHeaps.RootIsLeast | internal/models/risk.go:14-22 | in heap order no key is below the root's |
| RiskTables.RiskTable.UpdateHeap | internal/engine/risk_engine.go:423-444 | heap and lookup stay a bijection with order and indices, and together refine the map of last reports |
| RiskTables.RiskTable.Cooldown | internal/engine/risk_engine.go:177-181 | sets the next check of a listed user and nothing else |
| RiskTables.RiskTable.WatchdogScan | internal/engine/risk_engine.go:75-86 | returns exactly the users with HF at most 1.02 whose time is due, once each |
| RiskTables.RiskTable.RootIsMinimal | internal/engine/risk_engine.go:423-444 | the root holds the least health factor of all listed users |
| RiskTables.LastReportWins | internal/engine/risk_engine.go:423-444 | after any run a user is listed iff its last report was below 1.05, and with that value |
| RiskTables.CooldownSurvives | internal/engine/risk_engine.go:177-184 | a cool-down stays in force through every later re-keying |
| RiskTables.SilentUntil | internal/engine/risk_engine.go:80-85 | a cooled-down user is left out until its time, and from then on returned exactly when its last report is at most 1.02 |
| RiskTables.NewUserAtOnce | internal/engine/risk_engine.go:439-443 | a newly listed user is returned at once exactly when at or below 1.02 |
| HealthFactor.ComputeHFMath | internal/engine/risk_engine.go:283-419 | the loop computes the snapshot defined by sums over the reserves, and nil in exactly its error cases |
| HealthFactor.QuotientExact | internal/engine/risk_engine.go:397-399 | the two floors do not change a comparison with an integer bound |
| HealthFactor.HealthFactorExact | internal/engine/risk_engine.go:397-399 | HF below 1.0 or 1.05 iff the same holds of weighted collateral and debt in exact arithmetic |
| HealthFactor.SnapshotIndependentOfOrder | internal/engine/risk_engine.go:342-391 | the snapshot does not depend on the order of the reserves |
| HealthFactor.SaferHasHigherFactor | internal/engine/risk_engine.go:342-399 | a position safer in every reserve has at least the health factor |
| HealthFactor.HealthFactorMonotone | internal/engine/risk_engine.go:374-399 | more scaled collateral or less scaled debt never lowers HF |
| Bitmaps.BitOfBitmap | internal/engine/risk_engine.go:365-368 | shift and mask test membership in the set of reserves whose powers of two the bitmap sums |
| Bitmaps.BitIsListed | internal/engine/risk_engine.go:365-368 | every bitmap is such a sum, and a bit is set exactly when its reserve is listed |
| Valuation.CollateralExact | internal/engine/risk_engine.go:374-383 | the value is the displayed balance times price over the asset's unit, rounded down; 0 without data, flag or balance |
| Valuation.DebtExact | internal/engine/risk_engine.go:385-390 | the same for a debt, at the variable borrow index |
| Valuation.DecimalsAreAUnit | internal/engine/risk_engine.go:360 | k more decimals and 10^k times the base units leave the value unchanged |
| Valuation.ThresholdByIds | internal/engine/risk_engine.go:361-372 | the threshold is the category's exactly when the fetched category is known and lists the reserve |
| Valuation.SnapshotExact | internal/engine/risk_engine.go:342-418 | every figure of a snapshot in terms of the stored numbers, and its health factor against every bound |
| Valuation.NoSnapshotIff | internal/engine/risk_engine.go:353-358 | there is none exactly when a non-empty reserve lacks price, index or configuration, or no debt has a value |
| Valuation.TotalsAgree | internal/engine/strategy_engine.go:66-90 | the snapshot's debt and raw collateral are the totals of the liquidation search |
| LazyEMode.EModeRaises | internal/engine/risk_engine.go:363-372 | E-Mode never lowers HF when each category's threshold dominates the assets in its bitmap |
| LazyEMode.LazyAgrees | internal/engine/risk_engine.go:229-279 | lazy and eager E-Mode classify a user alike against 1.05 and 1.0 unless its category is missing |
| LazyEMode.LazyAgreesIff | internal/engine/risk_engine.go:229-279 | they agree in every market and for every position exactly when the category is not missing |
| LazyEMode.WitnessDisagrees | internal/engine/log_replay_engine.go:386-388 | a market in which a missing category changes the classification |
| LazyEMode.MissingCategoryIsConservative | internal/engine/risk_engine.go:363-364 | with a missing category the lazy HF is never above the eager one |
| LazyEMode.FetchCases | internal/engine/risk_engine.go:234-279 | when the chain is asked, what each answer or failure leaves behind, and that a known configuration is not fetched again |
| Valuation.CalculateHFExact | internal/engine/risk_engine.go:218-280 | the result is the exact snapshot under the category and the configurations that are left stored |
| RiskEngine.RiskEngine.LoadEMode | internal/engine/risk_engine.go:243-276 | stores category and configuration, or nothing when a call fails |
| RiskEngine.RiskEngine.CalculateHF | internal/engine/risk_engine.go:218-280 | result, stored categories and stored position are those of the lazy specification, in any reserve orders |
| Liquidation.PercentDivCeilIsLeast | internal/engine/strategy_engine.go:288-296 | the least r with value times 10000 at most r times percentage |
| Liquidation.CloseFactorCap | internal/engine/strategy_engine.go:95-113 | the cap never exceeds the balance, and under the close factor is worth at most half the total debt |
| Liquidation.NeededBelowAllowance | internal/engine/strategy_engine.go:142-160 | when the collateral runs out, the debt it pays for is strictly below allowance plus bonus |
| Liquidation.WithinAllowance | internal/engine/strategy_engine.go:142-163 | covered debt within the allowance and the balance, gross seizure within the collateral, in both branches |
| Liquidation.SeizureBoundedByBonus | internal/engine/strategy_engine.go:142-163 | the seizure is worth at most the covered debt with its bonus, plus one debt unit only on depletion |
| Liquidation.FeeSplit | internal/engine/strategy_engine.go:165-177 | fee and share add up to the gross; the share is at least the gross without bonus |
| Settlement.AllowanceExact | internal/engine/strategy_engine.go:95-113 | when the close factor applies, and the allowance it leaves, from both sides |
| Settlement.PairSettles | internal/engine/strategy_engine.go:142-177 | covered debt, gross and fee from both sides: on depletion the debt the collateral pays for, rounded up; else the allowance and its worth with the bonus |
| Settlement.DustIff | internal/engine/strategy_engine.go:179-189 | a pair passes exactly when it clears the debt, exhausts the collateral or leaves 1000 USD on both sides |
| Settlement.EstimateExact | internal/engine/strategy_engine.go:191-213 | cost and revenue from both sides, and net profit as revenue less cost less 0.01 USD |
| Profit.ProfitIsReal | internal/engine/strategy_engine.go:191-213 | a positive estimate is a profit in exact rationals when 9995 * price < 10000 * (10^6 * unit + h), h any common divisor of price and unit |
| Profit.ProfitIsFalseAbove | internal/engine/strategy_engine.go:191-213 | at every price with 9995 * price >= (10^10 + 19900) * unit some admissible pair has a positive estimate and no profit |
| Profit.DeceptionIsPeriodic | internal/engine/strategy_engine.go:191-213 | whether an amount of debt can carry a wrong estimate depends only on its remainder modulo 3980000 whole tokens |
| Profit.TrustworthyIff | internal/engine/strategy_engine.go:165-213 | at a price no admissible pair misleads if and only if no amount below that period deceives |
| StrategyEngine.Evaluate | internal/engine/strategy_engine.go:138-213 | the inner loop body skips exactly by the leftover rule and yields covered debt, share and net profit |
| StrategyEngine.Collect | internal/engine/strategy_engine.go:66-90 | lists every priced debt and collateral and their exact USD totals |
| StrategyEngine.BonusFollowsThreshold | internal/engine/strategy_engine.go:117-136 | bonus in the search and threshold in the health factor come from the same place: both from the asset or both from the user's category |
| StrategyEngine.CalculateOptimalRecipe | internal/engine/strategy_engine.go:43-279 | the recipe is a global maximum over all admissible pairs with positive profit; nil iff there is none |
| StrategyEngine.ProfitIndependentOfOrder | internal/engine/strategy_engine.go:66-258 | whether there is a recipe, and its profit, do not depend on the map order |
| StrategyEngine.PairIsSound | internal/engine/strategy_engine.go:66-136 | every pair the loops form satisfies what the pair theorems assume |
| StrategyEngine.RecipeIsAdmissible | internal/engine/strategy_engine.go:92-189 | a returned recipe stays within balances, close factor and bonus, and leaves no dust |
| StrategyEngine.RecipeProfitIsReal | internal/engine/strategy_engine.go:191-256 | a returned recipe is profitable in exact rationals under the price limit |
| StrategyEngine.RecipesTrustworthyIff | internal/engine/strategy_engine.go:43-279 | at a price every returned recipe is profitable in exact rationals if and only if no amount of the debt token deceives |
| Recipes.DebtAssetExact | internal/engine/strategy_engine.go:66-81 | which assets are debts, with displayed balance, price, decimals and USD value |
| Recipes.CollateralAssetExact | internal/engine/strategy_engine.go:83-89 | which assets are collateral, likewise |
| Recipes.CandidateIff | internal/engine/strategy_engine.go:92-189 | a pair is considered exactly when it is a debt and a collateral whose settlement leaves enough |
| Recipes.RecipeExact | internal/engine/strategy_engine.go:43-279 | every figure of a returned recipe in terms of the stored position and market |
| Hex.WordRoundTrip | pkg/math/math.go:68-78 | ParseHexBigInt recovers every fixed-width hexadecimal word |
| Hex.AddressRoundTrip | pkg/math/math.go:59-65 | ParseHexAddress recovers every address from its padded topic |
| Hex.SameKeyIff | internal/store/store.go:90-91 | two spellings of an address give one store key exactly when they differ in letter case only |
| Hex.QuantityRoundTrip | internal/models/external.go:36-42 | ParseUint recovers every uint64 quantity |
| Events.DecodedIsLower | pkg/math/math.go:58-65 | every address a log yields is lower case, as the store keys its maps |
| Events.DecodeInvertsEncode | internal/engine/log_replay_engine.go:158-443 | for all nine events and all field values, decoding an ABI-encoded log gives the event's meaning, block and index |
| Events.IgnoredIff | internal/engine/log_replay_engine.go:124-156 | a log changes nothing exactly when removed, unknown, too short, or a borrow at another rate mode |
| Effects.EventEffect | internal/engine/log_replay_engine.go:158-443 | the effect of each of the nine events on every stored field, in the event's own terms |
| Effects.BorrowEffect | internal/engine/log_replay_engine.go:317-328 | a borrow raises the user's debt by the nearest scaled amount and changes nothing else |
| Effects.LiquidationEffect | internal/engine/log_replay_engine.go:410-433 | debt and collateral are both reduced, also in one entry, and nothing else changes |
| Effects.SettingEffect | internal/engine/log_replay_engine.go:174-220 | index, flag and category events store the event's value and nothing else |
| Effects.MarkedExact | internal/engine/log_replay_engine.go:224-392 | a handler marks the event's user exactly when it does not return early |
| Ledgers.TouchBeforeReduce | internal/engine/log_replay_engine.go:419-438 | fetching both reserves before updating them changes nothing, even when they are one object |
| Ledgers.FullReductionClears | internal/engine/log_replay_engine.go:272-287 | withdrawing or repaying the full displayed balance at an index of at least RAY leaves zero |
| Ledgers.FoldConcat | internal/engine/log_replay_engine.go:516-529 | replaying two sequences one after the other is replaying their concatenation |
| Store.StateStore.SetCurrentBlock | internal/store/store.go:57-63 | the current block only moves forward |
| Store.StateStore.SetGlobalIndex | internal/store/store.go:80-84 | replaces one index, keeps all positions and the subscriber inverse |
| Store.StateStore.UpsertUserReserve | internal/store/store.go:86-105 | sets one reserve, keeps everything else and the subscriber inverse |
| Store.StateStore.SetUserEMode | internal/store/store.go:107-120 | sets one user's category, keeps everything else and the subscriber inverse |
| Store.StateStore.GetUserReserve | internal/store/store.go:128-157 | the live object of the entry, created empty if absent; other entries and the inverse are kept |
| Store.StateStore.GetSubscribers | internal/store/store.go:159-169 | exactly the users with an entry for the asset, each once |
| Store.StateStore.DebitBoth | internal/engine/log_replay_engine.go:422-433 | debt and collateral are reduced under the dust rule, also when one object carries both |
| Replay.SortIsUnique | internal/models/external.go:35-44 | logs with distinct positions have one sorted order |
| Replay.ChunksTile | internal/engine/log_replay_engine.go:86-92 | the chunks tile the range disjointly, at most ten blocks each |
| Replay.GatherComplete | internal/engine/log_replay_engine.go:84-121 | the joined replies are a permutation of the canonical logs of the range |
| Replay.HistoryIsCanonical | internal/engine/log_replay_engine.go:509-514 | the sorted history is the canonical log of the range |
| Replay.LiveIsOrdered | internal/engine/log_replay_engine.go:445-453 | for any arrivals, accepted logs are strictly in chain order and beyond the hand-over point |
| Replay.WatermarkCutsAtHead | internal/engine/log_replay_engine.go:531-534 | with an anchor below the head block the watermark discards exactly the logs up to that block |
| Replay.ReplayIsExact | internal/engine/log_replay_engine.go:500-566 | with an anchor below the head block the processed logs are the canonical ones after the anchor |
| Replay.ReplayIsExactIff | internal/engine/log_replay_engine.go:500-566 | in one run with any anchor, exactly when the hand-over is clean |
| Replay.AlwaysExactIff | internal/engine/log_replay_engine.go:500-566 | in every run, exactly when the anchor is below the head block |
| Replay.TargetIsWholeChain | internal/engine/log_replay_engine.go:539-566 | once the stream has caught up nothing after the anchor is missing |
| LogSort.LogList.Sort | internal/models/external.go:27-44 | the list is sorted in place by block and index and is a permutation |
| DirtyUsers.NoneLostAfterLog | internal/engine/log_replay_engine.go:71-73 | a log keeps the no-lost-user property when everybody affected is marked or offered |
| DirtyUsers.NoneLostAfterFlush | internal/engine/log_replay_engine.go:76-81 | emptying the set keeps it, since everybody in it was offered |
| DirtyUsers.AffectedAreConcerned | internal/engine/log_replay_engine.go:158-443 | everybody whose position or index an event changes is marked, or holds the asset whose holders are offered |
| LogReplay.TaskQueue.EnqueueAll | internal/engine/risk_engine.go:447-460 | a batch is queued in order until the queue is full; nothing queued earlier is lost, only the tail of the batch |
| LogReplay.TaskQueue.EnqueueByAsset | internal/engine/risk_engine.go:455-460 | exactly the holders of the asset are offered |
| LogReplay.LogReplayEngine.Supply | internal/engine/log_replay_engine.go:237-257 | one supply on the objects is the ledger's supply, and marks the user unless the index is unknown |
| LogReplay.LogReplayEngine.Withdraw | internal/engine/log_replay_engine.go:273-296 | one withdrawal, with the dust rule |
| LogReplay.LogReplayEngine.Borrow | internal/engine/log_replay_engine.go:317-336 | one borrow at the variable index |
| LogReplay.LogReplayEngine.Repay | internal/engine/log_replay_engine.go:352-376 | one repayment, with the dust rule |
| LogReplay.LogReplayEngine.Liquidate | internal/engine/log_replay_engine.go:410-442 | one liquidation of debt and collateral |
| LogReplay.LogReplayEngine.ProcessLog | internal/engine/log_replay_engine.go:124-156 | applies the decoded log to the store; nobody affected is lost; a handler offers users only for an index update |
| LogReplay.LogReplayEngine.FlushDirtyUsers | internal/engine/log_replay_engine.go:76-81 | offers exactly the dirty users and empties the set |
| LogReplay.LogReplayEngine.FetchHistoricLogs | internal/engine/log_replay_engine.go:84-121 | terminates with the joined replies of the chunks, or fails with the first failed call |
| LogReplay.LogReplayEngine.ReplayHistory | internal/engine/log_replay_engine.go:516-529 | the ledger is one fold of the history; users are flushed only at transaction boundaries, where none is pending |
| LogReplay.LogReplayEngine.Receive | internal/engine/log_replay_engine.go:543-565 | one arrival: duplicate test, flush at a new transaction, watermark, current block, empty set after a drained buffer |
| LogReplay.LogReplayEngine.LiveLoop | internal/engine/log_replay_engine.go:539-566 | over any arrivals the ledger is the fold of the accepted logs |
| LogReplay.LogReplayEngine.Start | internal/engine/log_replay_engine.go:500-566 | the whole run leaves the fold of history and accepted logs; a failed call leaves the ledger alone |
| LogReplay.RunIsOneFold | internal/engine/log_replay_engine.go:500-566 | the processed logs are the canonical ones after the anchor iff the hand-over is clean, and then the ledger is their one in-order fold |
| LogReplay.StartIsExactIff | internal/engine/log_replay_engine.go:500-566 | the engine's run is exact on every chain and stream if and only if the anchor is below the head block |
| GraphClient.QueryWithRetry | internal/rpc/graph_client.go:131-154 | a failed request is repeated up to three times, a rejected query not at all |
| GraphClient.FetchUserPartition | internal/rpc/graph_client.go:117-165 | the cursor loop terminates with every user of the range once and in order, or fails because a query failed three times or was rejected |
| GraphClient.PartitionOf | internal/rpc/graph_client.go:170-179 | the partitions are disjoint and cover every address except 0xff...ff |
| GraphClient.GetAllUsersAtBlock | internal/rpc/graph_client.go:169-223 | collects the sixteen partitions in any arrival order; one failure, or a cancelled context, fails the whole |
| GraphClient.EveryUserOnceIff | internal/rpc/graph_client.go:169-223 | the result is every user exactly once if and only if nobody has the address 0xff...ff |
| Bootstrapper.DecimalRoundTrip | internal/rpc/bootstrapper.go:33 | SetString in base ten recovers every decimal number |
| Bootstrapper.CategoryReadIff | internal/models/external.go:63-72 | a category id is read back iff it fits a byte |
| Bootstrapper.ParseAndCleanIsCleanUp | internal/rpc/bootstrapper.go:32-41 | the bootstrap applies the same dust rule as the handlers; unreadable text is zero |
| Bootstrapper.Bootstrapper.Run | internal/rpc/bootstrapper.go:47-121 | succeeds exactly when all answers it asks for arrive, the categories only if some user is in one; fills indices, categories and cleaned positions; otherwise stores no user |
| Bootstrapper.UsedCategoriesExact | internal/rpc/bootstrapper.go:74-85 | the categories asked for are the non-zero ones of the users |
| Bootstrapper.CategoriesExact | internal/rpc/bootstrapper.go:94-97 | every fetched configuration is stored under its id, every other one stays |
| Bootstrapper.CategoriesKnown | internal/rpc/bootstrapper.go:74-98 | after a complete answer every category a fetched user is in is known to the store |
| Bootstrapper.CategorySeeded | internal/rpc/bootstrapper.go:103 | every fetched user's position carries the category its text denotes, marked as fetched |
| Bootstrapper.IndicesSeeded | internal/rpc/bootstrapper.go:59-62 | in any iteration order the stored indices are the fetched ones |
| Bootstrapper.SeedIsSnapshot | internal/rpc/bootstrapper.go:59-121 | a new store then holds the chain's indices and the borrowers' cleaned balances, flags and categories, and nobody else |
| Drift.DriftBound | internal/engine/log_replay_engine.go:282-433 | over every run a local balance is in [0, chain] and its lag grows by at most ten per reducing event |
| Drift.SnapshotLagIff | internal/rpc/graph_client.go:102 | right after the bootstrap the lag is within ten iff the user borrows or its balances are dust |
| Drift.BorrowerDrift | internal/rpc/bootstrapper.go:32-41 | a borrower lags by at most 10 times (1 + reducing events), bootstrap included |
| Drift.UnloadedDrift | internal/rpc/graph_client.go:102 | any other user lags by the balance never loaded plus ten per reducing event |
| Drift.SnapshotFlagIff | internal/rpc/bootstrapper.go:105-118 | a collateral flag survives the bootstrap iff the chain has none, or the user borrows and a balance exceeds dust |
| Drift.FlagAgreesIff | internal/engine/log_replay_engine.go:190-222 | over any run a flag ends equal to the chain's iff it started equal or a collateral event set it |
| Drift.CategoryIff | internal/engine/log_replay_engine.go:379-392 | over any run a category ends known and the chain's iff it started so or an E-Mode event set it |
| Classification.AmountLag | pkg/math/math.go:42-47 | a scaled lag lowers the displayed amount by at most its own amount rounded up |
| Classification.ClassifiedAsOnChain | internal/engine/risk_engine.go:342-399 | a position that lags is on the chain's side of a threshold whenever the chain's figures are clear of it by the value of the lag |
| WholeRun.FetchReportsAll | internal/rpc/graph_client.go:169-223 | what pagination returns reports the server's state completely, unless a borrower is 0xff...ff |
| WholeRun.BorrowerTracksChain | internal/engine/log_replay_engine.go:500-566 | from bootstrap through history to any point of the stream, a borrower's balances obey the drift bound against the chain |
| WholeRun.BorrowerFlagIff | internal/engine/log_replay_engine.go:500-566 | at any such point a collateral flag is the chain's iff the bootstrap kept it or a collateral event was replayed |
| WholeRun.UserCategoryIff | internal/engine/log_replay_engine.go:500-566 | at any such point a category is known and the chain's exactly for borrowers of the snapshot and users with a later E-Mode event |
| WholeRun.BorrowerClassifiedAsOnChain | internal/engine/risk_engine.go:218-280 | at any such point calculateHF is below a threshold exactly when the chain's own position and category are, unless the chain's figures are within the value of the lag |
| WholeRun.HandOverCreditsTwice | internal/engine/log_replay_engine.go:531-534 | with the anchor at the head block, a supply delivered again is credited twice |

## Left out

- Position overwrites by workers (`internal/engine/risk_engine.go:160`, `:205`): they bypass `assetSubscribers` and can replace newer state, so the log engine is taken as the only writer.
- The worker loop around `calculateHF` (on-chain verification, dispatch, its choice of cool-downs) and the oracle loop: orchestration of remote calls.
- Reorganisations: a removed log is ignored, as in the code, and its replacement is not modelled.
- Interleaving of other writers between the locked sections of one handler or of one `calculateHF` round.
- What happens to an offered user: the queue drops when full, as modelled, and nothing is claimed about execution.
- Equality of the half-up rounding with Aave's own contracts: that code is not part of this model.
- RPC, WebSocket, multicall, ABI decoding of reserve data, HTTP retry delays, transaction building, the Solidity contract, fee cache, logging, configuration, JSON snapshots and timers.
- The configuration and price setters, the bootstrap loop over configurations, and `heap.Init` on the empty heap: only easy members.
- Non-ASCII text: `strings.ToLower` is modelled on ASCII.
- LogReplay.LogReplayEngine.Start: requires anchor below 2^64 - 1 and `bWs + 10` below 2^64, because the block counter of the chunk loop would wrap around.

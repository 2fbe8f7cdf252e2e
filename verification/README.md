# Verified model of the market-data collector and its trading account

A low-latency collector takes trades and order books from several exchanges over racing
connections, keeps an event-sourced trading account beside them, and quotes on it. Its I/O is thin;
what is hard are a handful of small protocols and stateful algorithms underneath. This project
models those in Dafny and proves what they keep over whole runs. `dafny verify dfyconfig.toml`
checks everything.

## What is modelled

**The account** (`Position.dfy`, `Executions.dfy`, `ExecutionStore.dfy`, `HistoryPaging.dfy`,
`AccountReplay.dfy`, `AccountTotals.dfy`, `AccountState.dfy`, `AccountRuns.dfy`,
`PostgresStore.dfy`). Executions are fetched in windows and pages, upserted into sorted buckets,
replayed from the epoch, handed over to a buffered live stream and rebuilt after every disconnect.
The classes `Position`, `ExecutionStore` and `AccountState` carry the fields and the branches of the
original methods and are proved against functions on values (`Book`, `Upserted`, `Replayed`,
`StartApplied`, ...). About those functions the results are stated: applied PnL is the PnL of a
plain cash account that knows no average price; and told from the fields of the executions, or of
the exchange's own trades, the position is what was bought less what was sold, at the cost paid and
the commissions and rates due; paging is complete exactly when no page boundary cuts a millisecond;
the store is the sorted list of first copies; the switch-over to live is exactly-once exactly when
the first new execution is strictly newer than the last replayed timestamp; the live state is what a
rebuild computes exactly when live executions came in key order above the replay; and over any
number of disconnects, whatever reports the connections deliver and however many trades share a
millisecond, a trade is stored exactly when it was stored at first, delivered, or found by some
rebuild to be later than every report until then. Copies of a trade may differ in their fee: then
amount, average price, volumes and realized plus fees still agree. The Postgres store, which the
application uses, holds what the in-memory store would hold of the trades alone, with the fee of the
last copy instead of the first.

**The id generator** (`MonoSeq.dfy`). `next` is a set of atomic steps - load, clock readings,
compare-exchange that may fail spuriously - taken by any number of threads in any order under a
clock that may run backwards. Every interleaving yields strictly increasing, decodable ids, numbered
consecutively within each millisecond; a call waits only when its millisecond is used up, and is
held up only by another's success. The class `MonoSeq` runs one call alone with its waiting loops.

**Arbitration** (`Deduper.dfy`, `Arrivals.dfy`, `LatencyArb.dfy`). The deduper's set and queue are a
window onto the history of accepted keys: the longest suffix within capacity and age. On top of it
the trade and depth arbiters forward each key once, at its first arrival, exactly when every repeat
comes while the key is still in that window; then the outcome does not depend on the interleaving of
the connections. The wins of all connections add up to what was forwarded, and rotation replaces the
connection with the fewest wins of the window.

**Depth synchronisation and the book** (`DepthSync.dfy`, `OrderBook.dfy`). Whatever arrives, the
depth updates a connector emits after a snapshot form a chain; on a stream of increasing ids
everything newer than the snapshot gets through exactly when no link is missing, and after a missing
link nothing gets through any more, whatever else is lost. The order book shows at every price what
was last written to it.

**Trade de-duplication** (`TradeDedup.dfy`). A fill is announced as a TRADE_LITE and again as an
ORDER_TRADE_UPDATE. The number of times a trade id is emitted is computed exactly from the messages,
and no id is emitted twice exactly when no fully announced trade was ever overdue as a placeholder,
1500 ms old at a flush, or announced again after the set of known trades had been emptied.

**Quoting** (`Quotes.dfy`, `NaiveMm.dfy`). Each side of the strategy is a slot driven by executions,
responses, a timeout and decision passes. Over any run no order is cancelled twice, only orders the
side posted are cancelled, the two sides never track the same order, and a slot holds an order
exactly from its post until an event ends it.

**File names** (`Decimals.dfy`, `FileNames.dfy`). A generated name parses back to its number and
key, so a manager that has read a directory never generates a name that exists.

## What the proofs found

Each of these is a property that does not hold as it might be expected to. For each the exact
condition is proved - the replay messages of the depth connector never come - and a lemma gives an
input on which it fails.

- A page that ends inside a millisecond loses the remaining trades of that millisecond
  (`HistoryPaging.HistoryIsComplete`, `HistoryPaging.PageCutsMillisecond`).
- The epoch is documented as inclusive (docs/trade_account.md), but an execution at exactly the epoch
  is never fetched into an empty store (`AccountRuns.BackfillMissesTheEpoch`,
  `HistoryPaging.EpochIsNotFetched`).
- The rebuild starts a millisecond behind the last stored report, and what that report has overrun no
  rebuild will ever fetch (`AccountRuns.RunIsExact`, `AccountRuns.OverrunIsLost`). So when one order
  fills against two others in one millisecond and the connection drops between the two reports, the
  second fill is lost, on either store and without any page being cut
  (`AccountRuns.SiblingFillIsLost`, `AccountRuns.TwoFillsOneMillisecond`,
  `PostgresStores.RowsRunIsExact`).
- In the in-memory store a report of a cancelled order can likewise overrun a trade that was not
  delivered (`AccountRuns.CancelReportLosesTrade`). Both callers of `run_market` use the Postgres
  store, whose upsert ignores such reports (src/strats/api.rs:244, src/app/env.rs:148): there they
  cost nothing (`PostgresStores.RowsRunIsExact`).
- The handed-over live items are applied but not stored; once a later live execution is stored, the
  rebuild never fetches them (`AccountRuns.HandedOverAreLost`, `AccountRuns.HandedOverTradeIsLost`).
- A rebuild fetches nothing while the store is empty (`AccountRuns.RebuildIsExact`,
  `AccountRuns.EmptyStoreStaysEmpty`).
- A repeat behind a new execution in the hand-over buffer is applied twice
  (`AccountReplay.SwitchOverOfAnyBuffer`, `AccountReplay.RepeatBehindNew`).
- In the in-memory store a placeholder keeps the full report of its trade, with its commission, out
  (`AccountRuns.PlaceholderLeavesFee`, `AccountRuns.PlaceholderForgetsFee`); the Postgres store lets
  the last copy correct the fee (`PostgresStores.RowChargesLastCopy`).
- `take_l2_replay_messages` never returns anything: the list that the reconciliation returns is
  dropped and the buffer it emptied is drained again (`DepthSyncs.Connector.TakeL2ReplayMessages`).
- One missing depth update stalls the connection for good, until a new snapshot
  (`DepthSyncs.DeliveredIffLinked`, `DepthSyncs.GapStalls`, `DepthSyncs.LostMessageStalls`,
  `DepthSyncs.OneLostUpdate`).
- A full update after its placeholder was overdue is a second emission
  (`TradeDedups.OnceEachIffInTime`, `TradeDedups.LateFullRepeats`).
- Every 8193rd trade empties the set of known trades, itself included
  (`TradeDedups.RepeatIsEmittedIffCleared`, `TradeDedups.OverflowForgets`).
- Splitting a trade is exact only if no intermediate amount is snapped away
  (`Positions.SplitTrade`, `Positions.SplitIntoParts`, `Positions.SplitLosesDust`).
- A file counter that wraps around, as it does in a release build, can meet existing names
  (`FileNames.FileManager.GenerateFilePath`, `FileNames.WrapMeetsExistingName`).

One weakness of the strategy stays hidden behind its exchange adapter. A post-only failure for an
order that is being cancelled would empty the slot and leave the pending-cancel flag, and the side's
next order would be forgotten at its own acknowledgement (`Quotes.StrandedFlagForgetsNextOrder`,
`Quotes.StrandedRun`). The adapter gives that answer only to an order's own post, never after the
order was alive, and then the flag is always right (`Quotes.FlagIsClean`).

## Model

| member | source | states |
|---|---|---|
| Positions.PnlIsCashFlow | src/xcommons/position.rs:99-201 | For every sequence of trades at positive prices, through increases, reductions, closes and reversals and any mix of fee overrides: realized plus fees equals contract size times amount times average price plus cash, and PnL at any mark is cash flow plus the value of the amount less fees, whatever the average price |
| Positions.CarriedCost | src/xcommons/position.rs:57-85 | One trade: what is realized on the closed part plus the change of amount times average price is exactly the cash paid, in every branch |
| Positions.RunIsSound | src/xcommons/position.rs:99-141 | Every run of non-zero trades at positive prices trips no assertion, leaves an amount that is 0 or at least EPSILON, a positive average price when not flat, and a drift from the requested sum of at most EPSILON per trade |
| Positions.BookKeepsSound | src/xcommons/position.rs:67-85 | One trade from a dust-free position passes the assertions of increase and decrease and leaves no dust |
| Positions.SplitTrade | src/xcommons/position.rs:99-141 | Two same-side parts at one price give the same amount, average, realized, fees and volumes as the whole trade if and only if the intermediate amount is not snapped away, across a reversal too |
| Positions.SplitIntoParts | src/xcommons/position.rs:99-141 | Any number of same-side parts at one price: after every part the position is that of one trade of the total so far, if and only if no intermediate amount is snapped away |
| Positions.SplitLosesDust | src/xcommons/position.rs:114-118 | A failing input: buying half an EPSILON and then one unit loses the first part, buying both at once does not |
| Positions.RunTotals | src/xcommons/position.rs:99-106 | Over any run the two volumes are the totals of quantity and of quantity times price requested, and the trade count saturates |
| Positions.FeesAreCharges | src/xcommons/position.rs:130-164 | Over any run the fees are what the exchange charged plus rate times contract size times the value of the fills it charged nothing for |
| Positions.FeesAreRateOnVolume | src/xcommons/position.rs:99-136 | Over any run without exchange fees the fees are the rate times the quote volume |
| Positions.PnlIsTradedValue | src/xcommons/position.rs:99-201 | Marked PnL is what the requested quantities are worth at the mark, less what they cost and the fees, up to an EPSILON of quantity a fill, and exactly so when no running total is dust |
| Positions.MarkIsTheWorseSide | src/xcommons/position.rs:185-201 | Marking to market is the smaller of the PnL at the bid and the PnL at the ask |
| Positions.Position.Move | src/xcommons/position.rs:106-140 | The branches of trade: the amount is the snapped sum, the average and realized PnL those of the closed and opened parts; the closing snap is never reached in exact arithmetic |
| Positions.Position.Trade | src/xcommons/position.rs:99-141 | A trade books amount, average, realized, the percentage fee, both volumes and the saturating trade count |
| Positions.Position.TradeWithFee | src/xcommons/position.rs:146-164 | The exchange fee replaces the computed one in both fees and realized |
| Positions.Position.IncreasePosition | src/xcommons/position.rs:56-72 | Adds the quantity and sets the weighted average, positive under the asserted premise |
| Positions.Position.DecreasePosition | src/xcommons/position.rs:79-85 | Realizes the PnL of the closed quantity against an unchanged average, so that the value at the trade price stays what it was |
| Executions.SortIsSorted | src/trading/account_state/mod.rs:524-531 | Either comparator sorts executions with distinct keys strictly by timestamp and id |
| Executions.SortedIsUnique | src/trading/account_state/mod.rs:524-531 | A strictly sorted list of executions is determined by its elements |
| Executions.TextLessMeans | src/trading/account_state/mod.rs:524-531 | Ids are ordered at the first character where they differ, a text before what continues it |
| ExecutionStores.BucketIsFirstCopies | src/trading/account_state/mod.rs:51-70 | Any history of upserts leaves exactly the first copy of every key, strictly sorted |
| ExecutionStores.StoreIsCanonical | src/trading/account_state/mod.rs:51-70 | Two histories of upserts leave the same bucket if and only if they have the same first copies; with equal payloads for equal keys, order and repetition do not matter |
| ExecutionStores.ExecutionStore.Upsert | src/trading/account_state/mod.rs:51-70 | A new key joins its own bucket in order, a known key changes nothing, other buckets are untouched, and the set of seen keys stays exactly the stored ones |
| ExecutionStores.ExecutionStore.LoadRange | src/trading/account_state/mod.rs:72-80 | The executions strictly after the timestamp, in bucket order |
| ExecutionStores.ExecutionStore.LastPoint | src/trading/account_state/mod.rs:82-90 | The latest timestamp stored for the market: attained, and not exceeded by any stored execution; none exactly when nothing is stored |
| HistoryPaging.FetchHistorical | src/exchanges/binance_account.rs:420-506 | The window and page loops terminate and return what paging collects from the ledger, each execution telling its trade's time, side, quantity, price, commission and id |
| HistoryPaging.FetchWindow | src/exchanges/binance_account.rs:434-503 | One window: pages are read until one is short or the next start leaves the window |
| HistoryPaging.HistoryIsComplete | src/exchanges/binance_account.rs:427-506 | The result is exactly the trades with time after gt_ts and up to now, in order, once each, if and only if no full page ends inside a millisecond; distinct milliseconds always suffice |
| HistoryPaging.HistoryMembers | src/exchanges/binance_account.rs:427-506 | Whatever the pages, only trades after gt_ts and up to now come back, and all of them when no page ends inside a millisecond |
| HistoryPaging.SparseIsClean | src/exchanges/binance_account.rs:434-503 | If a thousand and one trades never fall within seven days, no page ends inside a millisecond |
| HistoryPaging.PageCutsMillisecond | src/exchanges/binance_account.rs:498-501 | A failing input: of 1001 trades in one millisecond the last is never returned |
| HistoryPaging.EpochIsNotFetched | src/exchanges/binance_account.rs:429-430 | A failing input: a trade at exactly the requested time is left out |
| HistoryPaging.SiblingIsNotFetched | src/exchanges/binance_account.rs:429-430 | A failing input: of two trades in one millisecond, asked for what follows the first, the second is left out although no page is cut |
| HistoryPaging.FullPage | src/exchanges/binance_account.rs:498-501 | After a full page the next request continues a millisecond later, makes progress and stays in the window |
| HistoryPaging.WindowIsAWeek | src/exchanges/binance_account.rs:434-437 | A window ends by now and spans at most seven days, and one of the two exactly |
| HistoryPaging.TruncatesTowardZero | src/exchanges/binance_account.rs:429-430 | The requested time is divided by a thousand toward zero |
| AccountReplay.AccountPnlIsCashFlow | src/trading/account_state/mod.rs:539-556 | The account's PnL after any executions is the value of a cash account fed with the same signed fills and fees |
| AccountTotals.AccountIsItsTotals | src/trading/account_state/mod.rs:539-556 | From flat, over any executions and amid any other reports, told from their own fields: the amount is what was bought less what was sold, volumes, fees and count are the totals, and marked PnL is what the net quantity is worth less its cost and fees, up to an EPSILON a fill and exactly when the net quantity is never dust |
| AccountTotals.BroadcastsAreTheFills | src/trading/account_state/mod.rs:539-556 | What is sent to subscribers is exactly the fills, in order |
| AccountTotals.FeesAreBasisPoints | src/trading/account_state/mod.rs:533-537 | A market starts flat, and ten thousand times its fees on fills without a commission is feeBps times their value |
| AccountTotals.FetchedAccountIsItsTotals | src/exchanges/binance_account.rs:427-506 | A history fetched whole and folded from flat, told from the exchange's trades alone: amount, volumes, commissions and the rate on the rest |
| AccountReplay.SwitchOver | src/trading/account_state/mod.rs:409-421 | With a replayed part of a ledger and a buffer of repeats followed by the rest in any order, replay plus sorted remainder is the ledger if and only if the first new execution is strictly newer than the last replayed timestamp (or the epoch) |
| AccountReplay.SwitchOverOfAnyBuffer | src/trading/account_state/mod.rs:409-421 | With any buffer at all, replay plus the sorted remainder is the ledger if and only if what is left after dropping the stale front is the rest of the ledger in some order |
| AccountReplay.RepeatBehindNew | src/trading/account_state/mod.rs:414-421 | A failing input: a repeat behind a new execution is applied a second time |
| AccountReplay.SwitchOverInTime | src/trading/account_state/mod.rs:409-421 | With strictly increasing timestamps repeats followed by the rest in any order are applied exactly once, unless the very first execution is at the epoch |
| AccountReplay.LiveIsRebuilt | src/trading/account_state/mod.rs:435-463 | What was applied (the replay, then live executions as they came) is what a rebuild replays if and only if the live ones came in strictly increasing key order above the replay, none before the epoch |
| AccountReplay.LivePositionIsRebuilt | src/trading/account_state/mod.rs:435-463 | After such a run the live position equals the rebuilt one |
| AccountReplay.HistoryBrings | src/trading/account_state/mod.rs:441-452 | On any ledger, shared milliseconds included: asked for what follows any time, the history brings only executions after it that have happened, and all of them when no page is cut |
| AccountReplay.SortedTradesAreLedger | src/trading/account_state/mod.rs:524-531 | Trades with distinct keys, in any number per millisecond, have their sorted executions as a ledger |
| AccountReplay.RestoreHeals | src/trading/account_state/mod.rs:441-452 | The backfill completes the store to the ledger if and only if the store had no gap below its last execution |
| AccountReplay.ReplayedIsAfter | src/trading/account_state/mod.rs:378-399 | Replay from the epoch is the stored bucket from the epoch on: sorting a sorted bucket changes nothing |
| AccountReplay.ReplayStartsAtTheEpoch | src/trading/account_state/mod.rs:378-399 | The replay is what is stored at or after the epoch; at the smallest i64 the epoch itself is left out |
| AccountReplay.RestartIsLatest | src/trading/account_state/mod.rs:345-361 | The restart point is the latest stored time, or the epoch when that is later |
| AccountRuns.StartIsExact | src/trading/account_state/mod.rs:343-421 | On any ledger and from a store of any reports: the backfill restores the ledger only if no due execution is missing at or before the restart point, and exactly then when no page is cut; and then, with any buffer, the trades applied on going online are the first m exactly when what is left of the buffer has the others, in any order and amid any other reports |
| AccountRuns.BackfillMissesTheEpoch | src/trading/account_state/mod.rs:343-399 | On a ledger from the epoch on with its first i executions stored, the backfilled store is complete exactly when the next execution, if it has happened, is later than the last one stored, or than the epoch in an empty store |
| AccountRuns.RunIsExact | src/trading/account_state/mod.rs:435-518 | Any number of connections delivering any reports, cancelled orders and fee-less placeholders included, told from the inputs alone: a trade is stored after them only if it was stored at first, delivered, or found by some rebuild to be later than every report until then, of which there was one; exactly then when no page is cut; so what is replayed is the first n trades exactly when just those are retained |
| AccountRuns.RunIsUncut | src/exchanges/binance_account.rs:434-503 | No page is cut in any run on a ledger with distinct milliseconds, or with at most a thousand trades within seven days |
| AccountRuns.RebuildIsExact | src/trading/account_state/mod.rs:441-463 | One rebuild from a store of any reports is exact only if no undelivered execution is at or before the last stored report, and exactly then when no page is cut; without any report stored nothing is fetched |
| AccountRuns.UpsertsReach | src/trading/account_state/mod.rs:435-439 | Storing a connection's reports holds the first j executions if and only if, with what was stored, it delivered those and none later, in any order, with any repeats and other reports between |
| AccountRuns.HoldsIffKeys | src/trading/account_state/mod.rs:378-399 | What a store replays of trades is the first n of the ledger if and only if, of those due, it has exactly their keys |
| AccountRuns.CancelReportLosesTrade | src/trading/account_state/mod.rs:441-452 | A failing input on the in-memory store: a stored report of a cancelled order not earlier than an undelivered trade makes the rebuild miss that trade |
| AccountRuns.SiblingFillIsLost | src/trading/account_state/mod.rs:441-452 | A stored fill whose next trade shares its millisecond makes the rebuild miss that trade |
| AccountRuns.TwoFillsOneMillisecond | src/trading/account_state/mod.rs:441-452 | A failing input: two fills of one millisecond, the first stored; the rebuild fetches nothing although no page is cut |
| AccountRuns.EmptyStoreStaysEmpty | src/trading/account_state/mod.rs:445-452 | A failing input: two trades were made while nothing was stored, and the rebuild brings neither |
| AccountRuns.OverrunIsLost | src/trading/account_state/mod.rs:435-518 | Whatever is missing and not later than the last stored report stays missing over any number of rebuilds, unless a connection delivers it |
| AccountRuns.HandedOverAreLost | src/trading/account_state/mod.rs:419-452 | Items applied at the hand-over are not stored: the rebuild is exact only if there were none or nothing was stored after them, and the next trade, if it has happened, is later than the last one stored, of which there is one; exactly then when no page is cut |
| AccountRuns.HandedOverTradeIsLost | src/trading/account_state/mod.rs:419-452 | A failing input: of two trades the first is handed over and the second delivered; the rebuild does not bring the first |
| AccountRuns.CancelReportIsForeign | src/exchanges/binance_account.rs:651-686 | A report of a cancelled order never has the key of a trade |
| AccountRuns.BareSort | src/trading/account_state/mod.rs:524-531 | The replay order of trades does not depend on the other reports among them |
| AccountRuns.CopiesAgree | src/trading/account_state/mod.rs:539-556 | Positions from different copies of the same trades agree in amount, average price, volumes, count and realized plus fees, and are equal if and only if the copies charge the same total |
| AccountRuns.PlaceholderLeavesFee | src/exchanges/binance_account.rs:689-729 | In the in-memory store a placeholder leaves the same position as the full report it keeps out if and only if the commission is none or the one computed from the rate |
| AccountRuns.PlaceholderForgetsFee | src/exchanges/binance_account.rs:689-729 | A failing input: one unit bought at a commission of one under a rate of zero |
| AccountRuns.HeldIsFold | src/trading/account_state/mod.rs:378-399 | The position a rebuilt store replays is the fold of the ledger up to what placeholders did not charge |
| PostgresStores.RowsMatchTrades | src/trading/account_state/mod.rs:103-152 | Whatever is upserted, the Postgres rows are, but for their fees, what the in-memory store would hold of the trades alone |
| PostgresStores.RowChargesLastCopy | src/trading/account_state/mod.rs:109-120 | Every row charges the fee of the last copy of its trade |
| PostgresStores.PlaceholderIsCorrected | src/trading/account_state/mod.rs:109-120 | A placeholder stored first is corrected by the full report; one stored behind it takes the fee away |
| PostgresStores.AnyOrderReplays | src/trading/account_state/mod.rs:154-192 | In whatever order the query returns rows of one time, the replay is the same |
| PostgresStores.RowsRunMatches | src/trading/account_state/mod.rs:435-463 | A run on Postgres fetches and holds, but for fees, what a run of the in-memory store does when the connections deliver only their trades |
| PostgresStores.RowsRunIsExact | src/trading/account_state/mod.rs:103-463 | Any number of disconnects on Postgres: a trade is stored only if stored at first, delivered, or found by some rebuild to be later than every trade until then, and exactly then when no page is cut; reports of cancelled orders do not enter the condition |
| PostgresStores.RowsStartIsExact | src/trading/account_state/mod.rs:343-421 | The start on Postgres is exact under the same conditions as in memory |
| AccountStates.AccountState.ApplyExecutions | src/trading/account_state/mod.rs:539-556 | The market's position becomes the fold of the executions, exactly those that move it are broadcast in order, no assertion trips, and other markets are untouched |
| AccountStates.AccountState.EnsurePosition | src/trading/account_state/mod.rs:533-537 | A missing position is created flat with the market's fee and contract size; an existing one is kept |
| AccountStates.AccountState.StartMarket | src/trading/account_state/mod.rs:333-432 | Restore and switch-over as one: the store is the upserted backfill after the clamped restart point, and what was applied is the replay plus the sorted, unstale rest of whatever the live buffer held and was then delivered |
| AccountStates.AccountState.TakeBuffered | src/trading/account_state/mod.rs:414-419 | Fronts of the live buffer not newer than the last applied timestamp are dropped, the buffer is drained and the rest sorted |
| AccountStates.AccountState.ConsumeLive | src/trading/account_state/mod.rs:435-439 | Every live execution is stored and applied in the order it comes |
| AccountStates.AccountState.Rebuild | src/trading/account_state/mod.rs:441-463 | The position is reset and becomes the replay of the store after its backfill, whatever it was before |
| AccountStates.AccountState.RunMarket | src/trading/account_state/mod.rs:333-521 | A whole run: after every disconnect the position is the replay of the store, the store is what all upserts of connections and backfills leave, and the run exits after the first rebuild in exit mode |
| MonoSeqs.IdsStrictlyIncrease | src/xcommons/monoseq.rs:51-99 | Every interleaving of any number of threads, with the clock going backwards and spurious exchange failures: ids strictly increase in exchange order |
| MonoSeqs.IssuedIdDecodes | src/xcommons/monoseq.rs:51-99 | And every id issued is non-negative, decodes to its three fields, and carries a millisecond read in that very call |
| MonoSeqs.MillisecondHolds4096 | src/xcommons/monoseq.rs:61-77 | At most 4096 ids ever share a millisecond |
| MonoSeqs.SequenceIsConsecutive | src/xcommons/monoseq.rs:61-77 | Under every interleaving the ids of one millisecond are numbered consecutively from 0, those of millisecond 0 from 1 |
| MonoSeqs.WaitsOnlyWhenFull | src/xcommons/monoseq.rs:66-77 | A call waits for the next millisecond only when every number of the one it loaded has been issued |
| MonoSeqs.ReadingTakesFirst | src/xcommons/monoseq.rs:54-77 | A clock reading lets a call go on exactly when its millisecond has a free number, and the call takes the first one |
| MonoSeqs.ExchangeIssuesUnlessOvertaken | src/xcommons/monoseq.rs:79-99 | An exchange issues its number exactly when it does not fail spuriously and nothing was issued above the word the call loaded |
| MonoSeqs.LoadsNewest | src/xcommons/monoseq.rs:52-54 | A call loads the newest word issued |
| MonoSeqs.NeverStuck | src/xcommons/monoseq.rs:51-99 | Every call can always take a step: load until it has a word, read until it is ready, then exchange |
| MonoSeqs.MachinesNeverCollide | src/xcommons/monoseq.rs:86-90 | Generators with different machine ids never issue the same id |
| MonoSeqs.StepKeepsInv | src/xcommons/monoseq.rs:52-99 | One atomic step of any thread keeps the invariant: a thread about to exchange always moves the word strictly up |
| MonoSeqs.IdDecodes | src/xcommons/monoseq.rs:24-33 | Below 2^41 milliseconds an id is non-negative and decodes to millisecond, machine and sequence |
| MonoSeqs.IdTurnsNegative | src/xcommons/monoseq.rs:88-90 | The bound is exact: the first millisecond beyond it gives a negative id |
| MonoSeqs.OrIsAddition | src/xcommons/monoseq.rs:79-88 | The shifted fields do not overlap, so combining them with or is adding them |
| MonoSeqs.MonoSeq.WaitUntilAtLeast | src/xcommons/monoseq.rs:123-141 | Returns the first reading that reaches the target |
| MonoSeqs.MonoSeq.Attempt | src/xcommons/monoseq.rs:54-77 | One attempt with its waits takes the phases of the interleaved model |
| MonoSeqs.MonoSeq.NextId | src/xcommons/monoseq.rs:51-99 | One uncontended call takes the first free number at the first reading that has one, moves the word strictly up to it and returns the id composed of it; it gives none exactly when no reading has room |
| Dedupers.Deduper.Insert | src/md/deduper.rs:44-55 | True exactly when the window onto the accepted keys does not hold the key, which then joins the history; the queue stays the window, the set its keys, and inserts equal live, evicted and expired keys together |
| Dedupers.Deduper.Prune | src/md/deduper.rs:58-69 | Leaves the longest suffix of the accepted keys that fits the capacity and has not expired, and counts what it drops as expired |
| Dedupers.Deduper.EnforceCapacity | src/md/deduper.rs:71-81 | Drops the oldest keys down to the capacity and counts them as evicted |
| Dedupers.BoundaryIsWindow | src/md/deduper.rs:58-81 | A suffix that fits and cannot be extended by one is the longest that fits |
| Dedupers.LiveIsRecent | src/md/deduper.rs:44-69 | A key is still remembered exactly when it is at most capacity keys and at most ttl old |
| Arrivals.OnceEachIffPrompt | src/md/latency_arb.rs:230-243 | A deduper forwards every key exactly once, at its first arrival, if and only if every repeat arrives while its key is at most ttl old and at most capacity keys back |
| Arrivals.LateRepeatIsForwarded | src/md/latency_arb.rs:230-243 | A failing input: a repeat more than ttl after its key is forwarded again |
| Arrivals.IdealOrRepeats | src/md/latency_arb.rs:230-243 | Outside that window some key has been forwarded twice |
| Arrivals.RaceIndependent | src/md/latency_arb.rs:216-246 | Two interleavings of the same per-connection streams, both within the window, forward the same keys, each once, and every key that arrived |
| Arrivals.FirstArrivalsAre | src/md/latency_arb.rs:230-243 | The first arrivals hold each key of the input once |
| Arrivals.FirstArrivalsAreFirst | src/md/latency_arb.rs:230-243 | And each of them is the arrival at which its key first occurs |
| LatencyArbs.RunTrades | src/md/latency_arb.rs:153-246 | A whole run of the trade loop: the forwarded trades are the accepted arrivals in order, everything that is not a trade passes untouched in order, the wins of all connections sum to the forwarded trades, acceptance is first arrival exactly within 200000 keys and 300 s, and every tick replaces one connection |
| LatencyArbs.CandidatesAreTrades | src/md/latency_arb.rs:213-246 | What races are exactly the trades received, in order, under their own keys |
| LatencyArbs.RunL2 | src/md/latency_arb.rs:399-505 | A whole run of the depth loop: whole batches are forwarded or dropped on the key of their first item, batches that begin with anything else are dropped, wins sum to the forwarded batches, within 500000 keys and 300 s, and every tick replaces one connection |
| LatencyArbs.CandidatesAreBatches | src/md/latency_arb.rs:460-505 | What races are exactly the messages that begin with a depth update, whole and in order, under that update's two ids |
| LatencyArbs.Race.Offer | src/md/latency_arb.rs:232-237 | A first copy is accepted and credited to its connection in both counters; a repeat changes neither |
| LatencyArbs.Race.Rotate | src/md/latency_arb.rs:168-211 | The connection with the fewest wins of the window, the lowest id among equals, is restarted and a new window begins; cumulative wins and the deduper are untouched |
| LatencyArbs.WinsAddUp | src/md/latency_arb.rs:267-272 | Counters that tally accepted arrivals per connection sum to the number accepted |
| DepthSyncs.EmittedIsChain | src/exchanges/binance.rs:509-551 | After a snapshot, whatever updates arrive and however many are rejected: the emitted ones start beyond the snapshot and each names the one before it, and the state remembers the last |
| DepthSyncs.DeliveredIffLinked | src/exchanges/binance.rs:528-546 | On increasing final ids everything newer than the snapshot is emitted if and only if that part has no missing link |
| DepthSyncs.GapStalls | src/exchanges/binance.rs:543-546 | Whatever comes, nothing more is emitted, and the state does not move, exactly as long as no update names the last emitted one |
| DepthSyncs.LostMessageStalls | src/exchanges/binance.rs:543-546 | After a lost message of the stream nothing is emitted whatever part of the rest arrives, further losses included |
| DepthSyncs.OneLostUpdate | src/exchanges/binance.rs:528-546 | A failing input: of updates 1, 3 and 4 only the first gets through |
| DepthSyncs.ReconcileChained | src/exchanges/binance.rs:310-336 | For a chained buffer with increasing ids, what is newer than the snapshot is a suffix of it, still chained and beyond the snapshot |
| DepthSyncs.StraddlesIffNothingMissing | src/exchanges/binance.rs:325-333 | A newer update straddles the snapshot exactly when it covers every id between the snapshot and its own end |
| DepthSyncs.Connector.ProcessBufferedUpdates | src/exchanges/binance.rs:310-336 | Either the newer updates, straddling the snapshot or empty, with the buffer emptied, or a gap and the resynchronizing state; no other outcome |
| DepthSyncs.Connector.TakeL2ReplayMessages | src/exchanges/binance.rs:739-757 | Always returns nothing; unless a gap was found the buffered updates are gone |
| DepthSyncs.Connector.BufferUpdate | src/exchanges/binance.rs:518-526 | The buffer is always the newest 50000 of the updates buffered |
| DepthSyncs.Connector.FollowUpdate | src/exchanges/binance.rs:528-546 | An update is emitted, dropped or reported as a mismatch exactly as the chain demands; the fallback branch is unreachable |
| DepthSyncs.Connector.OnText | src/exchanges/binance.rs:500-563 | Trade streams and non-depth texts pass untouched; depth updates are buffered, followed or refused by state |
| DepthSyncs.Connector.NextMessage | src/exchanges/binance.rs:491-591 | Every call, over any frames: it ends at the first frame that neither is passed over, buffered nor dropped, and returns what that frame demands; all depth updates read are accounted for, and what was emitted since the snapshot is still a chain |
| DepthSyncs.Connector.SubscribeL2 | src/exchanges/binance.rs:455-460 | Buffering begins only from a disconnected or connecting state; any other state, a resynchronizing one included, is kept |
| DepthSyncs.Connector.PrepareL2Sync | src/exchanges/binance.rs:352-364 | Starts following at the snapshot and leaves the buffer alone |
| OrderBooks.OrderBookManager.ApplyUpdate | src/md/orderbook.rs:84-132 | Another market is an error, an older update only fixes the market, anything else is one more write; every price of both sides keeps showing its last write |
| OrderBooks.OrderBookManager.InitializeFromSnapshot | src/md/orderbook.rs:50-81 | The book becomes the writes of the snapshot; levels without a positive quantity are skipped and remove nothing |
| OrderBooks.SnapshotShows | src/md/orderbook.rs:50-80 | At every price a loaded snapshot shows the last positive quantity its levels name there, or nothing |
| OrderBooks.MirrorsWrite | src/md/orderbook.rs:109-127 | Storing or removing a level keeps the side sorted and showing the last write at every price |
| OrderBooks.ReapplyIsIdempotent | src/md/orderbook.rs:84-132 | Applying the levels of one event a second time changes nothing in the book, although every one of its updates takes effect again |
| OrderBooks.UpdateIsFollowed | src/md/orderbook.rs:82-130 | An update of another market changes nothing, an older one only claims its market, any other moves the book on to its id |
| OrderBooks.EventShows | src/md/orderbook.rs:84-132 | After an event a price it writes shows its last write there, any other what it showed before |
| OrderBooks.Canonical | src/md/orderbook.rs:11-12 | A side of the book is determined by the quantity it shows at every price |
| OrderBooks.ProperBookOnlyCrosses | src/md/orderbook.rs:221-261 | With positive prices and no negative quantities, no level is empty and no check but the crossing one can fail |
| OrderBooks.OrderBookManager.Validate | src/md/orderbook.rs:221-261 | Each verdict exactly when it is due: quantities first, then ask prices, then crossing; bids are never out of order |
| OrderBooks.VerdictsMean | src/md/orderbook.rs:221-261 | Crossed means that some bid reaches some ask, and the ask order verdict that some ask has no positive price |
| OrderBooks.OrderBookManager.TopBids | src/md/orderbook.rs:163-173 | The n highest bids in strictly falling order |
| OrderBooks.OrderBookManager.TopAsks | src/md/orderbook.rs:176-185 | The n lowest asks in strictly rising order |
| OrderBooks.OrderBookManager.BestBid | src/md/orderbook.rs:135-144 | The highest bid, or none when there is none |
| OrderBooks.OrderBookManager.BestAsk | src/md/orderbook.rs:147-152 | The lowest ask, or none when there is none |
| TradeDedups.EmittedExactly | src/exchanges/binance_account.rs:597-746 | However many trades there are, as long as TRADE_LITEs do not repeat: a trade is emitted once for every accepted full update, plus once if a flush ever found its placeholder 1500 ms old |
| TradeDedups.OnceEachIffInTime | src/exchanges/binance_account.rs:597-746 | However many trades there are, no trade is emitted twice if and only if no trade announced in full was overdue as a placeholder, before or behind it, or repeated in full after a clear |
| TradeDedups.AcceptedAgainIffCleared | src/exchanges/binance_account.rs:599-600 | A trade is accepted at least once exactly when announced in full, and again exactly when a clear came between two of its full updates |
| TradeDedups.NoClearWhileFits | src/exchanges/binance_account.rs:599-600 | While at most 8192 trades are announced in full, none is repeated after a clear |
| TradeDedups.LateFullRepeats | src/exchanges/binance_account.rs:736-746 | A failing input: placeholder, a flush 1500 ms later, full update: emitted twice |
| TradeDedups.SeenAndPendingDisjoint | src/exchanges/binance_account.rs:599-602 | At all times no trade known in full has a placeholder |
| TradeDedups.LiteOnlyWhileUnseen | src/exchanges/binance_account.rs:736-746 | A placeholder is emitted only while its trade is not known in full since the last clear |
| TradeDedups.FirstLiteIsKept | src/exchanges/binance_account.rs:689-729 | While a placeholder is held a further TRADE_LITE of its trade leaves it as it was |
| TradeDedups.OverflowForgets | src/exchanges/binance_account.rs:599-600 | A failing run: after 8193 different trades the last of them is not known, and its repeated full update is emitted again |
| TradeDedups.RepeatIsEmittedIffCleared | src/exchanges/binance_account.rs:599-600 | However many trades there were, a repeated full update is emitted again if and only if a clear came at or after its last acceptance |
| TradeDedups.NothingForgottenIffFits | src/exchanges/binance_account.rs:599-600 | All trades ever announced in full are known if and only if there were at most 8192 |
| TradeDedups.SeenCounts | src/exchanges/binance_account.rs:599-600 | The set of known trades is emptied by every 8193rd acceptance: its size is the number of acceptances modulo 8193 |
| TradeDedups.TradeDedup.OnText | src/exchanges/binance_account.rs:597-746 | One message: the state is the specified next one, and what is sent is its own full trade or a placeholder that was ripe |
| TradeDedups.TradeDedup.Flush | src/exchanges/binance_account.rs:735-746 | Exactly the ripe placeholders are removed and sent, once each, in any order |
| Quotes.RunIsSafe | src/strats/naive_mm/strategy.rs:208-451 | Over any run of reports, responses, timeouts and passes: no id is posted or cancelled twice, every cancel names an order this side posted before, and a tracked order that was cancelled has the pending flag set |
| Quotes.HeldIffStanding | src/strats/naive_mm/strategy.rs:228-451 | Over any run a slot holds an order exactly from its post until an event ends it: a cancelled or dead report, a failed or not-found response, an acknowledged cancel, or the timeout |
| Quotes.EndedStaysOut | src/strats/naive_mm/strategy.rs:228-451 | Once an event has ended a posted order, the slot never holds it again |
| Quotes.ReportIsFollowed | src/strats/naive_mm/strategy.rs:228-259 | In any run a report touches only the order it names: alive makes it live, anything else empties the slot and clears the flag |
| Quotes.AnswerIsFollowed | src/strats/naive_mm/strategy.rs:286-312 | In any run a response touches only the order it names, by status: live, emptied, emptied with the post time forgotten, or untouched |
| Quotes.PassIsFollowed | src/strats/naive_mm/strategy.rs:373-451 | In any run a pass that reaches the exchange cancels the live order exactly when it is displaced or the limit is reached, posts exactly into an empty slot below the limit, and else sends nothing |
| Quotes.PassKeepsInv | src/strats/naive_mm/strategy.rs:390-451 | A pass cancels only a posted and never cancelled order and posts only into an empty slot with a fresh id |
| Quotes.CleanIffNeverStranded | src/strats/naive_mm/strategy.rs:286-304 | The pending flag always speaks of the tracked order if and only if no post-only failure ever hits an order being cancelled |
| Quotes.FlagIsClean | src/strats/naive_mm/strategy.rs:286-304 | As long as a post-only failure never comes after its order was acknowledged or reported alive, which is how the adapter answers, the flag always speaks of the tracked order |
| Quotes.StrandedFlagForgetsNextOrder | src/strats/naive_mm/strategy.rs:286-304 | If a post-only failure did come after its order was alive and being cancelled: on any run the next order posted is forgotten, uncancelled, at its own acknowledgement exactly when it was posted within the cancel timeout |
| Quotes.StrandedRun | src/strats/naive_mm/strategy.rs:286-304 | The shortest run on which a late failure has that effect |
| NaiveMms.NaiveMm.OnExecution | src/strats/naive_mm/strategy.rs:228-259 | Both slots follow the report by order id: cancelled or dead empties, new, replaced or alive makes live |
| NaiveMms.NaiveMm.OnOrderResponse | src/strats/naive_mm/strategy.rs:286-312 | Both slots follow the response: acknowledged, failed post-only, or not found |
| NaiveMms.NaiveMm.ExpireCancels | src/strats/naive_mm/strategy.rs:373-385 | An unanswered cancel is given up after 0.8 s and its slot emptied |
| NaiveMms.NaiveMm.QuoteBid | src/strats/naive_mm/strategy.rs:391-421 | The buy side cancels a live order that is displaced or over the limit, or posts the lot at its target into an empty slot below the limit, reduce-only when short |
| NaiveMms.NaiveMm.QuoteAsk | src/strats/naive_mm/strategy.rs:422-451 | The sell side likewise, with the position negated |
| NaiveMms.NaiveMm.Update | src/strats/naive_mm/strategy.rs:336-453 | A pass does nothing without market, price or readiness, and otherwise one step of each side; safety and separate ids are kept |
| NaiveMms.NaiveMm.OnObs | src/strats/naive_mm/strategy.rs:132-160 | The mid price is kept, and the one cancel-all is sent at most once |
| NaiveMms.NaiveMm.SidesTrackDifferentOrders | src/strats/naive_mm/strategy.rs:390-451 | The tracked bid and ask ids never coincide |
| NaiveMms.TargetsDoNotCross | src/strats/naive_mm/strategy.rs:362-371 | With a non-negative spread the rounded bid target never exceeds the ask target |
| NaiveMms.TargetsAreNearest | src/strats/naive_mm/strategy.rs:362-371 | Each target is the multiple of the tick nearest to the mid price moved by the spread |
| NaiveMms.NaiveMm.BidQuote | src/strats/naive_mm/strategy.rs:362-451 | The buy side's target, displacement threshold, exposure, limit and lot |
| NaiveMms.NaiveMm.AskQuote | src/strats/naive_mm/strategy.rs:362-451 | The sell side's, with the position negated |
| FileNames.RoundTrip | src/output/file_manager.rs:165-182 | For every stream name, exchange, symbol and u64 number the generated name parses back to exactly that number and key |
| FileNames.ParsesExactly | src/output/file_manager.rs:165-182 | Exactly the names parse that are a key of at least three parts, a u64 and the extension |
| FileNames.NormalizedSymbol | src/output/file_manager.rs:145-148 | Slashes and dashes of a symbol become underscores and nothing else changes |
| FileNames.DocumentedNames | src/output/file_manager.rs:34-65 | The documented file names are what is generated |
| FileNames.SplitAt | src/output/file_manager.rs:171-179 | Splitting at a separator splits both sides on their own, so joining the parts gives the key back |
| FileNames.NextNameIsNew | src/output/file_manager.rs:37-67 | With every counter at least as high as the names taken, the next number gives a name that is not taken, and stays so |
| FileNames.WrapMeetsExistingName | src/output/file_manager.rs:49-56 | A failing input: a directory with the numbers 0 and u64::MAX of a stream, where the next name is one of them |
| FileNames.FileManager.InitializeSequencesFromExistingFiles | src/output/file_manager.rs:112-137 | Every counter becomes the highest number found for its key, or stays, so no counter is behind a name in the directory |
| FileNames.FileManager.GenerateFilePath | src/output/file_manager.rs:37-67 | The generated name equals no existing or earlier one if and only if the counter does not wrap, or the wrapped name is not taken |
| Decimals.ParsePadded | src/output/file_manager.rs:58-64 | Zero padding and parsing a u64 are inverse |
| Decimals.ParsesDigits | src/output/file_manager.rs:174-176 | What parses is digits, perhaps behind one plus sign, whose number fits in a u64 |
| Decimals.PaddedIsSixWide | src/output/file_manager.rs:58-64 | A number is printed at least six wide, and without leading zeros beyond that |

## Left out

- Floating point: amounts, prices, fees and quantities are exact reals; rounding, infinities and NaN are not modelled.
- Network, signing, JSON, task spawning, logging and metrics: messages, clock readings, channel outcomes and fresh ids are inputs. The metrics exporter is taken to be installed, since response handling sits inside that check, and an account id to be configured.
- HTTP errors abort a history fetch in the original; the model has no such errors, and the ledger does not change during one fetch.
- PostgresStores.RowsRunIsExact: the table is a list of rows in key order and a query a function on it; SQL, pooling and failures of the database are not modelled. The class `AccountState` runs on the in-memory store.
- `build_from_epoch`, which builds a position that a later `run_market` would add to.
- Broadcast of position snapshots; only broadcast executions are recorded.
- AccountStates.AccountState.RunMarket: positions are held by value in the map, so aliasing of a position object is not modelled; the run is a finite list of connections.
- AccountRuns.RunIsExact: a placeholder is taken to name the price of its trade; the original falls back to the order price when the last price is missing. Cancel reports are told apart by their id, as the adapter writes it.
- AccountRuns.StartIsExact: asks for trades at positive times and with distinct ids within a millisecond. That the conditions suffice is claimed only when no page is cut, as it is on every ledger of `AccountRuns.RunIsUncut`; that they are necessary, always.
- MonoSeqs.IdsStrictlyIncrease: asks that readings stay below 2^41 ms, beyond which ids turn negative; memory ordering is sequentially consistent on the one word.
- The sort and the ordered map of the standard library are modelled by their specification (a stable insertion, a sorted list).
- LatencyArbs.RunTrades: message counts, periodic reports and a closed output channel are left out; replacing a connection is a counter.
- DepthSyncs.EmittedIsChain: no claim that nothing is missing between the snapshot and the first emitted update, since the code accepts a gap there on purpose.
- Scanning U, u and pu from a text is not modelled; a text is a depth update or not.
- TradeDedups.OnceEachIffInTime: asks for no repeated TRADE_LITE. Reports of cancelled orders only trigger the flush.
- Quotes.RunIsSafe: ids must be fresh, as the id generator provides; nothing is claimed about orders at the exchange that the slots have forgotten.
- The book's `stats`, `spread` and `next_sequence`, the strategy's configuration and prints, `trade_to`, `close` and the quote helpers of the position: easy members.
- Listing files by pattern, and the directory itself: a listing is a list of names.
- Circuit breaker, market-id hashing, averages, Parquet and QuestDB output, subscriptions: easy members or library code.

# Polymarket-bot: verified kernels

A model of the stateful and numerical kernels of the Polymarket market maker, with proofs of what they keep. Prices, sizes and
money are `real`; tolerances (1e-9, 1e-6) and the four- and six-decimal roundings are explicit; `round` is Python's half-to-even.
Clocks and the replies of the exchange, the relayer and the feed are inputs, arbitrary at every step.

| part | files |
|---|---|
| Reconciling desired quotes with confirmed orders: `diff`, its matching quality, exact accounting, convergence and the self-cross invariant over runs | `OrderTypes`, `OrderDiff`, `MatchingQuality`, `MutationAccounting`, `Exchange`, `Convergence`, `QuoteService`, `RepeatedRuns`, `SelfCrossSafety` |
| Carrying the mutations out: retries, confirm-cancel mode, what is reported | `RejectionTracking`, `ExecutionActor` |
| Order books from snapshots and deltas, resync requests, the book a strategy reads | `BookTypes`, `Sorting`, `MarketStream`, `BookRefinement`, `StreamRuns`, `BookState` |
| The order ledger on the heap and crash recovery | `OrderLedger`, `LedgerRuns`, `Recovery` |
| Fills, positions and markouts | `Positions`, `FillLedger` |
| Ranking, capital allocation, quoting, reward band, inventory skew | `MarketRanker`, `MarketValue`, `FeeCalculator`, `StrategyA`, `StrategyQuotes`, `QuoteEngine`, `Inventory` |
| Relayer failover, fee cache, drawdown, redemption | `Failover`, `FeeCache`, `Drawdown`, `Redemption` |

State that the bot updates in place is a class whose methods are proved against transition functions; what holds over whole runs
is proved about those functions. One step of the order model cancels the ids of a mutation list and appends the acknowledged
places, which is what the insertion-ordered dictionary of the ledger amounts to.

Where code and documentation disagree the model follows the code:

- `diff` promises the minimum mutation set (core/execution/execution_actor.py:96). Self-cross cancels aside, it is minimum exactly as
  far as the price tolerance behaves transitively (`MatchingQuality.AlwaysMaximumIff`, `MatchingQuality.PlanNotAlwaysMinimum`). With
  them it need not be even then (`MatchingQuality.SelfCrossNotMinimum`); it is for wide quotes (`Convergence.WidePlanIsMinimum`).
- `diff` does not always settle: it settles in one step from every set of resting orders exactly when opposing quotes leave room for
  both tolerances (`Convergence.AlwaysSettlesIffWide`), and in as many steps as there are quotes when they leave room for one
  (`RepeatedRuns.ApartQuotesSettle`). The settings the bot gives strategy A produce a pair that never does on a one-cent market
  (`QuoteEngine.BotSettingsCanFlip`).
- The self-cross pass compares new orders with resting ones only: it keeps our own orders from meeting exactly when the desired
  quotes are apart (`SelfCrossSafety.AlwaysSafeIffApart`), which those quotes of the bot are not
  (`QuoteEngine.FirstCycleRestsTightPair`). Outside confirm-cancel mode the cancels are only dispatched before the places, which may
  overtake them (`SelfCrossSafety.DispatchedCancelsSafeIff`).
- Recovery promises to clear the resyncing flag; a malformed price or size of an unknown order raises and leaves it set
  (`Recovery.RecoveryRaisesIff`, `Recovery.RaisesHalfWay`, `Recovery.RecoveryCoordinator.Recover`). It also cancels partially filled
  orders, not only submitted and acknowledged ones.
- Reward clamping may move a post-only quote onto the opposite best price (`QuoteEngine.DesiredQuotesPostOnly`,
  `QuoteEngine.ClampedBidCrosses`).
- Good-till-date quotes before a game can carry an expiration in the past (`StrategyA.GameQuotesAlive`,
  `StrategyA.QuoteAlreadyExpired`).
- The redemption backoff is documented as 30, 120 and 300 seconds; the last delay is never slept (`Redemption.CallBounded`).
- The orchestrator uses the order id as fill id (core/orchestrator.py:550), so the record of the first of two partial fills of an
  order is replaced and never gets a markout (`FillLedger.OwnMarkoutIff`, `FillLedger.FirstPartialFillNeverMarked`). It passes no mid
  either, so at present none of its fills is queued for one.
- `apply_fill` says a sell decreases YES shares; the code only adds NO shares.

An answer can be lost although the request was carried out, and the code takes every exception for a failure. The relayer call has a
timeout of 30 seconds (auth/relayer.py:69-79): once the EOA wallet is in use, or comes into use with that very call, an order whose
relayer call times out is posted again through it (`Failover.SubmitsOnceIff`, `Failover.TimedOutAndSubmittedTwice`), a redemption is
tried again (`Redemption.AtMostOnceIff`, `Redemption.LostAnswerRedeemsTwice`), and an order may rest that the actor never reports
(`ExecutionActor.ReportMatchesExchange`, `ExecutionActor.LostPostRests`).

The same conditions also cover alerters that raise. The bot's own `send` logs every error and never does (alerts/alerter.py:14,
121-160), but the code takes any alerter. With one that raises, a redemption that succeeded is tried again
(`Redemption.RedeemedTwice`), and a relayer recovery is caught as if the relayer had failed, so the order goes out a second time
through the EOA wallet (`Failover.SubmittedTwice`).

## Model

| member | source | states |
|---|---|---|
| OrderDiff.FirstFit | core/execution/execution_actor.py:119-123 | The order an intent takes is a remaining one that fits it, and none is taken only when none fits. |
| OrderDiff.TakeFirstFit | core/execution/execution_actor.py:119-123 | The scan with its break finds the first fitting order. |
| OrderDiff.MatchIntents | core/execution/execution_actor.py:117-128 | The matching loop ends with the ids of the greedy assignment matched and exactly the unserved intents to place. |
| OrderDiff.CancelUnmatched | core/execution/execution_actor.py:130-138 | Cancels, in order, exactly the confirmed orders whose id was not matched. |
| OrderDiff.CancelCrossed | core/execution/execution_actor.py:146-160 | For one new order, cancels each confirmed opposing order of its token within a tick that is not being cancelled yet. |
| OrderDiff.CancelAllCrossed | core/execution/execution_actor.py:140-160 | The same over all new orders, the set of cancelled ids growing along the way. |
| OrderDiff.Diff | core/execution/execution_actor.py:92-166 | The three passes with their mutable lists yield exactly the mutations of the plan: unmatched cancels, self-cross cancels, places. |
| MatchingQuality.GreedyIsValid | core/execution/execution_actor.py:117-128 | Every intent gets at most one fitting order and no order goes to two intents. |
| MatchingQuality.GreedyIsMaximal | core/execution/execution_actor.py:117-138 | No intent that is placed fits any confirmed order that is left unmatched. |
| MatchingQuality.GreedyServesHalf | core/execution/execution_actor.py:117-128 | Any valid matching serves at most twice as many intents as the greedy one, although price matching is not transitive. |
| MatchingQuality.GreedyIsMaximum | core/execution/execution_actor.py:117-128 | When orders sharing a fitting intent fit the same intents (no zigzag), no valid matching serves more intents. |
| MatchingQuality.NoContentionNoZigzag | core/execution/execution_actor.py:117-128 | In particular there is no zigzag when no order fits two intents. |
| MatchingQuality.AlwaysMaximumIff | core/execution/execution_actor.py:75-128 | Exactly: the greedy matching serves as many intents as any on every selection and ordering of the intents and orders if and only if there is no zigzag, which the non-transitive price tolerance can cause. |
| MatchingQuality.PlanCost | core/execution/execution_actor.py:117-166 | The mutations are what the matching costs: a cancel for each order it leaves out or that a new one crosses, a place for each intent it does not serve. |
| MatchingQuality.PlanIsMinimum | core/execution/execution_actor.py:96-138 | Without a zigzag, no valid matching has fewer cancels of unmatched orders and places together. |
| MatchingQuality.PlanNotAlwaysMinimum | core/execution/execution_actor.py:96-138 | With a zigzag the promise fails: buys at 0.51 and 0.50 against buys at 0.50 and 0.52 cause a needless cancel and place. |
| MatchingQuality.SelfCrossNotMinimum | core/execution/execution_actor.py:96-160 | Even without a zigzag the promise fails through self-cross cancels: a buy at 0.50 and a sell at 0.515 against buys at 0.506 and 0.494 cause three mutations, a valid matching two. |
| Convergence.WidePlanIsMinimum | core/execution/execution_actor.py:96-166 | The promised minimum mutation set, self-cross cancels included: without a zigzag and with room for both tolerances between opposing quotes, no valid matching leads to fewer mutations. |
| MutationAccounting.CancelsComeFirst | core/execution/execution_actor.py:162-166 | The mutations are a prefix of cancels followed by places only. |
| MutationAccounting.CancelledOnce | core/execution/execution_actor.py:130-160 | No id is cancelled twice and only confirmed orders are cancelled. |
| MutationAccounting.KeptForOneIntent | core/execution/execution_actor.py:117-160 | A confirmed order survives exactly when an intent took it and no placed order crosses it, and that intent is unique. |
| MutationAccounting.PlacedOnceInOrder | core/execution/execution_actor.py:118-128 | Every desired intent is either matched or placed exactly once, and the placed ones keep their order. |
| MutationAccounting.AllCrossedFacts | core/execution/execution_actor.py:140-160 | The self-cross pass cancels, once each, exactly the orders that some new order crosses and that were not being cancelled. |
| Exchange.PlanOnExchange | core/execution/execution_actor.py:162-166 | Sent to an exchange, the mutation list cancels exactly the unmatched and crossed ids and places exactly the unserved intents. |
| Exchange.OneMutation | core/execution/execution_actor.py:315-316 | One mutation is one cancelled id or one placed intent; with the lemmas on joined lists, the batches keep the order of the list. |
| QuoteService.EveryQuoteIsServed | core/execution/execution_actor.py:79-166 | After a reconciliation without a self-cross cancel, all places acknowledged, every desired intent has a resting order of its own: same token, side, time in force and post-only flag, size within a millionth, price within its tick. |
| QuoteService.ServingOrderIsKept | core/execution/execution_actor.py:79-138 | A confirmed order that agrees with an intent in all of these is never cancelled as no longer desired while that intent is placed. |
| QuoteService.CancelledForReason | core/execution/execution_actor.py:130-160 | The reason of each cancel, in fields: no longer desired exactly when no intent took the order, self-cross exactly when a taken order is of the token and on the other side of a placed intent, within the tick of the first intent; an order is taken by at most one intent, which it serves. |
| Convergence.FirstFitIsStable | core/execution/execution_actor.py:117-128 | On the orders kept followed by those placed, first fit finds every intent its old partner or its new order again. |
| Convergence.SettlesWithoutSelfCross | core/execution/execution_actor.py:112-166 | Without a self-cross cancel, reconciling again after all places rest yields no mutation. |
| Convergence.SelfCrossLeavesWork | core/execution/execution_actor.py:140-160 | A self-cross cancel leaves some intent without an order, so reconciling again is never empty. |
| Convergence.SettlesIffNoSelfCross | core/execution/execution_actor.py:112-166 | For one set of resting orders: the second reconciliation is empty if and only if the first had no self-cross cancel. |
| Convergence.SelfCrossNeedsTightQuotes | core/execution/execution_actor.py:140-160 | A self-cross cancel exhibits two opposing desired quotes of one token closer than both tolerances together. |
| Convergence.WideQuotesSettle | core/execution/execution_actor.py:112-166 | Opposing quotes at least two ticks and both tolerances apart settle in one step. |
| Convergence.TightQuotesUnsettled | core/execution/execution_actor.py:112-166 | Two opposing quotes closer than that have an order resting between their tolerances from which a second reconciliation still has work. |
| Convergence.AlwaysSettlesIffWide | core/execution/execution_actor.py:112-166 | One-step convergence as a condition on the desired quotes: whatever rests, the second reconciliation is empty, if and only if opposing quotes of a token leave room for both tolerances. |
| RepeatedRuns.TightPairFlips | core/execution/execution_actor.py:112-166 | A buy and a sell within a tick of each other, either one resting alone, swap places at every reconciliation for any number of cycles. |
| RepeatedRuns.ApartQuotesSettle | core/execution/execution_actor.py:112-166 | Convergence over repeated runs: when opposing quotes are a tick apart, as many reconciliations as there are quotes leave nothing to do, whatever rested at first. |
| RepeatedRuns.SettledOrFewer | core/execution/execution_actor.py:112-166 | Until nothing is left to do, every run after the first takes an order at none of the desired prices off the book. |
| RepeatedRuns.PairSettlesIffApart | core/execution/execution_actor.py:112-166 | For the two sides of one market: every run from every resting set is settled after two or more reconciliations if and only if the quotes are a tick apart. |
| SelfCrossSafety.CycleKeepsSafe | core/execution/execution_actor.py:140-166 | Whatever else leaves the book, a cycle on a safe one leaves it safe unless two of its own accepted places clash. |
| SelfCrossSafety.CycleSafeIff | core/execution/execution_actor.py:140-166 | With nothing else leaving the book, one cycle keeps it safe if and only if its accepted places do not clash with each other. |
| SelfCrossSafety.RunStaysSafe | core/execution/execution_actor.py:140-166 | Over every run of per-token cycles whose quotes keep opposing sides a tick apart, no opposing pair ever rests within a tick. |
| SelfCrossSafety.AlwaysSafeIffApart | core/execution/execution_actor.py:140-166 | Self-cross safety as a condition on the desired quotes of a token: whatever safely rests, is accepted and leaves, a cycle keeps the book safe, if and only if opposing quotes are a tick apart. |
| SelfCrossSafety.CloseQuotesUnsafe | core/execution/execution_actor.py:140-166 | Opposing quotes that are not apart rest together after the first cycle on an empty book, since the pass never compares new orders with each other. |
| SelfCrossSafety.AwaitedCancelsKeepSafe | core/execution/execution_actor.py:318-354 | Cancels before places: when the batch of cancels is awaited and quotes are apart, no moment of the cycle leaves the book unsafe. |
| SelfCrossSafety.DispatchedCancelsSafeIff | core/execution/execution_actor.py:318-354 | When the batch is only dispatched, every moment is safe if and only if no accepted place comes within a tick of another one or of any opposing order that rested, cancelled or not. |
| SelfCrossSafety.CrossedMayBeMet | core/execution/execution_actor.py:140-160 | Whenever the self-cross pass cancels an order and all places are accepted, some accepted place does come within a tick of an order that rested. |
| SelfCrossSafety.CycleIsLocal | core/orchestrator.py:512-527 | A cycle leaves the orders of every other token alone, and its own token sees exactly its own reconciliation. |
| RejectionTracking.RejectionTracker.MaybeRoll | core/execution/execution_actor.py:190-196 | After a minute both counters restart at zero and the window starts now. |
| RejectionTracking.RejectionTracker.RecordPlacement | core/execution/execution_actor.py:179-181 | Rolls the window, then counts one placement. |
| RejectionTracking.RejectionTracker.RecordRejection | core/execution/execution_actor.py:183-185 | Rolls the window, then counts one rejection. |
| RejectionTracking.RejectionTracker.UpdateConfirmCancelMode | core/execution/execution_actor.py:217-232 | The two-sided switch sets the mode to whether the rate exceeds the threshold. |
| RejectionTracking.CountersCountTheWindow | core/execution/execution_actor.py:171-196 | Under a monotone clock the counters are exactly the numbers of placements and rejections since the window began, all less than a minute after it. |
| RejectionTracking.WindowMoves | core/execution/execution_actor.py:190-196 | The window moves to an event exactly when that comes a minute or more after the window began. |
| ExecutionActor.OutcomeIff | core/execution/execution_actor.py:263-301 | A placement yields an id exactly when some attempt made, every earlier one having met a duplicate, is posted with it. |
| ExecutionActor.ModeAfterPlacement | core/execution/execution_actor.py:217-301 | After a placement confirm-cancel mode holds exactly when rejections times 100 exceed the threshold times placements, except that a first attempt that fails outright leaves it as it was. |
| ExecutionActor.PlacementExtendsTrace | core/execution/execution_actor.py:234-301 | A placement counts once and each of its duplicate rejections once, so the window property covers whole runs. |
| ExecutionActor.ExecutionActor.Tracker | core/execution/execution_actor.py:212-215 | Returns the tracker of a token, creating a fresh one on first use. |
| ExecutionActor.ExecutionActor.Retry | core/execution/execution_actor.py:263-301 | The retry loop ends at the first answer that is not a duplicate, counting every duplicate on the way. |
| ExecutionActor.ExecutionActor.PlaceWithRetry | core/execution/execution_actor.py:234-301 | Only the tracker of the intent moves, by one placement and its rejections. |
| ExecutionActor.ExecutionActor.CancelBatch | core/execution/execution_actor.py:321-338 | The batch of cancels is awaited exactly when the first cancelled token is in confirm-cancel mode. |
| ExecutionActor.ExecutionActor.PlaceAll | core/execution/execution_actor.py:340-352 | Places in order, reporting the ids that are not empty. |
| ExecutionActor.ExecutionActor.Apply | core/execution/execution_actor.py:303-354 | A dry run sends nothing; otherwise the cancels are sent before any place, and an awaited cancel that raises stops everything before the first place. |
| ExecutionActor.ReportMatchesExchange | core/execution/execution_actor.py:315-354 | What the bot takes to rest, with the ids it reports, is what rests on the exchange if and only if every attempt made that leaves an order resting is answered with its nonempty id; otherwise more rests than is reported. |
| ExecutionActor.LostPostRests | core/execution/execution_actor.py:265-302 | A post whose answer is lost: its order rests and nothing is reported. |
| ExecutionActor.PostedIff | core/execution/execution_actor.py:263-301 | A placement sends a post exactly when some attempt made gets past creating the order. |
| ExecutionActor.PostsBounded | core/execution/execution_actor.py:234-301 | A batch of places sends at most three posts a place; creating an order may fail before any. |
| ExecutionActor.CallsPostIntents | core/execution/execution_actor.py:248-302 | The calls after the batch of cancels post the intents of the mutation list unchanged and in its order, the k-th exactly as often as an attempt made for it reaches the exchange. |
| ExecutionActor.RestingWasSent | core/execution/execution_actor.py:248-302 | Every order that comes to rest is, in token, side, price, size and flags, the intent of a call that was sent. |
| ExecutionActor.OneBatchOfCancels | core/execution/execution_actor.py:319-340 | One batch with all cancelled ids is sent exactly when something is cancelled; it is awaited exactly when the token of the first cancel is in confirm-cancel mode. |
| ExecutionActor.TrackersApart | core/execution/execution_actor.py:212-245 | A placement moves the tracker of its own token, made on first use, and no other. |
| ExecutionActor.DryRunNames | core/execution/execution_actor.py:340-350 | A dry run reports one made-up id for each place, naming its token and side. |
| Sorting.SortSorts | core/execution/market_stream.py:190-197 | Sorting yields the same items in ascending key order. |
| Sorting.SortIsStable | core/execution/market_stream.py:190-197 | Items of equal key keep their order. |
| MarketStream.MarketStreamGateway.SubscribeTo | core/execution/market_stream.py:91-98 | New tokens join the subscription; books and counters stay. |
| MarketStream.MarketStreamGateway.UnsubscribeFrom | core/execution/market_stream.py:100-107 | Subscribed tokens among those named leave, with their books. |
| MarketStream.MarketStreamGateway.LoadSide | core/execution/market_stream.py:152-161 | A side of a snapshot keeps, for each price string, its last positive size. |
| MarketStream.MarketStreamGateway.ApplySnapshot | core/execution/market_stream.py:150-162 | A snapshot replaces the book of its token and is published. |
| MarketStream.MarketStreamGateway.ApplyDelta | core/execution/market_stream.py:164-183 | A delta changes single levels in place, sides it does not know aside; without a snapshot it is ignored. |
| MarketStream.MarketStreamGateway.Emit | core/execution/market_stream.py:185-219 | A crossed book is counted and at the threshold asks for a resync; any other is published, which clears the count. |
| BookRefinement.BookFollowsHistory | core/execution/market_stream.py:144-183 | After every trace a token has a book exactly when a snapshot came since it was last dropped, and each level has the size the last event mentioning it gave. |
| BookRefinement.OtherBooksUntouched | core/execution/market_stream.py:144-183 | An event of one token leaves every other token's book alone. |
| StreamRuns.SideShowsHistory | core/execution/market_stream.py:189-197 | The sorted side of a book lists, best first, each level the history settles on as often as keys spell it. |
| StreamRuns.CrossedFollowsHistory | core/execution/market_stream.py:199-200 | Comparing the two best prices finds a crossed book exactly when some bid is at or above some ask. |
| StreamRuns.EmitsFaithfulBooks | core/execution/market_stream.py:144-217 | An event is published exactly when it is processed and leaves the book uncrossed, and what is published shows the history: sorted, each level once for each key. |
| StreamRuns.AllEmittedFaithful | core/execution/market_stream.py:144-217 | Every book event a trace ever emits shows the history of a prefix whose last event updated its token uncrossed; its sides are strictly sorted exactly when prices are canonical, and its sizes positive if no event brings a negative one. |
| StreamRuns.FaithfulIsUnique | core/execution/market_stream.py:189-217 | Under canonical prices the history determines the whole event. |
| StreamRuns.SizesPositive | core/execution/market_stream.py:154-183 | If no delta carries a negative size, every level has a positive size. |
| StreamRuns.StrictIffCanonical | core/execution/market_stream.py:189-197 | A faithful event has strictly sorted sides exactly when the feed spells each price in one way. |
| StreamRuns.CounterFollowsStreak | core/execution/market_stream.py:199-210 | A token's counter is the length of its current crossed streak modulo the threshold. |
| StreamRuns.ResyncsFollowStreaks | core/execution/market_stream.py:199-210 | Over every trace the resync requests are exactly one per streak reaching a multiple of the threshold, in order. |
| BookState.BookStateStore.Update | core/execution/book_state.py:38-44 | Replaces the sorted sides and remembers the previous mid. |
| BookState.BookStateStore.StartResync | core/execution/book_state.py:46-93 | Blocks placements and escalates exactly on a long gap, a moved mid or a wide spread. |
| BookState.BookStateStore.CompleteResync | core/execution/book_state.py:95-118 | Replaces the book, lifts the block and leaves the mid of the update before. |
| BookState.StoredEventIsUncrossed | core/execution/book_state.py:38-44 | Storing an uncrossed event keeps its levels and puts the mid strictly inside the spread. |
| BookState.MidMovedIff | core/execution/book_state.py:71-82 | The mid has moved when its change times 100 exceeds the allowed percentage times the previous mid, signs minded; a previous mid of zero never counts. |
| BookState.SpreadInTicks | core/execution/book_state.py:133-138 | The spread in ticks is the whole number nearest to it, zero for a book without both sides. |
| OrderLedger.OrderLedger.Put | core/ledger/order_ledger.py:163-165 | The record becomes both the current one and the last of its history: one object. |
| OrderLedger.OrderLedger.RecordSubmitted | core/ledger/order_ledger.py:79-113 | A fresh record joins the history; a first submission also takes the next place in the order. |
| OrderLedger.OrderLedger.Transition | core/ledger/order_ledger.py:167-176 | A fresh copy in the new state is appended; an unknown id changes nothing. |
| OrderLedger.OrderLedger.RecordAcknowledged | core/ledger/order_ledger.py:115-116 | The latest record, acknowledged, is appended. |
| OrderLedger.OrderLedger.RecordPartiallyFilled | core/ledger/order_ledger.py:118-122 | The later write to the filled size reaches the new record only. |
| OrderLedger.OrderLedger.RecordFilled | core/ledger/order_ledger.py:124-128 | The filled size is written only when given. |
| OrderLedger.OrderLedger.RecordCancelled | core/ledger/order_ledger.py:130-134 | The later write to the reason reaches the new record only. |
| OrderLedger.OrderLedger.RecordExpired | core/ledger/order_ledger.py:136-137 | The latest record, expired, is appended. |
| OrderLedger.OrderLedger.RecordRejected | core/ledger/order_ledger.py:139-143 | The later write to the reason reaches the new record only. |
| OrderLedger.OrderLedger.OpenOrders | core/ledger/order_ledger.py:150-153 | Exactly the current records not in a terminal state, in order of first submission. |
| OrderLedger.OrderLedger.CurrentRecord | core/ledger/order_ledger.py:147-148 | The current record of an order holds the latest entry of its history. |
| OrderLedger.HistoryOnlyGrows | core/ledger/order_ledger.py:163-176 | Over every run each history is a prefix of the later one, and known ids keep their place. |
| OrderLedger.HistoriesStayCoherent | core/ledger/order_ledger.py:79-176 | Over every run each history starts with a submission and each next record is a new submission or the same order in a new state. |
| OrderLedger.LatestFollowsOps | core/ledger/order_ledger.py:79-176 | After every run the ledger knows exactly the submitted orders; each field of a latest record is what the operations last said of it since the submission, and an order is open unless the last one filled, cancelled, expired or rejected it. |
| OrderLedger.IdentityFrozen | core/ledger/order_ledger.py:167-176 | Between submissions no identity field ever changes. |
| LedgerRuns.Perform | core/ledger/order_ledger.py:79-143 | One operation appends at most one fresh object and mutates no older one. |
| LedgerRuns.Replay | core/ledger/order_ledger.py:79-176 | A run on the heap is the run on values, histories grow object by object, and every object from before holds what it held. |
| Recovery.ListOpen | core/ledger/recovery_coordinator.py:92 | The ids of the open orders, in ledger order. |
| Recovery.SettleOpenOrders | core/ledger/recovery_coordinator.py:91-98 | Open orders still live are acknowledged and reported, the others cancelled. |
| Recovery.AdoptStrangers | core/ledger/recovery_coordinator.py:100-119 | Live orders the ledger does not know are submitted and acknowledged, until a malformed number raises. |
| Recovery.RecoveryIsExact | core/ledger/recovery_coordinator.py:87-127 | After a successful recovery the open ids are the recovered ones: the live ids that were open or unknown; all acknowledged; open orders no longer live are cancelled; ended ones untouched. |
| Recovery.AdoptedAsReported | core/ledger/recovery_coordinator.py:100-119 | After a successful recovery an order unknown before is recorded, submitted and then acknowledged, with the token, side, price, size, time in force and post-only flag of its first mention, the documented default for each absent one, no strategy, fee or neg-risk flag, and nothing filled. |
| Recovery.RecoveredOnce | core/ledger/recovery_coordinator.py:91-119 | No id is reported twice, whatever the answer repeats. |
| Recovery.RecoveryRaisesIff | core/ledger/recovery_coordinator.py:102-117 | Recovery raises exactly when the first mention of some unknown order has a price or size that is no number. |
| Recovery.RaisesHalfWay | core/ledger/recovery_coordinator.py:102-117 | A good order followed by one with such a price: recovery raises with the first already recorded. |
| Recovery.SecondRecoveryKeepsStates | core/ledger/recovery_coordinator.py:87-127 | Recovering again from the same answer succeeds and keeps the open set and every state. |
| Recovery.RecoveryCoordinator.Recover | core/ledger/recovery_coordinator.py:55-132 | A failed query changes no record; success clears the resyncing flag; a malformed number leaves it set and the ledger half reconciled. |
| Positions.RelationOverTraces | core/ledger/fill_position_ledger.py:225-248 | A relation true of fresh positions and kept by each fill holds after every trace of fills. |
| Positions.PnlConservation | core/ledger/fill_position_ledger.py:225-248 | After every trace, realized profit is sale proceeds less purchase costs plus inventory at average cost, less what was oversold valued at the average of the moment. |
| Positions.SharesConserved | core/ledger/fill_position_ledger.py:238-248 | Over every trace the shares are bought less sold quantity plus the quantity sold beyond what was held, which is the most by which sales ever exceeded purchases: all from the sizes of the fills. |
| Positions.ShortIsUnique | core/ledger/fill_position_ledger.py:245-246 | The fills determine that quantity. |
| Positions.SidesKeep | core/ledger/fill_position_ledger.py:237-248 | Only sales realize profit and only purchases move the average price. |
| Positions.BoughtOnly | core/ledger/fill_position_ledger.py:237-240 | With purchases alone shares are the quantity bought and shares times average price what it cost. |
| Positions.AverageWithinBuys | core/ledger/fill_position_ledger.py:237-246 | While shares are held their average lies between the extremes of the buys since the position was last flat. |
| FillLedger.PositionRecord.Apply | core/ledger/fill_position_ledger.py:237-246 | The in-place update of a position is one step of the accounting function. |
| FillLedger.FillAndPositionLedger.UpdatePosition | core/ledger/fill_position_ledger.py:225-248 | Positions on the heap follow the trace; a token's first fill of any side sets its average price. |
| FillLedger.FillAndPositionLedger.RecordFill | core/ledger/fill_position_ledger.py:88-132 | Records the fill under its id, moves its position and queues a markout for live strategy-A fills with a mid; every record object still has a markout exactly when the events say so. |
| FillLedger.FillAndPositionLedger.RecordMarkout | core/ledger/fill_position_ledger.py:134-164 | Only the live record now kept under the id gets the markout; unknown and simulated fills are left alone. |
| FillLedger.FillRecord.Mark | core/ledger/fill_position_ledger.py:152-157 | The markout is the later mid less the mid at the fill, signed by side. |
| FillLedger.FillAndPositionLedger.AddRecord | core/ledger/fill_position_ledger.py:103-126 | A fresh record takes the place of any earlier one under its id, and waits if it needs a markout. |
| FillLedger.MarkedIff | core/ledger/fill_position_ledger.py:118-164 | A fill has a markout on its own record exactly when it is live and a markout of its id came before the id was recorded again. |
| FillLedger.OwnMarkoutIff | core/ledger/fill_position_ledger.py:118-164 | Once a markout of its id has come, a live fill carries it if and only if its id was not recorded again, live or simulated, while it waited. |
| FillLedger.AllMarkedIff | core/ledger/fill_position_ledger.py:118-164 | Every live strategy-A fill whose id has had a markout carries it, if and only if none of their ids was recorded again while waiting. |
| FillLedger.FirstPartialFillNeverMarked | core/orchestrator.py:546-559 | Two partial fills of one order share the order id as fill id: the first never gets a markout, although its id is no longer pending. |
| FillLedger.PendingWhileWaiting | core/ledger/fill_position_ledger.py:124-159 | Without such live reuse an id is pending exactly while a live strategy-A fill of it lacks its markout. |
| FillLedger.PendingRightIff | core/ledger/fill_position_ledger.py:124-159 | The pending set is right at every point, and after one more markout, if and only if no live fill is recorded under the id of a waiting one. |
| MarketRanker.ColdStartCurve | core/control/market_ranker.py:91-97 | The cold-start fill probability never rises with distance and stays between its floor and one half. |
| MarketRanker.EventRiskBounded | core/control/market_ranker.py:133-141 | Event risk costs between nothing and the half spread. |
| MarketValue.IdleMarket | core/control/market_ranker.py:100-150 | A market that earns nothing is worth minus its adverse selection cost. |
| MarketValue.HalfSpreadShift | core/control/market_ranker.py:107-150 | Widening the half spread shifts the value by the change times the chance of a fill less the nearness of the resolution. |
| MarketValue.ChanceShift | core/control/market_ranker.py:107-141 | A change of the distance from the mid, the observed chance or the time left shifts it by the half spread times the change of that margin: half a chance at the mid, 0.09 less for each tick down to 0.05, and the last six hours in proportion. |
| MarketValue.RewardShift | core/control/market_ranker.py:116-119 | A change of the reward rate shifts it by the change times proximity, no rate counting as zero. |
| MarketValue.NoRewardIsZero | core/control/market_ranker.py:116-119 | No reward rate is worth what a rate of zero is. |
| MarketValue.ProximityShift | core/control/market_ranker.py:116-119 | A change of proximity shifts it by the reward rate times the change. |
| MarketValue.RebateShift | core/control/market_ranker.py:121-122 | A change of the rebate rate shifts it by the change times the volume. |
| MarketValue.VolumeShift | core/control/market_ranker.py:121-122 | A change of the volume shifts it by the rebate rate times the change. |
| MarketValue.SkewShift | core/control/market_ranker.py:130-131 | A change of skew lowers it by the growth of its size times a tick. |
| MarketValue.AdverseShift | core/control/market_ranker.py:124-128 | A change of the adverse cost lowers it by the growth of what applies: the observed cost of a seasoned market, a tick otherwise. |
| MarketValue.NewMarketsGoByTheCurve | core/control/market_ranker.py:102-128 | With fewer than 100 fills or 24 hours the observed chance and adverse cost play no part. |
| MarketValue.NoWorseNoLess | core/control/market_ranker.py:100-150 | As long as a fill is likelier than the resolution is near, value never falls with half spread, reward rate, proximity, rebate or volume and never rises with adverse cost or the size of the skew. |
| MarketValue.NearerIsNoBetter | core/control/market_ranker.py:133-141 | Value never rises as the resolution comes nearer. |
| MarketValue.UnrewardedIff | core/control/market_ranker.py:100-150 | Without rewards and rebates a market has value exactly when the half spread times that margin exceeds adverse and inventory cost. |
| MarketValue.NewNeedsWideSpread | core/control/market_ranker.py:100-150 | A new market without them needs a half spread above two ticks, which at the mid, without skew or resolution, is enough. |
| MarketValue.CandidatesHaveValue | core/control/market_ranker.py:174-178 | The candidates are exactly the markets of positive value. |
| MarketValue.RankedHaveValue | core/control/market_ranker.py:165-214 | Every ranked entry is a market of the list with its own, positive, value. |
| MarketRanker.SelectMarkets | core/control/market_ranker.py:174-182 | The imperative selection is the sorted, filtered prefix. |
| MarketRanker.SelectsTheBest | core/control/market_ranker.py:174-182 | The selection is sorted by value, has as many markets as allowed, and with the rest left out makes up exactly the positive candidates, none better left out. |
| MarketRanker.Rank | core/control/market_ranker.py:165-214 | The loop that assigns exposures in place returns exactly the allocated selection. |
| MarketRanker.AllocationBounds | core/control/market_ranker.py:193-204 | Before rounding each allocation lies between the capped floor and the cap, and a better market never gets less. |
| MarketRanker.ShareOfCapital | core/control/market_ranker.py:194-204 | Unless the cap cuts it, what a market gets above the floor is to the capital the floors leave as its value is to the total; the cap only ever lowers it. |
| MarketRanker.RoundedAllocationsMonotone | core/control/market_ranker.py:199-205 | Rounding keeps the order of allocations. |
| MarketRanker.AllocationTotal | core/control/market_ranker.py:188-204 | Before rounding, allocations never exceed the budget when the floors fit, and use it up exactly when the cap cuts no market. |
| MarketRanker.RoundingError | core/control/market_ranker.py:205 | Rounding moves an allocation by at most half a millionth. |
| MarketRanker.RoundedTotal | core/control/market_ranker.py:188-205 | The rounded allocations exceed that limit by at most half a millionth a market. |
| FeeCalculator.GateMonotone | fees/calculator.py:17-49 | A market that passes still passes with a wider spread, a lower fee or lower thresholds. |
| FeeCalculator.ThreeFoldRuleBinds | fees/calculator.py:41-47 | Above 100 bps the three-fold rule rejects something the first rule accepts exactly when it exceeds the base spread and the fee exceeds the cost floor. |
| StrategyA.NeutralQuotes | strategies/strategy_a.py:115-123 | Without inventory pressure quotes improve the best prices by at most a tick, only on spreads above two ticks, and stay on their sides of the mid. |
| StrategyA.QuotesFollowSkew | strategies/strategy_a.py:125-129 | The more the inventory leans to YES, the lower the bid and the higher the ask, across the activation threshold. |
| StrategyA.QuotesStraddleMid | strategies/strategy_a.py:89-137 | With a tick above 0.0001, skew, rounding and clamping leave every bid below and every ask above the mid, within [0.01, 0.99]. |
| StrategyA.NeverCrossesTheBook | strategies/strategy_a.py:99-137 | With a positive base spread no quote reaches the opposite best price. |
| StrategyQuotes.QuotesIff | strategies/strategy_a.py:51-178 | Strategy A quotes exactly when no gate holds it back, each given in prices, times and limits, and the quotes would be a tick apart; it bids and, on neg-risk markets or with the position to cover it, asks, at the best prices moved in by a tick on a wide spread and out by the rounded skew in ticks, to four decimals within [0.01, 0.99]. |
| StrategyQuotes.QuoteSays | strategies/strategy_a.py:158-178 | What every quote says besides its price: token, tick, size, fee, flags, and good-till-date exactly when it expires. |
| StrategyQuotes.ExpirationSays | strategies/strategy_a.py:139-156 | A quote expires at the whole second of the resolution less the buffer plus a minute when that is within the window, else by the game start, else never. |
| StrategyQuotes.EvaluationsFollowSkew | strategies/strategy_a.py:110-137 | Of two evaluations of one market, the one with more YES in its inventory never bids higher and never asks lower. |
| StrategyQuotes.SkewOfShares | inventory/manager.py:31-41 | The skew times the value of both holdings is YES value less NO value, by shares and price. |
| StrategyA.StraddlingTicks | strategies/strategy_a.py:89-137 | 0.0001 is the exact limit: all evaluations at a tick straddle their mid if and only if the tick is above it. |
| StrategyA.AsksAreCovered | strategies/strategy_a.py:172-176 | Off neg-risk markets an ask is covered by the position. |
| StrategyA.ExpiryAhead | strategies/strategy_a.py:143-156 | An expiration lies ahead of the clock exactly when the event is the buffer less 59 seconds past the current second. |
| StrategyA.ResolutionQuotesAreAlive | strategies/strategy_a.py:143-149 | A quote limited by the resolution is alive when placed if the buffer is no longer than the no-entry window. |
| StrategyA.GameQuotesAlive | strategies/strategy_a.py:150-156 | A quote limited by a game start, any resolution lying beyond the window, is alive exactly when the start is the buffer less 59 seconds away. |
| StrategyA.QuoteAlreadyExpired | strategies/strategy_a.py:150-156 | With the settings of the bot, a game an hour away gets a quote that expired 3540 seconds earlier. |
| QuoteEngine.ClampIsNearest | core/execution/quote_engine.py:45-56 | The reward clamp picks the price of the band nearest to the quote. |
| QuoteEngine.ConstraintsIdempotent | core/execution/quote_engine.py:28-62 | Applying the constraints twice changes nothing more, even for a negative band. |
| QuoteEngine.ClampKeepsOrder | core/execution/quote_engine.py:45-56 | The clamp never inverts two quotes, and keeps them apart exactly when the band separates them. |
| QuoteEngine.ConstrainedQuote | core/execution/quote_engine.py:28-62 | A constrained quote keeps its price inside half the maximum spread of the midpoint and takes the nearer end outside it, is raised to the reward minimum, and is otherwise unchanged, as it is on a market without a band. |
| QuoteEngine.QuoteEngine.Compute | core/execution/quote_engine.py:64-105 | The loop over strategies, whatever they are, gathers in order the constrained quotes of every enabled one. |
| QuoteEngine.DesiredComesFromAStrategy | core/execution/quote_engine.py:78-103 | Every desired order is the constrained quote of some strategy. |
| QuoteEngine.EveryQuoteIsDesired | core/execution/quote_engine.py:78-103 | Every quote of every strategy is among the desired orders, constrained. |
| QuoteEngine.DesiredInOrder | core/execution/quote_engine.py:78-103 | The quotes of the strategies follow each other in strategy order; a disabled or killed strategy adds none. |
| QuoteEngine.ClampedOffTheBookIff | core/execution/quote_engine.py:45-56 | A quote of any strategy is off the opposite best price after the clamp exactly when the near end of the band is, and the quote or the far end is as well. |
| QuoteEngine.DesiredQuotesPostOnly | strategies/strategy_a.py:89-178 | From book to desired order: a quote of strategy A stays off the opposite best price if and only if the reward band leaves room on its side. |
| QuoteEngine.ClampedBidCrosses | core/execution/quote_engine.py:45-56 | With the settings of the bot, a band above the best ask lifts a bid from 0.49 to 0.58 through an ask of 0.50. |
| QuoteEngine.DesiredAsksCoveredIff | core/execution/quote_engine.py:58-62 | Off neg-risk markets a desired ask is covered by the position exactly when the reward minimum, where one applies, is. |
| QuoteEngine.BotSettingsCanFlip | core/orchestrator.py:272-282 | The settings of the bot quote a one-cent market one cent wide at its best prices, a pair on which reconciliation never settles once only one of the two rests. |
| QuoteEngine.FirstCycleRestsTightPair | core/orchestrator.py:272-282 | On that market the first cycle of the bot on an empty book, both places accepted, leaves a buy at 0.49 and a sell at 0.50 resting a tick apart: not safe. |
| Inventory.SkewBounded | inventory/manager.py:31-41 | With no negative holdings and a price in [0, 1] the skew is a fraction. |
| Inventory.FillMovesSkew | inventory/manager.py:31-80 | A buy never lowers the skew, a sell never raises it. |
| Inventory.FillsAddUp | inventory/manager.py:63-80 | Over every sequence of fills each side grows by exactly what was filled on it. |
| Inventory.SkewBoundedOverFills | inventory/manager.py:31-80 | Over every sequence of fills without negative sizes the skew stays a fraction. |
| Inventory.FillOrderIrrelevant | inventory/manager.py:63-80 | The final inventory does not depend on the order of the fills. |
| Inventory.HaltExcludesResume | inventory/manager.py:53-60 | Halting (skew at or beyond the threshold, either way) and resuming (skew inside) exclude each other exactly when the resume threshold is at most the halt threshold, or zero. |
| Failover.FailoverState.SubmitWithFailover | auth/relayer.py:125-181 | The two paths of a call move the two fields and produce the alert and submissions of the transition function. |
| Failover.AlertsAlternate | auth/relayer.py:147-181 | Over every run alerts alternate, failover first; the EOA wallet is active exactly while the last one is a failover, with an outage start recorded. |
| Failover.OutageStart | auth/relayer.py:160-170 | The recorded outage start is the time of the earliest unreachable call since the relayer last accepted; none is recorded when there was none. |
| Failover.EoaExactlyAfterTimeout | auth/relayer.py:147-178 | Under a monotone clock, on an unreachable relayer the EOA wallet is tried exactly when the timeout has passed since that call and it is active already or the failover alert gets through; otherwise only by a recovery whose alert channel is unreachable. |
| Failover.SubmitsOnceIff | auth/relayer.py:147-181 | The order of a call is carried out at most once, and the call returns exactly when it was, if and only if it is no failed recovery (relayer accepting again, EOA wallet active, alert failing) and neither the relayer nor an EOA wallet in use loses its answer to an order it carried out; and exactly when it goes out twice. |
| Failover.ReturnsCountSubmissions | auth/relayer.py:147-181 | Over every run at least as many orders are carried out as calls return, and as many if and only if no call was a failed recovery or lost such an answer. |
| Failover.SubmittedTwice | auth/relayer.py:148-158 | An outage of 30 seconds and a recovery whose alert cannot be delivered: one order goes out twice. |
| Failover.TimedOutAndSubmittedTwice | auth/relayer.py:154-178 | With every alert sent: the relayer carries the order out but answers too late, and the EOA wallet posts the same order again. |
| FeeCache.FeeRateCache.Get | fees/cache.py:57-65 | Answers the rate if not expired, evicting it otherwise. |
| FeeCache.FeeRateCache.Set | fees/cache.py:67-73 | Stores the rate with its expiry and forgets the misses. |
| FeeCache.FeeRateCache.CheckDeviation | fees/cache.py:94-110 | A relative change beyond the threshold drops the entry and is reported. |
| FeeCache.FeeRateCache.ShouldExclude | fees/cache.py:88-90 | Tells whether the misses reach the threshold. |
| FeeCache.FeeRateCache.OnFill | fees/cache.py:114-128 | A successful refetch overrides the rate; otherwise nothing changes. |
| FeeCache.AnswersFromHistory | fees/cache.py:57-110 | Under a monotone clock the lazily evicting cache answers a rate exactly when some earlier set gave it, its TTL has not passed, and nothing since replaced, invalidated or contradicted it. |
| FeeCache.DeviatesIff | fees/cache.py:98-109 | A rate deviates when the change times 100 exceeds the allowed percentage times the cached rate, signs minded; from a cached zero nothing does. |
| FeeCache.MissesCounted | fees/cache.py:67-90 | The miss counter is the number of misses since the last set. |
| Drawdown.MaxDrawdown | scripts/paper_trading_report.py:115-129 | One pass finds the largest loss between any two points of the run of fills, its start included. |
| Drawdown.LossBetweenEvents | scripts/paper_trading_report.py:115-129 | That is the largest fall of what the FILL events have earned between any two points of the run. |
| Drawdown.MaxDrawdownCriterion | scripts/paper_trading_report.py:115-140 | The criterion holds exactly when the capital is positive and no such loss exceeds a twentieth of it. |
| Redemption.PayloadDeterminesOutcome | core/ledger/auto_redemption.py:69-72 | Two payloads are equal exactly when condition and winning outcome are. |
| Redemption.PayloadRedeemsTheWinner | core/ledger/auto_redemption.py:69-72 | A payload redeems the condition for USDC.e with a single index set, whose only bit is the winning outcome. |
| Redemption.RecordTells | core/ledger/auto_redemption.py:75-90 | The record a call writes holds the condition, token and amount of the request and the hash of the last answer; other records stay. |
| Redemption.RewardAndRebateLedger.RecordRedemption | core/ledger/reward_rebate_ledger.py:161-181 | Writes the record under its condition. |
| Redemption.AutoRedeem | core/ledger/auto_redemption.py:48-107 | Guard, retry loop and ledger writes: the ledger, the posts, the seconds slept and the result of a call. |
| Redemption.CallBounded | core/ledger/auto_redemption.py:74-99 | A call posts at most three times and sleeps 0, 30 or 150 seconds, by which of the first two attempts ends it. |
| Redemption.RecordedIffAnswered | core/ledger/auto_redemption.py:62-90 | Over every run a condition is recorded as redeemed exactly when some attempt for it is answered. |
| Redemption.RecordedIffCarriedOut | core/ledger/auto_redemption.py:62-99 | A recorded condition has been redeemed; one is redeemed without being recorded exactly when every answer to a post that carried it out was lost. |
| Redemption.AtMostOnceIff | core/ledger/auto_redemption.py:62-99 | Over every run a condition is redeemed more than once exactly when the first attempt carried out for it is lost, or its success alert raises, and a later one, in that call or, if it was lost, in a later one, is carried out. |
| Redemption.QuietAlerterRedeemsOnce | core/ledger/auto_redemption.py:62-99 | With an alerter that never raises and no lost answers, a condition is redeemed once if recorded and never otherwise. |
| Redemption.RedeemedTwice | core/ledger/auto_redemption.py:75-99 | A success whose alert raises, and a second success: one condition, redeemed twice, no answer lost. |
| Redemption.LostAnswerRedeemsTwice | core/ledger/auto_redemption.py:75-99 | With a quiet alerter: the answer to the first post is lost after it was carried out, and the retry redeems the condition again. |
| Redemption.ResultMatchesLedgerIff | core/ledger/auto_redemption.py:62-107 | The result agrees with the ledger except when all answered posts were followed by a raising alert, or a failure alert raised. |

## Left out

- WebSocket, HTTP, Redis, Postgres, web3 and SDK calls, logging, JSON and date parsing: their replies are inputs.
- asyncio scheduling: methods are sequential steps. Concurrent redemptions of one condition, or a book event during a recovery, are not modelled.
- Fire-and-forget cancels: a dispatched cancel that fails later is not observed by the actor, and `Exchange.After` takes every sent cancel as carried out.
- An order that rests without its id being told is not in `Exchange.After`, the book as the bot knows it; `ExecutionActor.OnExchange` has it.
- IEEE-754 rounding: arithmetic is over reals.
- Timestamps of records, the `extra` dictionary, the index of fills by order, emission counters and log text: no property depends on them.
- The risk gate (core/execution/risk_gate.py) and the recording of acknowledgements by the orchestrator: the acknowledgement is explicit in `Exchange.After`.
- The insides of strategies B and C (to the quote engine a strategy is any function of the market), the scanners, enrichers, parameter service and metrics: mostly straight-line gates and field mapping.
- `total_realized_pnl`, `maybe_simulate_fill` and the other report criteria: sums, a random draw and comprehensions.
- Malformed numbers in feed messages raise in the code; entries here carry numbers, only recovery models malformed ones.
- A missing price or size in a delta, which the code reads as an empty price string or zero, is an ordinary key or size here.
- `RankedMarket` objects are values: the loop that assigns their exposure rebuilds the list instead of writing into shared objects.
- The fee cache answers one lookup for all strategies of a `Compute`; expiry between two strategies of one call is not modelled.
- Position syncing into strategies (core/orchestrator.py:480-482) is the `currentPosition` of the settings.
- Redemption indices are not negative, as documented (0 for YES, 1 for NO).
- Convergence.AlwaysSettlesIffWide: needs positive ticks and distinct, fresh order ids; every place of the first run is taken as acknowledged.
- RepeatedRuns.TightPairFlips: states the endless swap for a pair of quotes alone on its token, with every place acknowledged.
- RepeatedRuns.ApartQuotesSettle: sufficient only. It is exact for two quotes (`RepeatedRuns.PairSettlesIffApart`); with more, a quote may end the swap by taking over the order of a neighbour.
- ExecutionActor.ReportMatchesExchange: an id in an answer is taken to be that of an order the attempt leaves resting; a dry run, which reports made-up ids and sends nothing (`ExecutionActor.ExecutionActor.Apply`), is aside.
- SelfCrossSafety.DispatchedCancelsSafeIff: places are answered in order; any of the cancels may be carried out at any moment.
- SelfCrossSafety.RunStaysSafe: one fixed tick per token, as the separation hypothesis is stated in ticks.
- StreamRuns.AllEmittedFaithful: when a price is spelled in two ways, nothing is said of which spelling's level is shown first.
- Positions.PnlConservation: sizes are not negative, as those of fills are not.

# Verified model of the trading core

A Dafny model of the parts of the system whose mistakes cost money or silently lose work, with proofs
about whole runs and whole pipelines. Amounts of money, shares and prices are exact reals; time is whole
minutes on one local clock; maps and lists are Dafny maps and sequences.

| file | what it models |
|---|---|
| `OrderProtocol.dfy` | the order-identity protocol as a state machine: what is live at the broker, in memory, in the store, and lost |
| `Brokerage.dfy` | a broker that answers arbitrarily within its contract |
| `Reconcile.dfy` | `src/algorithms/reconcile.py`: passes that match resting orders to wanted ones, as runs of the protocol |
| `Sizing.dfy`, `Planning.dfy` | share rounding, targets, planned orders, and what they do to the book |
| `Funding.dfy`, `FundBatch.dfy` | fitting a batch to buying power, and selling cash equivalents for it |
| `PlanEdits.dfy` | vetoes and exits |
| `Submission.dfy`, `Pipeline.dfy` | sending a batch, and what edits and whole portfolios come to after sizing, planning, funding and sending |
| `Cron.dfy`, `RunLoop.dfy` | fire times, and the loop that retries each of them |
| `SessionClock.dfy`, `BarCache.dfy`, `ProviderWalk.dfy` | session arithmetic, the read-through bar cache, and the walk over providers |
| `MarketTime.dfy`, `TotalReturn.dfy` | market-minute lookups and return paths, and the total-return series |
| `Dividends.dfy`, `Realized.dfy` | dividend cash in a replay, and realized profit by average cost |
| `LazyField.dfy` | the single-flight background cache, as interleaved steps |
| `Options.dfy` | OSI option symbols, printed, parsed and re-spelled |
| `Wrappers.dfy`, `Ordering.dfy` | option and result types; lexicographic order and stable sorting |

Code that changes state step by step is a class or a method with loops here, proved against a function;
the laws are proved about that function. `dafny verify dfyconfig.toml` checks everything.

## What the code does not do

Each of these is proved, with a failing input and the exact condition under which the code does what is meant.

- An order that comes back without an id, from a submit or from a replace, is out of reach, and the next pass that
  wants its key sends another (`Reconcile.Reconciler.Reconcile`, `OrderProtocol.ReplacedUnnamedIsDoubled`). A key
  never has two live orders, named or not, exactly when none is placed over such an order
  (`OrderProtocol.OneEachExactly`), and, as far as a client can tell, when no key is sent for again after one came
  back for it (`OrderProtocol.OneEachWhateverLeft`, `Reconcile.Reconciler.ReconcileMany`). After a replace it is
  reported as replaced.
- An order placed or re-priced with a zero or negative price is re-priced by the next pass too
  (`Reconcile.StandsNextExactly`, `Reconcile.Reconciler.ReconcileTwice`).
- The symbol a recorded order rests on is not compared, so one on the wrong symbol stands
  (`Reconcile.WrongSymbolStands`, `Reconcile.SymbolRightExactly`).
- `skip` in a whole-portfolio plan moves the position onto the account's grid: it sells a remainder below one whole
  share outright, and, sent at two decimals, can sell more than is held on any account
  (`PlanEdits.SkipSellsAFractionalRemainder`, `Pipeline.SkippedHoldingEndsShort`, `PlanEdits.SkipHonouredExactly`,
  `Pipeline.SkippedEndsExactly`).
- `exit` in a plan of changes sizes a sale in whole shares even on a fractional account, so 10.5 shares end
  at 0.5 (`PlanEdits.ExitLeavesAFraction`, `PlanEdits.ExitIsTheClosingOrder`, `Pipeline.ExitedLongEndsAtZero`).
- The record of the edits says "held" of positions that are sold and "closed" of positions that are kept
  (`PlanEdits.SkipSellsAFractionalRemainder`, `PlanEdits.ExitLeavesAFraction`, `PlanEdits.RecordTrueExactly`).
- A sale that rounds up past zero ends in a short position without being marked as opening one, so the broker is not
  asked whether it can be lent for: as planned on fractional accounts, and as sent on every account
  (`Planning.ClosingOffTheGridOversells`, `Planning.ShortExactlyWhenBelowZero`, `Submission.UnmarkedShortIsSent`,
  `Submission.SentShortExactlyWhenBelowZero`).
- A cash equivalent that is sold out for a batch can be sold for more than is held
  (`Submission.SleeveOversellsOffTheGrid`, `Submission.SleeveSentWithinHolding`).
- Quantities are sent at two decimals on every account: a dropped holding off the cent grid keeps a remainder, or
  ends short (`Pipeline.RemaindersOffTheGrid`, `Pipeline.DroppedHoldingEndsExactly`, `Submission.SentLegReachesTarget`).
- The recorded bar horizon is the first bar of the first window fetched, not the provider's first bar: later, longer
  lookbacks never get the older bars (`BarCache.ShortFetchHidesOlderBars`, `BarCache.AgreesWithDirectFetch`).
- The extra session in a bar window is not always slack (`SessionClock.SlackCanBeUsedUp`, `SessionClock.WindowSlackExactly`).
- `return_path` overwrites flat leading samples the data does reach (`MarketTime.FlatSampleIsOverwritten`,
  `MarketTime.FilledAsMeantExactly`).
- A weekday range ending at 7 is refused, or is Sunday alone (`Cron.WeekdayRangeExactly`).
- A fire time can run again once its key comes back after a different one was polled, as when the clock is set back
  (`RunLoop.SetBackRunsTwice`, `RunLoop.OnceExactlyWithoutRecurrence`).
- A spawn that fails wedges its key for good (`LazyField.WedgedForGood`, `LazyField.MarkedExactlyWhileWorked`).
- A reload during a computation is answered with the result asked for before it, and one between a worker's write
  and its release is lost (`LazyField.ReloadTakesTheOlderResult`, `LazyField.ReloadIsLost`, `LazyField.ReloadAnswered`).
- The diagnostic walk books fills that the report skips (`Realized.UnpricedFillParts`, `Realized.DiagnosticAgreesExactly`).

Where comments in the source promise more than this, the model follows the code.

## Model

| member | source | states |
|---|---|---|
| `OrderProtocol.InvStep` | src/algorithms/reconcile.py:59-67 | every single event (fill, cancel, submit, replace, write, death and restart) keeps the tracking invariant |
| `OrderProtocol.RunKeepsInv` | src/algorithms/reconcile.py:65-152 | every finite run of events, in any order the protocol allows, keeps it |
| `OrderProtocol.CutOffIsRun` | src/algorithms/reconcile.py:59-63 | a run that dies after any event is itself a run, so every law also holds of interrupted passes |
| `OrderProtocol.AtMostOneInFlight` | src/algorithms/reconcile.py:85-152 | cut off anywhere, at most one live order is missing from the persisted map, none from memory, and no key has two |
| `OrderProtocol.LostAtMostOnePerRestart` | src/algorithms/reconcile.py:85-152 | each death of the process loses at most one order |
| `OrderProtocol.UninterruptedLosesNothing` | src/algorithms/reconcile.py:65-152 | over any number of uninterrupted passes every live order with an id is in the map under its own key, one per key |
| `OrderProtocol.OneEachExactly` | src/algorithms/reconcile.py:188-202 | without a crash in flight, no key ever has two live orders, named or not, if and only if none is placed over a live one without an id |
| `OrderProtocol.OneEachWhateverLeft` | src/algorithms/reconcile.py:188-202 | whichever orders without an id have left unseen, no key ever has two if and only if no key is sent for again after one came back for it |
| `OrderProtocol.ReplacedUnnamedIsDoubled` | src/algorithms/reconcile.py:247-249 | placed, replaced with an empty id, and placed again by the next pass: two live orders behind one key, a concrete run |
| `OrderProtocol.GoneMeansConfirmed` | src/algorithms/reconcile.py:65-67 | an id counts as gone only after a returned cancel or a superseding replace |
| `OrderProtocol.StoredIdLeavesOnlyConfirmed` | src/algorithms/reconcile.py:65-67 | a stored id stays stored until its cancel returned or a replace superseded it |
| `Brokerage.Venue.Drift` | src/algorithms/reconcile.py:122-126 | orders, with or without an id, may leave the book at any call without the client knowing |
| `Brokerage.Venue.ListWorking` | src/core/interfaces.py:485-511 | a listing may be stale or partial, or not be available; at a reliable venue it is exact |
| `Brokerage.Venue.CancelOrder` | src/core/interfaces.py:513-515 | a cancel that returns means the order is not live, whether or not it was |
| `Brokerage.Venue.SubmitOrder` | src/algorithms/reconcile.py:170-214 | a submit that raises created nothing; an accepted one has a fresh id, or none |
| `Brokerage.Venue.ReplaceOrder` | src/core/interfaces.py:517-524 | a replace is refused or atomic; the reply keeps the id, brings a fresh one, or an empty one |
| `Reconcile.WantedIsTheLastGiven` | src/algorithms/reconcile.py:84-84 | a pass wants exactly the keys its list names, and for each the last order the list gives |
| `Reconcile.ReplacedExactly` | src/algorithms/reconcile.py:266-291 | a resting order is replaced if and only if its side, quantity or type differs, or a wanted price has no positive resting price within half a cent of it or within the tolerated share of it |
| `Reconcile.SettledExactlyWhenPricesPositive` | src/algorithms/reconcile.py:266-291 | an order resting on exactly the wanted terms needs no replacement if and only if its prices are positive |
| `Reconcile.SymbolIsNotCompared` | src/algorithms/reconcile.py:266-281 | the verdict on a resting order is the same whatever symbol it rests on |
| `Reconcile.SymbolRightExactly` | src/algorithms/reconcile.py:118-149 | after a pass over an exact listing a key's order carries the wanted symbol if and only if it was placed or re-priced in the pass or rested on that symbol before |
| `Reconcile.WrongSymbolStands` | src/algorithms/reconcile.py:266-281 | an order on another symbol with otherwise equal terms counts as settled: a concrete input |
| `Reconcile.StandsNextExactly` | src/algorithms/reconcile.py:284-291 | the next pass leaves a key's order alone if and only if this one did or its wanted prices are positive |
| `Reconcile.Reconciler.Commit` | src/algorithms/reconcile.py:90-92 | persisting writes the whole map, after which no live order is missing from the store |
| `Reconcile.Reconciler.Cancel` | src/algorithms/reconcile.py:155-167 | true only when the broker confirmed the order is gone; never raises, never loses an order |
| `Reconcile.Reconciler.Submit` | src/algorithms/reconcile.py:170-214 | submitted, rejected or untracked, the map changes only as the verdict says, and the order is without an id exactly when it is untracked |
| `Reconcile.Reconciler.Replace` | src/algorithms/reconcile.py:217-254 | re-price in place, or cancel and resubmit; the old id is forgotten only once it is gone, and an order left without an id shows in the outcome |
| `Reconcile.Reconciler.Drop` | src/algorithms/reconcile.py:94-116 | an unwanted key leaves the map when its cancel is confirmed and is kept when it is not |
| `Reconcile.Reconciler.PlaceUnlisted` | src/algorithms/reconcile.py:119-138 | a recorded order the listing does not show is cancelled before anything is submitted beside it |
| `Reconcile.Reconciler.Settle` | src/algorithms/reconcile.py:118-149 | one wanted key ends with a truthful verdict, unchanged exactly when its listed order needs nothing, and otherwise, of an exact listing, with an order on exactly the wanted terms |
| `Reconcile.Reconciler.DropUnwanted` | src/algorithms/reconcile.py:94-116 | the first phase reports every unwanted key once and leaves the wanted ones alone |
| `Reconcile.Reconciler.PlaceWanted` | src/algorithms/reconcile.py:118-149 | the second phase reports every wanted key once; at an exact venue each keeps its order or gets one on exactly the wanted terms |
| `Reconcile.Reconciler.Begin` | src/algorithms/reconcile.py:69-88 | a pass starts from the stored map without empty ids, or is refused where there is no listing |
| `Reconcile.Reconciler.Reconcile` | src/algorithms/reconcile.py:43-152 | a pass is a run of the protocol, reports each key once and truthfully, sends an order for every wanted key without one, owns up to exactly the orders that came back without an id, and at a reliable venue leaves exactly the wanted orders: each on the wanted side, quantity and type with its prices as close as is tolerated, and untouched if it was so already |
| `Reconcile.Reconciler.ReconcileMany` | src/algorithms/reconcile.py:43-152 | any number of passes at any venue orphan no order with an id; counting those without one, no key ever has two if and only if none is placed over, and, whichever have left unseen, if and only if no key is sent for again |
| `Reconcile.Reconciler.ReconcileTwice` | src/algorithms/reconcile.py:118-149 | at a reliable venue the second pass reports unchanged exactly the keys the first left alone or with positive prices, and where that is all of them it sends nothing |
| `Sizing.RoundSharesTowardZero` | src/core/orders.py:37-44 | rounding never overshoots, loses less than one unit, never changes sign, and is exact just on the grid |
| `Sizing.RoundUpSharesCovers` | src/core/orders.py:229-234 | a liquidation quantity covers what is needed with less than one unit to spare |
| `Sizing.RoundCentsFixes` | src/core/orders.py:172-175 | rounding a change to two decimals leaves it alone exactly when it is on the cent grid |
| `Planning.ResolveTargetShares` | src/core/orders.py:59-100 | the loop computes the targets function, and refuses an unknown mode |
| `Planning.TargetDecidedByLastIntent` | src/core/orders.py:59-100 | a symbol's target comes from the last intent that can be sized; without one a held symbol targets zero or is left out |
| `Planning.TargetIsAsAsked` | src/core/orders.py:80-100 | the last intent of a symbol that has a price sets its target, or moves it, to a share of the equity, an amount of money or a number of shares, rounded toward zero by less than a unit, sales and shorts in whole shares |
| `Planning.FloorExactly` | src/core/orders.py:161-161 | the floor of a rebalance is the larger of the least trade and the share of the equity, which is none where it is negative |
| `Planning.PlanShareOrders` | src/core/orders.py:143-226 | the loop and the stable sort compute the planned orders |
| `Planning.SortedSellsFirst` | src/core/orders.py:226-226 | the stable sort on sells first is the sells in their order and then the buys in theirs |
| `Planning.PlannedIsTheLegs` | src/core/orders.py:143-226 | the plan is exactly the legs that symbols need, each once, every sell before every buy |
| `Planning.ResultingPositions` | src/core/pipeline.py:260-270 | the book after submission is the net change per symbol, with dust dropped |
| `Planning.LegReachesTarget` | src/core/orders.py:163-200 | a symbol gets no order if and only if it has no price, or would move by nothing, or by less than the floor without being closed; an order reaches its target if and only if the distance can be planned |
| `Planning.PlannedOrdersReachTargets` | src/core/orders.py:143-226 | the planned quantities put every traded symbol on target exactly when the distance can be planned, and leave the rest for a stated reason |
| `Planning.ShortExactlyWhenBelowZero` | src/core/orders.py:172-221 | as planned, an order is marked as opening a short if and only if it is a sale that leaves the position below zero; except, exactly, where the account trades fractions and a sale aimed at no short is rounded past its target and zero |
| `Planning.ClosingSlipsExactly` | src/core/orders.py:172-200 | a long position closed altogether is that exception exactly when it rounds up |
| `Planning.ClosingOffTheGridOversells` | src/core/orders.py:172-200 | closing 0.006 shares on a fractional account sells 0.01, not marked as a short: a concrete failing input |
| `Funding.PlannedWellPriced` | src/core/orders.py:175-211 | every planned order has a positive price and quantity, and its dollars are their product |
| `Funding.FitBuysToBudget` | src/core/orders.py:291-359 | the loop computes the fit under either policy |
| `Funding.QueueKeeps` | src/core/orders.py:299-307 | the greedy queue is a permutation of the buys, largest dollars first and ties by symbol |
| `Funding.QueueOrder` | src/core/orders.py:299-307 | in proportion, buys are served in the order given; by rank, the largest first and those as large by symbol |
| `Funding.FitSplits` | src/core/orders.py:291-359 | funded and unfunded together are the buys, as multisets |
| `Funding.FitConserves` | src/core/orders.py:310-359 | what is spent and what is left add up to the budget, and nothing is overspent |
| `Funding.FitNeverRaises` | src/core/orders.py:318-357 | no quantity is raised, a funded leg clears the floor and is marked reduced exactly when it got less, and no unfunded one would clear it |
| `Funding.ProRataNeverCapped` | src/core/orders.py:305-321 | in pro-rata mode the remaining cap is never hit, and with no dollar floor less than one unit of each leg is left over |
| `Funding.GreedyLeavesNoUnit` | src/core/orders.py:300-321 | in greedy mode with no floor, the leftover cannot buy one more unit of any leg that was reduced or dropped |
| `FundBatch.LiquidationLegs` | src/core/orders.py:237-288 | the loop with its early exits computes the liquidation |
| `FundBatch.LiquidateConserves` | src/core/orders.py:249-286 | what liquidation raised and what it still needs add up to the padded shortfall |
| `FundBatch.LiquidateCovered` | src/core/orders.py:253-285 | every liquidation leg, as planned, is a covered sale of an untraded cash equivalent at its price |
| `FundBatch.LiquidateRaisesOrSellsOut` | src/core/orders.py:253-288 | the need is met to within the slack, or the eligible holding is sold out |
| `FundBatch.SleeveSellsNoMore` | src/core/orders.py:249-286 | cash equivalents are sold one after another, each only while more than a cent of the shortfall with its half percent is needed, each sold out before the next, and none for more than is needed then but for one unit |
| `FundBatch.SleeveRaisesNoMore` | src/core/orders.py:249-286 | what the sleeve raises is less than the padded shortfall and one unit of the equivalent sold last |
| `FundBatch.FundPlannedOrders` | src/core/orders.py:362-442 | the method computes the funded batch: sleeve, then sells, then the buys as planned or cut down |
| `FundBatch.FitsGoesOutWhole` | src/core/orders.py:395-411 | a batch that buying power, less the reserve, and sale proceeds can pay for goes out whole and nothing is sold for it |
| `FundBatch.CutDownSpendsTheRest` | src/core/orders.py:395-420 | a batch that is cut down leaves, in cash, the lesser of buying power and reserve and what the cut could not spend |
| `FundBatch.SentBuysWerePlanned` | src/core/orders.py:395-442 | every buy that is sent was planned, at its price and no larger |
| `FundBatch.NoBuyIsLost` | src/core/orders.py:362-442 | every planned buy is sent or reported unfunded, once |
| `FundBatch.PlannedSellsSurvive` | src/core/orders.py:424-442 | planned sells go out untouched and in order, before all buys, and share no symbol with the sleeve |
| `FundBatch.CashNeverBelowReserve` | src/core/orders.py:362-442 | paying for the batch in its order never takes cash below the lesser of buying power and reserve, less the slack, at any prefix |
| `FundBatch.CashAtTheEnd` | src/core/orders.py:362-442 | cash after the whole batch is buying power plus sleeve and sale proceeds less the buys; short sales bring nothing |
| `FundBatch.CutsOnlyOnceSleeveIsSoldOut` | src/core/orders.py:401-427 | a batch is cut down only after every eligible cash equivalent has been sold out |
| `FundBatch.SleeveRaisesOrSellsOut` | src/core/orders.py:237-288 | once tapped, the sleeve frees the padded shortfall to within the slack or is sold out |
| `PlanEdits.ApplyEdits` | src/core/plan_edits.py:67-164 | the method refuses as specified or returns the edited plan and the record of effects |
| `PlanEdits.AcceptedExactlyWhenSound` | src/core/plan_edits.py:100-119 | edits are accepted exactly when each names a known operation and a known symbol and no two share a symbol |
| `PlanEdits.RefusedExactly` | src/core/plan_edits.py:85-119 | edits are refused as a whole if and only if there are any and the plan is an order book or of an unknown mode, or one of them is not sound or repeats a symbol |
| `PlanEdits.FirstFaultIsRefused` | src/core/plan_edits.py:100-119 | the complaint is of the first edit that cannot be accepted, and of its first fault |
| `PlanEdits.EditsDecide` | src/core/plan_edits.py:121-161 | after the edits an edited symbol is decided by its edit alone, every other by the intent that decided it before |
| `PlanEdits.EditsAreLocal` | src/core/plan_edits.py:124-128 | a symbol no edit names gets exactly the order it would have got |
| `PlanEdits.EveryEditIsReported` | src/core/plan_edits.py:121-161 | the record names exactly the edited symbols, and says of each exactly what its edit makes of it, by operation, plan mode, holding and whether the plan named it |
| `PlanEdits.RecordTrueExactly` | src/core/plan_edits.py:121-161 | what the record says of a position comes true in the plan if and only if, for "held", the veto is honoured; for "closed", the position is nothing, or priced and one a plan can move by; all else always comes true |
| `PlanEdits.ExitAimsAtZeroExactly` | src/core/plan_edits.py:140-154 | an exit aims at zero if and only if the plan is a whole portfolio or the position is on the grid that changes are sized on |
| `PlanEdits.SkipMeansNoOrder` | src/core/plan_edits.py:130-138 | skip leaves the symbol without an order: always for changes, and for positions on the grid in a whole portfolio |
| `PlanEdits.SkipHonouredExactly` | src/core/plan_edits.py:130-134 | on any account and with any floor, skip plans no order if and only if the gap to the grid, as an order carries it, is within the slack, or worth less than the floor short of the whole position |
| `PlanEdits.LongDriftsByACent` | src/core/orders.py:172-174 | on a fractional account a vetoed long moves by a cent of a share exactly when it stands more than half a cent above the grid |
| `PlanEdits.SkipOversellsOffTheGrid` | src/core/orders.py:172-189 | 0.006 shares under skip on a fractional account are sold as 0.01: a concrete failing input |
| `PlanEdits.SkipSellsAFractionalRemainder` | src/core/orders.py:177-189 | half a share under skip is sold in full while the record says it was held: a concrete failing input |
| `PlanEdits.ExitTarget` | src/core/plan_edits.py:139-154 | exit aims at zero, or at what truncating the whole position away leaves |
| `PlanEdits.ExitIsTheClosingOrder` | src/core/plan_edits.py:139-154 | exit plans exactly the closing order, named by the plan or not, if and only if the position can be planned away |
| `PlanEdits.ExitLeavesAFraction` | src/core/orders.py:91-96 | 10.5 shares under an incremental exit aim at half a share while the record says they were closed: a concrete failing input |
| `Submission.OrderQuantityRounds` | src/core/orders.py:445-448 | the quantity sent is the planned one at two decimals, and unchanged exactly on the cent grid |
| `Submission.SubmitPlannedOrders` | src/core/orders.py:451-524 | the loop sends each order at its sent quantity, skips short sales the broker cannot lend for, and records refusals |
| `Submission.ExecutedAsSent` | src/core/pipeline.py:260-270 | for a symbol the broker takes every order of, the book changes by every order at the quantity it was sent with |
| `Submission.SentLegReachesTarget` | src/core/orders.py:445-471 | as sent, an order moves its symbol by the distance to the target rounded to cents, on every account, and reaches it if and only if that distance is on the cent grid |
| `Submission.SentShortExactlyWhenBelowZero` | src/core/orders.py:465-475 | as sent, on every account, an order is marked as opening a short if and only if it is a sale that leaves the position below zero; except, exactly, where rounding takes a sale past zero or keeps it from the short it aims at |
| `Submission.IntentsMissNoShort` | src/core/orders.py:83-96 | for targets that come from intents the second exception never occurs |
| `Submission.UnmarkedShortIsSent` | src/core/orders.py:465-475 | on a whole-share account 0.006 shares are closed by sending 0.01, and no broker is asked to lend: a concrete failing input |
| `Submission.SentOrdersReachTargets` | src/core/orders.py:143-226 | sending the whole plan puts every traded symbol on target if and only if its distance is on the cent grid |
| `Submission.SleeveSentWithinHolding` | src/core/orders.py:253-285 | every sale from the sleeve is of an eligible cash equivalent, and as sent sells more than is held if and only if it sells the holding out and that rounds up |
| `Submission.SleeveOversellsOffTheGrid` | src/core/orders.py:445-471 | a cash equivalent of 0.006 shares goes out as 0.01: a concrete failing input |
| `Submission.SentAsFunded` | src/core/orders.py:445-471 | a batch goes out at its funded quantities if and only if they are all on the cent grid |
| `Submission.BilledWithinRounding` | src/core/orders.py:445-471 | sending at two decimals changes the cash a batch leaves by at most half a cent of a share, at its price, for each order off the cent grid |
| `Submission.SentCashNearReserve` | src/core/orders.py:362-471 | on any grid, paying for the batch as it is sent keeps cash above the bound at every prefix, less that much for each order so far |
| `Submission.PlannedOnCents` | src/core/orders.py:163-200 | from positions on the cent grid every planned order is on it |
| `Submission.FundedOnCents` | src/core/orders.py:362-442 | from a plan and cash equivalents on the cent grid the whole funded batch is on it |
| `Pipeline.PlaceOrders` | src/core/pipeline.py:152-235 | placing refuses unpriced intents and unknown modes, and otherwise composes sizing, planning, funding, sending and the resulting book |
| `Pipeline.FundedWithReserve` | src/core/pipeline.py:206-219 | the reserve is the buffer, clamped to nothing and all, of the equity; changes are cut by rank and whole portfolios in proportion |
| `Pipeline.PlannedOrderGoesOut` | src/core/pipeline.py:186-219 | a planned sale, or a planned buy of a batch that fits, goes out alone, so its symbol changes by exactly that order at two decimals |
| `Pipeline.UnplannedOnlyFromTheSleeve` | src/core/pipeline.py:206-219 | a symbol without a planned order can only be sold as a cash equivalent |
| `Pipeline.DroppedHoldingEndsAtZero` | src/core/orders.py:177-187 | a priced long on the cent grid absent from a whole-portfolio plan ends at zero, however small and however the batch is funded |
| `Pipeline.DroppedHoldingEndsExactly` | src/core/orders.py:445-471 | on every account a dropped holding ends at what rounding to cents leaves: at zero if and only if on the cent grid, short if and only if it rounds up; a cash equivalent too, counted as the positions count it |
| `Pipeline.RemaindersOffTheGrid` | src/core/orders.py:445-448 | 0.333 shares leave 0.003, 0.004 are not sold, 0.006 end short: concrete failing inputs |
| `Pipeline.SkippedIsLeftAlone` | src/core/plan_edits.py:130-161 | an honoured skip leaves a symbol that is no cash equivalent out of the funded batch; and of a long position, or in a batch that fits, only an honoured one does |
| `Pipeline.SkippedEndsExactly` | src/core/plan_edits.py:130-161 | as sent, a vetoed position ends where it was if the veto is honoured and otherwise at its grid to two decimals; it stays put if and only if honoured or the move rounds to nothing, and a long one ends short if and only if it is pinned to nothing and rounds up |
| `Pipeline.SkippedHoldingEndsShort` | src/core/orders.py:445-471 | 0.006 shares under skip on a whole-share account end at -0.004: a concrete failing input |
| `Pipeline.ExitedLongEndsAtZero` | src/core/plan_edits.py:139-154 | after funding and sending, an exited priced long ends at zero when it is on the cent grid, or for a plan of changes whole; and, no cash equivalent, only then |
| `Pipeline.SentBatchKeepsReserve` | src/core/pipeline.py:206-219 | from positions and cash equivalents on the cent grid the batch is sent as funded and cash stays above the bound at every prefix |
| `Cron.CronFireKey` | src/core/cron.py:166-180 | the backward scan computes the last fire within the grace |
| `Cron.FiresExactlyAsWritten` | src/core/cron.py:68-92 | a schedule fires at a minute of a day if and only if the minute, the hour, the day of the month, the month and the weekday, counted from a Thursday on day zero, are all allowed |
| `Cron.LastFireIsGreatest` | src/core/cron.py:166-180 | that is the greatest fire time within the grace, and nothing else is |
| `Cron.FireKeyMonotone` | src/core/cron.py:166-180 | the fire key never goes back while the clock does not |
| `Cron.EveryPollInTheWindow` | src/core/cron.py:169-173 | a poll gets a fire if and only if it lands after it, within its grace and before the next |
| `Cron.DepartsFromCrontab` | src/core/cron.py:18-23 | a schedule never fires on a date crontab would not, and misses one crontab has if and only if neither day field has a star and just one allows it |
| `Cron.ExpandItem` | src/core/cron.py:119-154 | one entry allows exactly its stepped range, or is refused for exactly the stated reason |
| `Cron.ParseField` | src/core/cron.py:117-134 | a field allows exactly what one of its entries allows, within its own bounds, and is refused if any entry is |
| `Cron.WeekdayRangeExactly` | src/core/cron.py:137-163 | a stepped weekday range allows the days it is written for if and only if it does not end at 7, is 7 alone, or steps from 0 past all other days; otherwise it is refused or Sunday only |
| `RunLoop.RuntimeLoop.NextRunKey` | src/core/bot_runtime.py:102-118 | a key is owed unless it is the last one and used up |
| `RunLoop.RuntimeLoop.RunGuarded` | src/core/bot_runtime.py:120-165 | an attempt is counted before it is made, settles its key on success, and is refused while another runs |
| `RunLoop.RuntimeLoop.Loop` | src/core/bot_runtime.py:81-94 | the loop over any list of polls makes exactly the attempts, and goes through the states, of the run function |
| `RunLoop.LoopRemembers` | src/core/bot_runtime.py:102-165 | the state always remembers the latest key and how far it has got |
| `RunLoop.AtMostOnce` | src/core/bot_runtime.py:102-165 | over a whole run with a clock that never goes back, each fire succeeds at most once and is tried at most three times |
| `RunLoop.OnceExactlyWithoutRecurrence` | src/core/bot_runtime.py:115-132 | however its runs end, no fire succeeds twice if and only if no key comes back after a different one was polled |
| `RunLoop.WinsPerBlock` | src/core/bot_runtime.py:115-145 | when every run succeeds, a fire succeeds once for every time its key comes up anew |
| `RunLoop.ForwardKeysRise` | src/core/cron.py:169-173 | while the clock never goes back the polled keys rise, and none comes back |
| `RunLoop.EveryAttemptWithinGrace` | src/core/bot_runtime.py:205-230 | every attempt belongs to the latest fire, at most the grace before it |
| `RunLoop.NoPollIsWasted` | src/core/bot_runtime.py:102-118 | until a fire succeeds, every enabled poll that falls to it is an attempt, up to three |
| `RunLoop.MissesAreReported` | src/core/bot_runtime.py:147-161 | the reported missed key used all attempts without success and is the latest that did |
| `RunLoop.SetBackRunsTwice` | src/core/bot_runtime.py:115-117 | with the clock set back, an earlier fire succeeds twice: a concrete failing run |
| `SessionClock.LastSessionClose` | src/connectors/cache.py:42-48 | the loop finds the greatest weekday close at or before a moment |
| `SessionClock.LastCloseIsGreatest` | src/connectors/cache.py:42-48 | that is the greatest four o'clock of a Monday to Friday at or before it |
| `SessionClock.LastCompleteBarEnd` | src/connectors/cache.py:165-187 | the end of the newest bar that can be complete, in and out of session |
| `SessionClock.FrontierIsTheLastGridPoint` | src/connectors/cache.py:165-187 | between half past nine and four on a weekday, for bars shorter than a day, it is the last point of their grid from the open at or before the moment; otherwise the last close |
| `SessionClock.FrontierMonotone` | src/connectors/cache.py:165-187 | that frontier is never in the future and never goes back |
| `SessionClock.EnoughWeekdays` | src/connectors/cache.py:69-71 | the calendar days hold at least the sessions, wherever in the week they start |
| `SessionClock.CalendarDaysExactly` | src/connectors/cache.py:69-71 | they are seven for every five sessions and one more, rounded up |
| `SessionClock.WindowHoldsTheSessions` | src/connectors/cache.py:54-76 | a derived window holds at least the requested weekday sessions in full, and those are long enough for the bars |
| `SessionClock.NothingAskedFor` | src/connectors/cache.py:54-76 | no bars, or bars of no length, make a window of no length |
| `SessionClock.SlackExactly` | src/connectors/cache.py:69-71 | for every count of sessions and every weekday, the calendar days hold a weekday to spare if and only if the count and the weekday are not tight |
| `SessionClock.WindowSlackExactly` | src/connectors/cache.py:54-76 | a derived window has a session to spare for a holiday if and only if it is not tight |
| `SessionClock.SlackCanBeUsedUp` | src/connectors/cache.py:69-71 | five daily bars back from a Monday, and one back from a Monday or Tuesday, have no session to spare: concrete inputs |
| `BarCache.Store.FindGaps` | src/connectors/cache.py:198-246 | the gaps of a window, as a function of what is held and the horizon |
| `BarCache.Store.Bars` | src/connectors/base.py:144-177 | the read-through loop computes the answer and the new cache, and returns its newest bars |
| `BarCache.TailKeepsNewest` | src/connectors/base.py:175-175 | the tail is the newest stamps, as many as asked for or there are |
| `BarCache.GapsAreTheEdges` | src/connectors/cache.py:209-246 | at most two gaps, ordered, without overlap, inside the window |
| `BarCache.AnswerKeepsSound` | src/connectors/base.py:163-173 | after every request the store is exactly the history over one span, and the answer is history |
| `BarCache.RequestsKeepSound` | src/connectors/base.py:144-177 | over any run of requests that meet the stored span the store stays exactly the history over one span |
| `BarCache.AgreesWithDirectFetch` | src/connectors/base.py:144-177 | the answer agrees with a direct fetch bar for bar if and only if the bar is not older than the horizon or is stored |
| `BarCache.ShortFetchHidesOlderBars` | src/connectors/cache.py:117-129 | after a short first fetch, through any run of requests that are not forced, no lookback returns an older bar the provider would serve |
| `BarCache.HidingStays` | src/connectors/cache.py:234-240 | a bar older than everything stored is neither answered nor stored by a request that is not forced |
| `BarCache.AskedTwiceFetchedOnce` | src/connectors/cache.py:234-246 | once the newest complete bar has printed, the same request again fetches nothing |
| `ProviderWalk.TakeOffer` | src/connectors/service.py:102-115 | one provider's answers change each symbol as the rule for that symbol says |
| `ProviderWalk.RunProviderFallback` | src/connectors/service.py:51-140 | the early exit gives the answer of asking everyone, and happens as soon as every wanted symbol is current |
| `ProviderWalk.TheWinnerAnswers` | src/connectors/service.py:79-115 | the answer is the first frame at the frontier, else the first of those that reach furthest, else nothing |
| `ProviderWalk.OneWinner` | src/connectors/service.py:107-113 | no two providers can both win a symbol |
| `MarketTime.MarketMinutesAxis` | src/data/bars.py:250-268 | the cumulative sum computes the axis |
| `MarketTime.BarAdvances` | src/data/bars.py:253-268 | each bar advances the axis by the elapsed time, capped at its interval and at a session |
| `MarketTime.AdvancesByTheLeast` | src/data/bars.py:258-268 | it is exactly the least of the elapsed minutes, a session, and what the bar claims: its recorded interval, 15 where only others record one, or the frame's |
| `MarketTime.AxisNeverGoesBack` | src/data/bars.py:274-279 | the axis starts at zero and is non-decreasing |
| `MarketTime.UpToIsLast` | src/data/bars.py:284-290 | the scan result is exactly the insertion point of the target |
| `MarketTime.SearchSortedRight` | src/data/bars.py:287-289 | binary search equals the linear scan |
| `MarketTime.ClosesAtOffsets` | src/data/bars.py:271-290 | a batch of offsets is looked up as each offset alone |
| `MarketTime.ReturnBetweenCloses` | src/data/bars.py:313-331 | a return is the later over the earlier of the last closes at or before the two ends of its window, less one; zero where the data does not reach back or the start is worth nothing |
| `MarketTime.ReturnPath` | src/data/bars.py:333-364 | the batched path is the pointwise returns with leading zeroes filled |
| `MarketTime.PointsExactly` | src/data/bars.py:343-344 | there are as many samples as steps come nearest to the span, ties to even, and at least one |
| `MarketTime.SamplesAreSpaced` | src/data/bars.py:349-350 | the last sample ends at the newest bar and each one a step after the one before |
| `MarketTime.ReachedFromTheFirst` | src/data/bars.py:349-359 | the data reaches exactly the samples from the first one it reaches on |
| `MarketTime.FilledAsMeantExactly` | src/data/bars.py:336-338 | the path fills only what the data cannot reach, with the first sample it can, if and only if that sample is not flat or all are |
| `MarketTime.FlatSampleIsOverwritten` | src/data/bars.py:336-338 | a flat sample the data reaches is overwritten: a concrete failing input |
| `TotalReturn.Payments` | src/data/bars.py:77-88 | each distribution lands on the first bar at or after its ex-date |
| `TotalReturn.PaymentsAddUp` | src/data/bars.py:77-88 | what is paid over all bars is what the distributions the window reaches come to |
| `TotalReturn.TotalReturnIndex` | src/data/bars.py:57-96 | the loop computes the scaled compounded index |
| `TotalReturn.EndsAtTheLastClose` | src/data/bars.py:64-67 | the series ends at the last raw close |
| `TotalReturn.GrowsByCloseAndPayment` | src/data/bars.py:90-92 | it grows by exactly close plus payment over the previous close |
| `TotalReturn.NeverAboveTheClose` | src/data/bars.py:64-67 | it is positive, never above the raw close, and equal to it if and only if nothing is paid after |
| `Dividends.DividendSchedule` | src/execution/replay.py:69-86 | the schedule maps each trade date to the dividends that land on it |
| `Dividends.EachLandsOnce` | src/execution/replay.py:73-85 | a dividend lands on exactly the first trade date on or after its ex-date, and nowhere if it went ex before the replay |
| `Dividends.PayableIsATradeDate` | src/execution/replay.py:89-101 | cash lands on the first trade date that is no earlier than the ex trade date and the payable date, and on the last one where there is none |
| `Dividends.EarnedIsSharesTimesAmount` | src/execution/replay.py:440-443 | what has been earned is, over all dividends that have attached, the shares held going into the trade date times the amount |
| `Dividends.EarnedFrom` | src/execution/replay.py:440-443 | every entitlement is some dividend's, opened on the trade date it attaches to, for its symbol, value and payable date |
| `Dividends.Replay` | src/execution/replay.py:405-455 | the pending list and the income are those of the run function |
| `Dividends.PaidPlusPendingIsEarned` | src/execution/replay.py:440-455 | paid plus pending is always what was earned, in dollars and entitlement by entitlement |
| `Dividends.CreditedOnTheDay` | src/execution/replay.py:445-455 | each entitlement is credited on its payable date and nothing pending is overdue |
| `Dividends.NothingPendingAtTheEnd` | src/execution/replay.py:97-101 | after the last date nothing is pending and the income is everything earned |
| `Realized.RealizedFromFills` | src/brokerages/realized.py:22-77 | the loop over the sorted fills computes the ledger |
| `Realized.SinceIsTheRest` | src/brokerages/realized.py:31-52 | the gains, closes and unmatched sells from a date on are those over all fills less those over just the fills of before that date |
| `Realized.ClosesAndUnmatched` | src/brokerages/realized.py:58-72 | closes are the sells that find open shares, unmatched the sells that ask for more than are open |
| `Realized.OpenSharesMove` | src/brokerages/realized.py:53-75 | a fill with a symbol, a quantity and a price counts: a buy adds its shares and a sell takes what it asks for as far as there is |
| `Realized.InvalidIsPassedOver` | src/brokerages/realized.py:47-48 | any other fill changes nothing |
| `Ordering.BeforeAtTheParting` | src/brokerages/realized.py:80-86 | text dates, and symbols, are ordered by their first difference |
| `Realized.ChronologicalSorts` | src/brokerages/realized.py:80-86 | the walk sees every fill once, oldest first |
| `Realized.FeedOrderDoesNotMatter` | src/brokerages/realized.py:80-86 | the order a feed gives its fills in makes no difference where no two share a date |
| `Realized.SinceOnlyChoosesWhatCounts` | src/brokerages/realized.py:31-36 | the lots never depend on the date, and the total is the counted gains measured against them |
| `Realized.SharesNeverNegative` | src/brokerages/realized.py:62-75 | open shares never go negative and only bought symbols are open |
| `Realized.SharesAreConserved` | src/brokerages/realized.py:51-75 | open shares are what was bought less what sells closed |
| `Realized.CostIsConserved` | src/brokerages/realized.py:42-77 | realized equals matched proceeds less buy cost plus remaining basis, times the multiplier |
| `Realized.TotalIsTheSumOverSymbols` | src/brokerages/realized.py:37-77 | the total is the sum of what each symbol realized |
| `Realized.DiagnosticAgrees` | tools/realized_check.py:97-130 | for valid fills the diagnostic walk agrees on lots, total and unmatched count |
| `Realized.DiagnosticAgreesExactly` | tools/realized_check.py:97-130 | the two walks agree at every fill if and only if every fill the report skips is of no shares and sells nothing that is not there |
| `Realized.UnpricedFillParts` | src/brokerages/realized.py:47-48 | an unpriced sell is where the two walks differ: a concrete input |
| `LazyField.Field.Visit` | src/common/lazy_field.py:86-105 | a visit answers with what is cached, starts a refresh only when stale and none is in flight, and says so |
| `LazyField.Field.Reload` | src/common/lazy_field.py:108-129 | a reload drops the value, answers that a refresh is on its way, and starts one unless one is in flight |
| `LazyField.Field.ComputeDone` | src/common/lazy_field.py:163-184 | a success replaces the value, a failure changes nothing |
| `LazyField.Field.Release` | src/common/lazy_field.py:186-192 | the last step of a worker clears the mark of its key only |
| `LazyField.OneRefreshInFlight` | src/common/lazy_field.py:86-129 | under any interleaving a key is marked exactly while one refresh of it exists |
| `LazyField.MarkedExactlyWhileWorked` | src/common/lazy_field.py:92-100 | a marked key has exactly one worker unless a spawn failed, and is wedged if and only if one did |
| `LazyField.NoComputeFailureWedges` | src/common/lazy_field.py:186-192 | from any reachable state the refresh in flight can finish and frees its key, whatever it brings |
| `LazyField.WedgedForGood` | src/common/lazy_field.py:98-100 | a key left marked by a failed spawn stays marked through every later run |
| `LazyField.FailuresKeepTheValue` | src/common/lazy_field.py:163-184 | the cached value is the latest success since the last drop; failures never touch it |
| `LazyField.ReloadAnswered` | src/common/lazy_field.py:116-127 | from every reached state: a refresh that starts after a reload can fill the key iff none is computing, unreleased or stranded; an older one iff it is computing; none iff it is unreleased or stranded |
| `LazyField.ReloadTakesTheOlderResult` | src/common/lazy_field.py:116-127 | a reload during a computation is filled by that computation: a concrete run |
| `LazyField.ReloadIsLost` | src/common/lazy_field.py:163-192 | a reload between a worker's write and its release leaves neither value nor refresh: a concrete run |
| `Options.OsiExactly` | src/core/options.py:34-36 | a text names a contract if and only if it is letters and blanks, only blanks after the sixth, six digits, C or P and eight digits, but for one line break at its end |
| `Options.WrittenScansBack` | src/core/options.py:34-36 | a written symbol matches the pattern exactly for roots of letters and spaces, and reads back up to the century |
| `Options.TailReadsBack` | src/core/options.py:22-23 | a symbol carries two digits each of year, month and day, the kind, and the strike in eight digits |
| `Options.WrittenLength` | src/core/options.py:33-33 | a padded symbol has 21 characters, and the other spelling 15 more than its root |
| `Options.KindNames` | src/core/options.py:116-122 | an option type is its word or its initial, once blanks and case are taken off, and nothing else |
| `Options.RealDateExactly` | src/core/options.py:84-104 | an expiry is real if and only if the calendar has that day in that month of that year |
| `Options.LeapYears` | src/core/options.py:84-104 | every fourth year is a leap year, but of the centuries only every fourth |
| `Options.Alphabet` | src/core/options.py:34-36 | letters, digits, blanks and the two cases of each letter are those of ASCII |
| `Options.ParseUndoesPrint` | src/core/options.py:47-104 | parsing inverts printing in both spellings if and only if root, year and strike are nameable |
| `Options.OsiSymbolReadsBack` | src/core/options.py:47-104 | a symbol is built exactly for a known option type and a printable contract, and from text to text reads back and rebuilds the same symbol if the contract is nameable |
| `Options.SymbolsAreDistinct` | src/core/options.py:9-13 | distinct contracts never share a symbol, across both spellings |
| `Options.RespellingPrintsTheOther` | src/core/options.py:68-81 | re-spelling gives the other spelling, so there and back is the identity |
| `Options.RespellingIsIdempotent` | src/core/options.py:68-81 | re-spelling leaves other strings alone, succeeds exactly on real date, root and strike, and is idempotent |

## Left out

- Reconcile: a pass without a `persist` callback is not modelled, nor are the reporting fields of a result (symbol, action, quantity, reason).
- Brokerage.Venue.SubmitOrder: the key an order is placed for is recorded beside it for the proofs only; the broker never sees it.
- Brokerage: a broker that keeps calls in flight after an exception is not modelled; a submit that raises created nothing, as its contract says.
- Planning: labels carried for reporting (`target_weight`, `position_intent`, `short_shares_after`) are left out, as is weight-only sizing in `plan_position_orders`.
- FundBatch: the funding report is left out; its figures are the functions named here.
- FundBatch.CashNeverBelowReserve: fills are at the planned price and every order is taken; slippage and refused sales are not modelled.
- Reconcile.Reconciler.Replace: a reply whose `order_id` is present and null would be recorded as the text "None"; no brokerage in the repository sends one, and ids are texts here.
- FundBatch.LiquidateCovered: speaks of the planned quantity; the sent one is `Submission.SleeveSentWithinHolding`.
- PlanEdits.RecordTrueExactly: effects are values; the text shows share counts to six digits. It speaks of the planned leg; what is sent is in `Pipeline`.
- PlanEdits: operations and symbols are taken as already trimmed and case-folded, position symbols as upper-case, and every edit as a well-formed object.
- Pipeline.PlaceOrders: which orders the broker takes is a parameter; result status, weights and marking prices are left out.
- Cron: text splitting and number reading are left out; an entry arrives as its span and step. Dates come from a calendar function.
- RunLoop: a schedule edited inside its grace, a loop recreated on redeployment, wake-ups and timestamps are left out.
- SessionClock: time zones, daylight saving and exchange holidays are left out; there is one local minute clock.
- SessionClock.WindowHoldsTheSessions: counts session minutes, not bars, since a grid need not divide a session.
- BarCache.AgreesWithDirectFetch: says nothing of bars within one interval of the window start, which a provider may or may not serve; the store is one map that no one else clears, and windows meet the stored span.
- BarCache: payload normalisation, resolution negotiation and store failures are left out.
- ProviderWalk: frames are reduced to content, emptiness and newest stamp; the frontier is fixed during one walk; logging is left out.
- MarketTime: the median spacing behind a frame's interval is a parameter; `ema`, volatility and the other statistics are left out.
- TotalReturn: missing and unparsable closes are left out.
- Dividends: holdings on each date are a parameter, since the strategy decides them; marking to market and trading are left out.
- Realized: option expiry and assignment are left out, as in the source.
- LazyField: `reset`, error texts and timestamps in snapshots are left out; each locked section is one step.
- Options: digits and letters beyond ASCII, the contract quotes and their midpoint are left out.
- Floating-point noise: arithmetic is exact; the epsilons are kept as constants of the rules that use them.
- Strategies, concrete brokerages, data vendors, HTTP, OAuth, dashboards, logging and YAML loading: plumbing or opaque to this model.
- `src/core/plan_cache.py`, `src/api/controls.py`, `src/data/universe_selector.py`, `src/data/order_journal.py`: they would only add easy members.

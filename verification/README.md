# Kryon off-chain services: a verified model

Kryon is a perpetual-futures exchange on Arc. Its contracts settle trades; a set of TypeScript services
sends transactions, indexes the contracts' logs, runs the keepers and shows amounts to users. This
project models the services whose mistakes cost money and proves what they promise:

- **the transaction sender**: a nonce-allocating, fee-bumping protocol that survives crashes (`TxProtocol`,
  `TxSender`, `TxStore`, `TxFees`, `NonceAllocation`). `TxProtocol` is a state machine over a node, a durable
  table and an in-memory cursor; every method of the class in `TxSender.dfy` is shown to be a run of it, so the safety
  theorems hold of the class, between any two of its awaits;
- **the indexer and its projections** (`Indexer`, `Projections`, `FillFacts`, `ProjectionFacts`, `RebuildRuns`, `TableStore`): log windows committed with a
  cursor, handlers over denormalised tables, and a rebuild that must agree with live indexing;
- **the backstop unwinder** (`Backstop`, `BackstopKeeper`): a greedy allocator of a daily budget whose promise
  is about every later sequence of partial fills, and the life cycle of the orders it posts;
- **position arithmetic** (`PositionMath`): partial closes, flips, pro-rata basis and the liquidation price
  under truncating division;
- **the funding and fee-tier keepers** (`Funding`, `FeeSchedule`, `FeeTier`, `FeeTierBot`): fairness,
  capacity and convergence over runs of ticks;
- **strict DER signatures** (`Der`) and **amounts as text** (`Format`).

Values are datatypes and functions; the objects the services mutate are classes whose methods are proved
against those functions. `Arithmetic`, `Sorting`, `Text` and `Wrappers` hold what several models share.
Truncating bigint division is `Arithmetic.TruncDiv`; sorting stands for the host's stable array sort.

`dafny verify dfyconfig.toml` checks the project.

## Where the code and its description differ

The model follows the code. Each difference is a lemma.

- A submit retries at a new nonce after "nonce too low", which the sender reads as "another transaction has
  this nonce". The node gives the same answer once the attempt itself was mined. `RetrySafeIff` says when
  the retry is safe: exactly when every earlier attempt was beaten to its nonce. `MinedRetryUnsafe` is a
  reachable world in which it is not.
- After a restart or a resync the allocated nonce can carry an open job: exactly when one sits at the node's
  pending count (`AllocatedIsFreeIff`, `RestartTakesOpenNonce`).
- A rebuild is to give back what live indexing made of the same events. It forgets the reason the matcher
  noted on a pending fill, and rejects a pending fill whose id the chain rejected before the fill was
  reserved again. With markets and orders recorded before their events the tables come back if and only if
  no pending fill is of either kind (`RebuildEqualsLive`, `RebuildForgetsReason`, `RebuildRejectsAgain`).
- An order's filled size is to be the sum of its settled fills. Two writes break that: settling a fill again
  under terms that no longer name an order whose filled size showed it, and inserting an order of which
  something has settled already. These and no others do (`BreaksIff`, `FilledAlwaysAgrees`,
  `ResettlingStrands`, `LateOrderUnfilled`).
- `liquidationPrice` is to return null exactly when no positive price brings the account to its maintenance
  requirement. It returns the number 0 when the crossing lies strictly between 0 and 1, and null with a
  non-positive denominator even where the account crosses at a positive price. `PriceReturnedIffReached`
  gives the exact condition over all inputs; `MissingPriceMeaning`, `NullMeansNoPriceIff`,
  `ZeroPriceWitness` and `NonPositiveDenominatorWitness` are its parts. A denominator that is not positive
  needs a margin of at least 10000 bps, and the contracts list no market above 5000
  (`kryon-protocol/evm/src/RiskParams.sol`), so there null is always right (`ListedMarginResult`).
- "Taken by a foreign transaction" (`TxDroppedError`) is concluded when the count passed the nonce and no
  attempt of ours has a receipt. A node that moves its count before it serves receipts can make it wrong: our
  attempt was mined, its row is dropped, and a caller that reads the error as "not executed" sends again.
  Every verdict is right if and only if no attempt of ours that was mined, or may still be, has its receipt
  unserved (`TakenRightIff`); `TakenWrong` is a reachable world in which it is not.
- `parseAmount` accepts commas "only as thousands separators", but also a comma in front and one in the
  fraction (`CommasAreThousandsIff`, `LeadingCommaAccepted`, `FractionCommaAccepted`).
- The strict DER reader accepts two-octet lengths that start with a zero octet (`LengthShortestIff`,
  `LongLengthRead`); no signature is long enough to use one.
- The size box never shows more than its source, except that a negative size short of one display unit
  shows as zero (`SizeInputNeverExceeds`).
- The fee-tier bot accepts a limit below one change a tick, which `slice(0, max)` counts from the end of the
  list; with such a limit it never converges (`NoRoomNeverConverges`).
- A due market waits at most ceil(n / maxPerTick) ticks only while updates are confirmed. Whatever lands,
  it is unpicked after k ticks if and only if the markets before it outnumber by maxPerTick the updates the
  first k - 1 ticks landed (`WaitsExactly`, `StarvesIff`, `FailingMarketStarves`).

## Model

| member | source | states |
|---|---|---|
| `TxProtocol.AtMostOnceOverRuns` | client/lib/chain/tx-sender.ts:165-194 | over every interleaving of mining, mempool loss, rebroadcast, replacement, retry, patch and crash, at most one attempt of a submit call is mined |
| `TxProtocol.RecordedBeforeSent` | client/lib/chain/tx-sender.ts:317-334 | in every reachable state each transaction ever sent, or mined under the key, has a row; a CONFIRMED or REVERTED row is mined and its receipt is served |
| `TxProtocol.OneSettledRowPerNonce` | client/lib/chain/tx-sender.ts:403-428 | in every reachable state at most one row per nonce of the key is CONFIRMED or REVERTED |
| `TxProtocol.RunKeepsInv` | client/lib/chain/tx-sender.ts:141-146 | every run of the protocol keeps the invariant the safety theorems rest on |
| `TxProtocol.InsertKeepsOneLive` | client/lib/chain/tx-sender.ts:173-192 | a row written as a first attempt, a retry after loss or a fee bump never gives its submit call a second nonce that could still be mined |
| `TxProtocol.RetrySafeIff` | client/lib/chain/tx-sender.ts:181-186 | writing one more attempt at a fresh nonce keeps at-most-once in every future exactly when every earlier attempt lost its nonce to another transaction |
| `TxProtocol.MinedRetryUnsafe` | client/lib/chain/tx-sender.ts:181-186 | in a world reached from an empty table whose only attempt was itself mined, writing the retry makes two executions possible |
| `TxProtocol.CursorNeverMovesBack` | client/lib/chain/tx-sender.ts:189-190 | in a run without resync the cursor never decreases |
| `TxSending.TxSender.constructor` | client/lib/chain/tx-sender.ts:147-162 | a start or restart over whatever the table holds: the cursor is unknown and the invariant holds |
| `TxSending.TxSender.Create` | client/lib/chain/tx-sender.ts:147-162 | refuses a bump below ten percent, and only that |
| `TxSending.TxSender.Submit` | client/lib/chain/tx-sender.ts:165-194 | a run of the protocol that writes at most three rows, each carrying out the request, each but the last beaten to its nonce; on success the last row is SUBMITTED at the allocated nonce and the cursor is the allocation's, or just past that nonce if it is higher; without resync cursor and open nonces become those of `SubmitOnce`, and open jobs stay below the cursor; on failure no new row is open |
| `TxSending.TxSender.TryOnce` | client/lib/chain/tx-sender.ts:173-192 | one pass of the loop: at most one row added, its status tied to the node's answer; when it lands, the nonce is the allocated one and the cursor the allocation's or just past the nonce, whichever is higher |
| `TxSending.TxSender.PrepareTry` | client/lib/chain/tx-sender.ts:174-177 | allocate, price, sign and persist: the row written is a PENDING attempt at the allocated nonce with the cursor as allocated, or nothing is written |
| `TxSending.TxSender.AllocateNonce` | client/lib/chain/tx-sender.ts:250-265 | returns the nonce and cursor of `Allocate` on the node's pending count and the open jobs |
| `TxSending.TxSender.LowestFree` | client/lib/chain/tx-sender.ts:256-263 | the scan returns the lowest nonce in the range that no open job holds, or its end |
| `TxSending.TxSender.SignAndPersist` | client/lib/chain/tx-sender.ts:269-319 | appends one PENDING row with the signed transaction before any broadcast, or writes nothing |
| `TxSending.TxSender.Broadcast` | client/lib/chain/tx-sender.ts:321-334 | sends only a recorded transaction; the row becomes SUBMITTED, DROPPED or FAILED by the node's answer and no other row changes |
| `TxSending.TxSender.Rebroadcast` | client/lib/chain/tx-sender.ts:336-343 | sends recorded bytes again and writes no row |
| `TxSending.TxSender.Replace` | client/lib/chain/tx-sender.ts:346-373 | adds at most one row: same submit, nonce and call, both fees bumped, the maximum within the cap; at the cap nothing is written |
| `TxSending.TxSender.Wait` | client/lib/chain/tx-sender.ts:208-241 | terminates; all it wrote is a chain of replacements of the job and closed attempts at its nonce; when found, the outcome is settled on its row with nothing left open at the nonce; when taken elsewhere, nothing is open, the verdict is one reached from a world of this wait, and none of ours was mined if the receipt at the nonce was served by the re-check |
| `TxSending.TxSender.FindMined` | client/lib/chain/tx-sender.ts:403-428 | on a hit settles the mined attempt, whatever its status was, and leaves nothing at the nonce open; without one changes nothing, and no attempt had a receipt to be served |
| `TxSending.TxSender.Settle` | client/lib/chain/tx-sender.ts:413-425 | records the receipt on its own row and closes the other open attempts at the nonce |
| `TxSending.TxSender.DropAttempts` | client/lib/chain/tx-sender.ts:393-395 | drops exactly the listed open attempts but the one named |
| `TxSending.TxSender.AssertNonceNotTaken` | client/lib/chain/tx-sender.ts:388-397 | a verdict of taken leaves nothing open at a consumed nonce, rests on no attempt having had a receipt to be read at the re-check, and is right whenever the receipt at the nonce was served by then, as it is with a node that serves receipts promptly |
| `TxSending.TakenRightIff` | client/lib/chain/tx-sender.ts:387-397 | every verdict of taken that a node can lead to from a world is right exactly when no attempt of ours has the nonce, or may still get it, with its receipt not served |
| `TxSending.TakenWrong` | client/lib/chain/tx-sender.ts:387-397 | from an empty table a world is reached in which the verdict drops the attempt that was mined |
| `TxSending.ReplacementsAreChain` | client/lib/chain/tx-sender.ts:214-240 | the replacements of one wait form a fee chain under the bump percentage and the cap |
| `TxSending.WaitSignsAtMost23` | client/lib/chain/tx-sender.ts:153-156 | with the default options one wait signs at most 23 replacements |
| `TxSending.WatchedKeepsOpenBelow` | client/lib/chain/tx-sender.ts:208-241 | watching a job below the cursor leaves every open job below the cursor |
| `TxStore.TxJobTable.Insert` | client/lib/chain/tx-store.ts:76-79 | refuses a known id or hash and writes nothing then; otherwise appends exactly the row |
| `TxStore.TxJobTable.Update` | client/lib/chain/tx-store.ts:81-85 | patches exactly the row with the id, or refuses an unknown id |
| `TxStore.TxJobTable.OpenJobs` | client/lib/chain/tx-store.ts:87-91 | exactly the key's PENDING and SUBMITTED rows, lowest nonce first, then oldest |
| `TxStore.TxJobTable.ByNonce` | client/lib/chain/tx-store.ts:93-97 | exactly the key's attempts at the nonce, whatever their status, oldest first |
| `NonceAllocation.AllocationFacts` | client/lib/chain/tx-sender.ts:250-265 | never below the pending count, never moving the cursor back, the lowest gap whenever there is one |
| `NonceAllocation.AllocatedIsFreeIff` | client/lib/chain/tx-sender.ts:250-265 | with every open job below a known cursor the nonce carries no open job; with an unknown cursor it carries one exactly when one sits at the pending count |
| `NonceAllocation.RestartTakesOpenNonce` | client/lib/chain/tx-sender.ts:250-265 | with jobs open at 5 and 6 and a pending count of 5, an unknown cursor takes nonce 5 again and the known cursor 7 takes 7 |
| `NonceAllocation.SubmitsCloseGaps` | client/lib/chain/tx-sender.ts:189-190 | k landed submits, each the `SubmitOnce` that `TxSender.Submit` performs, leave at most g - k of g gaps, over any rising pending counts |
| `TxFees.InitialWellPriced` | client/lib/chain/tx-sender.ts:113-119 | the first price is at least the network floor and its tip is within the maximum |
| `TxFees.InitialIsLeast` | client/lib/chain/tx-sender.ts:113-119 | the first maximum is the least that doubles the base fee and the network floor and reaches 40 gwei; the tip is one gwei |
| `TxFees.BumpIsLeast` | client/lib/chain/tx-sender.ts:121-123 | a bump is the least whole amount that grows the fee by the full percentage |
| `TxFees.BumpedWellPriced` | client/lib/chain/tx-sender.ts:349-352 | a replacement is above the floor, its tip within its maximum, both fees strictly higher |
| `TxFees.BumpedIsLeast` | client/lib/chain/tx-sender.ts:349-351 | a replacement pays the least maximum that bumps the old one and meets today's first price, and the least tip that bumps the old tip |
| `TxFees.ChainCompounds` | client/lib/chain/tx-sender.ts:346-352 | after k replacements the maximum fee has grown by the percentage compounded k times, at least |
| `TxFees.ChainBounded` | client/lib/chain/tx-sender.ts:346-352 | so the number of replacements is bounded by the cap |
| `TxFees.AtMost23ByDefault` | client/lib/chain/tx-sender.ts:154-155 | with the default bump and cap a chain has at most 24 attempts |
| `ProjectionStore.TableStore.ApplyEvent` | client/lib/indexer/projections.ts:409-414 | dispatching to the handlers changes the tables exactly as the specification `Projections.Apply` says |
| `ProjectionStore.TableStore.ChangePosition` | client/lib/indexer/projections.ts:155-194 | upserts the position unless the event is no newer, then sums both sides of open interest and adds the profit row |
| `ProjectionStore.TableStore.SettleFill` | client/lib/indexer/projections.ts:197-228 | upserts the settled fill and refreshes the orders it names |
| `ProjectionStore.TableStore.RefreshOrders` | client/lib/indexer/projections.ts:64-84 | filled size and status recomputed from the settled fills; a cancelled or expired order keeps its status |
| `ProjectionStore.TableStore.RejectFill` | client/lib/indexer/projections.ts:229-236 | marks a recorded fill rejected unless it is settled |
| `ProjectionStore.TableStore.CancelUpTo` | client/lib/indexer/projections.ts:244-257 | raises the account's minimum nonce and cancels its live orders below it |
| `Projections.RebuildEqualsLive` | client/lib/indexer/projections.ts:434-457 | with each market and order recorded before its events, resetting and replaying the stored events gives back every table but the fills row for row, and the fills too exactly when no pending fill carries a noted reason or an id that an event rejected, whatever the API and the matcher inserted, noted, released or retired in between |
| `Projections.RebuildForgetsReason` | client/lib/matcher/apply.ts:161-172 | from empty tables: a fill reserved and a reason noted on it, and a rebuild gives other tables |
| `Projections.RebuildRejectsAgain` | client/lib/matcher/submit.ts:90-112 | from empty tables: a fill reserved under an id an event rejected before, and a rebuild gives other tables |
| `Projections.SumBySettled` | client/lib/indexer/projections.ts:75-81 | what has settled of an order depends on the settled rows only, wherever pending rows come and go between them |
| `Projections.InterestAlwaysAgrees` | client/lib/indexer/projections.ts:182-190 | in every state of every run whose position events come after their market's listing (`ListedFirst`), long and short open interest equal the sums over the position rows |
| `Projections.RealizedAlwaysAgrees` | client/lib/indexer/projections.ts:160-181 | in every state of every run with events in chain order (`InOrder`), every position's cumulative profit is the sum over its events, each counted once |
| `FillFacts.BreaksIff` | client/lib/indexer/projections.ts:64-84 | a write ends the agreement of filled sizes with settled fills exactly when it is a settlement that takes from some unfilled order a fill its new terms do not name, or inserts an order of which something has settled |
| `FillFacts.FilledAlwaysAgrees` | client/lib/indexer/projections.ts:64-84 | each order's filled size is its settled fills capped at its size in every state of a run if and only if no write of the run breaks it |
| `FillFacts.ResettlingStrands` | client/lib/indexer/projections.ts:219-227 | from empty tables: an order, a settlement naming it and a second settlement of that fill not naming it leave the order with a wrong filled size |
| `FillFacts.LateOrderUnfilled` | client/lib/queries/orders.ts:319-346 | from empty tables: an order inserted after a settlement that names it starts with a wrong filled size |
| `FillFacts.StatusAlwaysAgrees` | client/lib/indexer/projections.ts:68-72 | in every state of every run whose orders have positive sizes (`PositiveOrders`), an order that is not cancelled or expired is filled, partly filled or open as its own filled size says, and so as its settled fills say wherever the filled size agrees with them |
| `FillFacts.SettledIffEverSettled` | client/lib/indexer/projections.ts:197-236 | a fill is recorded as SETTLED exactly when an event ever settled it, in whatever order settlements, rejections and the matcher's releases come |
| `ProjectionFacts.PositionShowsLatest` | client/lib/indexer/projections.ts:160-181 | in every state of every run with events in chain order (`InOrder`), a position row shows the size, basis and price of the latest event of its trader and market |
| `ProjectionFacts.PnlAlwaysAgrees` | client/lib/indexer/projections.ts:191-193 | in every state of every run with events in chain order, each log with its own key (`InOrder`, `DistinctLogs`), the profit rows of a trader in a market add up to what its events realised, each counted once |
| `ProjectionFacts.CumulativeIsSumOfRows` | client/lib/indexer/projections.ts:160-193 | in every such state a position's cumulative profit is the sum of its profit rows |
| `Indexing.Indexer.constructor` | client/lib/indexer/indexer.ts:49-58 | a start or restart over correctly stored events, whatever the tables: the window is at its maximum, whatever that is, and the invariant holds |
| `Indexing.Indexer.Commit` | client/lib/indexer/indexer.ts:102-152 | commits exactly the window's transaction over sorted logs, skipping stored ones, or leaves the database as it was |
| `Indexing.Indexer.Step` | client/lib/indexer/indexer.ts:69-93 | terminates; with a positive maximum the window stays in [1, maxWindow], a returned window starts after the cursor, moves it to its end and appends exactly the chain's logs of that range, and the size used, some halvings of the old one, then doubles up to the maximum; with a maximum below one a window stores nothing and ends before it starts, so the cursor never moves on; otherwise nothing is stored |
| `Indexing.Indexer.CatchUp` | client/lib/indexer/indexer.ts:96-100 | terminates; stored events only grow and each window counted moves the cursor by at least one block |
| `Indexing.Indexer.Rebuild` | client/lib/indexer/indexer.ts:158-188 | with a batch of at least one, keyset paging replays each stored event once over the reset tables and indexing can go on; below one it aborts and changes nothing |
| `Indexing.CommitIsExact` | client/lib/indexer/indexer.ts:102-152 | whatever the order and repetition of delivered logs and whatever the tables hold, a commit extends the stored events by exactly the window's logs, and keeps tables exact that were |
| `Indexing.IndexedExactlyOnce` | client/lib/indexer/indexer.ts:69-152 | after any run the stored events are the chain's logs in [start, cursor] in (block, logIndex) order, and the tables are their fold, each applied once |
| `Indexing.RebuildChangesNothing` | client/lib/indexer/indexer.ts:154-188 | in every reachable database whose history is `Orderly` (markets and orders recorded before their events) a rebuild changes nothing but pending fills, and nothing at all exactly when every pending fill is without a noted reason and never rejected by an event |
| `RebuildRuns.RebuildsKeepLive` | client/lib/indexer/indexer.ts:69-188 | over every run of commits, other writers' writes and rebuilds, clean or not, with an `Orderly` history, the stored events are the chain's logs up to the cursor, every table but the fills equals the one live indexing alone would hold, and so do the settled fills |
| `RebuildRuns.RebuildAgrees` | client/lib/indexer/projections.ts:434-457 | rebuilding tables that differ from the live ones in unsettled fills only gives such tables again |
| `Indexing.PageIsNextRows` | client/lib/indexer/indexer.ts:173-185 | a page after the last key is the next rows, none skipped and none repeated |
| `Indexing.ProgressIff` | client/lib/indexer/indexer.ts:76 | a window is non-empty, so the cursor advances, exactly when the window size is at least one |
| `Backstop.PlanUnwind` | client/lib/keepers/backstop.ts:140-203 | the two loops compute the plan of the specification `PlanFor`, about which the lemmas below speak |
| `Backstop.BandIsExact` | client/lib/keepers/backstop.ts:115-118 | a price is in the band exactly when its distance from the index times 10000 is at most index times deviation |
| `Backstop.LimitPriceIsExact` | client/lib/keepers/backstop.ts:132-138 | at any deviation the limit is the index moved by the floored offset, for a sell one higher where the offset exceeds the index and does not divide, inside the band: the clamp never bites |
| `Backstop.WorstPricePositive` | client/lib/keepers/backstop.ts:126-129 | the worst price is at least a positive index, so sizing never divides by zero |
| `Backstop.TakenSlice` | client/lib/keepers/backstop.ts:183-200 | a slice's size is the largest the position and the cap allow in truncated arithmetic |
| `Backstop.SlicesAreSound` | client/lib/keepers/backstop.ts:165-201 | every slice reduces a held position, fits the per-fill cap, meets the minimum, avoids markets with open orders, and there are at most maxOrdersPerTick |
| `Backstop.LargestFirst` | client/lib/keepers/backstop.ts:155-163 | positions are considered largest exposure first |
| `Backstop.EveryPositionOnce` | client/lib/keepers/backstop.ts:165-201 | each non-zero position is sliced or skipped, exactly once |
| `Backstop.SkippedForCause` | client/lib/keepers/backstop.ts:165-198 | every skip names a held position and the true reason at the moment it came up, with the slices of the larger positions out: the gates in their order, the slots used up, or what those slices leave of the day too little for a slice worth posting |
| `Backstop.BookFitsDay` | client/lib/keepers/backstop.ts:142-151 | if anything is posted, usage today plus the worst case of open orders and new slices fits the daily cap |
| `Backstop.CapHoldsIff` | client/lib/keepers/backstop.ts:142-151 | a cap survives every run of partial fills exactly when it covers each line filled whole at its worst price |
| `Backstop.DailyCapOverRuns` | client/lib/keepers/backstop.ts:140-203 | whatever is filled afterwards, in any pieces and order within the band and limits, usage plus the sum of truncated notionals stays within maxDailyNotional |
| `Backstop.SliceFillWithinCap` | client/lib/keepers/backstop.ts:191-193 | no fill of a new slice exceeds maxFillNotional, whatever else is on the book |
| `BackstopKeeper.BackstopUnwinder.Create` | client/lib/keepers/backstop.ts:316-320 | a TTL outside (0, 3600] is refused and nothing else is; the default is 1800 |
| `BackstopKeeper.BackstopUnwinder.CloseFinished` | client/lib/keepers/backstop.ts:339-358 | every open intent is closed by the rule `CloseOne`, the others are untouched, and the ended ones are counted |
| `BackstopKeeper.BackstopUnwinder.Post` | client/lib/keepers/backstop.ts:403-459 | each slice gives one order, one submission and one recorded intent, in order, with one nonce each |
| `BackstopKeeper.BackstopUnwinder.RunTick` | client/lib/keepers/backstop.ts:360-461 | closes first; idles on the first shut gate; otherwise posts exactly the plan over the open orders of that moment |
| `BackstopKeeper.ClosedExactlyWhenEnded` | client/lib/keepers/backstop.ts:345-355 | an intent stays open exactly while its order is live; otherwise it ends, confirmed exactly when the row shows a fill, and is never touched again |
| `BackstopKeeper.PlannedMarkets` | client/lib/keepers/backstop.ts:154-168 | a plan slices no market twice and none where an order is live |
| `BackstopKeeper.PostingKeeps` | client/lib/keepers/backstop.ts:403-459 | posting to markets without a live order keeps one live order a market and adds only rows of the orders posted |
| `BackstopKeeper.RunTickIsStep` | client/lib/keepers/backstop.ts:360-461 | what a posting tick leaves is one whole tick of a run |
| `BackstopKeeper.RunsKeepOneOrder` | client/lib/keepers/backstop.ts:360-461 | over every run, crashes included, no market has two live unwind orders and no order two open intents; without a crash between submitting and recording every live order has its intent |
| `BackstopKeeper.NoncesCollideIff` | client/lib/keepers/backstop.ts:324-326 | two nonces collide exactly when drawn in one millisecond with counters equal modulo 1000 |
| `PositionMath.FillIdentity` | client/lib/math.ts:84-111 | through opens, partial closes and flips the size moves by the delta, and the basis by the signed fill plus what is realised, to the wei |
| `PositionMath.FillKeepsSound` | client/lib/math.ts:84-111 | a flat position has no basis and a basis never has the opposite sign of its size |
| `PositionMath.PartialCloseShare` | client/lib/math.ts:96-104 | a partial close leaves the remaining share of the basis, rounded away from zero, with its sign |
| `PositionMath.FlipClosesThenOpens` | client/lib/math.ts:98-110 | a flip realises exactly what a full close would and opens the rest, at a basis at most one wei off a separate fill of it |
| `PositionMath.OpenFromFlatBasis` | client/lib/math.ts:86-95 | from flat the basis is zero exactly when the fill is worth less than one wei |
| `PositionMath.IncreasedMeaning` | client/lib/math.ts:76-77 | `increased` is false exactly when the new size lies between zero and the old one |
| `PositionMath.ClosingRealisesUnrealized` | client/lib/math.ts:55-59 | closing everything realises exactly the unrealised profit at that price |
| `PositionMath.RunInvariants` | client/lib/math.ts:84-111 | after any run from flat the size is the sum of deltas, the books balance and the position is sound |
| `PositionMath.FlatToFlatRealises` | client/lib/math.ts:84-111 | a run that ends flat realised exactly the negated sum of its signed fills |
| `PositionMath.SplitFillBound` | client/lib/math.ts:33-35 | k fills at one price never cost more than one whole fill, nor k wei less |
| `PositionMath.ZeroSum` | client/lib/math.ts:84-111 | over every run of matched fills sizes sum to zero and so does realised minus basis, exactly |
| `PositionMath.LiquidationIsThreshold` | client/lib/math.ts:141-152 | for a long every price above the result has surplus margin and none at or below it; for a short every price at or below it is covered and none above |
| `PositionMath.MissingPriceMeaning` | client/lib/math.ts:137-151 | with a positive denominator the account crosses its requirement at a positive price exactly when the result is a positive number; the result is 0 exactly when the crossing lies strictly between 0 and 1; with any other denominator the result is null, and the account crosses exactly where the root of its surplus is at least 1 |
| `PositionMath.NullMeansNoPriceIff` | client/lib/math.ts:137-151 | where the result is null, the account crosses at no positive price exactly when the denominator is positive or the root of its surplus is below 1 |
| `PositionMath.PriceReturnedIffReached` | client/lib/math.ts:128-151 | over all inputs, a number is returned exactly when the account crosses its requirement at a positive price, but for a crossing strictly between 0 and 1, and for a non-positive denominator under a root of at least 1 |
| `PositionMath.CrossesIff` | client/lib/math.ts:132-134 | on both sides and for every denominator, the account is at or under its requirement at some positive price and at or over it at some other exactly when the root of its surplus is at least 1 |
| `PositionMath.ListedMarginResult` | client/lib/math.ts:137-151 | at the margins a market can be listed with null is always right, and a number is a crossing unless it is 0 |
| `PositionMath.ZeroPriceWitness` | client/lib/math.ts:137-151 | an input at an index price of one for which 0 is returned although the account crosses at no positive price |
| `PositionMath.NonPositiveDenominatorWitness` | client/lib/math.ts:150 | a long at a margin of 20000 bps that is over its requirement at the index price, meets it at twice that and is under it beyond, and for which null is returned |
| `Funding.DueFacts` | client/lib/keepers/funding.ts:87-110 | the due list holds the plan of each due market once and nothing else, first-ever updates first, then the longest overdue |
| `Funding.ChosenIff` | client/lib/keepers/funding.ts:87-110 | a market is picked exactly when it is due and fewer than maxPerTick active markets have an older last update, or the same and an earlier place in the list |
| `Funding.BeforeShrinks` | client/lib/keepers/funding.ts:106-110 | a tick that does not land a due market itself takes from those before it exactly the picked ones that landed, whatever lands |
| `Funding.WaitsExactly` | client/lib/keepers/funding.ts:172-207 | over any run with a clock that does not run backwards, a due market is unpicked after k ticks exactly when the markets before it are at least maxPerTick plus the updates landed by the first k - 1 |
| `Funding.StarvesIff` | client/lib/keepers/funding.ts:194-207 | while nothing picked lands, a due market is never picked exactly when at least maxPerTick markets are before it |
| `Funding.DueMarketChosenSoon` | client/lib/keepers/funding.ts:172-207 | with confirmed updates and a clock that does not run backwards, a due market is picked within ceil(n / maxPerTick) ticks |
| `Funding.FailingMarketStarves` | client/lib/keepers/funding.ts:194-207 | one such run: two markets and one update a tick, the first one failing at every time |
| `Funding.FundingKeeper.Create` | client/lib/keepers/funding.ts:166-170 | a due time of an hour or more is refused, and nothing else is |
| `Funding.FundingKeeper.RunTick` | client/lib/keepers/funding.ts:172-209 | gates in order; otherwise the updates sent are the first maxPerTick of the due order, and the markets' clocks move exactly where an update lands |
| `Funding.TimeIsConserved` | client/lib/keepers/funding.ts:172-207 | over every run of ticks, a market's charged time plus its lost time is all the time from its first update to its last; the reported shortfall, less what was reported for updates that never landed, does not exceed the loss and misses it by inclusion delays at most |
| `Funding.NothingLost` | client/lib/keepers/funding.ts:166-170 | over every run with n markets in which each picked update lands within d and ticks are at most g apart, a market that was not late at the first tick loses no second and has none reported, if dueAfter + ceil(n / maxPerTick) * g + d is at most 3601 |
| `Funding.CapacityIsTight` | client/lib/keepers/funding.ts:166-170 | for every number of markets and updates a tick: one second more and a run meeting every other condition loses a second |
| `FeeSchedule.ScanIsPattern` | client/lib/keepers/fee-tier.ts:57 | reading a part left to right accepts exactly the pattern and captures its two numerals in the only way possible |
| `FeeSchedule.ParseSchedule` | client/lib/keepers/fee-tier.ts:54-73 | the loops give the result, or the first error, of the specification `ScheduleFor` |
| `FeeSchedule.ParsesTo` | client/lib/keepers/fee-tier.ts:54-73 | a text parses to a schedule exactly when the schedule is valid and is what the parts list, in any order |
| `FeeSchedule.AcceptedIff` | client/lib/keepers/fee-tier.ts:53-73 | a text is accepted exactly when every part names a step with tier 1 to 16 and a positive threshold, no tier comes twice, and a higher tier needs more volume |
| `FeeSchedule.RenderRoundTrip` | client/lib/keepers/fee-tier.ts:53-73 | a schedule of whole dollars, written in any order and read back, is itself again |
| `FeeSchedule.AtMostSixteen` | client/lib/keepers/fee-tier.ts:60 | a valid schedule has at most sixteen steps |
| `FeeSchedule.TargetTier` | client/lib/keepers/fee-tier.ts:76-80 | the loop returns the target of the specification `TargetOf` |
| `FeeSchedule.TargetIsHighest` | client/lib/keepers/fee-tier.ts:75-80 | a step is met exactly when its tier is at most the target, which is a listed tier, or 0 exactly below the first threshold |
| `FeeSchedule.TargetMonotone` | client/lib/keepers/fee-tier.ts:76-80 | more volume never earns a lower tier |
| `FeeTiers.DiffTiers` | client/lib/keepers/fee-tier.ts:94-112 | returns the first `max` of the sorted queue of wrong accounts and how many it left |
| `FeeTiers.QueueFacts` | client/lib/keepers/fee-tier.ts:100-110 | the queue holds each account off its target once and no other, largest move first |
| `FeeTiers.TicksServeQueue` | client/lib/keepers/fee-tier.ts:94-112 | tick t serves the t-th run of `max` from the queue the first tick saw |
| `FeeTiers.Converges` | client/lib/keepers/fee-tier.ts:94-112 | with room for one change a tick, every account holds its target after t ticks exactly when t is at least ceil(N / max) |
| `FeeTiers.NoRoomNeverConverges` | client/lib/keepers/fee-tier.ts:111 | with a limit of zero or less, accounts off target at the start leave some off target for ever |
| `FeeTiers.NeverTwice` | client/lib/keepers/fee-tier.ts:24-25 | whatever sends fail, an account whose change landed is never listed again |
| `FeeTiers.CandidatesSufficeIff` | client/lib/keepers/fee-tier.ts:285-293 | diffing the candidates equals diffing every account exactly when the indexer lists each tiered account that no longer qualifies |
| `FeeTierKeeper.FeeTierBot.Create` | client/lib/keepers/fee-tier.ts:251-255 | an empty schedule is refused, and nothing else is |
| `FeeTierKeeper.FeeTierBot.RunTick` | client/lib/keepers/fee-tier.ts:267-317 | gates in order; otherwise the changes are the head of the queue over the readable candidates; a dry run sends nothing; sends go in order, stop after one that did not settle, and only confirmed ones move tiers |
| `FeeTierKeeper.TickSeesEveryone` | client/lib/keepers/fee-tier.ts:285-293 | what a tick diffs is the diff over every account exactly when the indexer lists each tiered, unqualified one |
| `FeeTierKeeper.RowsAfter` | client/lib/keepers/fee-tier.ts:308-316 | a tick's effect on any list of accounts is the step the convergence results are about |
| `Der.DerReader.Read` | client/lib/chain/signer-kms.ts:76-93 | reads one tag-length-value or gives the error of the specification `ReadTlv`, with the cursor at the bytes after it |
| `Der.ParseDerSignature` | client/lib/chain/signer-kms.ts:104-114 | the reader calls give the result, or the first error, of the specification `Parse` |
| `Der.ParsesExactlyCanonical` | client/lib/chain/signer-kms.ts:103-114 | bytes parse to (r, s) exactly when both lie strictly between 0 and n and the bytes are the canonical DER encoding of the pair |
| `Der.EncodeParse` | client/lib/chain/signer-kms.ts:104-114 | parsing undoes encoding |
| `Der.ParseInjective` | client/lib/chain/signer-kms.ts:104-114 | no two byte strings parse to one signature |
| `Der.IntegerIsCanonical` | client/lib/chain/signer-kms.ts:96-101 | of the forms of a positive integer only the canonical one is accepted |
| `Der.SignatureLength` | client/lib/chain/signer-kms.ts:104-114 | an accepted signature is 8 to 72 octets long |
| `Der.LengthShortestIff` | client/lib/chain/signer-kms.ts:81-87 | an accepted length is in shortest form exactly when it is not two octets starting with zero |
| `Der.LongLengthRead` | client/lib/chain/signer-kms.ts:81-87 | the octets 82 00 85 are read as the length 133, whose shortest form is 81 85 |
| `Der.ShortestAccepted` | client/lib/chain/signer-kms.ts:81-87 | every shortest form of a length below 65536 is accepted as that length |
| `Der.LowSIsCanonical` | client/lib/chain/signer-kms.ts:205-210 | the normalised s lies in [1, n / 2], normalising is idempotent, and two signatures with one r normalise alike exactly when their s values are equal or add up to n |
| `Format.RescaleMeaning` | client/lib/format.ts:67-76 | the result is the one value within its mode's bounds of the source at the new scale, with the source's sign |
| `Format.RescaleOdd` | client/lib/format.ts:67-76 | rescaling a negated value negates the result, in every mode |
| `Format.RescaleMonotone` | client/lib/format.ts:67-76 | rescaling keeps order, in every mode and across zero |
| `Format.ParseMeaning` | client/lib/format.ts:100-106 | an input is read as x exactly when its stripped text writes a number of at most `decimals` places whose value at that scale is x |
| `Format.ParseOfFormat` | client/lib/format.ts:79-106 | a formatted amount, in any mode, grouped or not, parses at k places to the rounded value at that scale, and is refused exactly when it carries a sign or has more than k places |
| `Format.ExactRoundTrip` | client/lib/format.ts:79-106 | at full precision formatting and parsing a non-negative amount is the identity |
| `Format.StripGrouped` | client/lib/format.ts:59-61 | grouping and then dropping the commas gives the digits back, whatever follows them |
| `Format.GroupShape` | client/lib/format.ts:59-61 | grouping writes the same digits with every thousands separator there is room for and no other comma |
| `Format.SignedFormat` | client/lib/format.ts:79-90 | a minus stands exactly on what rounds below zero, a plus only when asked for, and neither on what rounds to zero; the rest is the magnitude's text |
| `Format.SizeInputNeverExceeds` | client/lib/format.ts:131-134 | what a size box shows reads back as at most a non-negative source, short of it by less than one display unit; with at most 18 display decimals it parses exactly when the size is above minus one unit, and then exceeds its source exactly for negative sizes |
| `Format.CommasAreThousandsIff` | client/lib/format.ts:95-102 | the commas of an accepted text separate thousands exactly when none comes first and none follows the point |
| `Format.LeadingCommaAccepted` | client/lib/format.ts:101-102 | a comma before three digits is accepted and separates no thousands |
| `Format.FractionCommaAccepted` | client/lib/format.ts:101-102 | a comma before the last three digits of a fraction is accepted and read through |
| `Format.FormatCompactUsd` | client/lib/format.ts:159-166 | the loop picks the first unit that rounds to at least 1.00 |
| `Format.CompactReads` | client/lib/format.ts:154-166 | a unit is chosen exactly from 0.995 of it on; the mantissa is at least 1.00 and, but for billions, at most 995.00 |

## Left out

- RPC transports, ABI encoding, HTTP, WebSocket, Postgres and the driver: the node and the log provider are classes callers know by contract only, the database is a table of rows with atomic transactions, and a failed read, write or call ends the operation.
- `PgTxJobStore`: the same contract as the table modelled. The table admits one row per hash as the deployed schema does (`kryon-protocol/prisma/schema.prisma`); the in-memory store does not check that.
- The text matching that classifies node errors: the answer is one of five values.
- Labels, services, error texts, `updatedAt`, logs, metrics and gauges. Addresses are kept case-folded.
- `Job.submit`, `TxSender.calls`, `NodeState.sent` and `DbState.ops` are history: they record which call wrote a row, what was ever sent and what wrote the tables.
- The lock that serialises submits of one sender, two processes on one key, and two waiters on one nonce.
- TxSending.TxSender.Submit: the class methods run to completion, so their row counts, and `SubmitOnce`, speak of calls that no `wait` of the same sender runs beside. The source lets the two interleave at every await; the theorems of `TxProtocol` hold of every interleaving.
- `TxSender.send` and `openJobs`: compositions of members modelled here.
- Clocks, ids and gas estimates are parameters or read from a class that promises only that time does not run backwards.
- TxSending.Node.SendRaw: promises that "nonce too low" means another transaction has the nonce, which the sender assumes; `TxProtocol.RetrySafeIff` shows that the assumption is needed.
- Indexing.Indexer.CatchUp: requires a maximum window of at least one, because with less it never ends; `Indexing.Indexer.Step` and `Indexing.ProgressIff` say what such a window does.
- Handlers of vault, fee, funding, oracle, liquidation and governance events, market parameters and rates, and fee columns of fills: each writes columns no other handler reads. They are the event body `Unhandled`.
- Projections.RebuildEqualsLive: markets and orders are taken to be recorded before their events, as intake and the chain have it; an order that comes later has a wrong filled size already (`FillFacts.LateOrderUnfilled`). The link from a fill to the transaction that carries it is left out.
- Projections.Contribution: counts a fill once that names one order on both sides, which `refreshOrders` would count twice; the gateway refuses a self-trade.
- The count of applied events that `rebuild` returns.
- The reserve for open orders whose index is unreadable enters the plan; the daily-cap theorem is about orders with a readable index, because without one there is no band to judge fills by.
- Signing and the ERC-1271 envelope of unwind orders: an order stands for its hash, and intake's other checks are one verdict. The book holds the unwinder's own orders; that an ended order stays ended is assumed of the exchange.
- Funding.NothingLost: the ticks of a run are those that ran; a paused engine, a missing role or an update still in flight lengthens the gap between them.
- Funding.FundingKeeper.RunTick: the three ways an update can fail to confirm are one, and the action rows it writes are left out.
- FeeTierKeeper.FeeTierBot.RunTick: a change that did not settle in its tick is taken not to have moved the tier in that tick; the action rows are left out.
- FeeTiers.Converges: volumes are fixed and every send confirms; `FeeTiers.NeverTwice` is about any outcomes.
- Key derivation, ECDSA recovery, the SubjectPublicKeyInfo parser and the retry loop around KMS calls.
- The other formatters (`formatRateBps`, `formatChange`, `shortenAddress`, charts): compositions of members modelled here, or easy.
- Liquidation selection, settlement chunking, rate limits, intake checks, configuration and the contracts themselves.

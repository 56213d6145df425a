# Mining game backend: a verified model

The repository is a browser mining game: users own machines, a server-side engine closes a block every ten
minutes and splits a fixed reward by accumulated hash rate, and around it run a grid of machines, rooms with
racks, limited-stock sales, withdrawals and deposits, a rate limiter, seconds earned by heartbeats, a log
dashboard and a daily check-in. This project models the stateful core of that in Dafny and proves what it keeps.

`dafny verify dfyconfig.toml` checks everything.

## How it is built

Where the source updates objects, tables or closure variables step by step, the model has a `class` with those
fields and methods with loops. Each such method is tied by its `ensures` to a function on values, and the laws are
proved about those functions, for single calls, and by induction for all runs. Where work is interrupted by an
`await` or a database transaction, the operation is cut into steps at that point and a run is any interleaving of
the steps. Money and hash rates are `real`. Clocks, fresh identifiers, chain answers and database reads are parameters.

| file | what it is about |
|---|---|
| Common, JsMap | optional values; an insertion-ordered map, and sums over its values |
| MiningState, MiningEngine, MiningLaws, MiningRuns | the engine: values, the objects, one block, all runs |
| BalanceCache, MinerProfile | the engine's write-back copy of a balance against the database, split at every await |
| SlotGrid, RackRooms | the two slot allocators: the 80-slot grid with eviction, and rooms with racks |
| OfferSale | limited stock under optimistic concurrency |
| WithdrawalLedger, Wallet | money out: the steps of requests and status changes and what they keep; the methods |
| DepositBooks, DepositSafety, DepositRaces, DepositQueue, DepositPass, DepositVerifier | money in: the steps of submissions and verifications, what they keep and how they race; the queue of pending rows; one pass as interleaved steps; the controllers |
| RateLimiter | the fixed-window limiter against one that never forgets |
| TimeCredit | seconds earned and spent, rolling daily limits |
| LogFormat, LogSummary | printing, parsing and aggregating log lines |
| CheckinStreak | the streak loop and the day arithmetic under it |

## What does not hold without a condition

Some promises hold only under a condition. For these the exact condition is proved, or a run that breaks it is given:

- The balance cache keeps agreeing with the database exactly when every step is safe (`StepKeepsIff`, `RunAgreesIff`),
  and every step of a well-timed run is (`CacheAgreement`). Well-timed is about what is under way and not about
  amounts: persists overlap neither each other nor a reload, nothing is bought from memory during a persist, a reload
  reads when no change is half done, no change reaches memory during a reload, and no commit fails. Nothing in the code
  enforces this. A purchase during a persist is never charged (`SpendInWindowDrifts`), overlapping persists write twice
  (`OverlappingPersistsDrift`), and a reload that overlaps a withdrawal gives the money back in memory, whether the
  mirror follows the commit (`StaleMergeDrifts`) or, as in `createWithdrawal`, is made inside the transaction
  (`EarlyMirrorDrifts`). A reload also forgives pending spending (`ReloadForgivesPending`).
- After a failed reward persistence the rollback leaves the mark of what is persisted raised, so the next persist takes
  the reward out of the database (`RollbackLeavesMark`, `RollbackTakesReward`); and it loses what was mined in between
  (`RollBackConservesIff`).
- A block's record by user adds up exactly when no two earning miners share a user (`UserRewardsIff`). User id 0 is
  falsy, never found again, and would get a second miner; `RunHistory` therefore asks for real ids.
- `moveMachine` fails as a whole when it would evict a machine without a catalogue entry, because the inventory row
  requires a name (server/prisma/schema.prisma:208).
- `getSlotsSummary` reports more free racks than `listRooms`, by exactly the blocked ones (`FreeRacksCount`).
- The sale never oversells, but a purchase checks the balance and counts the user's claims before its reservation only.
  A user can be overdrawn exactly when its balance does not cover all its open purchases, and can exceed the limit of
  an offer exactly when its rows and open purchases do (`OverdrawIff`, `ExceedIff`, `BeginIff`); over whole runs all
  stays covered and within the limit exactly when each purchase was so when it began (`RunStaysCoveredIff`,
  `RunStaysWithinIff`). A user with 10.0 who buys twice at 6.0 ends at -2.0 (`OverdrawingRun`), and one who claims
  twice an offer limited to one gets two (`LimitExceedingRun`).
- `createWithdrawal` and `updateTransactionStatus` read, await and write, and a transaction at the default isolation
  level keeps nothing it has read from changing. A reserve keeps users to one pending row, and balances from going
  negative, exactly when there still is no pending row and the balance still covers it at the write
  (`StepOnePendingIff`, `StepSolventIff`, and over whole runs `RunOnePendingIff`, `RunSolventIff`). Two requests of
  10.0 that race on 15.0 end at -5.0 with two pending rows (`RacingRequestsOverdraw`).
- A status change conserves exactly when it refunds, by the status it read, if and only if it fails a row that has not
  failed by now, and does not revive a failed one (`StepConservesIff`). Two failures of one row that race refund it
  twice (`RacingFailuresRefundTwice`); one after the other, so do a failure, an approval and a failure
  (`ApprovalRevives`). Refunds of a row never exceed one, plus its approvals after it was settled, plus the refunds by
  an outdated reading (`RefundedOnce`); the last are none when changes of one row do not overlap (`FromStart`).
- The grid, the racks and the time credit are kept when one user's requests are served one at a time, which nothing in
  the code enforces. What the writes of an installation or a claim need at their moment is stated exactly
  (`SlotGrid.InstallWriteIff`, `RackRooms.InstallWriteIff`, `GpuWriteIff`, `VideoWriteIff`), with what happens
  otherwise: two machines on one slot, a rack both occupied and blocked, a credit of -300 (`OverlappingInstallsCollide`
  in both modules, `OverlappingClaimsOverdraw`).
- `submitDeposit` and `createDepositRequest` read and insert in separate steps, and no constraint makes a hash unique
  (server/prisma/schema.prisma:247). Claims stay distinct exactly when each row is created for a hash unclaimed at that
  moment (`StepDistinctIff`, `RunDistinctIff`). Two submissions of one hash that race are both recorded, and a single
  pass credits both (`RacingSubmissionsCreditTwice`).
- Two verifications of one deposit that overlap credit it twice (`OverlapCreditsTwice`), and they may overlap, since
  every submission starts a pass beside the timer's (server/controllers/walletController.js:226). The books stay
  balanced exactly when no step touches a row completed meanwhile (`RunBalancedIff`). Deposits are safe in every run
  in which neither requests of one hash nor verifications of one row overlap (`DepositsAreSafe`).
- The bound of 21 passes holds for the fifty oldest deposits, since a pass lists fifty rows; a deposit with k older
  ones waits at most 21 * (k / 50 + 1) passes (`EveryDepositSettles`). Passes are counted one after the other: a slow
  verification that overlaps others writes back an outdated count of attempts (`SlowVerificationLosesAttempts`).
- The limiter's sweep is invisible exactly when stale keys are kept a full window (`SweepInvisibleIff`).
- A printed log line is read back exactly when the category fits its brackets and the message is trimmed, has no
  separator, and, when details follow, does not end in what would complete one (`RoundTripIff`).

The code sets the block reward to 0.30 (server/src/miningEngine.js:10) where tests/miningEngineRewards.test.js
expects 0.1; the model follows the code.

## Model

| member | source | states |
|---|---|---|
| MiningEngine.MiningEngine.constructor | server/src/miningEngine.js:7-29 | a new engine is consistent and equal to the initial state value |
| MiningEngine.MiningEngine.FindMinerByUserId | server/src/miningEngine.js:76-79 | the miner the index holds for a truthy user id, null exactly when there is none |
| MiningEngine.MiningEngine.ReloadMinerProfile | server/src/miningEngine.js:46-69 | only the miner found changes, and only by taking over the profile, the larger balance winning and counting as persisted |
| MiningEngine.MiningEngine.CreateOrGetMiner | server/src/miningEngine.js:81-124 | a known user's miner takes over the profile, an unknown one gets a new object linked in all three maps; object links stay intact |
| MiningEngine.MiningEngine.SetActive | server/src/miningEngine.js:132-137 | switches one miner, reports whether it exists, changes nothing else |
| MiningEngine.MiningEngine.ApplyBoost | server/src/miningEngine.js:146-159 | succeeds exactly when the miner exists and can pay; otherwise nothing changes |
| MiningEngine.MiningEngine.UpgradeRig | server/src/miningEngine.js:161-176 | succeeds exactly when the miner exists and can pay the price of its next rig; otherwise nothing changes |
| MiningEngine.MiningEngine.ApplyUserBalanceDelta | server/src/runtime/miningRuntime.js:11-19 | balance and persisted mark of that user's miner move together, nothing else does |
| MiningEngine.Miner.CurrentHashRate | server/src/miningEngine.js:178-181 | zero when inactive, base times boost otherwise |
| MiningEngine.MiningEngine.VisitMiners | server/src/miningEngine.js:293-305 | the tick's loop over live objects ends with every miner's expired boost ended and its rate added to its work, and returns the sum and the number of positive rates |
| MiningEngine.MiningEngine.TotalWork | server/src/miningEngine.js:185 | the reduce returns the total of the work map |
| MiningEngine.MiningEngine.PayMiners | server/src/miningEngine.js:207-241 | the payment loop ends with every miner paid its share, all work spent, and running total, record by user and callback lines covering exactly those payments |
| MiningEngine.MiningEngine.DistributeRewards | server/src/miningEngine.js:183-278 | the engine ends in the distributed state and the callback gets one line for each miner with work |
| MiningEngine.MiningEngine.CloseBlock | server/src/miningEngine.js:267-286 | the block is recorded in front of at most eleven older ones, and the next one opened with its due time |
| MiningEngine.MiningEngine.Tick | server/src/miningEngine.js:288-313 | one tick is counting, then distribution exactly when the block is due, then progress |
| MiningEngine.MiningEngine.RollBack | server/src/miningEngine.js:251-264 | the handler undoes the callback's lines one after the other on whatever the engine has become |
| MiningState.WorkedAll | server/src/miningEngine.js:288-306 | a finished counting loop is the worked state, and both maps keep the same keys |
| MiningState.PaidOneMore | server/src/miningEngine.js:207-241 | one pass of the payment loop extends balances, work, total, record and lines by exactly one miner, paid or skipped |
| MiningState.PaidAll | server/src/miningEngine.js:183-278 | a finished payment loop is the distributed state, with its callback lines |
| MiningLaws.PayoutIff | server/src/miningEngine.js:183-242 | a block with work pays exactly the block reward if and only if no miner's work is negative |
| MiningLaws.SharesAddUp | server/src/miningEngine.js:216-217 | the shares add up to the reward times positive work over all work |
| MiningLaws.UserRewardsShape | server/src/miningEngine.js:224 | the record holds a positive reward for the users of earning miners and nobody else |
| MiningLaws.UserRewardsIff | server/src/miningEngine.js:207-224 | the record never exceeds the payout and equals it if and only if no two earning miners share a user |
| MiningLaws.RecordIsEarned | server/src/miningEngine.js:224 | when no two earning miners share a user, the record holds for each of their users the reward times its part of the work |
| MiningLaws.PayloadCredits | server/src/miningEngine.js:226-250 | the callback gets, for each miner with work and no other, one line with its user, work, gain and new totals, and for every user the lines add up to what the balances of its miners gain |
| MiningLaws.ProfileTakenOver | server/src/miningEngine.js:81-102 | at least one rig, the profile's rate, the larger balance, persisted only if it is the profile's; all else stays |
| MiningLaws.NewMinerStarts | server/src/miningEngine.js:104-118 | active, no boost, nothing unpersisted, at least one rig, and the rest as in the profile or nothing |
| MiningLaws.JoinFinds | server/src/miningEngine.js:81-124 | after joining a user is found under the miner it had or the new one; other miners, their work and where other users are found stay |
| MiningLaws.OnlyThatMiner | server/src/miningEngine.js:132-176 | switching, boosting and upgrading touch one miner and nothing else of the engine |
| MiningLaws.OnlyThatUser | server/src/runtime/miningRuntime.js:11-19 | mirroring and reloading touch the miner the index has for a truthy id, or nothing |
| MiningLaws.SwitchedOffRests | server/src/miningEngine.js:178-181 | a miner that is off gains no work at a tick |
| MiningLaws.ProgressIs | server/src/miningEngine.js:311-312 | zero before the start, 100 after ten minutes, and in proportion in between |
| MiningLaws.UpgradesTradeEvenly | server/src/miningEngine.js:161-176 | over any number of upgrades balance plus cost of rigs owned is constant, each rig adds the same rate, no balance is overdrawn |
| MiningLaws.BoostLasts | server/src/miningEngine.js:146-159 | a paid boost multiplies the rate read by ticks for exactly thirty seconds |
| MiningLaws.RollBackPayload | server/src/miningEngine.js:251-264 | undoing the lines of the first n miners undoes exactly those, by induction over the payload |
| MiningLaws.RollbackLeavesMark | server/src/miningEngine.js:251-264 | with nothing in between, a rollback restores balances, lifetime totals and total minted but leaves each reward marked as persisted |
| MiningRuns.TickedKeeps | server/src/miningEngine.js:288-313 | a tick keeps the engine consistent, mints the reward exactly when it closes a block with work, and credits to lifetimes what it mints |
| MiningRuns.TickClosesIff | server/src/miningEngine.js:288-309 | a tick closes the block if and only if ten minutes have passed since its start, and then mints 0.30 if and only if some miner has worked |
| MiningRuns.ClosedBlockRecord | server/src/miningEngine.js:267-281 | number, time, miners with a rate and reward of the new record, with the older ones behind it, twelve at most |
| MiningRuns.RunConserves | server/src/miningEngine.js:81-313 | at every point of every run: maps in step, work never negative, total minted is the reward times paying blocks, lifetimes hold that plus what was brought along, and block count is bounded by elapsed time |
| MiningRuns.EmissionBound | server/src/miningEngine.js:280-313 | total minted never exceeds one reward for each full block duration since the start |
| MiningRuns.RollBackConservesIff | server/src/miningEngine.js:251-264 | in any state, undoing one line keeps lifetimes and total minted in balance if and only if the miner mined nothing since |
| MiningRuns.RecordAddsUp | server/src/miningEngine.js:207-273 | with one earning miner for each user a block's record adds up to the reward |
| MiningRuns.RunHistory | server/src/miningEngine.js:190-281 | over every run of named users the history is the last min(12, closed) blocks, newest first, numbered without gaps, each adding up to its reward |
| MiningRuns.WorkIsRatesSinceBlock | server/src/miningEngine.js:293-302 | the work counter is the sum of the hash rates read off the miner since the block was opened, over every run |
| MiningRuns.TotalIsAllRates | server/src/miningEngine.js:293-302 | the work a closing tick divides by is the sum, over all miners, of all rates read since the block was opened |
| MiningRuns.PaysByAccumulatedRate | server/src/miningEngine.js:207-222 | a paying tick raises balance, mark and lifetime of each miner by the reward times its part of all rates read off all miners since the block was opened |
| BalanceCache.GapMoves | server/models/minerProfileModel.js:88-104 | in any state, agreeing or not, each of fifteen steps moves the distance between database and cache by exactly its stated shift |
| BalanceCache.StepKeepsIff | server/src/runtime/miningRuntime.js:11-19 | a step of any interleaving keeps the agreement if and only if it is safe, which for a merge is that its reading, with the database-only credits since, is worth what is marked and not merged |
| BalanceCache.RunAgreesIff | server/models/minerProfileModel.js:88-104 | the cache agrees throughout a run if and only if every step was safe |
| BalanceCache.WellTimedIsSafe | server/models/minerProfileModel.js:93-103 | a well-timed step, known by what is under way and not by amounts, is safe and keeps the pending delta and every reading true |
| BalanceCache.ReloadWindow | server/src/miningEngine.js:46-60 | a reload that reads when nothing is half done merges safely whatever falls in its window, unless a change reaches memory, another persist or reload ends or a commit fails |
| BalanceCache.CreatedAgreesIff | server/src/miningEngine.js:104-123 | a miner created from a profile read before agrees, whatever the database did since, if and only if what is still to be mirrored adds up to nothing |
| BalanceCache.CacheAgreement | server/src/miningEngine.js:81-124 | every well-timed run from creation agrees at every point, and whenever no change is half done the database balance is the persisted mark plus database-only credits since the last merge |
| BalanceCache.PersistWindow | server/models/minerProfileModel.js:93-103 | a persist with no purchase from memory, no end of another persist or reload and no failed commit in its window ends safely and in agreement |
| BalanceCache.PersistWholeWrites | server/models/minerProfileModel.js:88-104 | uninterrupted, a persist moves exactly what was pending into the database and leaves nothing pending, or was within the dead band |
| BalanceCache.WholeOperationAgrees | server/src/miningEngine.js:146-176 | each whole operation keeps the agreement and moves what the database will end up with by exactly its amount, a reload excepted by a stated amount |
| BalanceCache.WholeRunsAgree | server/src/miningEngine.js:214-222 | every run of whole operations from creation ends in agreement |
| BalanceCache.RollbackTakesReward | server/src/miningEngine.js:251-264 | after a failed reward the next persist writes the reward too little |
| BalanceCache.ReloadForgivesPending | server/src/miningEngine.js:46-69 | a reload takes effect exactly when merged credits outweigh what is pending, and then hands back pending spending |
| BalanceCache.StaleMergeDrifts | server/src/miningEngine.js:46-69 | a reload around a committed and mirrored withdrawal leaves memory ahead of the database by it |
| BalanceCache.EarlyMirrorDrifts | server/models/walletModel.js:170-188 | so does a reload between a mirror made inside its transaction and the commit |
| BalanceCache.SpendInWindowDrifts | server/models/minerProfileModel.js:93-103 | a purchase while a persist is under way ends with nothing pending and the database ahead by its price |
| BalanceCache.OverlappingPersistsDrift | server/models/minerProfileModel.js:93-103 | two overlapping persists write the pending delta twice |
| MinerProfile.PersistMinerProfile | server/models/minerProfileModel.js:88-104 | on a miner object and the users' table it is the cache's whole persist, touches no other row, and throws exactly when the row is missing and something is to be written |
| MinerProfile.PurchasesAreSpending | server/src/miningEngine.js:146-176 | boost and upgrade are the cache's spending step of their price, or nothing |
| MinerProfile.MirrorsAreWhole | server/src/runtime/miningRuntime.js:11-19 | mirrored deltas and rewards are the cache's paired operations |
| MinerProfile.MergesAreReloads | server/src/miningEngine.js:93-100 | profile merges are the cache's reload, and a new miner its initial account |
| SlotGrid.ObstaclesAreInTheWay | server/controllers/inventoryController.js:57-107 | in a good layout the machines evicted are exactly those covering a target cell, each once |
| SlotGrid.EvictEachKeeps | server/controllers/inventoryController.js:57-107 | evicting any of the machines keeps the layout and everything owned, and leaves exactly the others |
| SlotGrid.ClearedFor | server/controllers/inventoryController.js:57-107 | clearing a target leaves exactly the machines not in its way, keeps layout and ownership, and only adds to the inventory |
| SlotGrid.InstalledKeeps | server/controllers/inventoryController.js:37-123 | installing keeps the layout and the multiset of everything owned; the grid is the new machine and the old ones not in the way; exactly that item is gone |
| SlotGrid.InstallWriteIff | server/controllers/inventoryController.js:57-122 | with the machines found before the transaction still there, its writes keep everything owned, and the layout if and only if no other machine has come in the way, one before an odd slot excepted |
| SlotGrid.OverlappingInstallsCollide | server/controllers/inventoryController.js:57-122 | two installations on one free slot that overlap place both machines there |
| SlotGrid.RelocateFacts | server/controllers/machinesController.js:149-153 | putting one machine on a cleared target keeps the layout and changes only that machine |
| SlotGrid.MovedKeeps | server/controllers/machinesController.js:74-154 | moving keeps the layout and everything owned; exactly the others not in the way stay |
| SlotGrid.UserGrid.EvictAll | server/controllers/machinesController.js:102-120 | the loop evicts the listed machines in order, or stops exactly when one of them has no catalogue entry |
| SlotGrid.UserGrid.MakeRoom | server/controllers/machinesController.js:89-147 | with the machine before an odd slot it evicts exactly the obstacles, or stops exactly when one has no catalogue entry |
| SlotGrid.UserGrid.Install | server/controllers/inventoryController.js:37-123 | the exact response in every case; the installed state on success, no change otherwise; layout and ownership kept |
| SlotGrid.UserGrid.Move | server/controllers/machinesController.js:74-154 | the exact response in every case, server error included; the moved state on success, tables restored otherwise |
| SlotGrid.UserGrid.Remove | server/controllers/machinesController.js:39-60 | one machine goes to the inventory, or nothing changes when it does not exist |
| SlotGrid.UserGrid.constructor | server/controllers/inventoryController.js:37-123 | an empty grid has the layout and nothing owned |
| SlotGrid.UserGrid.Receive | server/controllers/shopController.js:90-102 | an arriving machine becomes an item; layout kept, owned plus exactly that one |
| SlotGrid.UserGrid.Serve | server/controllers/inventoryController.js:37-123 | any sequence of requests keeps the layout; owned is what was owned plus what arrived |
| SlotGrid.ServeFromStart | server/controllers/inventoryController.js:37-123 | every grid reachable from an empty one has the layout, and its user owns exactly what has arrived |
| SlotGrid.AvailabilityIff | server/models/machineModel.js:50-75 | the check allows a place of any number of cells if and only if it is aligned and no cell of it is covered |
| SlotGrid.ClientViewIff | client/src/utils/machine.js:27-87 | the client shows the one machine covering a slot and which of its cells the slot is, and nothing exactly when none does |
| SlotGrid.RackNumbering | client/src/utils/machine.js:5-7 | client and server numberings are inverse to each other, and no machine of a layout crosses a rack boundary |
| RackRooms.WithRoomKeeps | server/controllers/roomsController.js:136-162 | a new room keeps rooms 1..n, racks in every room, blocking and ownership |
| RackRooms.WithMinerKeeps | server/controllers/roomsController.js:192-282 | an accepted installation keeps the invariant, in particular that a rack is blocked by a machine exactly when the machine reaches it and that none is both occupied and blocked |
| RackRooms.WithoutMinerKeeps | server/controllers/roomsController.js:305-358 | taking a machine out keeps the same invariant and everything owned |
| RackRooms.InstallWriteIff | server/controllers/roomsController.js:251-282 | on any good state the writes of an installation keep the invariant if and only if the place still accepts the machine |
| RackRooms.OverlappingInstallsCollide | server/controllers/roomsController.js:218-282 | a two-cell and a one-cell installation that overlap leave a rack both occupied and blocked |
| RackRooms.InstallUninstall | server/controllers/roomsController.js:192-358 | installing and taking out again restores racks, machines, rooms and balance, and gives back an item of the same kind |
| RackRooms.CoveredPlacesTaken | server/controllers/roomsController.js:232-279 | a machine of one or two cells takes every place it covers |
| RackRooms.CoveredPlacesTakenIff | server/controllers/roomsController.js:232-279 | for any size this code would accept (no writer produces more than two cells): all covered places are taken if and only if those strictly between the ends were taken before |
| RackRooms.FreeRacksCount | server/controllers/roomsController.js:81-92 | the free racks listed are exactly the places accepting any one-cell machine, and the summary exceeds them by the blocked racks |
| RackRooms.SlotIndicesDiffer | server/controllers/roomsController.js:19-21 | slot indices are injective on the racks of owned rooms and all at least 1000 |
| RackRooms.SlotIndicesFollow | server/controllers/roomsController.js:19-21 | they number the racks one after the other from 1000 on, room by room |
| RackRooms.RoomStore.BuyRoom | server/controllers/roomsController.js:100-162 | the exact answer in every case; on success room n is recorded at its configured price, and exactly that price is taken from a balance that covers it; invariant kept |
| RackRooms.RoomStore.InstallMiner | server/controllers/roomsController.js:192-282 | the exact answer in every case; the installed state on success, no change otherwise; invariant and ownership kept |
| RackRooms.RoomStore.UninstallMiner | server/controllers/roomsController.js:305-358 | the exact answer in every case; the emptied state on success, no change otherwise; invariant and ownership kept |
| RackRooms.RoomStore.constructor | server/controllers/roomsController.js:100-112 | a user without rooms satisfies the invariant |
| RackRooms.RoomStore.Serve | server/controllers/roomsController.js:100-358 | any sequence of requests keeps the invariant; owned is what was owned plus what arrived; balance plus the configured prices of the rooms owned is constant |
| RackRooms.ServeFromStart | server/controllers/roomsController.js:100-358 | every state reachable from a user without rooms satisfies the invariant, the user owns exactly what has arrived, and what is missing from the balance is the configured prices of rooms 1 to n |
| OfferSale.IncrementSoldCountOptimistic | server/services/offerEventPurchaseService.js:15-40 | the bounded loop, whatever its reads return: it reserves only on a true read with room, reports out of stock only on a read without room and busy only after ten lost races |
| OfferSale.StepsAreAttempts | server/services/offerEventPurchaseService.js:15-40 | a read and an update of one transaction, with anything in between, are one attempt of that loop |
| OfferSale.StepKeepsSound | server/services/offerEventPurchaseService.js:57-179 | every step of every transaction keeps sold = before + committed rows + reservations, within the stock, and the books |
| OfferSale.NoOversell | server/services/offerEventPurchaseService.js:57-179 | after any interleaving of any number of purchases: sold count within stock and equal to rows plus reservations, one item for each row, balances short by exactly what was paid |
| OfferSale.SoloReserves | server/services/offerEventPurchaseService.js:15-40 | a purchase left alone reserves at once exactly when enough is left |
| OfferSale.AcceptedIff | server/services/offerEventHelpers.js:32-54 | the checks accept a purchase that finds enough left if and only if the offer is on sale, in stock and affordable, over the fields of offer and event |
| OfferSale.AloneIff | server/services/offerEventPurchaseService.js:57-179 | a purchase left alone goes through if and only if the event is active and in its window, the offer active, the quantity in stock, the last unit included, and it is free within its limit or at a positive price the balance covers; the rows, items, count and balance it leaves |
| OfferSale.StepAddsUp | server/services/offerEventPurchaseService.js:57-179 | a user's rows and open purchases together grow only by what it begins, and it is charged the unit price for each row |
| OfferSale.CanComplete | server/services/offerEventPurchaseService.js:15-40 | left alone, an open purchase with a read and stock left commits, and the sale is then exactly the one with it committed |
| OfferSale.OverdrawIff | server/services/offerEventPurchaseService.js:121-142 | some continuation in which the user begins nothing takes its balance below zero if and only if the balance does not cover all its open purchases |
| OfferSale.ExceedIff | server/services/offerEventPurchaseService.js:89-112 | some such continuation exceeds the claim limit if and only if rows and open purchases together do |
| OfferSale.BeginIff | server/services/offerEventPurchaseService.js:85-142 | the same two conditions for a purchase about to begin, known before it does |
| OfferSale.OverdrawingRun | server/services/offerEventPurchaseService.js:121-142 | two purchases at 6.0 by a user with 10.0 end at -2.0 |
| OfferSale.LimitExceedingRun | server/services/offerEventPurchaseService.js:89-112 | two claims of an offer limited to one give two |
| OfferSale.StepStaysCoveredIff | server/services/offerEventPurchaseService.js:121-142 | a step keeps every balance covering its open purchases if and only if it does not begin an uncovered one |
| OfferSale.RunStaysCoveredIff | server/services/offerEventPurchaseService.js:57-179 | over every run all stays covered if and only if each purchase was covered when it began |
| OfferSale.RunStaysSolvent | server/services/offerEventPurchaseService.js:57-179 | and then no balance ever goes below zero |
| OfferSale.OneAtATimeIsCovered | server/services/offerEventPurchaseService.js:124-135 | a purchase begun with none open and the true balance read is covered |
| OfferSale.OpenedIsCovered | server/services/offerEventPurchaseService.js:57-179 | a sale opens covered, priced and within the limit |
| OfferSale.StepStaysWithinIff | server/services/offerEventPurchaseService.js:89-112 | a step keeps everyone, open purchases included, within the limit if and only if it does not begin a purchase beyond it |
| OfferSale.RunStaysWithinIff | server/services/offerEventPurchaseService.js:89-112 | over every run everyone stays within the limit if and only if each purchase was when it began |
| OfferSale.OneClaimAtATimeIsWithin | server/services/offerEventPurchaseService.js:89-112 | a claim begun with none open and the true count read is within the limit |
| OfferSale.NothingOutsideWindow | server/services/offerEventHelpers.js:32-39 | a run none of whose purchases begins inside the event's window sells, reserves and charges nothing |
| Wallet.WalletModel.constructor | server/models/walletModel.js:160-189 | the ledger before the first transaction |
| Wallet.WalletModel.CheckRequest | server/controllers/walletController.js:92-125 | Ok if and only if the amount is a number of at least ten, the address good, the user known and without a pending withdrawal, and the balance covers it |
| Wallet.WalletModel.WriteRequest | server/models/walletModel.js:170-186 | the writes: a pending reserved row and the amount off balance and mirror, whatever has become of what was read |
| Wallet.WalletModel.RequestWithdrawal | server/controllers/walletController.js:92-125 | undisturbed, Ok under the same condition, with exactly the amount off the balance and one pending row of it; any other answer changes nothing |
| Wallet.RequestIsSteps | server/models/walletModel.js:160-189 | an undisturbed request is the two reads and the writes in a row, refused by the same reads |
| Wallet.RepliesMean | server/controllers/walletController.js:92-125 | each of the seven answers if and only if its condition is the first to fail, or none does |
| Wallet.OkIsARun | server/models/walletModel.js:160-189 | every request answered Ok is an enabled run of the ledger's steps, with the balance strictly lower and not negative |
| Wallet.SingleSteps | server/controllers/adminController.js:286-297 | the step of an approval sets that status, and that of a deposit adds its row and credit |
| Wallet.WalletModel.Approve | server/controllers/adminController.js:286-297 | sets the status whatever it was, and nothing else |
| Wallet.WalletModel.WriteChange | server/models/walletModel.js:205-229 | the writes: the status is set, and a reserved withdrawal that fails is refunded exactly if the status read before was not terminal |
| Wallet.WalletModel.UpdateTransactionStatus | server/models/walletModel.js:199-232 | undisturbed, the read and the writes in a row; nothing for a row that does not exist |
| Wallet.ChangeIsSteps | server/models/walletModel.js:199-232 | an undisturbed change is the two steps in a row |
| Wallet.WalletModel.FailAllPending | server/models/walletModel.js:242-251 | fails the pending withdrawals listed before, one after the other, and returns their number |
| Wallet.FailAllConserves | server/models/walletModel.js:242-251 | afterwards none is pending and everyone has the same wealth |
| WithdrawalLedger.StepConservesIff | server/models/walletModel.js:199-232 | a step of any interleaving keeps everyone's balance plus outstanding withdrawals, deposits aside, if and only if it is consistent, a condition on the status read and the status now |
| WithdrawalLedger.RunConservesIff | server/models/walletModel.js:160-232 | a run conserves at every point if and only if every step of it is consistent |
| WithdrawalLedger.RunConserves | server/models/walletModel.js:160-232 | and then balance plus outstanding withdrawals is what it was plus what was deposited |
| WithdrawalLedger.StepOnePendingIff | server/models/walletModel.js:162-184 | a step keeps users to one pending row if and only if it does not reserve beside one pending at that moment |
| WithdrawalLedger.StepSolventIff | server/models/walletModel.js:167-173 | a step keeps balances from going negative if and only if it does not reserve more than there is at that moment |
| WithdrawalLedger.RunOnePendingIff | server/models/walletModel.js:160-189 | over every run one pending row at every point if and only if no reserve found another at its write |
| WithdrawalLedger.RunSolventIff | server/models/walletModel.js:160-189 | over every run no negative balance at any point if and only if every reserve was covered at its write |
| WithdrawalLedger.MirrorKept | server/models/walletModel.js:186-226 | over every run whatever the mirror moves with the balance |
| WithdrawalLedger.NoOverlapHolds | server/models/walletModel.js:160-232 | when neither requests of one user nor changes of one row overlap, what was read still holds at every write |
| WithdrawalLedger.FromStart | server/models/walletModel.js:160-232 | over every run without those overlaps, from balances that are not negative: never a debt or a second pending row, the mirror in step, refunds of a row at most one plus its approvals after settling, and conservation when all steps were consistent |
| WithdrawalLedger.RefundedOnce | server/models/walletModel.js:216-229 | over every interleaving refunds of a row never exceed one plus its approvals after settling plus refunds by an outdated reading |
| WithdrawalLedger.NoApprovalsNoReapprovals | server/models/walletModel.js:199-232 | when changes of one row do not overlap, any sequence of completions and failures refunds it at most once |
| WithdrawalLedger.RacingRequestsOverdraw | server/models/walletModel.js:160-189 | two racing requests that the balance covers once are both reserved: a debt and two pending rows |
| WithdrawalLedger.RacingFailuresRefundTwice | server/models/walletModel.js:199-229 | two racing failures of one pending row both refund it |
| WithdrawalLedger.ApprovalRevives | server/controllers/adminController.js:286-307 | reject, approve, reject, one after the other, refund twice |
| DepositBooks.StepBalancedIff | server/services/depositVerifier.js:14-152 | a step of any interleaving, reads and inserts of requests apart, keeps credits equal to the worth of completed rows if and only if it neither fails nor credits a completed row |
| DepositVerifier.DirectIff | server/models/walletModel.js:52-131 | the direct path adds a completed row and its credit if and only if no row has the hash |
| DepositBooks.RunBalancedIff | server/services/depositVerifier.js:113-152 | over an arbitrary run, overlapping passes and racing requests included, credits equal completed rows throughout if and only if every step was harmless |
| DepositSafety.StepDistinctIff | server/controllers/walletController.js:163-223 | with verifications of a row kept apart, a step keeps at most one claim for each hash if and only if it does not insert for a hash claimed at that moment |
| DepositSafety.RunDistinctIff | server/controllers/walletController.js:163-223 | over every such run claims are distinct throughout if and only if every insert was for an unclaimed hash |
| DepositSafety.NoOverlapIsHarmless | server/controllers/walletController.js:163-223 | when neither requests of one hash nor verifications of one row overlap, what was read still holds at the insert and every step is harmless |
| DepositSafety.NoDuplicates | server/services/depositVerifier.js:113-133 | in such runs the check against double spending never fires |
| DepositSafety.DepositsAreSafe | server/controllers/walletController.js:163-223 | over every run without those overlaps completed hashes are pairwise different and each user was credited exactly its completed rows |
| DepositRaces.RacingSubmissionsCreditTwice | server/controllers/walletController.js:163-223 | two submissions of one hash that both read before either inserts are both recorded, and one pass credits both: the exact rows and credits |
| DepositRaces.OverlapCreditsTwice | server/services/depositVerifier.js:113-152 | two overlapping verifications of one row credit its amount twice |
| DepositRaces.SlowVerificationLosesAttempts | server/services/depositVerifier.js:14-47 | a slow verification takes back what overlapping passes have added to the attempts of its row |
| DepositQueue.PageDrains | server/services/depositVerifier.js:14-47 | a page of rows is settled once twenty-one passes went over it, whatever the chain answers |
| DepositQueue.PagesDrain | server/services/depositVerifier.js:206-218 | n pages of rows are settled by n times twenty-one passes |
| DepositQueue.FrontIsPassed | server/services/depositVerifier.js:206-218 | what waits behind or arrives never delays the older rows |
| DepositQueue.EveryDepositSettles | server/services/depositVerifier.js:206-218 | a deposit with k older ones is settled within 21 * (k / 50 + 1) passes that do not overlap, however many arrive |
| DepositPass.StepInPass | server/services/depositVerifier.js:206-218 | every step of a pass, and every request in between, leaves each listed row untouched while it is under way and otherwise settled or with one attempt more |
| DepositPass.PassRefinesQueue | server/services/depositVerifier.js:206-218 | verifications of a page side by side, in any order and with requests in between, leave the queue that one pass of the queue model leaves, followed by the rows created meanwhile |
| DepositBooks.JudgeIs | server/services/depositVerifier.js:14-111 | within twenty attempts no receipt, no transaction and an RPC error are retried; a reverted, misdirected, wrong-chain or dust transaction fails; any other value is credited |
| DepositVerifier.DepositService.VerifyOne | server/services/depositVerifier.js:14-201 | after a retried answer the row is pending with one attempt more and no credit moved; after a value whose hash is not spent it is completed at it and its user credited exactly it; otherwise failed and nothing credited; all other rows and credits stay |
| DepositVerifier.TransientThenCredited | server/services/depositVerifier.js:14-201 | a deposit answered by transient answers and then, within twenty attempts, by a value is completed and credited exactly once |
| DepositVerifier.DepositService.FindDuplicate | server/services/depositVerifier.js:113-121 | true exactly when another completed row has the hash |
| DepositVerifier.DepositService.RunPass | server/services/depositVerifier.js:206-218 | a pass changes the queue of pending rows exactly as one pass of the queue model |
| DepositVerifier.DepositService.LookUp | server/controllers/walletController.js:136-211 | the reads answer exactly: the status of the first own row of the hash, a claim of someone else, or clear |
| DepositVerifier.ClearIff | server/controllers/walletController.js:136-211 | each answer of a submission over the fields: the form of the hash, no amount, zero or at least one, the user's own rows by status, the claims of others |
| DepositVerifier.DepositService.Submit | server/controllers/walletController.js:131-223 | undisturbed, a clear request is the two reads and the insert in a row, and any other changes nothing and gets the reply of its reads |
| RateLimiter.RateLimiter.Cleanup | server/middleware/rateLimit.js:23-28 | the loop over stale keys leaves exactly the keys that are not stale, entries unchanged |
| RateLimiter.RateLimiter.Handle | server/middleware/rateLimit.js:39-69 | the new table and the whole reply of one request |
| RateLimiter.WindowOpensIff | server/middleware/rateLimit.js:50-57 | a window opens at the first request of a key and at the first after the end of its last one; every other is counted in the running one |
| RateLimiter.ReplyIs | server/middleware/rateLimit.js:58-66 | the verdict, what remains, and both times rounded up to whole seconds |
| RateLimiter.ForgetsAlways | server/middleware/rateLimit.js:23-69 | what the swept table lacks against one that keeps everything was last seen too long ago to matter |
| RateLimiter.EarlyForgettingShows | server/middleware/rateLimit.js:23-69 | with a shorter stale time two requests already tell the difference |
| RateLimiter.SweepInvisibleIff | server/middleware/rateLimit.js:39-69 | all answers of all runs are those of the limiter that keeps everything if and only if the stale time is at least the window |
| RateLimiter.HistoryKept | server/middleware/rateLimit.js:49-68 | an entry's counter is exactly what its window let through, and at most a maximum passed in the window length before |
| RateLimiter.PassBounds | server/middleware/rateLimit.js:49-68 | over every run at most max pass in a window and at most twice max in any stretch as long, wherever it starts |
| TimeCredit.User.ProcessHeartbeat | server/controllers/sessionController.js:6-54 | the exact reply in every case, and ten seconds of the right kind or no change |
| TimeCredit.HeartbeatIff | server/controllers/sessionController.js:6-54 | accepted if and only if known, no bot, stamped in time or not at all, and eight seconds after the last; then ten seconds of its kind |
| TimeCredit.User.ListAvailableGpus | server/controllers/autoMiningGpuController.js:10-56 | a GPU is released exactly under the four conditions |
| TimeCredit.ReleasedIff | server/controllers/autoMiningGpuController.js:14-56 | a GPU is released if and only if none waits, none was released within five minutes, the credit is at least 300 and a reward is active |
| TimeCredit.User.ClaimGpuRow | server/controllers/autoMiningGpuController.js:66-122 | the exact reply in every case, and one row claimed for 300 seconds or no change |
| TimeCredit.User.CountClaimsSince | server/controllers/autoMiningGpuController.js:80-84 | the number of claims after a moment |
| TimeCredit.ClaimsSinceIs | server/controllers/autoMiningGpuController.js:80-84 | it is the size of the set of rows claimed after the moment |
| TimeCredit.GpuClaimIff | server/controllers/autoMiningGpuController.js:66-122 | accepted if and only if the row is unclaimed, with fewer than 24 claims in 24 hours and a credit of at least 300 |
| TimeCredit.User.ClaimReward | server/controllers/youtubeController.js:73-117 | the exact reply in every case, and one grant for 60 seconds or no change |
| TimeCredit.VideoClaimIff | server/controllers/youtubeController.js:73-117 | accepted if and only if there is a video, a credit of at least 60 and room for 3 H/s within 1440 |
| TimeCredit.AnswerKeepsFair | server/controllers/autoMiningGpuController.js:80-122 | every request keeps both balances nonnegative and the limits of every 24 hours, wherever they start |
| TimeCredit.AnswerConserves | server/controllers/sessionController.js:33-54 | one request moves each balance plus what was spent by what a heartbeat of its kind earned |
| TimeCredit.RunConserves | server/controllers/youtubeController.js:79-117 | over every run: balance plus 300 or 60 for each claim equals the start plus 10 for each accepted heartbeat of its kind, at most 24 claims and 1440 H/s in any 24 hours |
| TimeCredit.FromStart | server/controllers/sessionController.js:33-54 | the same for every account reachable from a new one: what is left plus what was spent is 10 for each accepted heartbeat |
| TimeCredit.BeatsAreSpaced | server/controllers/sessionController.js:39-44 | accepted heartbeats of every run are eight seconds apart |
| TimeCredit.HeartbeatRate | server/controllers/sessionController.js:39-44 | any stretch of T milliseconds of any run, wherever it begins, holds at most T / 8000 + 1 accepted heartbeats |
| TimeCredit.GpuWriteIff | server/controllers/autoMiningGpuController.js:108-122 | on any account the writes of a claim keep the credit nonnegative if and only if it covers the cost, the sum if and only if the row is unclaimed, and then the daily limit if and only if no day around the claim is full |
| TimeCredit.VideoWriteIff | server/controllers/youtubeController.js:104-117 | on any account the writes of a video claim keep the sum, the credit nonnegative if and only if it covers the cost, and the daily limit if and only if there is room in every day around it |
| TimeCredit.OverlappingClaimsOverdraw | server/controllers/autoMiningGpuController.js:74-122 | two overlapping claims of one GPU on a credit of 300 leave -300 and one GPU claimed |
| LogFormat.TrimFixes | server/utils/logParser.js:49-50 | trimming changes nothing exactly on text without outer blanks, and its result has none |
| LogFormat.BracketedReads | server/utils/logParser.js:21-22 | a printed bracket is read back whole, with what follows it |
| LogFormat.BracketedTakes | server/utils/logParser.js:21-22 | a bracketed text is read before any blank, and all blanks after it are skipped |
| LogFormat.BracketedNeeds | server/utils/logParser.js:21-22 | and only a nonempty text without a closing bracket, between brackets and before a blank |
| LogFormat.PayloadIff | server/utils/logParser.js:68-80 | message and details split back if and only if the message survives |
| LogFormat.ParsesTo | server/utils/logParser.js:48-93 | what is parsed from any printed line with a usable category and tail |
| LogFormat.AnyLevelParsesTo | server/utils/logParser.js:65-92 | a printed line with any level: in capitals if known, else INFO |
| LogFormat.NothingIff | server/utils/logParser.js:49-50 | nothing comes of a line if and only if it is all blank |
| LogFormat.UnmatchedLine | server/utils/logParser.js:52-63 | a line without the three brackets is taken whole as a message of level INFO, without time or details |
| LogFormat.PlainLine | server/utils/logParser.js:52-63 | a line that does not begin with a bracket is a message of level INFO without time or details |
| LogFormat.ParsedBackOnlyIf | server/utils/logParser.js:48-93 | a line parsed to its own timestamp and category had a usable category and tail |
| LogFormat.RoundTripIff | server/utils/logger.js:14-19 | parsing a printed line returns every part if and only if the category fits its brackets and the message survives |
| LogSummary.BuildLogSummary | server/utils/logParser.js:150-198 | counts by level and category, an ascending series in which every bucket counts exactly its events, a bucket for every timestamped event, and the earliest worst bucket |
| LogSummary.SortedSeries | server/utils/logParser.js:184 | the series is ascending and holds exactly the buckets of the table |
| LogSummary.PeakErrors | server/utils/logParser.js:185-188 | the earliest bucket with the most errors, or none when there are no errors |
| LogSummary.TableGrows | server/utils/logParser.js:167-181 | one more event keeps every count of every bucket right, a new bucket included |
| LogSummary.BucketIs | server/utils/logParser.js:153-168 | the bucket of an event is the multiple of the size its time has reached |
| LogSummary.SumIsCount | server/utils/logParser.js:167-184 | any class of events summed over the buckets is its number in the input |
| LogSummary.BucketsPartitionEvents | server/utils/logParser.js:150-198 | totals add up to the timestamped events and errors to the timestamped errors |
| CheckinStreak.AddDaysIsDayAddition | server/utils/checkinDate.js:7-12 | shifting instants is day addition if and only if the zone still reads that day at 15:00 UTC |
| CheckinStreak.StreakIsUnique | server/controllers/checkinController.js:36-54 | the specification determines the streak |
| CheckinStreak.ComputeStreak | server/controllers/checkinController.js:36-54 | the length of the longest run of confirmed days ending today, or yesterday if today is unconfirmed; zero exactly when neither is; it terminates |
| CheckinStreak.DayByDay | server/controllers/checkinController.js:36-54 | confirming today adds one to the streak, and overnight it survives exactly when the day was confirmed |

## Left out

- Floating-point rounding: money and rates are reals; the dead band of persistMinerProfile is kept as a constant.
- MiningEngine: user names, wallets, connection flags, referral data, leaderboard and public state; uuids are fresh numbers; a missing `lastPersistedBalance` cannot occur, because creation sets it.
- MiningRuns.RunConserves: runs contain no failed reward persistence; RollbackLeavesMark, RollBackConservesIff and the cache's FailReward step say exactly what one does.
- BalanceCache: one user; the referral commission of the reward callback is one more paired change; the other currencies' balances and the offerwall's own engine sync are not modelled.
- syncUserBaseHashRate: one sum over active machines and temporary powers; the model takes the resulting rate from the profile.
- SlotGrid: requests of one user are served one at a time; deleting an inventory item; machines placed in racks (slot index 1000 and above) are the other allocator's and are kept apart; item expiry, names and images; slot sizes other than one and two, which no writer lets through (server/controllers/adminController.js:61, server/controllers/adminOfferEventController.js:27, server/controllers/shopController.js:70).
- RackRooms: requests of one user are served one at a time; rack ids stand for a room and a position; the notification and profile reload after an operation.
- OfferSale.OverdrawIff: says nothing of a user one of whose purchases is about to make its tenth update on an earlier read (nor do ExceedIff and BeginIff); whether that one can still commit depends on the sold count returning to what it read.
- OfferSale.NoOversell: the stock stays fixed during a run; other currencies than the one of the offer.
- WithdrawalLedger: the chain payout of approved withdrawals, and what else takes from a balance in the meantime, such as purchases; the writes of one transaction are one step.
- Wallet.WalletModel.RequestWithdrawal: undisturbed, as Wallet.WalletModel.UpdateTransactionStatus is; the steps of WithdrawalLedger cover what may fall between reads and writes.
- DepositQueue.EveryDepositSettles: passes that overlap are not counted, because they may lower the attempts of a row.
- DepositBooks: RPC calls, whose answers are arbitrary; hash canonicalisation; the chain checks of createDepositRequest, which may abandon a request; deposit tickets; a failing database update inside a verification.
- DepositVerifier.DepositService.RunPass: the verifications of one pass run one after the other here; DepositPass.PassRefinesQueue covers their interleavings.
- DepositVerifier.DepositService.Submit: undisturbed; the steps of DepositBooks cover what may fall between its reads and its insert.
- RateLimiter.RateLimiter.Cleanup: eviction by table size is switched off, because it changes decisions.
- RateLimiter.RateLimiter.Handle: the skip function lets a request past the limiter, and the key function makes its key; both belong to the caller.
- TimeCredit: concurrent requests of one user; machine and inventory rows a claim creates.
- LogFormat: Date and JSON conversion (the texts they produce are parameters), and upper-casing beyond ASCII letters.
- LogSummary: object keys inherited from a prototype; reading and filtering the files.
- CheckinStreak: payment confirmation of a check-in; ComputeStreak asks that the zone always reads the same day at 15:00 UTC as UTC does, which holds for America/Sao_Paulo.
- Faucet, short links, swap, ads, chat, support, pages, routing, sessions and scripts.

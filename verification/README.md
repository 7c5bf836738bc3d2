# The prepaid session engine of a computer club

Guests of the club play on prepaid time. A background job settles every active
session minute by minute from three sources in a fixed order: minutes bought with
coins, minutes of packages bound to a zone, and the cash wallet. Around it stand the
life of a session (seat, ready window, pauses, grace at zero, booking deadline, move,
finish), the ledgers it must agree with (wallet journal, coin balance, package
minutes, stock moves), and a few smaller parts: the hub of shell connections, the
rate limiter, the level curve, the shift coverage, bookings, shop and kitchen.

Money is in grosz, time in whole seconds. A database transaction is one step; the
condition of a conditional update is the guard of that step. Where the program reads
first and commits later, what it read is an input of the step for: the counters of a
settlement, starts and finishes, package voids, rewards, coin burns, freezes, kitchen
statuses, moves, cancelled seats, repair flags, bookings and price-list edits, and the
whole session for a tick on the rows. Other readings are part of the step; "Left out"
names them. Rows that the program updates in place are objects; each of their methods
is proved against a function on values, and the laws are proved about those functions,
for every state, every run or every interleaving.

| file | what it holds |
|---|---|
| `Tariff.dfy` | cost of minutes, charge of a tick, affordable minutes |
| `Packages.dfy`, `PackageSales.dfy`, `LeastWaste.dfy`, `CoinsFirst.dfy` | packages: order of spending, drawing, sale and void, why that order wastes least, and coins before packages does not |
| `Wallet.dfy` | the wallet and its journal |
| `Sessions.dfy`, `Settlement.dfy`, `Slicing.dfy` | the session row, one settlement, independence of how time is cut |
| `SessionRun.dfy`, `SessionLedger.dfy`, `Playtime.dfy` | the life of a session: its ledger and its time |
| `TickTable.dfy`, `SessionEnd.dfy`, `Grace.dfy` | what each step writes, when a session ends, what is left at zero |
| `Restart.dfy`, `Downtime.dfy`, `LateTick.dfy` | independence of when the job ticks, what a delay costs, ticks on an old copy |
| `Billing.dfy` | the billing job on the rows |
| `Coins.dfy`, `GuestBooks.dfy`, `GuestTable.dfy`, `GuestLedger.dfy` | coins, and all the books of one guest under any interleaving |
| `Machines.dfy`, `Bookings.dfy`, `Shifts.dfy` | who sits where, who has booked, when the club is open |
| `Stockroom.dfy` | goods, kitchen orders and sales |
| `Hub.dfy`, `RateLimiter.dfy`, `Experience.dfy` | connections, request limits, levels |

What the code does not keep, and exactly when it does:

- Settling in slices can give a guest a minute more below 60 grosz an hour (`Slicing.SlicingIsSafeIff`), and there the affordability estimate is only a lower bound (`Tariff.AffordableExactIff`).
- A settlement computes from, and writes back, counters that were read before its transaction. Two settlements from one reading, a tick and a finish, charge a minute twice and lose agreement of the ledgers (`SessionLedger.SameMinuteChargedTwice`, `GuestLedger.RunAgreesThroughoutIff`).
- The grace at zero ends by its timer. A package bought, a move to a zone with packages or a refund does not end it, and the session is closed for want of money with minutes to pay from (`SessionEnd.GraceClosesAPaidSession`, `Grace.GraceMeansNothingLeft`).
- A package void refunds from a reading made before its transaction (`PackageSales.VoidIsFairIff`); a reward is computed from one (`Experience.RewardIsKeptIff`); a price-list edit writes one back (`Stockroom.SavingKeepsStockIff`).
- Moves, cancelled seats, repair flags, new and restored bookings check before they write (`Machines.DelayedMoveKeepsIff`, `Machines.DelayedCancelKeepsIff`, `Machines.DelayedStatusKeepsIff`, `Bookings.DelayedCreateKeepsIff`, `Bookings.DelayedRestoreKeepsIff`).
- The comments of the coin burn say at most one burn in seven days for a guest; a guest who returns after a burn can be burnt sooner when the idle time is set below a week, and two passes that both scanned first both burn (`Coins.BurnsAreAWeekApartIff`, `Coins.BothPassesBurnIff`).
- The comment of the billing tick says that the ready window cannot meet a booking; that depends on the settings and on bookings made before the guest sat down (`Bookings.ReadyWindowEndsBeforeLockIff`).
- A connection that drops at once can be taken off the unregister queue before the register queue, and then stays entered while closed (`Hub.EntryIsOpenIff`).
- The comment of the packages says that what would be lost first goes first, coins before packages because coins melt. Coin minutes, once redeemed, never melt: spending them first can let a package expire (`CoinsFirst.AnHourIsLost`, `CoinsFirst.CoinsFirstLosesNothingIff`).
- Waiting for the guest is free for ticks. Whoever ends a session that still waits charges it from the seating on (`SessionEnd.FinishWhileWaitingCharges`, `SessionEnd.FinishWhileWaitingIsFreeIff`).
- The comment of the billing job says that a restart loses nothing. When a package expires while the job is down, the wallet pays for the minutes the package would have paid (`Downtime.HalfAnHourLate`, `Downtime.DelayIsHarmlessIff`).
- A tick judges the grace by the copy of the session that the sweep read; a deposit after the reading does not save the session (`LateTick.LateVerdictIff`).

## Model
| member | source | states |
|---|---|---|
| `Tariff.CostForMinutes` | backend/cmd/server/billing.go:55-62 | The cost is the exact price of the minutes rounded up to a grosz: the club loses nothing, the guest overpays by less than one grosz. |
| `Tariff.NoDrift` | backend/cmd/server/billing.go:64-71 | However the minutes are cut into ticks, the charges add up to the charge of all of them at once. |
| `Tariff.AnyHourCostsTheRate` | backend/cmd/server/billing.go:57-71 | Any sixty consecutive minutes cost exactly the hourly rate, wherever rounding stands. |
| `Tariff.CoversIff` | backend/cmd/server/billing.go:64-84 | A wallet covers so many more minutes if and only if wallet plus already prepaid fraction cover them without rounding. |
| `Tariff.PayingConserves` | backend/cmd/server/billing.go:64-71 | Paying minutes uses up exactly their unrounded price out of wallet and prepaid fraction together. |
| `Tariff.MinutesAffordable` | backend/cmd/server/billing.go:73-84 | The countdown loop steps down at most once, and what it returns is covered by the wallet. |
| `Tariff.AffordableExactIff` | backend/cmd/server/billing.go:73-84 | The result is the largest covered number of minutes exactly when the leftover part of a minute plus the prepaid fraction is below two minutes; so for every rate, wallet and number of minutes already paid. |
| `Tariff.AffordableExact` | backend/cmd/server/billing.go:73-84 | From 60 grosz an hour the result is always the largest number of minutes the wallet covers. |
| `Tariff.AffordableFallsShort` | backend/cmd/server/billing.go:73-84 | Below 60 grosz an hour it is only a safe lower bound: a concrete case. |
| `Tariff.AffordableIsMostIff` | backend/cmd/server/billing.go:73-84 | The result never exceeds what wallet and prepaid fraction cover, and equals it under an exact condition, the empty wallet included. |
| `Tariff.PaidIsCharged` | backend/cmd/server/billing.go:139-145 | At every rate a tick pays no more minutes than are due and is charged no more than the wallet holds, and reports zero exactly when it fell short; from 60 grosz an hour it then pays all that is covered. |
| `Packages.SpendingOrderIsComplete` | backend/cmd/server/packages.go:744-760 | The spending order has every eligible package once, sorted. |
| `Packages.ListingIsInOrder` | backend/cmd/server/packages.go:744-760 | In the listing a package stands before another only if it has a term and the other none or a later one, or their terms are equal and it was not bought later. |
| `Packages.LivePackagesAreLive` | backend/cmd/server/packages.go:381-388 | The listing for a zone holds exactly the live packages of that guest in that zone. |
| `Packages.PackageTable.TakePackageMinutes` | backend/cmd/server/packages.go:762-787 | The loop of conditional updates over a possibly stale listing does what the recursive specification says. |
| `Packages.TakeConserves` | backend/cmd/server/packages.go:762-787 | However stale the listing, drawing only lowers remainders, never below zero, and the minutes reported are what the table lost. |
| `Packages.TakeFromOne` | backend/cmd/server/packages.go:762-787 | A listed package gives what the listing says or the need asks, or is passed over if the table holds less by now. |
| `Packages.TakeInParts` | backend/cmd/server/packages.go:762-787 | A listing is worked through from its front, each package asked only for what is still needed. |
| `Packages.FreshTakeIsDrain` | backend/cmd/server/packages.go:762-787 | With a fresh listing all updates succeed and draw straight from the table in order. |
| `Packages.DrainDraws` | backend/cmd/server/packages.go:762-787 | Drawing in order takes the smaller of the need and what the packages hold. |
| `Packages.DrainInOrder` | backend/cmd/server/packages.go:762-787 | A package is drawn from only when all before it are used up. |
| `Packages.DrainTwice` | backend/cmd/server/packages.go:762-787 | Drawing twice in a row is drawing once the sum. |
| `Packages.LivePackMinutes` | backend/cmd/server/packages.go:789-801 | The sum of live minutes shown to the guest is what drawing in order can reach. |
| `Packages.RefundForVoid` | backend/cmd/server/packages.go:683-713 | Voiding returns the price of the unplayed share rounded down, never more than the price, all of it if nothing was played, nothing if all was. |
| `LeastWaste.CoversMost` | backend/cmd/server/packages.go:722-787 | Over every run of purchases and ticks, soonest-to-expire-first covers at least as many minutes as any other way of drawing from packages that are live at each tick. |
| `LeastWaste.ForfeitsLeast` | backend/cmd/server/packages.go:722-733 | At any moment after the run it has let no more minutes expire than any other way. |
| `CoinsFirst.PackagesFirstCoversMore` | backend/cmd/server/packages.go:722-733 | Over every run of purchases, redemptions and ticks, packages before coin minutes would cover at least as many minutes as the code's coins before packages. |
| `CoinsFirst.CoinsFirstLosesNothingIff` | backend/cmd/server/packages.go:722-733 | Coins first loses nothing, however the guest plays on, if and only if he has no coin minutes or no package of the zone that can expire. |
| `CoinsFirst.AnHourIsLost` | backend/cmd/server/packages.go:722-733 | An hour of coin minutes is spent while an hour's package expires: a concrete run. |
| `CoinsFirst.SettleIsCoinsFirst` | backend/cmd/server/billing.go:126-138 | A settlement takes coin and package minutes by that rule. |
| `PackageSales.PackageCounter.Issue` | backend/cmd/server/packages.go:418-469 | A package bought from the wallet is added together with its charge, or nothing happens when the wallet is short; a counter sale is added as is. |
| `PackageSales.PackageLastsItsDays` | backend/cmd/server/packages.go:371-388 | A package bought for some days can be used until that many days have passed, to the second; one without days for ever. |
| `PackageSales.SaleOfPackageWrites` | backend/cmd/server/packages.go:418-469 | The package is added; from the wallet its exact price goes with one journal row, or nothing happens when the wallet is short. |
| `PackageSales.VoidOfPackageWrites` | backend/cmd/server/packages.go:638-664 | A void leaves no minutes and returns price times minutes read as left over total, to the wallet it came from, once. |
| `PackageSales.PackageCounter.Void` | backend/cmd/server/packages.go:614-664 | A void zeroes the remainder once and returns money only to the wallet it came from; a second void changes nothing. |
| `PackageSales.VoidIsFairIff` | backend/cmd/server/packages.go:638-664 | The refund is the price of the minutes taken back exactly when the minutes played between reading the row and committing the void cost less than the fraction rounding had left (at a grosz a minute or more: when none were played); otherwise it is too high, never too low. |
| `Wallet.GuestRow.Apply` | backend/cmd/server/wallet.go:36-92 | The one door to the balance: applied with a journal row, or refused whole when the result would be negative. |
| `Wallet.ApplyWritesOneRow` | backend/cmd/server/wallet.go:36-92 | One row with kind, amount, reference and the balance after it; or nothing. |
| `Wallet.OpsKeepExplained` | backend/internal/models/wallet_transaction.go:23-27 | After any interleaving of operations the balance is the sum of the journal, each row holds the prefix sum, and no balance was ever negative; the journal only grows. |
| `Settlement.SettleTakes` | backend/cmd/server/billing.go:112-191 | Exactly what a settlement takes from each source at every rate: coin minutes first, then packages of the zone, then the money minutes that the wallet covers; and what it leaves in every row. |
| `Settlement.NeverRefused` | backend/cmd/server/billing.go:139-176 | The wallet is never asked for more than it holds, so the settlement is never undone for lack of money. |
| `Settlement.GoneChangesNothing` | backend/cmd/server/billing.go:147-165 | A settlement that finds its session closed reports so and changes no row. |
| `Settlement.DrawsOnlyOwnLivePackages` | backend/cmd/server/packages.go:729-760 | Only packages of this guest, of the zone he sits in, neither voided nor expired nor empty, are drawn from. |
| `Settlement.DrawsSoonestThenOldest` | backend/cmd/server/packages.go:744-787 | If a settlement draws from a package, nothing is left in any usable one that expires sooner, or with it and was bought earlier. |
| `Settlement.ForecastIsExactIff` | backend/cmd/server/billing.go:86-92 | For all books: settlements are paid in full up to the forecast of coin, package and money minutes and not beyond, exactly when the affordability estimate is exact; so always from 60 grosz an hour. |
| `Settlement.ForecastIsSafe` | backend/cmd/server/billing.go:86-92 | At every rate the forecast is covered. |
| `Settlement.SettledIff` | backend/cmd/server/billing.go:139-145 | At every rate a settlement is paid in full exactly when the wallet holds the price of what coins and packages leave over. |
| `SessionLedger.SameMinuteChargedTwice` | backend/cmd/server/billing.go:112-161 | A tick and a finish that both read ten billed minutes charge the eleventh twice; the ledger was balanced and is not: a concrete case. |
| `Slicing.SettleTwiceIsOnce` | backend/cmd/server/billing.go:112-197 | Settling to one moment and then to a later one leaves counters, coin minutes, packages and wallet as settling once, including when the money runs out midway. |
| `Slicing.AnySlicingIsOnce` | backend/cmd/server/billing.go:112-197 | Any cutting of the time into settlements gives the result of settling once to the last moment. |
| `Slicing.SlicingIsSafeIff` | backend/cmd/server/billing.go:73-84 | Slicing is safe, for all books a session can hold, if and only if the rate is zero or at least 60 grosz an hour. |
| `Slicing.SlicingMattersBelow60` | backend/cmd/server/billing.go:73-84 | Below that a session with a balanced ledger gets a minute more when ticked twice, at each such rate. |
| `Restart.AnyTicksThenFinish` | backend/cmd/server/billing.go:376-406 | Whenever the job ticks and however long it is stopped, a played session leaves its guest with the counters, coin minutes, packages and wallet that finishing alone would have left him, also when the money runs out midway and the job itself ends the session (no package expiring, no booking due meanwhile). |
| `Restart.TickThenFinish` | backend/cmd/server/billing.go:202-375 | One tick, with its grace and its closing at zero, does not change what finishing will have taken. |
| `Downtime.DelayIsHarmlessIff` | backend/cmd/server/billing.go:376-406 | Settling the same minutes later leaves the same books if and only if nothing is due, coin minutes cover it, or no package with minutes expired meanwhile. |
| `Downtime.HalfAnHourLate` | backend/cmd/server/billing.go:390-392 | Half an hour that a package would have paid in time costs thirty zloty when it is settled a minute after the package expired: a concrete case. |
| `Downtime.HalfHourIsBalanced` | backend/cmd/server/billing.go:145-191 | The session of that case has a balanced ledger: it is a state the program can hold. |
| `SessionLedger.RunKeepsBalanced` | backend/cmd/server/billing.go:145-191 | Over every run of ticks, top-ups, purchases, pauses, moves and finish whose settlements read the stored row: billed is coin plus package plus money minutes, the charge is the tariff of the money minutes and minus the sum of this session's journal rows, and the journal explains the balance. |
| `SessionLedger.PostFromKeepsBalancedIff` | backend/cmd/server/billing.go:145-191 | A posting computed from counters read earlier keeps that ledger exactly when nothing was charged to the session since. |
| `SessionLedger.SettleFromKeepsBalancedIff` | backend/cmd/server/billing.go:112-191 | A settlement from counters read earlier keeps it exactly when it is too late, not due, or nothing was charged since. |
| `SessionLedger.SeatedStaysBalanced` | backend/cmd/server/billing.go:145-191 | From seating on, after any such run, the ledger is balanced. |
| `Playtime.NeverOverbilled` | backend/cmd/server/billing.go:205-224 | In no run are more minutes billed than were played, rounded up; nothing is billed while the guest is awaited. |
| `Playtime.BilledTimeIsPlayedTime` | backend/cmd/server/pause.go:36-68 | Over every run of ready, auto-ready, pause, resume and tick steps the minutes settled to are the whole minutes of unpaused time since confirmation; automatic confirmation counts from the deadline however late the tick. |
| `Playtime.TickSettlesPlayedMinutes` | backend/cmd/server/billing.go:317-324 | A tick of a played session settles exactly those minutes; beyond that it may clear the idle warning, and at zero it begins the grace or, without one, finishes the session. |
| `Playtime.BillKeepsSound` | backend/cmd/server/billing.go:213-304 | What one tick may do to the clock of a session in each of its situations. |
| `Playtime.PauseNeverExceedsLimit` | backend/cmd/server/pause.go:70-134 | With ticks at most T seconds apart a session never pauses longer than the limit plus T, whatever mix of guest pauses, idle pauses, resumes and moves. |
| `Playtime.SeatedSessionsAreFair` | backend/cmd/server/pause.go:36-134 | From seating on, for any run: no more billed than played, settled to the time played, pauses within the limit and one gap. |
| `SessionEnd.TickEndsOnlyJustified` | backend/cmd/server/billing.go:202-375 | A tick ends a session only when a booking is due, or the guest is away with no pause minutes left, or a grace begun earlier has run out, or there is no grace and the minutes due are not covered; it records that reason and the time. |
| `SessionEnd.DueBookingEndsTheSession` | backend/cmd/server/billing.go:233-244 | A due foreign booking frees the machine at the next tick, even from a pause. |
| `SessionEnd.PlayedSessionEndsIff` | backend/cmd/server/billing.go:306-352 | A played session with no booking due ends at a tick if and only if a grace begun earlier has run out, whatever the guest has by then, or there is no grace and more is due than the forecast. |
| `SessionEnd.GraceClosesAPaidSession` | backend/cmd/server/billing.go:306-315 | A guest who buys a package during the grace is closed for want of money with five hours to pay from: a concrete run. |
| `Grace.GraceMeansNothingLeft` | backend/cmd/server/billing.go:306-352 | Over every run from 60 grosz an hour an active session in grace has a forecast of zero, unless a package was bought, the guest was moved, or money other than a deposit came since the grace began. |
| `Grace.EndAtZeroIsTrue` | backend/cmd/server/billing.go:306-352 | So from seating on a tick that ends a session for want of money finds nothing to pay from, or less than is due, unless one of those came. |
| `Grace.ZeroLeavesNothing` | backend/cmd/server/billing.go:139-145 | A settlement that hits zero leaves no coin minute, no package minute of the zone and no affordable minute. |
| `SessionEnd.WaitingAndGraceAreFree` | backend/cmd/server/billing.go:205-224 | While the guest is awaited, and during the grace at zero, a tick takes no minute and no grosz. |
| `SessionEnd.FinishWhileWaitingIsFreeIff` | backend/cmd/server/sessions.go:290-384 | Ending a session that still waits for its guest takes nothing if and only if no second has passed, or he has no coin minutes, no live package and not the price of a minute. |
| `SessionEnd.FinishWhileWaitingCharges` | backend/cmd/server/sessions.go:290-384 | Ended five minutes into a window of seven it takes five minutes' money: a concrete case. |
| `TickTable.BackFromIdle` | backend/cmd/server/billing.go:260-264 | The guest of an idle pause who is seen within 15 seconds is off pause after the tick, the pause counted in full, and the tick settles what was played. |
| `TickTable.StaysPausedIff` | backend/cmd/server/billing.go:256-281 | A paused session stays paused exactly when no booking is due, it is not an idle pause whose guest is back, and less than the limit is used. |
| `TickTable.WaitingTick` | backend/cmd/server/billing.go:213-224 | Before the deadline a tick leaves a waiting session alone; from then on it confirms it as of the deadline. |
| `TickTable.BookedTick` | backend/cmd/server/billing.go:233-244 | A confirmed session is finished when a foreign booking starts within the lock. |
| `TickTable.BackFromIdleTick` | backend/cmd/server/billing.go:260-264 | The same as BackFromIdle for a tick on any copy of the row. |
| `TickTable.PauseGoesOnTick` | backend/cmd/server/billing.go:265-281 | Any other pause goes on, with nothing written, while less than the limit is used. |
| `TickTable.PauseIsUsedUpTick` | backend/cmd/server/billing.go:265-281 | At the limit an idle pause ends the session; a guest's pause is lifted, and the session ends if he is away or goes on to the money. |
| `TickTable.IdleTick` | backend/cmd/server/billing.go:283-304 | A player idle too long is warned once and put on pause while the limit lasts, otherwise the session ends. |
| `TickTable.PlayingTick` | backend/cmd/server/billing.go:298-304 | A player who is there goes on to the money, a shown warning cleared. |
| `TickTable.MoneyTickWrites` | backend/cmd/server/billing.go:306-352 | In grace nothing until its minutes are over and then the end; otherwise the whole minutes played are settled, and at zero the grace begins or the session ends. |
| `TickTable.FinishWrites` | backend/cmd/server/sessions.go:360-440 | Finishing settles to the minutes played, a begun one included, and closes an open row with time and reason. |
| `TickTable.SeatingWrites` | backend/cmd/server/ready.go:31-39 | A guest is seated with empty counters and, with a ready window, awaited for that many minutes. |
| `TickTable.ReadyWrites` | backend/cmd/server/ready.go:62-118 | The ready button starts the clock of a session that waits, and does nothing else. |
| `TickTable.PauseButtonsWrite` | backend/cmd/server/pause.go:137-192 | A guest pauses a confirmed running session while less than the limit is used, and resumes any pause. |
| `TickTable.ClosingButtonsWrite` | backend/cmd/server/ready.go:121-165 | Staff cancel a seat that waits and finish any open session. |
| `TickTable.MoneyThatComesWrites` | backend/cmd/server/deposits.go:155-171 | A deposit and redeemed minutes reach the guest and end the grace of an open session. |
| `TickTable.OtherStepsWrite` | backend/cmd/server/pause.go:196-246 | A package sale, another payment and a move leave the session as it is; a move changes the zone of an open one. |
| `Billing.Desk.SettleSessionMinutes` | backend/cmd/server/billing.go:112-197 | The transaction on the rows, from counters read before it and with its rollback, computes the specified settlement. |
| `Billing.Desk.PostMinutes` | backend/cmd/server/billing.go:139-191 | Its money part: charge, conditional writing of the counters as absolute values, undo when the row is closed or the wallet refuses. |
| `Billing.Desk.FinishSession` | backend/cmd/server/sessions.go:360-384 | The final settlement rounded up, computed from the copy its caller read, then the conditional closing. |
| `Billing.Desk.BillSession` | backend/cmd/server/billing.go:202-268 | One tick on the rows, working on the copy the sweep read and finishing at a later reading of the clock, follows the specified decision tree. |
| `Billing.Desk.BillRunning` | backend/cmd/server/billing.go:270-304 | The idle part of a tick on the rows, from that copy. |
| `Billing.Desk.BillMoney` | backend/cmd/server/billing.go:306-352 | The money part of a tick on the rows, from that copy. |
| `Billing.Desk.MinutesLeft` | backend/cmd/server/billing.go:86-92 | The forecast shown to the guest, with the sum over live packages, is the forecast that settlements obey. |
| `LateTick.BillFromStored` | backend/cmd/server/billing.go:202-375 | With a fresh copy, and no delay before finishing, it is the tick whose runs are studied. |
| `LateTick.BillFromKeepsBalanced` | backend/cmd/server/billing.go:202-375 | A tick on an old copy, however late it finishes, keeps the session's ledger as long as nothing was charged since the copy was read. |
| `LateTick.LateVerdictIff` | backend/cmd/server/billing.go:306-315 | A session read in grace is closed exactly when that grace is over, whatever was deposited after the reading. |
| `Billing.SessionRow.ConfirmReady` | backend/cmd/server/ready.go:48-79 | Confirmation moves the paid clock and forgets the pauses before it. |
| `Billing.SessionRow.StartPause` | backend/cmd/server/pause.go:91-112 | A pause starts only on an active, unpaused row. |
| `Billing.SessionRow.ResumePause` | backend/cmd/server/pause.go:114-134 | A resume writes the total computed from the copy, if the row is on pause. |
| `Billing.SessionRow.Close` | backend/cmd/server/sessions.go:422-440 | Only an active row is closed; the caller learns whether it was he who closed it. |
| `GuestLedger.RunAgreesThroughoutIff` | backend/cmd/server/billing.go:112-191 | Over any interleaving of deposits, settlements and closings of any of a guest's sessions, package purchases and voids, redemptions and their voids, cases, burns, freezes, kitchen payments and sale voids, where settlements read their counters at any earlier moment: the four ledgers agree after every transaction if and only if no due settlement writes from counters that are out of date. |
| `GuestLedger.GuestsNeverLoseOrGain` | backend/internal/models/wallet_transaction.go:23-27 | The same from registration on; and while it holds, the wallet equals deposits minus charges minus packages plus refunds minus kitchen, coins equal issued minus spent plus returned, package minutes drawn equal those the sessions used, and coin minutes given equal used, held and taken back. |
| `GuestLedger.SettleKeepsMinutesIff` | backend/cmd/server/billing.go:126-176 | Package and coin minutes stay accounted for exactly when the settlement is too late, not due, or was computed from the row's own coin and package minutes. |
| `GuestLedger.SettleKeepsMoneyIff` | backend/cmd/server/billing.go:145-176 | The wallet and every session's charge stay explained exactly when it is too late, not due, or nothing was charged to the session since its counters were read. |
| `GuestLedger.StepKeepsAgreesIff` | backend/cmd/server/billing.go:112-191 | One transaction keeps all ledgers in agreement exactly when, if it is a settlement, its reading is not out of date. |
| `GuestLedger.RevokeKeepsAgrees` | backend/cmd/server/packages.go:645-664 | A package void keeps minutes and money accounted for even with a stale reading. |
| `GuestLedger.VoidRedemptionKeepsAgrees` | backend/cmd/server/coins.go:219-246 | A redemption void takes back only minutes still held and keeps them accounted for. |
| `GuestLedger.SettlingAClosedSessionChangesNothing` | backend/cmd/server/billing.go:155-165 | A settlement that finds the session gone changes none of the guest's rows, whatever its caller had read. |
| `GuestLedger.FinishIsSettleThenClose` | backend/cmd/server/sessions.go:360-470 | Finishing is these two transactions and nothing in between. |
| `GuestTable.TopUpWrites` | backend/cmd/server/deposits.go:135-163 | A deposit brings its grosz to the wallet and its coins to the balance, each with its row. |
| `GuestTable.SeatWrites` | backend/cmd/server/sessions.go:88-255 | A guest without an open session is seated under a new id; others are refused. |
| `GuestTable.CloseWrites` | backend/cmd/server/sessions.go:420-470 | Who closes an open session gives it its end and pays its coins, once. |
| `GuestTable.ExchangeWrites` | backend/cmd/server/coins.go:121-153 | Coins are exchanged for their minutes at their price, or nothing happens. |
| `GuestTable.ExchangeVoidWrites` | backend/cmd/server/coins.go:214-256 | A void takes back what is still held, with its share of the coins, once. |
| `GuestTable.BuyWrites` | backend/cmd/server/packages.go:418-469 | A package is bought new for its days, with its price from the wallet if paid from there. |
| `GuestTable.RevokeWrites` | backend/cmd/server/packages.go:638-664 | A revoked package loses its minutes and returns their share of a price that came from the wallet. |
| `GuestTable.KitchenWrites` | backend/cmd/server/kitchen.go:437-464 | A kitchen order is paid if the wallet covers it; a void of its sale returns what was paid, once. |
| `Coins.RedeemableIff` | backend/cmd/server/coins.go:35-57 | What a number of coins can pay for is what the converter gives for their full fives. |
| `Coins.PriceIsLeastFive` | backend/cmd/server/coins.go:35-48 | The price is the least multiple of five that covers the exact price of the time. |
| `Coins.MinutesAreMost` | backend/cmd/server/coins.go:50-57 | The converter gives the most whole minutes whose exact price the coins cover. |
| `Coins.ConversionsDiffer` | backend/cmd/server/coins.go:50-57 | The two conversions are not inverse where coins are not a multiple of five: a concrete case. |
| `Coins.BurnBounds` | backend/cmd/server/coin_burn.go:38-53 | A burn takes at least the percentage, at most the balance, and leaves no tail below five coins. |
| `Coins.BalanceMeltsAway` | backend/cmd/server/coin_burn.go:38-53 | Repeated burns reach zero: no obligation stays open for ever. |
| `Coins.DueFromAMomentOn` | backend/cmd/server/coin_burn.go:55-71 | A guest is due from one moment on: idle long enough and, if burnt since his last session, a week after that. |
| `Coins.BurnsAreAWeekApartIff` | backend/cmd/server/coin_burn.go:55-71 | A guest is burnt at most once in seven days, for all histories, if and only if every pass has seen the burn before it and the idle time is set to at least seven days. |
| `Coins.BothPassesBurnIff` | backend/cmd/server/coin_burn.go:144-165 | Of two passes that scanned the same balance both burn exactly when twice the amount is there. |
| `Coins.RunKeepsAccounted` | backend/cmd/server/coins.go:285-330 | After any run the coin balance equals coins issued minus spent plus returned and is never negative; returns are proportionate; freezes bought are held or used. |
| `Coins.CoinsAreAlwaysAccounted` | backend/cmd/server/coins.go:285-330 | So from registration on. |
| `Coins.RedemptionWrites` | backend/cmd/server/coins.go:121-153 | What a redemption writes in each column, and when it is refused. |
| `Coins.VoidWrites` | backend/cmd/server/coins.go:214-256 | What a void writes: minutes taken back, coins times minutes taken back over minutes, once. |
| `Coins.DepositWrites` | backend/cmd/server/deposits.go:135-163 | A deposit adds its coins and its row. |
| `Coins.PayoutWrites` | backend/cmd/server/sessions.go:420-470 | A finished session is paid what it earned, into its own place, once. |
| `Coins.CaseWrites` | backend/cmd/server/cases.go:253-279 | An unopened case gives what dropped, coins or nothing, once. |
| `Coins.BurnWrites` | backend/cmd/server/coin_burn.go:150-165 | A burn takes the amount of the balance that was seen, if it is there. |
| `Coins.FreezeWrites` | backend/cmd/server/streak.go:84-187 | A freeze costs its price and is added; covering a gap uses as many as it has days. |
| `Coins.GapIsCoveredIff` | backend/cmd/server/streak.go:59-70 | A gap is covered exactly when it is within the longest row and the stock reaches. |
| `Coins.PaidStaysPaid` | backend/cmd/server/sessions.go:420-470 | A session's payout, a case's drop and a redemption's void, once written, stay as they are. |
| `Coins.SecondPayoutDoesNothing` | backend/cmd/server/cases.go:253-279 | Whatever happens in between, a second finisher, a second opening and a second void pay nothing. |
| `Coins.CoinDesk.OpenCase` | backend/cmd/server/cases.go:253-279 | Opening pays the drop once, only for an unopened case. |
| `Coins.CoinDesk.Redeem` | backend/cmd/server/coins.go:135-153 | Coins are exchanged for minutes only if the balance covers the price: the price goes from the balance and is recorded with the minutes; otherwise nothing changes. |
| `Coins.CoinDesk.VoidRedemption` | backend/cmd/server/coins.go:214-256 | The void takes back what is held and returns the proportionate coins, once. |
| `Coins.CoinDesk.Burn` | backend/cmd/server/coin_burn.go:150-165 | The burn is skipped when the balance fell below the scanned amount. |
| `Coins.CoinDesk.BuyFreeze` | backend/cmd/server/streak.go:164-187 | A freeze is bought only if the balance covers it. |
| `Coins.CoinDesk.ApplyFreezes` | backend/cmd/server/streak.go:59-107 | A gap is covered whole or not at all, and never with more freezes than held. |
| `Machines.RunKeepsConsistent` | backend/cmd/server/sessions.go:230-255 | Over every interleaving of split starts and finishes, moves, cancelled seats and repairs: one machine carries at most one active session, is in session exactly when it carries one, and a guest has one active session. |
| `Machines.ClubsStayConsistent` | backend/cmd/server/sessions.go:230-255 | So from an empty club on. |
| `Machines.StartWrites` | backend/cmd/server/sessions.go:230-250 | A start commits if and only if the machine is available at that moment and the guest has no active session; otherwise the floor is unchanged. |
| `Machines.FinishWrites` | backend/cmd/server/sessions.go:422-455 | A finish commits if and only if the session is active; it frees the machine the row names. |
| `Machines.MoveWrites` | backend/cmd/server/pause.go:196-246 | A move happens if and only if the session is active and the other machine available. |
| `Machines.CancelWrites` | backend/cmd/server/ready.go:121-165 | A seat is cancelled if and only if its session is active and waits. |
| `Machines.StatusWrites` | backend/cmd/server/admin.go:452-488 | Staff switch a machine between available and repair, and nothing else. |
| `Machines.RepairLastsOverRuns` | backend/cmd/server/sessions.go:230-250 | A machine in repair stays in repair over every run in which staff do not set it free. |
| `Machines.SecondStartLoses` | backend/cmd/server/sessions.go:230-250 | Of two starts that both saw the machine free, the second to commit changes nothing. |
| `Machines.FinishFreesPresentMachine` | backend/cmd/server/sessions.go:447-455 | Finish frees the machine the session is on now, and leaves the one it was read on alone. |
| `Machines.SecondFinishDoesNothing` | backend/cmd/server/sessions.go:422-440 | A second finisher frees nothing. |
| `Machines.DelayedMoveKeepsIff` | backend/cmd/server/pause.go:217-246 | A move commits without repeating its checks, but a unique index refuses a machine another active session has; the floor stays consistent exactly when the index refuses, or the session still sits where it was read, or it is at the target already and its former machine is empty. |
| `Machines.MovedTwiceLeavesAMachineBehind` | backend/cmd/server/pause.go:231-246 | A session moved by someone else in between leaves a machine in session with nobody on it: a concrete case. |
| `Machines.DelayedCancelKeepsIff` | backend/cmd/server/ready.go:141-163 | A cancelled seat frees the machine as read; the floor stays consistent exactly when the session was not moved since. |
| `Machines.DelayedWrites` | backend/cmd/server/pause.go:231-246 | What a delayed move and a delayed cancellation write. |
| `Machines.DelayedStatusKeepsIff` | backend/cmd/server/admin.go:455-488 | A repair flag written after its check keeps the floor consistent exactly when nobody sat down since. |
| `Machines.Hall.StartSession` | backend/cmd/server/sessions.go:230-250 | Start on the rows: only a machine free at the commit and a guest without an active session; otherwise nothing. |
| `Machines.Hall.FinishSession` | backend/cmd/server/sessions.go:422-455 | Finish on the rows. |
| `Machines.Hall.MoveSession` | backend/cmd/server/pause.go:196-246 | Move on the rows. |
| `Machines.Hall.CancelSeat` | backend/cmd/server/ready.go:121-165 | Cancelled seat on the rows. |
| `Hub.EntryIsLastRegistered` | backend/internal/websocket/hub.go:131-167 | In every reachable state a computer's entry is its last registered connection, unless that one has unregistered since. |
| `Hub.ClosedIff` | backend/internal/websocket/hub.go:57-74 | A channel is closed exactly when its connection unregistered or was displaced. |
| `Hub.EntryIsOpenIff` | backend/internal/websocket/hub.go:131-167 | An entry can be sent to exactly when its disconnection was not taken off the queues before its registration. |
| `Hub.EntriesAreOpen` | backend/internal/websocket/hub.go:131-167 | If registrations are dequeued before their disconnections, every entry is open. |
| `Hub.ClosedEntryIsPossible` | backend/internal/websocket/hub.go:122-167 | The buffered queues do not promise that order: a concrete log leaves a closed entry. |
| `Hub.ShellHub.EntryOfThisHub` | backend/internal/websocket/hub.go:131-167 | In every state of the hub an entered connection is the last registered of its computer, and open exactly when it was not unregistered before. |
| `Hub.ShellHub.Register` | backend/internal/websocket/hub.go:134-147 | Displaces and closes the previous connection; no channel is closed twice and no message touched. |
| `Hub.ShellHub.Unregister` | backend/internal/websocket/hub.go:149-164 | Removes the entry only if it is this very connection; never another's. |
| `Hub.ShellHub.Send` | backend/internal/websocket/hub.go:270-296 | Enqueues only to the entered, open connection; nothing is enqueued after close. |
| `Hub.Client.CloseSend` | backend/internal/websocket/hub.go:63-74 | Closes the channel exactly once, however often it is called. |
| `Experience.RoundToStep` | backend/internal/models/user.go:83-91 | The nearest multiple of the step, halves up; unchanged without a step or below zero. |
| `Experience.RoundedPower` | backend/internal/models/user.go:93-99 | The threshold is the exact power 10 n^1.4 rounded to the nearest integer, stated through fifth powers. |
| `Experience.FirstThresholds` | backend/internal/models/user.go:93-99 | The thresholds are 1000, 2600, 4700, 7000, 9500. |
| `Experience.ThresholdsGrow` | backend/internal/models/user.go:93-99 | Every threshold is a multiple of 100 and below the next, at every level. |
| `Experience.RunKeepsConsistent` | backend/cmd/server/sessions.go:36-52 | Over any run of grants total experience is the sum of the thresholds passed plus the current one, which stays below its threshold; one skill point a level. |
| `Experience.PlayersStayConsistent` | backend/cmd/server/sessions.go:36-52 | So from a new account on, with one skill point a level. |
| `Experience.ApplyTwiceIsOnce` | backend/cmd/server/sessions.go:36-52 | Two grants are one grant of their sum. |
| `Experience.TotalDecidesLevel` | backend/cmd/server/sessions.go:36-52 | The total alone decides the level and the experience within it. |
| `Experience.RewardIsKeptIff` | backend/cmd/server/sessions.go:413-470 | A reward written from an earlier reading is not lost exactly when no other was written in between; skill points follow the level exactly when the reading had the right level. |
| `Experience.TwoRewardsFromOneReading` | backend/cmd/server/sessions.go:413-470 | Two rewards from one reading give one level and two skill points: a concrete case. |
| `Experience.Player.GainXP` | backend/cmd/server/sessions.go:39-52 | The level loop terminates and computes the specified progress. |
| `RateLimiter.SweepIsInvisible` | backend/cmd/server/ratelimit.go:45-53 | Evicting idle buckets changes no answer and no kept bucket, over any run. |
| `RateLimiter.WindowBound` | backend/cmd/server/ratelimit.go:39-69 | In any window of d seconds a key passes at most 20 + 10 d requests. |
| `RateLimiter.RunStaysMatched` | backend/cmd/server/ratelimit.go:39-69 | Every reachable limiter is one to which that bound applies. |
| `RateLimiter.AnyWindowIsBounded` | backend/cmd/server/ratelimit.go:34-69 | Of a new limiter: in any window of any run a key passes at most 20 requests and 10 for every second of the window. |
| `RateLimiter.RefusedIff` | backend/cmd/server/ratelimit.go:39-69 | Of a new limiter, after any run: a request is refused if and only if some window begun by an earlier request of its key has let so many through that one more would exceed 20 and 10 a second. Nobody is refused without need. |
| `RateLimiter.SweepForgets` | backend/cmd/server/ratelimit.go:45-53 | Sweeps come at most every five minutes and drop exactly the buckets unused for over a minute. |
| `RateLimiter.RateLimiter.Allow` | backend/cmd/server/ratelimit.go:39-69 | The method, with its sweep loop, answers and updates as specified. |
| `Shifts.ActiveIffAnOccurrenceRuns` | backend/cmd/server/shifts.go:44-68 | A valid shift is on exactly when some occurrence of it runs, credited to the day that occurrence began. |
| `Shifts.OpenMinutesPerDay` | backend/cmd/server/reports.go:727-777 | The bitmap counts exactly the minutes at which an active shift is on, and a whole day when there is no active shift. |
| `Shifts.MarkShift` | backend/cmd/server/reports.go:758-770 | One shift marks its own minutes of the day and the tail of the night before, no others. |
| `Shifts.OpenIffAnOccurrenceRuns` | backend/cmd/server/reports.go:727-777 | A minute is open exactly when an occurrence begun that day or the day before runs at it. |
| `Shifts.CountIsSetSize` | backend/cmd/server/reports.go:727-777 | Overlapping shifts are counted once. |
| `Shifts.OpenMinutesOfADay` | backend/cmd/server/reports.go:727-777 | A day without active shift counts 1440 minutes, any other the minutes with an active shift. |
| `Shifts.MaskHoldsItsDays` | backend/cmd/server/shifts.go:38-68 | A mask built from days of the week, Monday first, holds exactly those days. |
| `Shifts.TemplateIsAcceptedIff` | backend/cmd/server/shifts.go:22-38 | A template is accepted exactly when it starts and ends at different minutes of a day and names a day of the week. |
| `Shifts.OpenMinutesInPeriod` | backend/cmd/server/reports.go:779-785 | A period is the sum of its days, both ends included. |
| `Bookings.SearchFindsEveryClash` | backend/cmd/server/bookings.go:29-48 | Because no booking exceeds eight hours, searching starts within a day finds every overlap a full scan would. |
| `Bookings.OverlapIff` | backend/cmd/server/bookings.go:27-31 | Two bookings overlap exactly when some moment belongs to both. |
| `Bookings.TimeIsCheckedFor` | backend/cmd/server/bookings.go:33-48 | Half an hour to eight hours, from a minute ago to thirty days ahead; otherwise the first failing rule is named. |
| `Bookings.NoDoubleBooking` | backend/cmd/server/bookings.go:123-165 | Over every run of creations, walk-ins, cancellations, restorations, seatings and sweeps live bookings of one machine never overlap. |
| `Bookings.BookingsNeverClash` | backend/cmd/server/bookings.go:123-165 | So from an empty book on. |
| `Bookings.RefusedIffAllBusy` | backend/cmd/server/bookings.go:132-149 | A wish in lawful time is refused exactly when every candidate really is taken. |
| `Bookings.CreationWrites` | backend/cmd/server/bookings.go:123-165 | One confirmed booking on the first candidate without a live booking in that time, or nothing. |
| `Bookings.CancelAndRestoreWrite` | backend/cmd/server/admin.go:615-768 | Only a live booking is cancelled; only a cancelled one restored, and only if its time is free. |
| `Bookings.SeatingWrites` | backend/cmd/server/booking_rules.go:162-188 | Seating uses up a booking exactly if the machine's next one is the guest's own and begins within the lock. |
| `Bookings.SweepWrites` | backend/cmd/server/booking_rules.go:101-160 | A live booking late by the limit becomes seated if the guest has a session in that club and no-show if not; all others stay as they are. |
| `Bookings.NextIsEarliest` | backend/cmd/server/booking_rules.go:60-71 | The next booking is live, not over and the earliest such; there is one if there is any such. |
| `Bookings.DelayedCreateKeepsIff` | backend/cmd/server/bookings.go:123-165 | Inserting on a machine that an earlier search found free keeps bookings disjoint exactly when no clashing one was written or revived since. |
| `Bookings.DelayedRestoreKeepsIff` | backend/cmd/server/admin.go:737-768 | Restoring, whose update asks nothing, keeps them disjoint exactly when no other clashing one was written or revived since the check. |
| `Bookings.NextRelevantBooking` | backend/cmd/server/booking_rules.go:60-71 | The earliest live booking of the machine that has not ended. |
| `Bookings.NextBookingComesFirst` | backend/cmd/server/booking_rules.go:60-71 | It is over before any other booking still to come begins, so no other can be meant. |
| `Bookings.PlanFitsIff` | backend/cmd/server/booking_rules.go:40-48 | A plan passes the seating rule exactly when it ends, with the buffer, by the start of the booking. |
| `Bookings.LockBegins` | backend/cmd/server/booking_rules.go:50-54 | The machine is held from the second that is the lock before the booking. |
| `Bookings.ReadyWindowEndsBeforeLockIff` | backend/cmd/server/billing.go:205-212 | Waiting for a guest never runs into the booking the seating rule saw exactly when wait plus lock is no longer than plan plus buffer. |
| `Bookings.BookingTable.CreateBooking` | backend/cmd/server/bookings.go:58-165 | The search loop and the choice of a machine on the rows. |
| `Bookings.BookingTable.RestoreBooking` | backend/cmd/server/admin.go:737-768 | A cancelled booking returns only if its time is still free. |
| `Bookings.BookingTable.BookingSweep` | backend/cmd/server/booking_rules.go:101-160 | The sweep over the rows marks late guests seated, if they have a session in the booking's club, or no-show. |
| `Stockroom.FlowIsForward` | backend/cmd/server/kitchen.go:44-60 | The status flow only goes forward, may skip stages, and never passes through a cancellation. |
| `Stockroom.OrderWrites` | backend/cmd/server/kitchen.go:134-213 | What an order writes and when it is accepted. |
| `Stockroom.SaleWrites` | backend/cmd/server/goods.go:430-508 | What a counter sale writes and when it is accepted. |
| `Stockroom.CorrectionWrites` | backend/cmd/server/goods.go:305-356 | A correction changes stock by exactly what is asked, unless nothing, a negative supply or more than there is. |
| `Stockroom.VoidWrites` | backend/cmd/server/goods.go:611-651 | A void gives the pieces of the sale back to its good, once. |
| `Stockroom.CancelWrites` | backend/cmd/server/kitchen.go:257-293 | A cancellation gives the pieces back; staff until handing over, the guest while the order is new. |
| `Stockroom.MoveWrites` | backend/cmd/server/kitchen.go:366-394 | An order moves forward if nobody moved it since it was read. |
| `Stockroom.PaymentWrites` | backend/cmd/server/kitchen.go:408-464 | A handed over unpaid order is paid by one sale of the same pieces and total. |
| `Stockroom.GoodWrites` | backend/cmd/server/goods.go:129-178 | A new good starts with its stock, and with a move if there is any. |
| `Stockroom.EditWrites` | backend/cmd/server/goods.go:202-265 | A price-list edit changes price and activity, never stock. |
| `Stockroom.RunKeepsSound` | backend/cmd/server/goods.go:338-508 | Over any run of supply, correction, sale, void, order, status, cancel and pay steps stock is the sum of its moves and not negative, and every order and sale accounts for its own moves. |
| `Stockroom.ShopsStaySound` | backend/cmd/server/goods.go:338-508 | So from an empty shop on. |
| `Stockroom.UnitsReturnAtMostOnce` | backend/cmd/server/kitchen.go:257-293 | An order's units are out or back, back exactly if it was cancelled or its sale voided, and never both. |
| `Stockroom.SaleOfOneOrder` | backend/cmd/server/kitchen.go:437-464 | No sale pays for two orders. |
| `Stockroom.RefundGoesToThePayer` | backend/cmd/server/goods.go:619-635 | The sale that paid an order names its guest and its price, so a void returns them to him. |
| `Stockroom.RunIsFinal` | backend/cmd/server/kitchen.go:257-464 | Paid orders keep their sale, statuses never go back, voided sales stay voided. |
| `Stockroom.LaterAttemptsDoNothing` | backend/cmd/server/kitchen.go:437-464 | A paid or cancelled order is not paid, cancelled or moved again, a voided sale not voided again, whatever happens in between. |
| `Stockroom.SavingKeepsStockIff` | backend/cmd/server/goods.go:202-265 | A price-list edit that writes its whole row back keeps stock equal to its moves exactly when stock did not change since it was read. |
| `Stockroom.ShopTables.CorrectStock` | backend/cmd/server/goods.go:305-362 | Supply or correction on the rows, refused below zero. |
| `Stockroom.ShopTables.Sell` | backend/cmd/server/goods.go:430-513 | A counter sale on the rows: one row, price times pieces, the pieces out of stock; accepted exactly up to 99 pieces that are there. |
| `Stockroom.ShopTables.VoidSale` | backend/cmd/server/goods.go:597-656 | A void on the rows, with the refund of a wallet sale to the guest the sale names. |
| `Stockroom.ShopTables.PlaceOrder` | backend/cmd/server/kitchen.go:134-213 | An order on the rows: one row, new and unpaid, price times pieces, the pieces out of stock; accepted exactly up to five pieces that are there. |
| `Stockroom.ShopTables.CancelOrder` | backend/cmd/server/kitchen.go:257-293 | A cancellation returns the units, from an open status only. |
| `Stockroom.ShopTables.PayOrder` | backend/cmd/server/kitchen.go:408-464 | Payment after handing over, together with the wallet charge or not at all. |

## Left out
- HTTP, JSON, database access, permissions, notifications, warnings to guests, audit log and live events: side messages around the transactions that are modelled.
- The width of integers: amounts are unbounded here.
- Floating point: hourly rates and prices are whole grosz, redemption prices and burn shares are taken exactly, and the level curve uses the exact power; rounding errors of the machine's powers and divisions are not modelled. How a discounted hourly rate and the coins for a deposit or a session are rounded is an input.
- Random drops of cases, talents and ranks: their results are inputs.
- Time zones and daylight saving: a package's days are 86400 seconds, a day has 1440 minutes.
- Failures of the database, except that a refused transaction leaves no trace.
- Order of package rows that tie on expiry and purchase time: the order of the table is used.
- `billingSweep`: the loop over active sessions, a failed tick that is tried again, and active minutes; each tick is one call here.
- The development override of a session's minutes.
- `nextForeignBooking`: the start of the next foreign booking is an input of a tick.
- Freshness of the idle sensor: a tick is told the idle time or that it is unknown.
- Deletion of goods and machines, price list fields other than price and activity, the choice between clubs when a session is moved.
- Checks made on a reading alone: expiry of a case, activity of a good, limit of open orders, limits on bookings, freezes in stock. The steps allow more runs than the program does.
- Runs of whole sessions (`SessionRun`, `Playtime`, `SessionEnd`, `Grace`, `Restart`) use ticks that have just read the row and finish at the tick's own moment; `LateTick` has the tick on an old copy that reads the clock again to finish, and says what it keeps. Presses of a button and resumes read and write the row in one step there.
- Reading the coin minutes and lowering them in a redemption void: taken as one step.
- Manual wallet adjustments: an operation of that kind is allowed in `Wallet.OpsKeepExplained`, but no handler performs one.
- The hub's writer and reader loops, message handling and the administrators' channel: a channel's reader is an input; sending is one step under the lock.
- Reports other than opening hours, chat, catalog, club map, onboarding, tokens, the shell and the agent.
- GuestLedger.RunAgreesThroughoutIff: covers one guest; the shared package table of several guests is covered by `Settlement.DrawsOnlyOwnLivePackages`.
- SessionLedger.RunKeepsBalanced: its settlements read the stored row; `SessionLedger.SettleFromKeepsBalancedIff` says when others keep the ledger.
- Slicing.SettleTwiceIsOnce: compares everything but the journal, which has one row for each charge, and asks that the same packages are live at both moments.

# Profit Bliss back end: the money-and-status state machine

This project models the bookkeeping core of the Profit Bliss investment back end, an
Express/Prisma service, and proves properties of it in Dafny. Users sign up and get a
wallet with balance 0. They deposit (a pending request), withdraw (a pending request; the
amount leaves the wallet at once and is held) and subscribe to investment plans (the
principal leaves the wallet and an active investment is recorded). Administrators approve
or reject requests and edit plans. Three scheduled jobs move statuses and money:

- the daily maturity settlement pays out principal plus ROI;
- the ten-minute expiry marks stale pending requests expired;
- the per-minute deposit job completes and credits every pending deposit.

The database is one value, `Domain.State`. It holds one map per table, from primary key to
row, and the next auto-increment id of each table. Wallets are keyed by the owner's user
id, because `userId` is unique on that table. Amounts are exact `real`s, so
`amount * roi / 100` needs no rounding. Timestamps are integers counting milliseconds.

Each handler and each job is a function from the store before to the store after and the
response (`Reply`). Its contract says:

- which error answers leave the store unchanged;
- which rows a success adds, changes or removes;
- that nothing else changes;
- that the store's integrity (`Domain.Valid`) is kept.

The class `Store.Store` holds the same tables as fields. It has one method per handler and
per job. Each method performs the store updates the code performs, in the same order, with
the loops of the jobs written as loops. Its contract ties the new contents of the fields to
the function above applied to the old contents. The lemmas beside the functions relate
several calls: round trips, idempotence, sums over a sweep, and the lost update.

Behaviours of the code that the model keeps as written:

- Approvals and rejections check neither the status nor the kind of a transaction. A
  second approval of the same deposit credits its amount again
  (`Admin.ApproveDepositTwiceCreditsTwice`).
- Amounts are validated by JavaScript truthiness, not by `amount > 0`, so a negative
  withdrawal passes and raises the balance (`Transactions.NegativeWithdrawRaisesBalance`).
- An error in one iteration of a sweep leaves the loop. The iterations before it keep
  their effects, and the rows after it are not visited.
- The settlement writes a balance computed from the snapshot read before the loop instead
  of incrementing the current one. See "Findings".
- The deposit job gives each deposit the status `completed`, while an administrator's
  approval gives `approved`.
- A withdrawal request creates the transaction first and decrements the wallet second.

## Model

| member | source | states |
|---|---|---|
| Domain.Credit | src/routes/admin.js:37-40 | a store `increment`: only the owner's wallet changes, and its balance moves by exactly `delta` |
| Transactions.RequestDeposit | src/routes/transactions.js:9-32 | fails (400) exactly when the amount is absent or 0 or the method is absent or empty, and then nothing changes; otherwise exactly one new pending deposit of the caller with the given amount and method, created now, and no balance changes |
| Transactions.RequestWithdraw | src/routes/transactions.js:35-76 | a missing field gives 400 with no change; no wallet or balance < amount gives "Insufficient balance" with no change; success exactly when all fields are given and balance ≥ amount; one new pending withdrawal carrying the address; the caller's balance drops by exactly the amount; other wallets are untouched; the balance stays ≥ 0 |
| Transactions.NegativeWithdrawRaisesBalance | src/routes/transactions.js:39-69 | truthiness validation lets a negative amount through, and the "escrow" decrement then raises the caller's balance |
| Transactions.ListOwn | src/routes/transactions.js:79-90 | exactly the caller's transactions, each once, with `createdAt` non-increasing |
| Investments.Subscribe | src/routes/investments.js:9-48 | checks in the order plan (404), minimum (400), wallet (404), balance (400), each failure changing nothing, and every failure answered with exactly that status code; success exactly when all pass; the balance drops by exactly the amount and stays ≥ 0; other wallets are untouched; one new active investment of the caller and plan, starting now and ending `duration` days later |
| Investments.SubscribeScenario | src/routes/investments.js:22-44 | a subscription of 100 to a plan (min 100, ROI 30, 7 days) from a wallet of 500 leaves 400, and the investment ends 604 800 000 ms later |
| Investments.ListActive | src/routes/investments.js:51-58 | exactly the caller's active investments, each once, with `startDate` non-increasing |
| Investments.ListHistory | src/routes/investments.js:61-68 | exactly all the caller's investments, each once, with `startDate` non-increasing |
| Investments.ActiveWithinHistory | src/routes/investments.js:51-68 | every row of the active listing is in the history listing |
| Investments.SubscribeListedActive | src/routes/investments.js:36-56 | a successful subscription appears in both the active and the history listing |
| Admin.Decide | src/routes/admin.js:28-47 | an unknown id fails (500) with no change; otherwise the status is written without looking at the old status or the kind; with a credit and a wallet, only the owner's balance moves, by exactly the amount; with a credit and no wallet, the status write stays and the response is 500 |
| Admin.ApproveDeposit | src/routes/admin.js:28-47 | an unknown id fails with no change; otherwise the status becomes `approved` whatever it was; with the owner's wallet present the balance rises by exactly the amount and no other wallet changes, without it the call fails after the status update; no table but transactions and wallets changes |
| Admin.RejectDeposit | src/routes/admin.js:49-63 | status `rejected`; every wallet is unchanged |
| Admin.ApproveWithdrawal | src/routes/admin.js:82-96 | status `approved`; every wallet is unchanged, because the amount was taken at request time |
| Admin.RejectWithdrawal | src/routes/admin.js:98-117 | an unknown id fails with no change; otherwise the status becomes `rejected` whatever it was; with the owner's wallet present the balance rises by exactly the amount (the refund) and no other wallet changes, without it the call fails after the status update; no table but transactions and wallets changes |
| Admin.ApproveDepositTwiceCreditsTwice | src/routes/admin.js:32-40 | with no status guard, approving one deposit twice credits its amount twice |
| Admin.WithdrawThenRejectRestores | src/routes/admin.js:102-110 | a successful withdrawal request followed by its rejection gives every wallet back its balance from before the request |
| Admin.WithdrawThenApproveKeepsDebit | src/routes/admin.js:86-89 | a successful withdrawal request followed by its approval leaves the caller exactly the amount poorer and every wallet as after the request |
| Admin.ListDeposits | src/routes/admin.js:14-26 | exactly the deposits, each once, with `createdAt` non-increasing |
| Admin.ListWithdrawals | src/routes/admin.js:68-80 | exactly the withdrawals, each once, with `createdAt` non-increasing |
| Admin.ListPlans | src/routes/admin.js:122-133 | exactly all plans, each once, with `createdAt` non-increasing |
| Admin.CreatePlan | src/routes/admin.js:136-155 | a taken name fails (500) with no change; otherwise exactly one new plan with the given fields |
| Admin.UpdatePlan | src/routes/admin.js:158-179 | an unknown id or a name taken by another plan fails with no change; otherwise only that plan changes: the three numbers are written, name and description are kept when absent, id and creation time are kept |
| Admin.DeletePlan | src/routes/admin.js:182-195 | an unknown id fails with no change; otherwise exactly that plan is removed and every other plan is unchanged |
| Maturity.RunSettle | src/server.js:50-61 | the settlement loop: the rows before the first unsettleable one are settled, the loop stops there, and only balances and investment statuses change; the balance each wallet ends with is given by `Maturity.RunSettleBalance` |
| Maturity.RunSettleStep | src/server.js:50-61 | one iteration followed by the rest of the loop is the whole loop |
| Maturity.RunSettleEffects | src/server.js:50-61 | settled investments become `completed`; unvisited investments are untouched; no investment changes anything but its status; wallet ids are kept |
| Maturity.RunSettleSettled | src/server.js:50-60 | every row the sweep settled is `completed` afterwards, even when the order lists it twice |
| Maturity.RunSettleUnreached | src/server.js:50-61 | an investment the sweep did not settle is untouched |
| Maturity.RunSettleFrame | src/server.js:50-60 | the sweep changes only investment statuses and wallet balances; every other field stays |
| Maturity.RunSettleValid | src/server.js:37-67 | the settlement keeps the store's integrity |
| Maturity.RunSettleBalance | src/server.js:50-61 | for every wallet and every order: untouched if none of the owner's rows is settled; otherwise the balance is the snapshot balance plus the payout of the owner's last settled row, whatever the earlier rows paid |
| Maturity.RunSettleUntouched | src/server.js:50-61 | a sweep that settles none of the owner's rows leaves the owner's wallet as it was |
| Maturity.RunSettleLast | src/server.js:50-61 | a sweep whose settled row j is the owner's last settled row ends with the owner's balance at snapshot balance + payout of row j |
| Maturity.SettleSingle | src/server.js:51-59 | in any sweep, a settled investment whose owner has no other row in the order leaves that owner's balance at snapshot balance + amount + amount·roi/100, and the investment is `completed` |
| Maturity.LostUpdate | src/server.js:47-55 | with two matured investments of one user in one sweep, the balance ends at snapshot + the second payout only; the first payout is lost whenever it is non-zero |
| Maturity.SecondSweepSelectsNothing | src/server.js:42-60 | after a sweep that settled every matured investment, none is matured at the same `now`; every order that lists the new selection is empty, and a sweep over it changes nothing |
| Maturity.RunSettleIncrement | src/server.js:50-61 | the corrected loop, with each payout added to the current balance; it settles exactly the rows before the first unsettleable one, and stops at that row |
| Maturity.IncrementCreditsEveryPayout | src/server.js:50-61 | with increments, every balance rises by the sum of that user's payouts |
| Maturity.ExpireStale | src/server.js:70-89 | every pending transaction created at or before now − 1 h becomes `expired`; all others are untouched; no wallet changes (no refund of a held withdrawal); the count is the number of such rows |
| Maturity.ExpireIdempotent | src/server.js:75-81 | a second expiry at the same `now` finds nothing and changes nothing |
| Maturity.ExpiryBoundary | src/server.js:73-78 | the boundary is inclusive: exactly one hour old expires, one millisecond younger does not |
| DepositCron.RunDeposits | src/jobs/cron.js:16-33 | the deposit loop: each visited deposit gets status `completed`, then its owner's balance is incremented (balances given by `DepositCron.RunCreditsPrefix`); a missing wallet ends the loop after that deposit's status write |
| DepositCron.RunDepositsStep | src/jobs/cron.js:16-30 | one iteration followed by the rest of the loop is the whole loop, and a missing wallet stops it |
| DepositCron.RunCreditsPrefix | src/jobs/cron.js:16-33 | for every run, including one stopped by a missing wallet: each user's balance rises by exactly the sum of that user's deposits among the credited rows; the stopping row is not credited and earlier credits stay |
| DepositCron.RunCreditsSum | src/jobs/cron.js:24-27 | a run that gets through the list raises each user's balance by the sum of that user's deposits in it |
| DepositCron.RunTxAt | src/jobs/cron.js:16-21 | after a run, a transaction is `completed` exactly when the run reached it (the stopping one included); otherwise it is untouched |
| DepositCron.RunDepositsValid | src/jobs/cron.js:7-34 | the deposit job keeps the store's integrity |
| DepositCron.RunClearsPending | src/jobs/cron.js:12-27 | after a full run no pending deposit remains and withdrawals and non-pending deposits are untouched; every order that lists the new selection is empty, and a second run over it changes nothing |
| Signup.Signup | src/routes/auth.js:10-42 | a taken email gives 400 with no change; an absent email or password gives 500 with no change; success exactly otherwise; exactly one new user, whose password is the bcrypt digest at cost 10 and never the plain text, and its wallet with balance 0 under the same id; the token carries only id and email and lasts one day; existing users and wallets are unchanged |
| Signup.SignupTokenIsNotAdmin | src/routes/auth.js:31-35 | a signup token carries no role, so the administrator gate answers 403 to it |
| Signup.SignupThenReadWallet | src/routes/auth.js:19-29 | right after signup, the wallet read shows the new wallet with balance 0 |
| Signup.SignupTwiceRefused | src/routes/auth.js:14-15 | a second signup with the same email is refused and changes nothing |
| Middleware.Split | src/middleware/auth.js:6 | `split(" ")`: at least one piece, and no piece holds the separator |
| Middleware.JoinSplit | src/middleware/auth.js:6 | joining the pieces of a split gives the header back |
| Middleware.SplitJoin | src/middleware/auth.js:6 | splitting joined separator-free pieces gives the pieces back |
| Middleware.SplitAtFirst | src/middleware/auth.js:6 | the first piece runs up to the first separator, and the rest is the split of what follows |
| Middleware.BearerTokenIsSecondField | src/middleware/auth.js:5-6 | the token is the text between the first and second space, and there is none when the header has no space |
| Middleware.Authenticate | src/middleware/auth.js:4-19 | 401 exactly when there is no token or it is empty; 403 exactly when verification fails; otherwise `next` with the verified payload |
| Middleware.RequireAdmin | src/middleware/auth.js:22-27 | passes exactly when the user's role is `"admin"`, with the same user; otherwise 403 |
| Middleware.AdminRoute | src/middleware/auth.js:4-27 | both gates pass exactly when the token verifies and its role is `"admin"` |
| WalletRoute.ReadWallet | src/routes/wallet.js:10-28 | with a wallet, that wallet's id and balance; without one, id null and balance 0 |
| WalletRoute.ReadWalletIsOwn | src/routes/wallet.js:12-14 | the view depends only on the caller's own wallet |
| PlanSeeds.SeedListsWellFormed | src/routes/investmentPlans.js:15-22 | both seed lists name each plan once, and every minimum, ROI and duration is positive |
| PlanSeeds.KeyOf | src/routes/investmentPlans.js:26 | the `where: { name }` lookup: the only plan with that name |
| PlanSeeds.CreateFrom | src/routes/investmentPlans.js:28 | the `create` branch: exactly one new plan with the seed's fields |
| PlanSeeds.Overwrite | src/routes/investmentPlans.js:27 | the `update` branch: only that plan changes; it takes the seed's three numbers and keeps its description |
| PlanSeeds.UpsertOverwrite | src/routes/investmentPlans.js:25-29 | afterwards the seed's plan holds the seed's values; other names are untouched; no name changes; the update branch runs exactly when the name exists |
| PlanSeeds.OverwriteAll | src/routes/investmentPlans.js:24-30 | the seed loop: only plans are touched; plans with names not in the list are unchanged; new plans carry listed names |
| PlanSeeds.OverwriteAllFits | src/routes/investmentPlans.js:24-30 | after the loop, each listed name holds exactly its listed values, overwriting earlier ones |
| PlanSeeds.OverwriteAllFitsAt | src/routes/investmentPlans.js:24-30 | the same, for the i-th entry |
| PlanSeeds.OverwriteAllNoop | src/routes/investmentPlans.js:24-30 | when every listed plan already holds its values, the loop changes nothing |
| PlanSeeds.RouteSeedFits | src/routes/investmentPlans.js:15-30 | after the seed route, each of the six names exists with exactly its listed minimum, ROI, duration and, where listed, description |
| PlanSeeds.RouteSeedIdempotent | src/routes/investmentPlans.js:24-30 | running the seed route twice leaves the store as running it once |
| PlanSeeds.AllPlans | src/routes/investmentPlans.js:8-11 | the plan listing: every plan and nothing else; it changes nothing |
| PlanSeeds.RouteSeedListed | src/routes/investmentPlans.js:8-30 | after the seed route, the listing offers each of the six plans with its listed values |
| PlanSeeds.UpsertKeep | prisma/seed.js:35-39 | `update: {}`: an existing name leaves the store as it was; a missing one is created |
| PlanSeeds.KeepAll | prisma/seed.js:34-40 | the script's loop: every plan that existed before is unchanged, and new plans carry listed names |
| PlanSeeds.KeepAllNamed | prisma/seed.js:34-40 | after the loop every listed name exists |
| PlanSeeds.KeepAllCreates | prisma/seed.js:10-38 | a listed name that was missing is a plan with exactly the listed fields |
| PlanSeeds.KeepAllNoop | prisma/seed.js:34-40 | when every listed name exists, the loop changes nothing |
| PlanSeeds.ScriptSeedResult | prisma/seed.js:10-40 | after `main`, Starter Plan, Pro Plan and Elite Plan exist, and those that were missing hold exactly their listed fields |
| PlanSeeds.ScriptSeedIdempotent | prisma/seed.js:34-40 | running the script twice leaves the store as running it once |
| Listing.SelectNewest | src/routes/transactions.js:81-84 | an `orderBy: desc` read: each selected key once, with times non-increasing |
| Store.Store.Signup | src/routes/auth.js:10-42 | the new tables and the response are those of `Signup.Signup` on the old tables |
| Store.Store.RequestDeposit | src/routes/transactions.js:9-32 | the new tables and the response are those of `Transactions.RequestDeposit` |
| Store.Store.RequestWithdraw | src/routes/transactions.js:35-76 | the transaction is created, then the wallet is decremented; the result is `Transactions.RequestWithdraw` |
| Store.Store.Subscribe | src/routes/investments.js:9-48 | the wallet is decremented, then the investment is created; the result is `Investments.Subscribe` |
| Store.Store.Decide | src/routes/admin.js:28-117 | the status is written, then the wallet is incremented; the result is `Admin.Decide` |
| Store.Store.ApproveDeposit | src/routes/admin.js:28-47 | the result is `Admin.ApproveDeposit` |
| Store.Store.RejectDeposit | src/routes/admin.js:49-63 | the result is `Admin.RejectDeposit` |
| Store.Store.ApproveWithdrawal | src/routes/admin.js:82-96 | the result is `Admin.ApproveWithdrawal` |
| Store.Store.RejectWithdrawal | src/routes/admin.js:98-117 | the result is `Admin.RejectWithdrawal` |
| Store.Store.CreatePlan | src/routes/admin.js:136-155 | the result is `Admin.CreatePlan` |
| Store.Store.UpdatePlan | src/routes/admin.js:158-179 | the result is `Admin.UpdatePlan` |
| Store.Store.DeletePlan | src/routes/admin.js:182-195 | the result is `Admin.DeletePlan` |
| Store.Store.SettleMatured | src/server.js:37-67 | selects exactly the active investments with end date ≤ now, then loops over them from the snapshot; the store afterwards and the count are `Maturity.RunSettle` |
| Store.Store.SettleEach | src/server.js:50-61 | the loop over the snapshot's rows, one iteration at a time; the result is `Maturity.RunSettle` |
| Store.Store.ExpireStale | src/server.js:70-89 | the `updateMany`; the result and the row count are `Maturity.ExpireStale` |
| Store.Store.ProcessPendingDeposits | src/jobs/cron.js:7-34 | selects exactly the pending deposits, then loops over them; the result is `DepositCron.RunDeposits` |
| Store.Store.CompleteEach | src/jobs/cron.js:16-30 | the loop: status write, then increment, stopping at a missing wallet; the result is `DepositCron.RunDeposits` |
| Store.Store.UpsertOverwrite | src/routes/investmentPlans.js:25-29 | one overwriting upsert; the result is `PlanSeeds.UpsertOverwrite` |
| Store.Store.UpsertKeep | prisma/seed.js:35-39 | one keep-existing upsert; the result is `PlanSeeds.UpsertKeep` |
| Store.Store.OverwriteEach | src/routes/investmentPlans.js:24-30 | the upsert loop in list order; the result is `PlanSeeds.OverwriteAll` |
| Store.Store.KeepEach | prisma/seed.js:34-40 | the upsert loop in list order; the result is `PlanSeeds.KeepAll` |
| Store.Store.SeedPlansOverwrite | src/routes/investmentPlans.js:14-33 | the seed route over its six plans; the result is `PlanSeeds.OverwriteAll` |
| Store.Store.SeedPlansKeep | prisma/seed.js:6-43 | the seed script over its three plans; the result is `PlanSeeds.KeepAll` |

## Left out

- HTTP plumbing (routing, `res.status().json()`, server start-up, route mounting) is left out. Each handler returns a `Result`, and `Domain.HttpStatus` maps each failure to its status code.
- Logging (`console.log`/`console.error`) and the `catch` blocks of the jobs are left out. A job's error only ends its loop, and that is modelled.
- bcrypt and JWT are opaque. A digest keeps its input and its cost. A token keeps its payload and its lifetime. Token verification is the parameter `verify` of `Middleware.Authenticate`, and the model makes no claim about secrets or expiry.
- The cron expressions, clocks and `Date.now()` are left out. Each job takes `now` as a parameter.
- Concurrency is left out: requests and jobs run one at a time. The lost update kept in the model is the sequential one inside a single sweep.
- JavaScript coercion is left out: `parseFloat`/`parseInt`, `NaN`, `parseId`, and comparing a string amount with a number. Amounts are `real`s and ids are integers.
- `Investments.Subscribe`: `amount` is always a number. An absent `amount` in the request body is not modelled.
- The end date of an investment: `setDate(getDate() + d)` is modelled as adding `d` whole days of 86 400 000 ms. Daylight-saving days are not modelled.
- `Admin.UpdatePlan`: the three numbers are always given. `parseFloat(undefined)` writing `NaN` is not modelled.
- Foreign keys are not checked on create: a transaction or investment for a user id with no user row is accepted.
- `Admin.DeletePlan`: it does not model the store refusing to delete a plan that investments still reference. The settlement treats an investment whose plan is gone as a row that makes the loop throw.
- The `include: { plan: true }` and `include: { user: true }` joins of the listings are left out. Listings return the rows themselves.
- `Listing.SelectNewest`: the store gives no order among rows with equal timestamps. The model breaks ties by the larger key, which is one of the orders the store may return.
- `Store.Store.SettleMatured`: the store returns the matured rows in no particular order. The method processes them by end date, newest first, and returns that order. Every lemma about `Maturity.RunSettle` holds for any order that lists the selected rows.
- `Store.Store.ProcessPendingDeposits`: likewise, the method processes pending deposits newest first and returns that order. The lemmas about `DepositCron.RunDeposits` hold for any order.
- src/routes/plans.js and src/middleware/admin.js are not part of this model: the first duplicates plan create and list, and the second is not used by the modelled routes.
- The email utilities (src/utils/email.js, utils/email.js, sendgridTest.js) are only I/O and are not part of this model.
- Login, verification codes and password change are not part of the modelled source files.

## Findings

| source | as written | input that shows it | evidently intended | confidence | as-written member | corrected member |
|---|---|---|---|---|---|---|
| src/server.js:54 | each iteration of the maturity sweep sets the balance to the pre-loop snapshot's balance + principal + profit | one user with two matured investments a ≠ b in one sweep, both with plan and wallet, with a payout of a ≠ 0: the balance ends at snapshot + payout of b, and the payout of a is lost | each payout is added to the current balance (an `increment`), so the user receives both payouts | high (not executed) | Maturity.LostUpdate | Maturity.IncrementCreditsEveryPayout |

The store methods model the code as written, so `Store.Store.SettleMatured` is bound to `Maturity.RunSettle`. `Maturity.RunSettleIncrement` is the corrected loop, and `Maturity.IncrementCreditsEveryPayout` proves that it credits every payout.

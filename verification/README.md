# Verified models of the platform core

Dafny 4.11 models of the parts of the platform whose correctness depends on more than one function at a time:
the double-entry credit ledger and the two jobs that run on it, recovery of tenants from failed nodes, the node
lifecycle, the rollout engine, backup retention and the per-bot lock. `dafny verify dfyconfig.toml` checks everything.

## What is modelled

**Ledger** (`src/credits/ledger.ts`). `LedgerBooks` says what one call of `post`, `credit`, `debit` or `debitCapped` does to
the accounts, balances and journal (`Exec`), errors included. `Ledger.DrizzleLedger` is the imperative code, proved equal to
it. `LedgerInvariants` has what every call keeps, `LedgerEffects` what the three wrappers record, charge and accept in terms
of their arguments, `LedgerRefusals` why a call is refused. `LedgerSteps` breaks a call into the statements it sends to the
database; `LedgerLocking` lets any number of calls interleave statement by statement, with row and unique-key locks held to
commit or rollback and connections that may die; `LedgerConcurrency`, `LedgerUnchecked`, `LedgerDeadlock`, `LedgerHazard`,
`LedgerStandstill` and `LedgerStaleCheck` prove what holds of every schedule, and exactly when it stops holding.
`CreditExpiryCron` and `DividendCron` are the two jobs, `CreditExpiryRuns` runs of the first among other transactions.

**Node failure** (`src/fleet/recovery-manager.ts`, the node, bot and recovery repositories). `RecoveryTables` has the tables,
`RecoverySteps` one tenant's attempt and the first round, `RecoveryRetries` and `RecoveryFates` the retry of waiting rows,
`RecoveryEvents` the events' counters, `RecoveryVisits` visits to open events and passes over them, `Recovery` the
`RecoveryManager`, `RecoveryHazard` what goes wrong when a node is recovered twice. `NodeLifecycle` has the status graph, the
compare-and-swap with its audit log under any interleaving, and the node repository.

**Rollouts** (`src/fleet/rollout-*.ts`): `RolloutStrategies`, `Rollout` and `RolloutOrder`. **Backups**
(`src/backup/spaces-retention.ts`): `IsoWeek`, `RetentionPolicy` and `Retention`. **Locks** (`FleetManager.withLock`):
`BotLock`.

Calls to agents, containers, object storage and the outside world become parameters that say whether they succeed
(`replies`, `works`, `fails`, `failure`), over all values of which the theorems quantify. Times are integers.

## What the proofs brought to light

- A `post` inserts its journal header before it locks accounts, `debitCapped` after. If one of each runs with the same
  `referenceId` they can deadlock; `LedgerHazard.DeadlockIffLocksInReverse` gives the exact condition on the two inputs and
  `DeadlockIsReachable` a ledger with a grant on which a purchase and an expiry meet it. For any number of calls
  `LedgerStandstill.DeadlockIffJams` reduces the question to where each call can be stopped when it runs alone.
- The `balanceCheck` of `post` (comment at `src/credits/ledger.ts:437-438`) is protected by a lock only if the checked tenant's
  account is among the lines. `LedgerStaleCheck.SerialIffCheckIsProtected` shows that this is the exact condition; `debit`
  meets it. A check that goes stale can let an entry through, but never unbalances the books
  (`LedgerUnchecked.ConcurrentBooksStayConsistent`).
- `debitCapped` on a negative balance, or with a cap of zero or less, posts amounts that are not positive
  (`LedgerInvariants.CappedPostsPositiveAmountsIff`, reached in two calls by `NegativeAmountIsReachable`), although the schema
  says amounts are always positive.
- The expiry run is to take the grant, or what remains of it (`src/credits/credit-expiry-cron.ts:17-22`). If the tenant is in
  debt, as gateway charges, refunds and phone bills may leave it, the run posts a negative amount and the debt is forgiven:
  it raises a balance exactly when that is negative and a grant of the tenant is called
  (`CreditExpiryCron.RaisesBalanceIff`); `CreditExpiryRuns.DebtIsForgiven` gets there from a grant and a larger debit.
- The node state machine promises that nothing else changes a status (`src/fleet/node-state-machine.ts:5-6`). `markFailed` and
  `updateHeartbeatWithStatus` do; the audit log survives them exactly when the written status is the one already there.
- A second recovery of a node for which tenants still wait can leave more waiting rows than bots; whatever the replies, none
  results exactly when nobody waited before (`RecoverySteps.AlwaysKeepsBackingIff`). A retry of an event is sure to keep its
  counters right exactly when each tenant waiting in it has more bots on the node than can be placed before its last row
  (`RecoveryEvents.RetryAlwaysSettlesIff`). Otherwise it can mark the event completed while rows wait, and the event is not looked
  at again (`CompletedTooEarlyIff`); `RecoveryHazard.StrandRow` gets there in seven calls.
- `skipped` in a rollout result is the number of untouched bots exactly when the strategy is immediate or the first update of
  every bot works; otherwise it is smaller and can be negative (`Rollout.SkippedIsRightIff`, `SkippedCanBeNegative`).
- The percentage of a rolling wave decides when a rollout pauses, not what it does: any two percentages give the same updates
  in the same order and the same result (`RolloutOrder.WaveSizeDoesNotMatter`).
- A dividend run that fails after its first payment is never completed: later runs for the date see its entries and skip. A
  tenant ends with a dividend for the date exactly when the first run in which any payment succeeded paid it
  (`DividendCron.DividendIffFirstPaymentPaid`); `TenantIsNeverPaid` is a case.
- Week keys sort by string. Across a change in the number of digits of the year this agrees with time for some years only
  (`IsoWeek.KeyOrderAcrossDigits`; of the years 1000 to 9999, only 1000 sorts before 10000). The newest weeks are kept exactly
  when their keys are the greatest (`RetentionPolicy.KeepsNewestWeeksIff`); years before 1000 break it
  (`Retention.OlderYearIsKept`).

## Model

| member | source | states |
|---|---|---|
| LedgerBooks.SortLinesIsFaithful | src/credits/ledger.ts:419-425 | putting lines in locking order is a permutation sorted by account code that moves every account and both column totals by the same amounts |
| Ledger.DrizzleLedger.ResolveAccounts | src/credits/ledger.ts:326-372 | locking codes in order reports the first code that is neither known nor a tenant's, else opens exactly the missing tenant accounts and zero balance rows |
| Ledger.DrizzleLedger.CheckLines | src/credits/ledger.ts:377-401 | the loop rejects exactly the entries with fewer than two lines, a non-positive amount, or unequal column totals, in that order |
| Ledger.DrizzleLedger.ApplyLines | src/credits/ledger.ts:453-494 | inserting line by line moves every balance by the net of all lines in its account's normal direction, even when an account occurs on several lines |
| Ledger.DrizzleLedger.Post | src/credits/ledger.ts:376-507 | the three phases leave the books and answer of one atomic entry, or the books untouched and the error that comes first; the books stay consistent. What the entry says is CreditIsJournaled, DebitIsJournaled and CappedIsJournaled, which error comes first PostRefusals |
| Ledger.DrizzleLedger.Credit | src/credits/ledger.ts:511-536 | a two-line entry from the type's funding account to the tenant, refused if the amount is not positive |
| Ledger.DrizzleLedger.Debit | src/credits/ledger.ts:538-563 | a two-line entry from the tenant to the type's account, with the tenant's balance checked unless negatives are allowed |
| Ledger.DrizzleLedger.LockPair | src/credits/ledger.ts:577-594 | both accounts are opened whichever of them sorts first |
| Ledger.DrizzleLedger.PostCapped | src/credits/ledger.ts:576-692 | the second copy of the posting protocol gives the books of one atomic entry over the lesser of cap and balance, or nothing on a zero balance |
| Ledger.DrizzleLedger.DebitCapped | src/credits/ledger.ts:565-693 | as PostCapped, for the account of the debit type |
| Ledger.DrizzleLedger.HasReferenceId | src/credits/ledger.ts:718-725 | found exactly when some entry carries the reference |
| Ledger.DrizzleLedger.CheckTrialBalance | src/credits/ledger.ts:990-1018 | on consistent books the audit either overflows 2^53-1 or reports balanced with difference 0 |
| Ledger.DrizzleLedger.TotalSpend | src/credits/ledger.ts:836-856 | the reported spend is what separates the tenant's credits from its balance |
| Ledger.DrizzleLedger.ExpiredCredits | src/credits/ledger.ts:895-935 | the loop lists exactly the grants of ListedIff, which says without the query which those are |
| Ledger.ListedIff | src/credits/ledger.ts:895-935 | a grant is listed exactly when some entry of its id and tenant has an expiry date not after now, one of the ten expirable types, the amount as its first credit line on a liability account, and no entry has the reference "expiry:" and its id |
| LedgerInvariants.SeededIsConsistent | src/credits/ledger.ts:302-324 | the books right after seeding the system accounts satisfy every invariant |
| LedgerInvariants.SeededIsFresh | src/credits/ledger.ts:302-324 | the seeded books have every system account that credits and debits use, and no balance or entry |
| LedgerInvariants.ExecKeepsConsistency | src/credits/ledger.ts:376-693 | every call, accepted or rejected, keeps cached balances equal to the journal, entries balanced, references unique and accounts well formed |
| LedgerInvariants.ExecAllKeepsConsistency | src/credits/ledger.ts:376-693 | the same over any sequence of calls |
| LedgerInvariants.AccountingIdentity | src/credits/ledger.ts:990-1018 | on consistent books total debits equal total credits and debit-normal balances add up to credit-normal ones |
| LedgerInvariants.SimplePostEffect | src/credits/ledger.ts:453-494 | an accepted two-line entry moves its tenant by the signed amount and no other tenant |
| LedgerInvariants.CappedEffect | src/credits/ledger.ts:596-676 | an accepted capped debit takes the balance b to max(0, b - cap) for every cap and balance, and touches no other tenant |
| LedgerInvariants.CappedPostsPositiveAmountsIff | src/credits/ledger.ts:604-609 | posted amounts are positive exactly when balance and cap are |
| LedgerInvariants.NegativeAmountIsReachable | src/credits/ledger.ts:596-609 | on a seeded ledger a debit that allows negatives and then a capped debit post a negative amount, the books staying consistent |
| LedgerInvariants.GuardedCallsDoNotOverdraw | src/credits/ledger.ts:437-451 | no credit, checked debit or capped debit takes any tenant below zero |
| LedgerInvariants.SpendIsConserved | src/credits/ledger.ts:805-856 | balance is credits minus lifetime spend, and lifetime spend is the members' usage plus unattributed debits |
| LedgerEffects.CreditIsJournaled | src/credits/ledger.ts:511-536 | an accepted credit appends one entry with the id, time, reference, user, type, tenant and expiry date of the call and two lines: the amount out of the type's account and into the tenant's |
| LedgerEffects.DebitIsJournaled | src/credits/ledger.ts:538-563 | an accepted debit appends one entry with the id, time, reference, user, type and tenant of the call and two lines: the amount out of the tenant's account and into the type's |
| LedgerEffects.CappedIsJournaled | src/credits/ledger.ts:616-676 | an accepted capped debit appends such an entry over what left the tenant's balance |
| LedgerEffects.DebitRaisesUsage | src/credits/ledger.ts:805-834 | an accepted debit for user u raises the usage of u with the tenant by the amount and that of no other member or tenant; without a user it raises only what is unattributed |
| LedgerEffects.CappedRaisesUsage | src/credits/ledger.ts:805-834 | the same for a capped debit and what it took |
| LedgerEffects.CreditIsNoUsage | src/credits/ledger.ts:805-834 | no credit changes anybody's usage |
| LedgerEffects.CreditAcceptedIff | src/credits/ledger.ts:511-536 | a credit is accepted exactly when it is positive, its reference unused and its funding account known |
| LedgerEffects.DebitAcceptedIff | src/credits/ledger.ts:437-451 | a debit is accepted exactly when besides the balance covers it and is at most 2^53-1, or negatives are allowed |
| LedgerEffects.CappedAcceptedIff | src/credits/ledger.ts:596-615 | a capped debit posts exactly on a non-zero balance of at most 2^53-1 with an unused reference and a known account, and takes nothing exactly on a zero one |
| LedgerEffects.ShortDebitIsRefused | src/credits/ledger.ts:446-450 | a debit that only lacks balance is refused with the balance and the amount, the books unchanged |
| LedgerEffects.AccountsTellTypes | src/credits/ledger.ts:149-173 | over any credits, debits and capped debits on a seeded ledger cash is purchases less refunds, each revenue account what its type took from tenants and each expense account what its types gave them, type by type and account by account; the other accounts stay empty |
| LedgerEffects.AccountingEquation | src/credits/ledger.ts:204-228 | after any calls on a seeded ledger the balances of asset and expense accounts add up to those of liability, equity and revenue accounts |
| LedgerRefusals.PostRefusals | src/credits/ledger.ts:377-451 | each reason exactly when: the line checks in order, then a reference in use, then the unknown account that comes first in the order of codes, and only then the balance |
| LedgerRefusals.CappedRefusals | src/credits/ledger.ts:577-625 | a capped debit is refused first for an unknown account, then for a balance above 2^53-1, and for its reference only if there is a balance to take |
| LedgerSteps.LockPhase | src/credits/ledger.ts:419-435 | locking account by account opens what opening them at once would, or stops at the first unknown code |
| LedgerSteps.ProgramComputesExec | src/credits/ledger.ts:376-693 | a call's statements, run without interruption, compute the atomic meaning of the call |
| LedgerLocking.RunIsIsolated | src/credits/ledger.ts:353-372 | in every schedule, with crashes, locks are held by one call at a time and each unfinished call has done just what it would have done alone on the books as committed now |
| LedgerConcurrency.ProgramsAreWellLocked | src/credits/ledger.ts:419-451 | both copies of the protocol use only rows they have locked by then |
| LedgerConcurrency.Serializability | src/credits/ledger.ts:353-372 | every schedule of any calls leaves the books and answers of running them one at a time in commit order, each finished call once |
| LedgerConcurrency.NoConcurrentOverdraft | src/credits/ledger.ts:437-451 | no interleaving of credits, checked debits and capped debits ever shows a negative tenant balance |
| LedgerUnchecked.AcceptedCallsExplainTheBooks | src/credits/ledger.ts:437-494 | whatever the calls and however stale their balance checks, every schedule leaves the books of its accepted calls, run one at a time in commit order without their checks |
| LedgerUnchecked.ConcurrentBooksStayConsistent | src/credits/ledger.ts:467-487 | in every state of every schedule of any calls the books satisfy the whole invariant: cached balances equal the journal, entries balance, references are unique |
| LedgerStaleCheck.UnprotectedCheckGoesStale | src/credits/ledger.ts:437-451 | for any acceptable entry whose checked tenant is not among its lines there are consistent books, a second call and a schedule whose result no run in commit order gives |
| LedgerStaleCheck.SerialIffCheckIsProtected | src/credits/ledger.ts:437-451 | on all consistent books, with any number of other protected calls, such an entry is always explained by commit order exactly when it checks an account it writes |
| LedgerDeadlock.NoWaitCycle | src/credits/ledger.ts:419-435 | no reachable state of any calls with unmixed references, whatever they check, has a circle of calls waiting for one another |
| LedgerDeadlock.NeverStuck | src/credits/ledger.ts:577-589 | while such calls are unfinished one of them can send its next statement |
| LedgerDeadlock.StepsShrinkRemaining | src/credits/ledger.ts:376-693 | every statement sent lowers the number of statements remaining |
| LedgerDeadlock.CanAlwaysFinish | src/credits/ledger.ts:577-589 | from every reachable state all calls can end within the remaining statements |
| LedgerHazard.DeadlockIffLocksInReverse | src/credits/ledger.ts:407-435 | a concurrent post and debitCapped can deadlock exactly when they share an unused reference and an account, the post reaches that account and the debit its header |
| LedgerHazard.DeadlockIsReachable | src/credits/ledger.ts:407-435 | on a seeded ledger with one grant, a purchase and an expiry under one reference can deadlock |
| LedgerStandstill.DeadlockIffJams | src/credits/ledger.ts:407-435 | any number of calls can deadlock exactly when, after some of them have run one at a time, others can each be stopped alone where no lock is held twice and each wants a lock of another |
| LedgerStandstill.DeadlockJamsUnchecked | src/credits/ledger.ts:437-451 | whatever balances the calls check, if they can deadlock they can be stopped like that when their checks are left out |
| CreditExpiryCron.RunCreditExpiryCron | src/credits/credit-expiry-cron.ts:23-67 | the loop leaves the books of clawing back each listed grant in turn; its counters partition the grants by the answers, errors name the refused and failed ones in order, the tenants named are just those something was taken from, once each; a run before every expiry date changes nothing |
| CreditExpiryCron.ClawBackIsJournaled | src/credits/credit-expiry-cron.ts:35-41 | a claw-back that takes something is an entry of type credit_expiry with reference "expiry:" and the grant's id that moves what left the balance to account 4060 |
| CreditExpiryCron.NothingExpiredYet | src/credits/ledger.ts:911-919 | before every expiry date no grant is listed |
| CreditExpiryCron.RunLeaves | src/credits/credit-expiry-cron.ts:31-57 | whatever a tenant's balance was and whichever calls fail, an undisturbed run leaves it as it was if nothing was called for or it cannot be read, and else what exceeds the called grants, nothing of a debt |
| CreditExpiryCron.TakesTheLesserIff | src/credits/credit-expiry-cron.ts:17-22 | the run takes the smaller of balance and called grants exactly when a debt comes with a call and a balance above 2^53-1 with none |
| CreditExpiryCron.RaisesBalanceIff | src/credits/credit-expiry-cron.ts:35-41 | the run raises a balance exactly when that is negative and a grant of the tenant is called |
| CreditExpiryRuns.DebtIsForgiven | src/credits/credit-expiry-cron.ts:31-46 | on a seeded ledger with a grant and a larger debit that may go negative, the run that expires the grant leaves the tenant owing nothing |
| CreditExpiryRuns.ExecKeepsDates | src/credits/ledger.ts:376-693 | no call posts an entry with an expiry date and an amount that is not positive |
| CreditExpiryRuns.AlwaysSweepable | src/credits/ledger.ts:302-324 | what the run assumes of amounts and accounts holds after any calls on a seeded ledger |
| CreditExpiryRuns.SecondRunPostsNothing | src/credits/credit-expiry-cron.ts:20-31 | after a run without failures a second one with the same time leaves the books as they are, debts or not |
| CreditExpiryRuns.RetryCatchesUp | src/credits/credit-expiry-cron.ts:53-57 | a run with any failures and then one without leave every balance as a single run without failures does |
| CreditExpiryRuns.AtMostOneExpiryEntry | src/credits/credit-expiry-cron.ts:38-41 | over any runs and other transactions in any order, whatever fails, a grant has at most one expiry entry |
| CreditExpiryRuns.ReclaimedIsNotListed | src/credits/ledger.ts:923-927 | once a grant has its expiry entry, no run after any runs and transactions lists it again |
| DividendCron.ActiveTenants | src/credits/ledger.ts:973-986 | exactly the tenants with a purchase in the window, each once |
| DividendCron.PayTenants | src/credits/dividend-cron.ts:82-95 | the payout loop leaves the books of crediting each tenant in turn, and its counters partition the tenants |
| DividendCron.RunDividendCron | src/credits/dividend-cron.ts:31-107 | the job skips exactly when some reference begins with "dividend:", the date and ":"; else its pool is the integer nearest to purchases of the day times the rate, halves up, and its count the tenants with a purchase from six days before through the day; shares are rounded down, errors are the payments refused or failed, at most the pool is paid and less than one unit per tenant left when nothing fails; overflow exactly beyond 2^53-1 |
| DividendCron.MultiplyIsNearest | src/credits/credit.ts:121-122 | the product with the rate is the nearest integer, halves up |
| DividendCron.ActiveAreBuyers | src/credits/dividend-cron.ts:56-60 | the active tenants are those with a purchase posted in the seven days that end with the date |
| DividendCron.PurchasesCount | src/credits/ledger.ts:947-971 | a credit raises a day's purchases by its amount exactly when it is a purchase posted on that day |
| DividendCron.DebitsDoNotCount | src/credits/ledger.ts:947-971 | no debit changes a day's purchases |
| DividendCron.CappedDebitsDoNotCount | src/credits/ledger.ts:947-971 | nor does a capped debit |
| DividendCron.PaymentIsJournaled | src/credits/dividend-cron.ts:83-88 | a payment is an entry of type community_dividend, with reference "dividend:", date, ":" and tenant, from account 5060 to the tenant |
| DividendCron.SharesFitPool | src/credits/dividend-cron.ts:71-71 | floor shares of any number of paid tenants fit the pool, and all of them leave less than the tenant count |
| DividendCron.RunPaysEachAtMostOnce | src/credits/dividend-cron.ts:82-95 | a paying run raises each tenant by the share or not at all, only active ones, in total by at most the pool |
| DividendCron.OneDateOnePool | src/credits/dividend-cron.ts:41-48 | any sequence of runs for a date among other transactions pays at most the pool of a single one of them |
| DividendCron.OneDividendPerTenant | src/credits/dividend-cron.ts:83-88 | a tenant gets at most one dividend for a date over all runs |
| DividendCron.RunPaysExactly | src/credits/dividend-cron.ts:41-95 | a run that is the first for its date gives a dividend exactly to the active tenants whose payment does not fail, and to nobody if pool, share or account is missing |
| DividendCron.AllPaidIff | src/credits/dividend-cron.ts:82-95 | every active tenant is paid exactly when no payment of the run fails |
| DividendCron.DividendIffFirstPaymentPaid | src/credits/dividend-cron.ts:41-48 | over any runs and other transactions a tenant ends with a dividend for the date exactly when the first run in which any payment went through paid it |
| DividendCron.TenantIsNeverPaid | src/credits/dividend-cron.ts:41-95 | of two buyers on a fresh ledger, the one whose payment fails in the first run has no dividend after any later runs |
| NodeLifecycle.NodeRepository.Transition | src/fleet/drizzle-node-repository.ts:57-95 | a missing node is reported, a status from which the target may not come is refused unchanged (MayBecome lists these by target), else status and log move together by one row; the audit invariant is kept |
| NodeLifecycle.EdgesIff | src/fleet/node-state-machine.ts:39-53 | the graph read by target: active comes from provisioning, unhealthy, returning or draining, offline from unhealthy, recovering or draining, returning from the three dead states, and so on |
| NodeLifecycle.SwapKeepsAudit | src/fleet/drizzle-node-repository.ts:72-91 | the compare-and-swap with log row keeps every node's log a path, however stale the read it acts on |
| NodeLifecycle.AuditHoldsInEveryRun | src/fleet/drizzle-node-repository.ts:57-95 | in every interleaving of read and swap halves each node's log is a gapless path of the graph from provisioning to its status, with one row for each successful call |
| NodeLifecycle.ReturningIsTheOnlyGate | src/fleet/node-state-machine.ts:8-9 | on any path of the graph, leaving a dead state and becoming active has a returning in between |
| NodeLifecycle.NoRunSkipsTheGate | src/fleet/node-state-machine.ts:39-53 | the gate holds for the log of any node in any interleaving |
| NodeLifecycle.MarkFailedKeepsAuditIff | src/fleet/drizzle-node-repository.ts:268-278 | the log still explains the statuses after markFailed exactly when the node is unknown or had failed already |
| NodeLifecycle.HeartbeatKeepsAuditIff | src/fleet/drizzle-node-repository.ts:285-296 | the log survives a heartbeat exactly when it carries no status or the current one |
| NodeLifecycle.NodeRepository.Register | src/fleet/drizzle-node-repository.ts:97-144 | a new node ends active and a dead one returning, any other keeps its status; usage and other nodes are untouched and the audit is kept |
| NodeLifecycle.NodeRepository.RegisterSelfHosted | src/fleet/drizzle-node-repository.ts:146-163 | a new node is provisioned and activated with one log row, a known id is refused unchanged |
| NodeLifecycle.NodeRepository.FindBestTarget | src/fleet/drizzle-node-repository.ts:184-198 | none exactly when no other active node has the room, else one with the most free capacity |
| NodeLifecycle.NodeRepository.AddCapacity | src/fleet/drizzle-node-repository.ts:175-182 | usage moves by the delta but not below zero, of that node only, and the log is untouched |
| RecoveryTables.ByTierIsOrdered | src/fleet/drizzle-bot-instance-repository.ts:116-135 | the listing holds exactly the node's bots, each once, in the order of their rank and then of their id |
| RecoveryTables.TiersInTurn | src/fleet/drizzle-bot-instance-repository.ts:128-133 | in that listing enterprise bots come before all others, pro before starter, free and untiered ones, starter before free and untiered ones, and within a tier smaller ids first |
| RecoveryTables.NoPlacementBeatsSlots | src/fleet/drizzle-node-repository.ts:184-198 | no assignment of tenants to active nodes that respects free capacity serves more than the sum of floor(free/100) |
| RecoveryTables.ChargingTakesOneSlot | src/fleet/drizzle-node-repository.ts:175-182 | charging an eligible node uses up one slot and leaves no node overcommitted that was not |
| RecoveryTables.BotInstanceRepository.FindByTenantAndNode | src/fleet/drizzle-bot-instance-repository.ts:145-151 | a matching bot, or none exactly when the tenant has none on the node |
| RecoverySteps.TriageIsOptimal | src/fleet/recovery-manager.ts:129-131 | after the first round nobody waits while there is room, and without command failures min(tenants, slots) are placed |
| RecoverySteps.WaitingComeLast | src/fleet/recovery-manager.ts:62-71 | everyone placed or failed is listed before everyone left waiting |
| RecoverySteps.ServedInTierOrder | src/fleet/recovery-manager.ts:62-71 | if an enterprise bot is left waiting, no bot of another tier was placed or failed, and so on down the tiers |
| RecoverySteps.TriageKeepsBackingIff | src/fleet/recovery-manager.ts:129-145 | a round keeps every waiting row a bot of its own exactly when, by the state before and the replies alone, as many bots of each tenant fail as rows of it waited for the node |
| RecoverySteps.AlwaysKeepsBackingIff | src/fleet/recovery-manager.ts:129-145 | over all replies a round keeps them backed exactly when nobody waited for the node before |
| RecoverySteps.WithoutSlotsBackedIff | src/fleet/recovery-manager.ts:129-145 | having no slot to use makes no difference: still exactly when nobody waited before |
| Recovery.RecoveryManager.RecoverTenant | src/fleet/recovery-manager.ts:167-245 | one attempt: waiting exactly when no other active node has 100 MB free, else on an active node with most room, moved and charged 100 MB if its commands work and failed without other effect if not; one item row either way |
| Recovery.RecoveryManager.StartRecovering | src/fleet/recovery-manager.ts:84-108 | an unhealthy, offline or recovering node ends recovering, any other is refused unchanged |
| Recovery.RecoveryManager.RecoverAll | src/fleet/recovery-manager.ts:129-131 | the loop keeps the greedy order, the slot count, one fresh row per tenant, the bots where the report says, and each tenant's balance of bots, waiting and failed |
| Recovery.RecoveryManager.TriggerRecovery | src/fleet/recovery-manager.ts:76-162 | an unhealthy, offline or recovering node is left offline with one new event whose counters add up and count its rows; nobody of a better tier waits while one of a lower tier was served, rows say what the report says, placements are as many as possible and follow from slots and replies, no node is overcommitted, backing is kept just when failures cover the rows waiting before; refusals change nothing |
| Recovery.RecoveryManager.RetryRow | src/fleet/recovery-manager.ts:300-325 | a waiting row without a bot is only reported, any other is closed as retried and followed by the row of its new attempt |
| Recovery.RecoveryManager.RetryWaiting | src/fleet/recovery-manager.ts:281-337 | every waiting row of the event is closed as retried and carried on by the next new row, with its tenant, one more try and the outcome of its reply, or left as it is if the node has no bot of the tenant any more; a new row waits only if no active node has 100 MB left; other rows stay, the counters move by the new rows, and the event stays settled exactly when the course misses no row |
| RecoveryFates.RunEnds | src/fleet/recovery-manager.ts:297-326 | so for the turns of any retry: which new row carries on which old one, with which reply, and that with enough bots nobody is left out |
| RecoveryFates.RetryCounts | src/fleet/recovery-manager.ts:328-334 | recovered grows by the new rows that recovered, failed by those that failed and the waiting rows without a new one, waiting is the new rows that wait |
| RecoveryEvents.RetryKeepsSettledIff | src/fleet/recovery-manager.ts:328-334 | after a retry recovered + failed + waiting still equals the total and waiting still counts the rows exactly when the course computed from the state before and the replies misses no row |
| RecoveryEvents.RetryAlwaysSettlesIff | src/fleet/recovery-manager.ts:297-334 | no replies make a retry miss a row exactly when each tenant with n rows waiting in the event has more than min(n - 1, slots) bots on the node |
| RecoveryEvents.CompletedTooEarlyIff | src/fleet/recovery-manager.ts:328-334 | a retry marks the event completed over waiting rows exactly when that course misses a row and leaves none waiting for room |
| RecoveryHazard.StrandRow | src/fleet/recovery-manager.ts:281-337 | two recoveries of a node without room, a node joining, and both events retried leave the second event completed with a row waiting |
| Recovery.RecoveryManager.FailExpiredWaitingItems | src/fleet/recovery-manager.ts:391-422 | exactly the given rows fail, the event's failures grow by their number, its waiting count is the rows left and its status follows; counters and backing are kept |
| Recovery.RecoveryManager.FinalizeEventIfComplete | src/fleet/recovery-manager.ts:427-440 | an event becomes completed exactly when nobody waits in it |
| Recovery.RecoveryManager.VisitEvent | src/fleet/recovery-manager.ts:352-379 | of the rows waiting in the event exactly those fail by the limits whose event is at least 86400 seconds old or that were retried at least five times; every other one is retried with its reply or lacks a bot, as in RetryWaiting, and nobody lacks one in a closed state; the counters follow the rows; afterwards nobody has been tried more than five times and counters and backing are kept |
| RecoveryVisits.VisitIsHandled | src/fleet/recovery-manager.ts:359-376 | closing exactly the rows given up and then retrying the rest handles every waiting row and every counter like that |
| Recovery.RecoveryManager.CheckAndRetryWaiting | src/fleet/recovery-manager.ts:345-386 | a pass visits the events open at its start, each once; of the rows waiting in them at its start exactly those a day old or retried five times end failed, every other one ends retried with a successor or was without a bot; in a closed state none is left as it was, and the state stays closed |
| RecoveryVisits.PassHandlesRows | src/fleet/recovery-manager.ts:345-386 | what the visit to a row's event decides is what the whole pass leaves, since no other visit touches the row |
| Recovery.RecoveryManager.SixPasses | src/fleet/recovery-manager.ts:339-386 | six passes, with nodes registering in between and whatever the replies, leave every event completed with recovered + failed equal to its total and no waiting row |
| RolloutStrategies.WaveIsSmallestCoveringShare | src/fleet/rollout-strategy.ts:39-43 | a rolling wave is the least number of bots, at least one and at most all, that covers the percentage |
| RolloutStrategies.RolloutStrategy.NextBatch | src/fleet/rollout-strategy.ts:39-97 | a prefix of the queue: all of it if immediate, one bot if single, else the smallest share that covers the percentage; empty only for an empty queue |
| RolloutStrategies.RolloutStrategy.OnBotFailure | src/fleet/rollout-strategy.ts:49-105 | a rolling wave retries below two failures and then counts the bot and aborts at maxFailures, a single-bot rollout retries below three and then aborts, an immediate one skips |
| Rollout.RetriesAreForOpenBots | src/fleet/rollout-strategy.ts:49-109 | the strategies retry exactly the failures below two, three and one |
| Rollout.AttemptsAreBounded | src/fleet/rollout-orchestrator.ts:102-145 | with a limit per bot the number of updates is at most limit times bots |
| Rollout.SkippedIsRightIff | src/fleet/rollout-orchestrator.ts:147-149 | the reported skipped is at most the untouched bots, and equal exactly when the strategy is immediate or each of the first as many replies as bots is a success |
| Rollout.SkippedCanBeNegative | src/fleet/rollout-orchestrator.ts:147-149 | a rollout of one bot that always fails reports -1 skipped in rolling waves and -2 in a single-bot rollout |
| Rollout.TallyCountsExhausted | src/fleet/rollout-strategy.ts:49-54 | the rolling wave's counter has grown by exactly the bots given up |
| Rollout.BlastRadius | src/fleet/rollout-strategy.ts:49-105 | rolling waves give up at most max(1, maxFailures - start) bots and abort exactly when the tally is reached, single-bot rollouts give up at most one and abort exactly then, immediate ones never abort |
| Rollout.RolloutOrchestrator.RunWave | src/fleet/rollout-orchestrator.ts:110-135 | a wave makes at least one attempt and keeps queue, log, tally and order of first attempts in step, up to the update at which the strategy aborts |
| Rollout.RolloutOrchestrator.Rollout | src/fleet/rollout-orchestrator.ts:73-168 | terminates; each bot has failures then at most one success within its limit, without abort every bot is updated or has used all attempts, nothing runs after an abort, the tried bots are the first of the list, counters match the log and skipped is right exactly when nothing makes the strategy retry; a second rollout meanwhile changes nothing |
| RolloutOrder.WaveSizeDoesNotMatter | src/fleet/rollout-orchestrator.ts:102-145 | a rollout makes the updates of one plain queue from whose head bots are taken and to whose end failed ones return: with the same limits and replies any two percentages give the same updates in the same order and the same result |
| IsoWeek.YearIsUnique | src/backup/spaces-retention.ts:124-124 | the computed UTC year is the only one whose first of January is not after the day and whose next one is |
| IsoWeek.WeekNumberInRange | src/backup/spaces-retention.ts:127-127 | week numbers lie in 1..53 |
| IsoWeek.CountsFromFourthOfJanuary | src/backup/spaces-retention.ts:119-127 | ISO 8601:2004 section 4.1.4: weeks count from the one with 4 January of the ISO year up to the next year's |
| IsoWeek.KnownKeys | src/backup/spaces-retention.ts:116-129 | 1 January 1970 is in 1970-W01, 28 and 29 December 2025 in 2025-W52 and 2026-W01, 3 and 4 January 2027 in 2026-W53 and 2027-W01 |
| IsoWeek.SameNumbersIffSameWeek | src/backup/spaces-retention.ts:116-128 | year and number agree exactly for dates of one Monday-to-Sunday week |
| IsoWeek.NumbersFollowTime | src/backup/spaces-retention.ts:116-128 | (year, number) increases exactly with the week |
| IsoWeek.SameKeyIffSameWeek | src/backup/spaces-retention.ts:128-128 | two dates have the same key string exactly when they lie in one week |
| IsoWeek.KeyOrderIsTimeOrder | src/backup/spaces-retention.ts:105-106 | among years with as many digits keys sort as strings exactly as their weeks follow one another |
| IsoWeek.FourDigitKeyOrder | src/backup/spaces-retention.ts:105-106 | so in particular for the years 1000 to 9999 |
| IsoWeek.KeyOrderAcrossDigits | src/backup/spaces-retention.ts:105-106 | a year with k digits fewer is earlier, and its keys sort first exactly when it is at most the other year divided by 10^k |
| IsoWeek.KeysBeforeYear10000 | src/backup/spaces-retention.ts:105-106 | so of the years 1000 to 9999 only 1000 sorts before 10000 |
| RetentionPolicy.NewestIff | src/backup/spaces-retention.ts:79-113 | a backup is to be kept exactly when it is among the newest dailyCount, or is the first of its week after those with fewer than weeklyCount different weeks in between |
| RetentionPolicy.DefaultIsSevenAndFour | src/backup/spaces-retention.ts:22-25 | by default the newest seven and one of each of up to four more weeks |
| RetentionPolicy.KeepsNewestWeeksIff | src/backup/spaces-retention.ts:105-111 | the backups the code keeps, by greatest week keys, are those exactly when the keys of the newest weeklyCount weeks are greater than those of all older weeks |
| Retention.BucketByWeek | src/backup/spaces-retention.ts:95-103 | the map filled in the loop has, in order, the first listed backup of each week |
| Retention.WeekOfTime | src/backup/spaces-retention.ts:116-129 | a week holds exactly the minutes of the seven days from its Monday on |
| Retention.SortIsStable | src/backup/spaces-retention.ts:53-53 | backups of one time stay in the order in which they are listed |
| Retention.FourDigitKeysFollowWeeks | src/backup/spaces-retention.ts:105-106 | in listings of the years 1000 to 9999 later weeks have greater keys |
| Retention.NewestAreRetained | src/backup/spaces-retention.ts:105-111 | so it is for any listing newest first in which later weeks have greater keys |
| Retention.OlderYearIsKept | src/backup/spaces-retention.ts:105-111 | of a backup of the year 1000 and one of 999, with one weekly backup to keep, the older is kept |
| Retention.SelectRetained | src/backup/spaces-retention.ts:85-113 | for every listing the two phases over maps give the daily backups, then one for each chosen week with the greatest key first, and these are just the retained ones |
| RetentionPolicy.SelectionIsFixpoint | src/backup/spaces-retention.ts:85-113 | selecting from what was kept keeps all of it, in whatever order the keys are |
| Retention.EnforceSpacesRetention | src/backup/spaces-retention.ts:41-77 | kept are the retained backups and deleted the others; a successful run leaves exactly the kept ones; no kept backup is ever removed, however the bulk delete fails, and nothing is reported deleted if it does |
| Retention.SecondRunDeletesNothing | src/backup/spaces-retention.ts:41-77 | after a successful run, with no uploads and in whatever order the rest is listed, a second run deletes nothing |
| BotLock.FleetManager.BeginWithLock | src/fleet/fleet-manager.ts:34-41 | a caller queues behind the newest unresolved one and becomes the newest itself |
| BotLock.FleetManager.StartBody | src/fleet/fleet-manager.ts:42-43 | a body starts only once the promise before it is resolved |
| BotLock.FleetManager.EndBody | src/fleet/fleet-manager.ts:44-47 | ending a body, in a throw or not, resolves it and takes the map entry out unless somebody queued behind |
| BotLock.RunIsSound | src/fleet/fleet-manager.ts:34-48 | in every schedule each caller waits for the latest earlier one of its bot and the map entry is the newest unresolved call |
| BotLock.MutualExclusion | src/fleet/fleet-manager.ts:34-48 | at most one body of a bot runs at a time |
| BotLock.FirstComeFirstServed | src/fleet/fleet-manager.ts:34-48 | no body starts before every earlier caller of the bot has ended |
| BotLock.KeyIffCallerPresent | src/fleet/fleet-manager.ts:40-46 | the map has a key exactly while a caller for it is queued or running |
| BotLock.SomebodyCanMove | src/fleet/fleet-manager.ts:42-43 | whoever waits, a call of its bot that is no later can move |
| BotLock.MovesBringTheEnd | src/fleet/fleet-manager.ts:42-46 | each such move lowers the steps left by one |
| BotLock.CanAlwaysFinish | src/fleet/fleet-manager.ts:34-48 | whatever has happened, without new arrivals all calls can end in just the steps they have left, and the map is then empty |

## Left out

- LedgerConcurrency.Serializability: holds for entries whose balance check names an account on their own lines; what happens to the others is SerialIffCheckIsProtected.
- LedgerDeadlock.NoWaitCycle: holds for runs in which no post and debitCapped share a reference; of others DeadlockIffLocksInReverse (two calls) and DeadlockIffJams (any number) are exact.
- LedgerStandstill.DeadlockIffJams: of calls that check a balance only of an account they write; of others DeadlockJamsUnchecked is necessary and a jam with the checks in place sufficient.
- LedgerDeadlock.CanAlwaysFinish: under the same condition on references, as NeverStuck.
- LedgerStaleCheck.SerialIffCheckIsProtected: about one entry whose lines are valid and whose check is within 2^53-1, so that it can be accepted at all, in any company of protected calls; of several unprotected ones together only AcceptedCallsExplainTheBooks speaks.
- CreditExpiryCron.RunLeaves: the credit line of a grant is taken to be the first on a liability account; the query's `LIMIT 1` leaves the choice open. Entry ids are distinct, and nothing but the run's own calls happens during it.
- IsoWeek.SameKeyIffSameWeek: years 0 to 99, which `Date.UTC` maps to 1900 to 1999, follow the calendar in the model.
- Recovery.RecoveryManager.SixPasses: passes run one after another and nothing but node registration happens in between.
- Random ids: entry, line, event and item ids are inputs or table positions; their freshness is assumed.
- Integer widths: balances are unbounded; the 2^53-1 guards of the code are modelled, 64-bit overflow in the database is not.
- Isolation: READ COMMITTED with row locks to commit; index and predicate locks other than on the reference key are not modelled.
- Strings are sequences of characters compared one by one; `localeCompare` on listing dates is the order of the times they show.
- Dividend match rates are exact non-negative fractions rounded to the nearest integer, not floating point.
- Entry metadata other than expiry and attribution, descriptions, names, the queries `history`, `tenantsWithBalance`, `accountBalance` and `lifetimeSpendBatch`, and the transaction counts of `memberUsage`: no invariant of their own.
- `src/credits/credit-ledger.ts`: the older single-entry ledger.
- `RecoveryOrchestrator`: it leaves old waiting rows open and adds new ones, so counters are not conserved there.
- Heartbeats during a recovery, container crashes after placement, notifications, backup keys and completion times of recovery rows.
- Node deletion, secrets, provisioning data and stages, and owner or label fields.
- Rollout: pauses between waves, volume snapshots and their restoration, callbacks; rollouts are given distinct profile ids.
- `batchPercent` that is not an integer.
- Bodies run under `withLock`, and the rest of the fleet manager.

# Settlr: a verified model

Settlr is an expense-splitting API in Go on PostgreSQL. This project models the parts of it
whose correctness rests on more than one line of code, and proves what they promise.

Code that works step by step is a method with loops, arrays or fields, proved against a
function or a relation; the promises are lemmas about that function or about every run of the
steps. SQL statements are atomic steps on maps and sequences. No proof rests on automatic
induction: where Dafny would try one, the lemma carries `{:induction false}`.

- **Idempotency keys** (`idempotency.dfy`, `idempotency_answers.dfy`, `idempotency_runs.dfy`,
  `idempotency_theorems.dfy`, `idempotency_responses.dfy`, `idempotency_refinement.dfy`). `Guard.Wrap`
  is the retry loop with its recorder and store faults. Its executions, woven into what others do,
  are runs of a system in which any number of requests, sweeps, crashes and clock ticks interleave.
  An inductive invariant over that system gives the theorems on leases, TTL, tokens, on which
  responses are stored, and on replays.
- **Planned payments** (`calendar.dfy`, `recurrence.dfy`). Day numbers of the proleptic Gregorian
  calendar (ISO 8601:2004, section 3.2.1), clamped month arithmetic and the
  estimate-then-step search for the next occurrence.
- **Money** (`apportionment.dfy`, `apportionment_laws.dfy`, `apportionment_exact.dfy`, `money.dfy`,
  `expenses.dfy`; `apportionment_ties.dfy`, `apportionment_order.dfy`, `apportionment_owners.dfy`,
  `expenses_repeats.dfy`). Hamilton apportionment in int64 arithmetic, its quota and optimality
  theorems, exactly when it conserves the amount once arithmetic wraps around, the reordering by
  participant the expense handlers put around it, and exactly when that makes the order of a request
  irrelevant.
- **Debts and ledger** (`debts.dfy`, `debts_laws.dfy`, `debts_minimal.dfy`, `debts_int64.dfy`,
  `ledger.dfy`, `ledger_laws.dfy`, `ledger_runs.dfy`, `ledger_changes.dfy`, `settle_up.dfy`,
  `settle_up_runs.dfy`, `overview.dfy`). The greedy settlement and when it is as short as possible,
  the aggregate balance queries with their rounding and bigint casts, the tables of a group under
  all changes and what each change does to a balance, settling up through the settlement endpoint,
  and a user's overview.
- **Recurring expenses** (`recurring_splits.dfy`, `recurring_rows.dfy`, `recurring.dfy`,
  `recurring_drift.dfy`, `recurring_ledger.dfy`). The worker's claim loop with rollback, the rows it inserts, and what
  its dates and rows do to schedules and balances.
- **Rate limiter** (`ratelimit.dfy`), **search patterns** (`like.dfy`), **sessions**
  (`sessions.dfy`, `sessions_runs.dfy`, `sessions_race.dfy`), **exports** (`paging.dfy`,
  `export.dfy`) and **reports** (`reports.dfy`, `reports_laws.dfy`).

`entities.dfy`, `numbers.dfy`, `sorting.dfy`, `filtering.dfy`, `grouping.dfy` and `options.dfy` hold
what these share.
`dafny verify dfyconfig.toml` checks everything.

## Where the code does less than it says

Each point names the failing input and the exact condition.

- An accepted split need not sum to its amount, because int64 arithmetic wraps around. The condition
  for every mode is `Expenses.SplitAddsUp`; a run's stored rows add up, and without exchange rates
  the ledger's balances sum to zero, if and only if every change meets it
  (`LedgerRuns.RunKeepsConsistent`, `LedgerRuns.BalancesSumToZeroIff`).
  - EXACT: three shares pass for an amount of 1 although they sum to 2^64 + 1; the true sum is right
    if and only if it is below 2^63 (`Money.ExactSplitWrapsAround`, `Money.ExactSplitSums`,
    `LedgerRuns.WrappedSplitBreaksTheLedger`).
  - SHARES: an amount of 100 over two shares of 2^60 comes out as 3 and 3. The parts are right if and
    only if the leftover passes the guard of the bonus loop; for shares of moderate sum, if and only
    if no product leaves int64 (`Money.SharesSplitWrapsAround`, `Money.ProportionalSplitsSum`,
    `Money.SharesSplitSums`, `LedgerRuns.HugeSharesBreakTheLedger`).
  - PERCENTAGE: 100% of 1844674407370956 comes out as 1; right if and only if no product leaves int64
    (`Money.PercentageSplitWrapsAround`, `Money.PercentageSplitSums`, `LedgerRuns.StoredPercentages`,
    `LedgerRuns.HugeAmountBreaksTheLedger`).
- The balance map drops the rows of a sum query that fails, and a query fails when a converted row or
  a user's sum leaves bigint. After two shared expenses of 2^62 it shows both users owing 2^62, with
  every change balanced. It shows the ledger if and only if every balance fits int64 and what failed
  queries leave out is a multiple of 2^64 for every user (`SettleUpRuns.OverflowBreaksTheMap`,
  `LedgerLaws.ShowsLedgerIff`, `LedgerRuns.QueriesAnswerIff`); such a map is called reliable.
- `Simplify` calls its result minimal. Balances +5, +3, +3, -6, -5 get four edges where three do. For
  balances that sum to zero, none of them -2^63, it is minimal if and only if no split of the balances into zero-sum blocks has more blocks than the
  sorted credits and debts have common partial sums (`DebtsMinimal.NotMinimal`,
  `DebtsMinimal.MinimalIff`), and always within a factor of two (`DebtsLaws.TwoApproximation`).
- `Simplify` says the edges sum to the positive balances. That holds if and only if the balances other
  than -2^63 do not sum to more than zero; an expense of 3 at a rate of 0.3 over three rows of 1 leaves
  a credit of 1 and no edge (`DebtsInt64.MoneyMovedIff`, `SettleUpRuns.RoundingLeavesCredit`).
- `Simplify` negates balances, and the smallest int64 has no negation: balances of 2^62, 2^62 and -2^63
  get one edge, of -2^63. In a group that sums to zero such an edge is returned if and only if some
  balance is -2^63 (`DebtsInt64.SmallestBreaks`, `DebtsInt64.ZeroSumSplits`,
  `SettleUpRuns.SmallestBlocksSettlingUp`).
- The suggested edges cannot all be recorded once someone with a balance has left the group, which
  leaving allows (`SettleUpRuns.LeaverBlocksSettlingUp`). When the balances shown sum to zero, all
  edges are accepted and clear the group if and only if the map is reliable, no balance is -2^63 and
  everyone with a balance is a member (`SettleUp.AcceptedAndClearsIff`,
  `SettleUp.SettlingUpClearsTheGroup`).
- A user's whole overview fails for one balance outside int32, for one aggregate outside bigint, in an
  archived group too, and for a partial sum outside bigint, while each group's own map still
  answers. It answers if and only if every computed aggregate and, in every listed group, paid - owed + recv stay
  below 2^63, and the balance fits int32 (`Overview.LargeBalanceHidesAll`,
  `Overview.SelfPaidHidesAll`, `Overview.PartialSumHidesAll`, `Overview.OverviewAnswersIff`,
  `Overview.StoredAnswersIff`).
- Sorting by participant is meant to make a split independent of the order of the request. With an
  amount of 2 and shares 2 and 1 for one user and 1 for another it is not. It is if and only if the
  mode is EQUAL or EXACT, or no unit is left over, or the tied claims of the user at the start of the
  rotation cannot gain or lose one: their number at or after the start is fixed, nobody else ties, or
  too few or too many of the tied are served for it to matter
  (`ExpensesRepeats.RepeatedUserMayShift`, `ExpensesRepeats.TotalsOrderIndependentIff`,
  `ApportionmentOwners.OrderFree`).
- The recurring worker's comment promises an equal split over the members when there are no
  definitions. Outside EQUAL mode that expense gets no rows and unbalances the group
  (`RecurringSplits.MembersFallback`, `RecurringLedger.FallbackUnbalances`); the exact condition for
  a balanced instance is `RecurringLedger.InstanceBalancesIff`.
- Creating a schedule checks no participant. An EQUAL schedule fails at every run if and only if it
  names someone who is not in the users table (`RecurringSplits.UnknownUserFails`,
  `Recurring.UnknownUserNeverRuns`).
- SHARES schedules never get rows: the insert leaves out a mandatory column without default
  (`migrations/0001_init_schema.sql:139`), so every run with a share fails
  (`RecurringSplits.SharesNeverSplit`).
- Recurring dates drift because the SQL series adds to its last element, while planned payments
  count from the start. The two agree forever if and only if the schedule is not monthly from after
  the 28th and not yearly from 29 February (`RecurringDrift.NeverDriftsIff`).
- The rate limiter lets up to 2 * limit - 1 requests through in one window's length, and one when
  the limit is zero or negative (`RateLimit.LimiterBound`, `RateLimit.WindowBoundReached`).
- Revoking all sessions does not end a refresh in flight: one that holds its row's lock when the
  revocation takes its snapshot, and commits, leaves a live session. The user is left without one if
  and only if no refresh and no sign-in commits between snapshot and end
  (`SessionRace.RotationEscapes`, `SessionRace.RevokedAllIff`).

## What the statements assume

- Fresh lock tokens, session ids and refresh tokens have not been drawn before; hashes are arbitrary
  functions, and refresh tokens are identified with their hashes.
- A statement is atomic, except in `SessionRace`, and the clock of a run never goes back. During an
  export and during one `RunDue` the table changes only through that code, and the clock stands still.
- Storage constraints stated in the migrations hold: primary keys, unique token hashes, amounts of
  expenses and schedules above zero, split amounts not below zero, a sort time on every transaction.
- In `IdempotencyRuns` and `Sessions`, histories (`log`, `births`) are ghost state of the model, and
  an expense in `Recurring` remembers the schedule it came from.
- The server and the database session keep their clocks in UTC, so a recurring date is the same day
  in Go and in SQL.
- The four queries of `computeBalances` see the same state of the tables, and fail for no other
  reason than a cast.
- `Export.ExportsAreComplete` carries the condition that no transaction has the nil UUID, the
  starting cursor of the backup; generated ids never are.

## Model

| member | source | states |
|---|---|---|
| `Idempotency.Store.ReserveIdempotencyKey` | `internal/db/idempotency.sql.go:115-137` | succeeds exactly when there is no row, an expired one or a stale pending one; the row then is a fresh pending one, otherwise nothing changes |
| `Idempotency.Store.GetIdempotencyKey` | `internal/db/idempotency.sql.go:57-61` | returns the row unless it has expired |
| `Idempotency.Store.CompleteIdempotencyKey` | `internal/db/idempotency.sql.go:15-19` | stores the response only in the pending row carrying the caller's token |
| `Idempotency.Store.ReleaseIdempotencyKey` | `internal/db/idempotency.sql.go:99-102` | deletes only the pending row carrying the caller's token |
| `Idempotency.Store.DeleteExpiredIdempotencyKeys` | `internal/db/idempotency.sql.go:45-47` | keeps exactly the unexpired rows and reports how many went |
| `Idempotency.Recorder.WriteHeader` | `internal/idempotency/idempotency.go:260-265` | the copy keeps the first status, as the connection does |
| `Idempotency.Recorder.Write` | `internal/idempotency/idempotency.go:267-273` | the copy and the connection receive the same bytes; an implicit status is 200 |
| `Idempotency.Guard.Wrap` | `internal/idempotency/idempotency.go:104-189` | every move from reserving to the result is a legal step on the table as it stood, exactly those statements were issued, and the client received what the handler sent; `Ran` means the handler did not panic and its client saw a status below 500, `HandlerFailed` a panic or 500 and above |
| `Idempotency.Guard.Run` | `internal/idempotency/idempotency.go:193-235` | after the handler: the response the client saw is completed under the reservation's token exactly when there was no panic and its status is below 500, otherwise the key is released; store errors change neither |
| `Idempotency.Guard.Recorded` | `internal/idempotency/idempotency.go:211-224` | the response to be stored is the one the client was sent: status, content type (sniffed when missing) and body |
| `IdempotencyAnswers.ResultMeans` | `internal/idempotency/idempotency.go:142-235` | what an execution of `Wrap` that ends in a result has met, told from its calls alone: the row that blocked, vanished or answered it (at most three attempts), or the reservation, the one handler run, its outcome and the last statement |
| `IdempotencyRefinement.MovesAreSteps` | `internal/idempotency/idempotency.go:104-235` | each legal move of a request is one atomic step of the interleaved system with the same effect |
| `IdempotencyRefinement.WrapIsARun` | `internal/idempotency/idempotency.go:104-235` | a whole execution of `Wrap`, with any system steps of others between its moves, continues any run to a run in whose last state the request stands where the execution ended |
| `IdempotencyRefinement.WrapReplaysStored` | `internal/idempotency/idempotency.go:237-251` | so when an execution of `Wrap` ends in a replay, an earlier handler of the same key and fingerprint returned exactly that response and it was stored |
| `IdempotencyRuns.NextKeeps` | `internal/db/idempotency.sql.go:15-137` | every step of every request, sweep, crash or clock tick keeps the protocol invariant |
| `IdempotencyRuns.RunKeepsInv` | `internal/db/idempotency.sql.go:15-137` | the invariant holds in every state of every interleaving |
| `IdempotencyRuns.StoreKeeps` | `internal/db/idempotency.sql.go:15-19` | storing a response keeps the invariant: the row, its log entry and the other requests' claims agree |
| `IdempotencyRuns.TakeRowKeeps` | `internal/db/idempotency.sql.go:115-137` | a takeover strips the former holder only after its window |
| `IdempotencyTheorems.HandlerHasReservation` | `internal/idempotency/idempotency.go:146-168` | in every run a request that is running, completing or releasing reserved at exactly one earlier step, when no live row stood in the way, under a token no other step draws |
| `IdempotencyTheorems.OverlapOnlyAfterWindow` | `internal/idempotency/idempotency.go:44-47` | two handlers of one key are active together only if their reservations are at least min(lease, TTL) apart |
| `IdempotencyTheorems.NoRerunWithinTTL` | `internal/idempotency/idempotency.go:41-42` | once a response is stored no handler of that key starts before the reservation time plus TTL |
| `IdempotencyTheorems.CompletedRowFrozen` | `internal/db/idempotency.sql.go:115-137` | a completed row does not change before it expires, whatever else happens |
| `IdempotencyTheorems.LostLeaseIsHarmless` | `internal/db/idempotency.sql.go:15-19` | a request whose reservation was taken over, swept or released can never again complete or free the key's row |
| `IdempotencyTheorems.FailureFreesKey` | `internal/idempotency/idempotency.go:197-206` | a failed handler that still holds its lease leaves the key free for the next reservation |
| `IdempotencyTheorems.LiveRowAnswers` | `internal/idempotency/idempotency.go:169-187` | an execution of `Wrap` whose reserve and read meet the same live row ends there: refused exactly for a different request, told to wait exactly while pending, replayed exactly when completed |
| `IdempotencyTheorems.BlockedKeyHasReason` | `internal/idempotency/idempotency.go:40-47` | in every run a key is blocked if and only if a stored response is within its TTL or a pending reservation younger than min(lease, TTL) |
| `IdempotencyTheorems.ReplaysAreStored` | `internal/idempotency/idempotency.go:237-251` | a replay carries the status, content type and body one earlier handler of the same key returned and stored, and answers only the same method, path and body hash |
| `IdempotencyResponses.ReturnDecides` | `internal/idempotency/idempotency.go:197-219` | at the step at which a handler returns, its request goes on to store exactly that response if its status is below 500, and to release the key after a panic or a status from 500 on; nothing else changes |
| `IdempotencyResponses.ResponseStored` | `internal/idempotency/idempotency.go:211-231` | in every run, a response below 500 whose request completes with the statement taking effect, while it owns its row or within min(lease, TTL), is logged as stored and is what the row then holds |
| `IdempotencyResponses.ResponseKept` | `internal/idempotency/idempotency.go:40-42` | from then on until a TTL after the reservation no handler of the key starts, a reservation attempt of anybody goes on to read, and a read is answered with exactly that response, or refused for a different request |
| `IdempotencyResponses.FailureNeverStored` | `internal/idempotency/idempotency.go:197-214` | no response is ever stored under the reservation of a handler that panicked or returned 500 or above |
| `Calendar.YearLength` | `internal/wallet/recurrence.go:16-17` | the closed form of year starts leaves no gaps: 366 days exactly in leap years |
| `Calendar.MonthStep` | `internal/wallet/recurrence.go:16-17` | months follow each other without gaps, with their Gregorian lengths |
| `Calendar.MonthOf` | `internal/wallet/recurrence.go:18-21` | the month found for a day number is the one containing it, for every day |
| `Calendar.DateRoundTrip` | `internal/wallet/recurrence.go:18-21` | reading a day's date and building it again gives the day back |
| `Calendar.DayRoundTrip` | `internal/wallet/recurrence.go:21-22` | every calendar date survives becoming a day number |
| `Recurrence.ClampedDay` | `internal/wallet/recurrence.go:18-28` | adding months lands in exactly that month at the same time of day, on the same day or the month's last |
| `Recurrence.OccurrencePlace` | `internal/wallet/recurrence.go:30-44` | the k-th occurrence counted from the start: exact days, or month and min(anchor day, month length); the 31st never drifts |
| `Recurrence.OccurrencesIncrease` | `internal/wallet/recurrence.go:32-44` | occurrences strictly increase with k for every unit |
| `Recurrence.Estimate` | `internal/wallet/recurrence.go:54-74` | the estimated index never overshoots, even one day too high, and an exact one is at most two short |
| `Recurrence.NextOccurrenceAfter` | `internal/wallet/recurrence.go:46-80` | returns the least occurrence strictly after the instant (the start itself when later) and terminates, in at most two steps on an exact estimate |
| `Recurrence.FirstAfterIsLeast` | `internal/wallet/recurrence.go:46-46` | the index found is the only least one and no later occurrence precedes it |
| `Recurrence.NextAfterOccurrence` | `internal/wallet/recurrence.go:46-80` | after an occurrence comes the next one, so resolving a plan skips none |
| `Money.Quotients` | `internal/money/split.go:27-40` | the first loop leaves the truncated quotients, remainders and running total of the int64 arithmetic |
| `Money.Order` | `internal/money/split.go:45-58` | the sorted order is the unique ranking by remainder and rotated index |
| `Money.Apportion` | `internal/money/split.go:18-63` | the loops and the in-place sort compute `Apportioned` on every int64 input, wrap-around included |
| `Money.SplitEqualWithID` | `internal/money/split.go:73-89` | error cases and result of an equal split with rotation by the id's hash |
| `Money.SplitExact` | `internal/money/split.go:92-109` | error cases in order; otherwise an unchanged copy whose int64 sum is the amount |
| `Money.SplitByPercentageWithID` | `internal/money/split.go:118-141` | error cases in order; otherwise apportionment by basis points |
| `Money.SplitBySharesWithID` | `internal/money/split.go:150-173` | error cases in order; otherwise apportionment by shares and their int64 sum |
| `Money.EqualVerdict` | `internal/money/split.go:73-79` | refused exactly without participants or with an amount not above zero, in that order |
| `Money.ExactVerdict` | `internal/money/split.go:92-109` | refused exactly without shares, with a negative one, or when their sum differs from the amount by no multiple of 2^64, in that order |
| `Money.PercentageVerdict` | `internal/money/split.go:118-136` | refused exactly without values, for an amount not above zero, for a negative value, or when the values differ from 10000 by no multiple of 2^64, in that order |
| `Money.SharesVerdict` | `internal/money/split.go:150-168` | refused exactly without shares, for an amount not above zero, for a share not above zero, or when their sum is a multiple of 2^64, in that order |
| `Money.SplitsAreApportioned` | `internal/money/split.go:112-173` | accepted proportional splits are the apportionment over 10000 or over the int64 sum of the shares, rotated by the hash of the id modulo their number, not at all without an id |
| `ApportionmentLaws.ExactQuotients` | `internal/money/split.go:27-40` | while products stay below 2^63 the machine's quotients and remainders are the exact ones |
| `ApportionmentLaws.LeftoverExact` | `internal/money/split.go:41-62` | the units left over are the remainders' sum over the total, fewer than the shares: the `i < n` guard never cuts in |
| `ApportionmentLaws.OneThreshold` | `internal/money/split.go:45-62` | one remainder separates all indices that get a unit from all that do not |
| `ApportionmentLaws.Quota` | `internal/money/split.go:30-62` | everyone gets the floor of the exact quota, or one more exactly as a bonus index |
| `ApportionmentLaws.Conservation` | `internal/money/split.go:16-63` | the parts sum to the amount |
| `ApportionmentLaws.ZeroShare` | `internal/money/split.go:18-63` | a zero share gets nothing |
| `ApportionmentLaws.Monotone` | `internal/money/split.go:18-63` | a larger share never gets less |
| `ApportionmentLaws.Optimality` | `internal/money/split.go:16-63` | no integer allocation of the amount is closer in total to the exact proportions |
| `Money.ExactSplitSums` | `internal/money/split.go:96-105` | an accepted EXACT split sums to the amount if and only if its true sum is below 2^63 |
| `Money.ExactSplitWrapsAround` | `internal/money/split.go:96-105` | three concrete shares are accepted for an amount of 1 although they sum to 2^64 + 1 |
| `Money.ProportionalSplitsSum` | `internal/money/split.go:118-173` | an accepted percentage or shares split sums to the amount if and only if the units its quotients leave over, counted exactly, pass the guard of the bonus loop |
| `ApportionmentExact.ConservationIff` | `internal/money/split.go:18-63` | the same for the apportionment of any int64 input, wrapped products and sums included |
| `ApportionmentExact.CoverableIffProductsFit` | `internal/money/split.go:30-62` | for shares summing to their total, with twice their number times the total at most 2^64, that guard says exactly that no product leaves int64 |
| `Money.PercentageSplitSums` | `internal/money/split.go:118-141` | percentages truly summing to 100%: the parts sum to the amount if and only if every product of amount and basis points is below 2^63 |
| `Money.SharesSplitSums` | `internal/money/split.go:150-173` | shares of moderate sum: the parts sum to the amount if and only if every product of amount and share is below 2^63 |
| `Money.PercentageSplitWrapsAround` | `internal/money/split.go:118-141` | 100% of 1844674407370956 is accepted and comes out as 1 |
| `Money.SharesSplitWrapsAround` | `internal/money/split.go:150-173` | an amount of 100 over two shares of 2^60 is accepted and comes out as 3 and 3 |
| `Money.EqualSplitSums` | `internal/money/split.go:73-89` | an equal split always has n parts summing to the amount |
| `Money.EqualSplitClosedForm` | `internal/money/split.go:73-89` | position p gets amount/n, plus 1 exactly when (p - offset) mod n < amount mod n |
| `Expenses.SortIndex` | `internal/expenses/handlers.go:303-312` | the index slice lists every position once, by user id |
| `Expenses.Gather` | `internal/expenses/handlers.go:350-354` | values arrive at the split function in sorted order |
| `Expenses.Scatter` | `internal/expenses/handlers.go:359-363` | every amount returns to the participant it was computed for |
| `Expenses.ComputeSplit` | `internal/expenses/handlers.go:303-386` | verdict and amounts of all four modes, missing values included, computed in user order and put back in request order |
| `Expenses.OrderIndependent` | `internal/expenses/handlers.go:986-1065` | with each participant named once, permuting the splits changes neither verdict nor anyone's amount; creation and update write the same split |
| `Expenses.VerdictOrderIndependent` | `internal/expenses/handlers.go:303-386` | permuting a request never changes the verdict, users named repeatedly included |
| `Expenses.TotalsOrderIndependent` | `internal/expenses/handlers.go:303-386` | with users named repeatedly nobody's total changes either, always in EQUAL and EXACT mode, otherwise when repeated entries carry equal values |
| `ExpensesRepeats.TotalsOrderIndependentIff` | `internal/expenses/handlers.go:303-386` | permuting an accepted request of any mode, or sorting its ties another way, never changes anyone's total if and only if the tied claims of the user at the start of the rotation cannot gain or lose a unit |
| `ExpensesRepeats.BoundDiffers` | `internal/expenses/handlers.go:309-312` | otherwise two permutations of the request, both already in user order, charge that user differently |
| `ApportionmentOwners.AlwaysSameIff` | `internal/money/split.go:18-63` | the same for the apportionment: all orders of each owner's claims give every owner the same total if and only if the condition holds |
| `ApportionmentTies.BonusOwners` | `internal/money/split.go:45-62` | the bonus units go to the owners of all claims above the last remainder served and of the first tied ones from the offset round |
| `ExpensesRepeats.RepeatedUserMayShift` | `internal/expenses/handlers.go:309-312` | an amount of 2 with shares 2 and 1 for one user and 1 for another: that user is charged 2 or 1 depending on which of the two entries comes first in the request |
| `Expenses.SplitAddsUp` | `internal/expenses/handlers.go:303-386` | the rows of an accepted request sum to its amount if and only if the request conserves it: EQUAL always, EXACT when the true sum is below 2^63, the others when the leftover passes the loop's guard |
| `Debts.SortEntries` | `internal/debts/simplify.go:45-52` | the in-place sort leaves the unique order by amount and id |
| `Debts.Pay` | `internal/debts/simplify.go:71-78` | one in-place int64 payment reduces the entry and moves past it exactly when nothing is left |
| `Debts.Walk` | `internal/debts/simplify.go:54-79` | the two-pointer loop returns the edges of the walk on int64 amounts of any sign |
| `Debts.Simplify` | `internal/debts/simplify.go:28-84` | the whole function on every int64 input returns the walk over the sorted sides, the smallest int64 being its own negation |
| `DebtsInt64.SuggestedIsSimplified` | `internal/debts/simplify.go:28-84` | while no balance is the smallest int64 that is the settlement in exact integers, which the laws below are about |
| `DebtsInt64.SuggestedSplits` | `internal/debts/simplify.go:28-84` | in general it is the settlement of the other balances followed by edges of the smallest int64, some exactly when a balance is that number and credit is left for it |
| `DebtsInt64.ZeroSumSplits` | `internal/debts/simplify.go:39-40` | when the balances sum to zero, some exactly when a balance is that number |
| `DebtsInt64.SmallestBreaks` | `internal/debts/simplify.go:39-40` | balances 2^62, 2^62 and -2^63: the one edge returned moves -2^63 |
| `DebtsInt64.MoneyMovedIff` | `internal/debts/simplify.go:24-25` | the edges sum to the positive balances if and only if the balances other than -2^63 do not sum to more than zero |
| `DebtsLaws.SimplifyEdges` | `internal/debts/simplify.go:24-27` | at most creditors + debtors - 1 edges, each from a debtor to a creditor with a positive amount no larger than the largest balance |
| `DebtsLaws.SimplifySettles` | `internal/debts/simplify.go:24-25` | recording all edges leaves zero everywhere when balances sum to zero, otherwise residuals of the total's sign |
| `DebtsLaws.NobodyOverpays` | `internal/debts/simplify.go:60-78` | nobody's balance crosses zero or grows |
| `DebtsLaws.ResidualsTotal` | `internal/debts/simplify.go:54-79` | the residuals still sum to the imbalance |
| `DebtsLaws.MoneyMoved` | `internal/debts/simplify.go:24-25` | the edges move the smaller of total credit and total debt, and all of the credit exactly when balances do not sum to more than zero |
| `DebtsLaws.TwoApproximation` | `internal/debts/simplify.go:24-27` | strictly fewer than twice the edges of any transfer list clearing the same balances |
| `DebtsMinimal.MinimalIff` | `internal/debts/simplify.go:24-27` | for balances summing to zero, no list of transfers that clears them is shorter if and only if no split into zero-sum blocks has more blocks than the sorted credits and debts have common partial sums |
| `DebtsMinimal.SimplifiedLength` | `internal/debts/simplify.go:54-79` | the number of edges is the number of unsettled users less the number of those common partial sums |
| `DebtsMinimal.ClearingSplits` | `internal/debts/simplify.go:24-27` | any transfers that clear the balances, through third parties or not, split the unsettled users into zero-sum blocks, at least users less transfers of them |
| `DebtsMinimal.SplitClears` | `internal/debts/simplify.go:24-27` | any split into zero-sum blocks gives clearing transfers, one fewer than the users for each block |
| `DebtsMinimal.NotMinimal` | `internal/debts/simplify.go:24-27` | balances +5, +3, +3, -6, -5: four edges are returned where three clear the group |
| `DebtsLaws.SimplifyIgnoresOrder` | `internal/debts/simplify.go:27-52` | the result does not depend on the order of the input |
| `DebtsLaws.DebtsEndpointDeterministic` | `internal/balances/handlers.go:92-96` | whatever order the balance map is ranged over, the endpoint's edges are the same |
| `DebtsInt64.SuggestedIgnoresOrder` | `internal/balances/handlers.go:92-96` | the same for the edges as the code computes them, the smallest int64 included |
| `Ledger.ComputeBalances` | `internal/balances/handlers.go:151-175` | the four loops build, in int64 arithmetic, paid less owed plus sent less received over the rows that were answered; a sum query with a failing bigint cast contributes no row |
| `Ledger.FoldRows` | `internal/balances/handlers.go:161-168` | one loop over grouped rows adds or subtracts each user's total, wrapping around |
| `Ledger.FoldSettlements` | `internal/balances/handlers.go:169-173` | the settlement loop credits senders and debits receivers, wrapping around |
| `LedgerLaws.ShowsLedgerIff` | `internal/balances/handlers.go:151-175` | the map shows everyone the ledger's balance if and only if every balance fits int64 and what the failed queries leave out of it is a multiple of 2^64 |
| `LedgerRuns.QueriesAnswerIff` | `internal/db/balances.sql.go:138-176` | in every run each sum query fails if and only if some user's converted sum reaches 2^63; with all sums and balances in range the map is reliable |
| `LedgerLaws.ComputeNet` | `internal/balances/balances.go:14-20` | the map holds the int64 total of each listed user and nobody else |
| `LedgerLaws.ExpenseToEntries` | `internal/balances/balances.go:25-32` | payer credited, every participant charged |
| `LedgerLaws.AggregateIsComputeNet` | `internal/db/balances.sql.go:138-176` | without exchange rates the aggregate queries equal the plain ledger of all entries |
| `LedgerLaws.MyBalanceAgrees` | `internal/db/balances.sql.go:14-35` | the balance column of the per-user overview query equals the balance of the group map |
| `Overview.GetMyGroupBalances` | `internal/db/balances.sql.go:37-68` | all rows; or none when a computed aggregate or the balance expression leaves bigint, or a balance the int32 it is scanned into |
| `Overview.GetMyBalances` | `internal/balances/handlers.go:105-149` | fails with the listing; otherwise what is owed is the sum of the positive balances and the net is the sum of all |
| `Overview.RowsAreNets` | `internal/db/balances.sql.go:14-35` | the query's rows are the unarchived groups the user is a member of, in order, each with the balance of its own map |
| `Overview.RowsListed` | `internal/db/balances.sql.go:14-37` | a group and a balance are a row exactly when the user is in the group, it is not archived, and that is the balance |
| `Overview.RowsFitIff` | `internal/db/balances.sql.go:37-42` | the rows fit int32 if and only if the balances of the listed groups' own maps do |
| `Overview.ColumnFits` | `internal/db/balances.sql.go:37-42` | the column holds exactly the balances from -2^31 to 2^31 - 1 |
| `Overview.OverviewAnswersIff` | `internal/db/balances.sql.go:14-35` | whatever aggregates the plan computes, the overview answers if and only if none of them leaves bigint and, in every listed group, neither does a partial sum of the balance, and the balance fits int32 |
| `Overview.StoredAnswersIff` | `internal/db/balances.sql.go:14-35` | for stored rows the same as plain bounds: every computed sum below 2^63, and per listed group paid - owed + recv below 2^63 and the balance in int32 |
| `Overview.LargeBalanceHidesAll` | `internal/db/balances.sql.go:37-42` | one balance of 2^31 hides the overview of all groups, whatever the others are |
| `Overview.SelfPaidHidesAll` | `internal/db/balances.sql.go:18-21` | two expenses of 2^62 one user pays for nobody else hide it too, balance zero, archived or not |
| `Overview.PartialSumHidesAll` | `internal/db/balances.sql.go:16-16` | so does a group in which every sum and every balance is in range and paid - owed + recv is not |
| `LedgerLaws.ExpenseDrift` | `internal/db/balances.sql.go:171-176` | rounding one rated expense with n rows moves the group's sum by at most floor(n/2), an unrated one by nothing |
| `LedgerLaws.DriftBoundReached` | `internal/db/balances.sql.go:138-176` | for every n some expense reaches that bound |
| `LedgerLaws.BalancesSumToDrift` | `internal/db/balances.sql.go:138-176` | the ledger's balances sum to the total drift of the live expenses |
| `LedgerLaws.DisplaysSum` | `internal/balances/handlers.go:151-175` | so do those of a reliable map |
| `LedgerRuns.GroupTables.CreateExpense` | `internal/expenses/handlers.go:207-536` | accepted exactly when the request is admissible, its split succeeds and the tables take the rows: amounts not negative, rate and percentages within their columns, base amount positive; then appends an expense whose rows are the computed split, otherwise nothing changes |
| `LedgerRuns.GroupTables.UpdateExpense` | `internal/expenses/handlers.go:898-1240` | accepted exactly for a live expense under the same conditions; then replaces the row and all its splits, otherwise nothing changes |
| `LedgerRuns.AcceptedMeans` | `internal/expenses/handlers.go:207-536` | accepted exactly with a positive amount, a member as payer, at least one participant, all members, in a foreign currency a rate above zero stored below a million and a base amount, a split that succeeds without a negative share, and in PERCENTAGE mode no value of 1000% or more |
| `LedgerRuns.StoredPercentages` | `migrations/0001_init_schema.sql:140` | stored percentages of fewer than 1.8 * 10^14 rows truly sum to 100%, and the expense conserves its amount if and only if no product of amount and basis points leaves int64 |
| `LedgerRuns.GroupTables.DeleteExpense` | `internal/expenses/handlers.go:1242-1308` | marks a live expense deleted, nothing else |
| `LedgerRuns.GroupTables.CreateSettlement` | `internal/settlements/handlers.go:93-227` | appends a positive settlement between two different members or changes nothing |
| `LedgerRuns.GroupTables.UpdateSettlementAmount` | `internal/settlements/handlers.go:270-316` | changes the amount of a live settlement only |
| `LedgerRuns.GroupTables.DeleteSettlement` | `internal/settlements/handlers.go:318-340` | marks a live settlement deleted, nothing else |
| `LedgerRuns.RunKeepsConsistent` | `internal/expenses/handlers.go:1174-1238` | in every run, every stored expense's rows sum to its amount in every state if and only if every change was balanced: conserving requests, and schedules whose definitions add up |
| `LedgerChanges.NetIsSum` | `internal/db/balances.sql.go:108-176` | a user's balance is the sum over live expenses of the converted amount if they paid less their converted shares, plus live settlements they sent less those they received; deleted rows have no part |
| `LedgerChanges.RoundMeans` | `internal/db/balances.sql.go:108-176` | a converted amount is the nearest integer, a half away from zero on either side |
| `LedgerChanges.StoredRateMeans` | `migrations/0002_add_missing.sql:53` | the rate kept is the whole number of millionths nearest to the one requested |
| `LedgerChanges.StepMovesBalances` | `internal/expenses/handlers.go:1174-1308` | each change moves each balance by just its part: a new expense adds its own, an update replaces it, deleting takes it back, a settlement counts by its latest amount, joining and leaving move nothing |
| `LedgerChanges.BalanceIsHistory` | `internal/expenses/handlers.go:1174-1308` | in every run a user's balance is the sum of what all its changes did to it |
| `LedgerChanges.InMapMeans` | `internal/balances/handlers.go:110-175` | the map lists exactly the members, the parties of live settlements, and, from the queries that answered, payers of live expenses and holders of their shares |
| `LedgerChanges.AnswersMeans` | `internal/db/balances.sql.go:108-176` | a sum query answers exactly when no converted row and no user's sum leaves bigint |
| `LedgerRuns.BalancesNearZero` | `internal/balances/handlers.go:151-175` | in every run of balanced changes the ledger's balances, and those of a reliable map, sum to within floor(n/2) per live rated expense |
| `LedgerRuns.BalancesSumToZero` | `internal/balances/handlers.go:151-175` | in every run of balanced changes without live exchange rates the ledger's balances sum to zero, and so do those of a reliable map |
| `LedgerRuns.BalancesSumToZeroIff` | `internal/balances/handlers.go:151-175` | in a run that writes no exchange rate the ledger sums to zero in every state if and only if every change was balanced; the map shows the ledger and sums to zero in every state if and only if, moreover, every state is reliable |
| `LedgerRuns.LeaverStillCounted` | `internal/balances/handlers.go:158-173` | a member who left keeps balance and place in the map while it is not zero |
| `LedgerRuns.WrappedSplitBreaksTheLedger` | `internal/money/split.go:96-105` | an EXACT split accepted with a wrapped sum puts the group off balance by 2^64 |
| `LedgerRuns.HugeSharesBreakTheLedger` | `internal/money/split.go:150-173` | an accepted SHARES expense of 100 over 2^60 and 2^60 puts the group off balance by 94 |
| `LedgerRuns.HugeAmountBreaksTheLedger` | `internal/money/split.go:118-141` | an accepted PERCENTAGE expense of 1844674407370956 puts the group off balance by all but 1 |
| `SettleUp.SettlingUpClearsTheGroup` | `internal/balances/handlers.go:77-103` | after every balanced run without exchange rates: if the map sums to zero, the suggested edges are all accepted and clear every balance if and only if the map is reliable, no balance is -2^63 and everyone with a balance is a member; a reliable map does, and submitting the edges then clears the group under the other two conditions |
| `SettleUp.RecordedNet` | `internal/balances/handlers.go:77-103` | in any group, what is left of a balance once all edges are recorded is what Simplify leaves over plus what the map gets wrong |
| `SettleUp.RecordingClearsIff` | `internal/balances/handlers.go:77-103` | when the balances shown sum to zero and none is -2^63, recording all edges clears the group if and only if the map is reliable |
| `SettleUp.AcceptedAndClearsIff` | `internal/balances/handlers.go:77-103` | when they sum to zero, all edges are accepted and clear the group if and only if the map is reliable, no balance is -2^63 and everyone with a balance is a member |
| `SettleUp.EdgesAcceptedIff` | `internal/settlements/handlers.go:127-133` | in a reliable group that sums to zero the endpoint accepts every suggested edge if and only if no balance is -2^63 and everyone with a balance is a member |
| `SettleUp.SubmittingClearsIff` | `internal/settlements/handlers.go:127-133` | submitting the edges with the refused ones left out clears such a group under the same conditions and no other |
| `SettleUp.RunWithEdges` | `internal/settlements/handlers.go:93-227` | appending edges to a run gives a run if and only if each is positive and between two different members |
| `SettleUpRuns.LeaverBlocksSettlingUp` | `internal/groups/handlers.go:552-567` | a run in which a debtor leaves: a suggested edge is refused and the group stays unsettled |
| `SettleUpRuns.OverflowBreaksTheMap` | `internal/balances/handlers.go:161-164` | a balanced run without rates after which one user paid 2^63 in all: the map shows both users owing 2^62, sums to -2^63, and nothing is suggested |
| `SettleUpRuns.RoundingLeavesCredit` | `internal/debts/simplify.go:24-25` | a balanced run with one rated expense after which a credit of 1 is shown, nothing is suggested, and the edges do not sum to the positive balances |
| `SettleUpRuns.SmallestBlocksSettlingUp` | `internal/debts/simplify.go:39-40` | a balanced run after which one member owes exactly 2^63: a suggested edge is refused and the group stays unsettled, though the map is right and everyone is a member |
| `SettleUp.SettlingUpOverpaysNobody` | `internal/balances/handlers.go:77-103` | in any group, edges refused or not, submitting the suggestions moves nobody past the balance shown; in a reliable one without -2^63 nobody moves past zero even if all are recorded, and residuals are of one sign only |
| `RecurringSplits.InsertSplits` | `internal/recurring/handlers.go:348-424` | the statements leave exactly `SplitRows`, whose rows, order, users and amounts `ValueRows` and `EqualRowsAre` give from the definitions, or fail exactly when a row violates a constraint |
| `RecurringRows.ValueRows` | `internal/recurring/handlers.go:382-424` | EXACT and PERCENTAGE: one row for each definition with a user and a value, in order; each holds its value (a percentage as the int64 product over 100 towards zero), and every row of the first named user the difference to the amount; fails exactly when a value, their sum or a raised row is refused |
| `RecurringRows.CompleteRowsAre` | `internal/recurring/handlers.go:382-424` | definitions with distinct users and all values: row i is definition i with its value, the share rounded down in PERCENTAGE mode, and row 0 takes the whole difference; values that sum to the amount are the rows |
| `RecurringRows.EqualRowsAre` | `internal/recurring/handlers.go:367-381` | EQUAL: one row for each definition with a user, in order; the first amount mod n get the quotient plus one, the others the quotient, and they sum to the amount |
| `RecurringRows.NobodyPays` | `internal/recurring/handlers.go:353-366` | without a definition that names a user there are no rows, in any mode |
| `RecurringSplits.UnknownUserFails` | `internal/recurring/handlers.go:363-376` | an EQUAL schedule fails if and only if a definition names someone who is not in the users table |
| `Recurring.UnknownUserNeverRuns` | `internal/recurring/handlers.go:77-130` | creating a schedule checks no participant, so such a schedule never gets an instance |
| `RecurringSplits.GetRecurringSplitsSum` | `internal/db/recurring.sql.go:260-262` | the sum of the expense's rows |
| `RecurringSplits.SplitRowsSum` | `internal/recurring/handlers.go:363-422` | rows sum to the amount if and only if EQUAL, or the stored values do, or the topped-up user has exactly one row |
| `RecurringSplits.CompleteSplitsSum` | `internal/recurring/handlers.go:414-422` | with distinct users and all values present the top-up always makes the sum right |
| `RecurringSplits.EqualRowsFair` | `internal/recurring/handlers.go:363-376` | equal rows are non-negative, differ by at most one and favour the first |
| `RecurringSplits.SharesNeverSplit` | `internal/db/recurring.sql.go:227-229` | a SHARES schedule fails as soon as one definition has a share, because the insert omits a mandatory column, and otherwise gets no rows |
| `RecurringSplits.MembersFallback` | `internal/recurring/handlers.go:284-299` | falling back to the members splits evenly only in EQUAL mode; otherwise no rows are written |
| `Recurring.LatestOccurrence` | `internal/db/recurring.sql.go:46-50` | the occurrence chosen is not after now and the next one is |
| `Recurring.LatestIsRepeated` | `internal/db/recurring.sql.go:46-50` | it is the last element of the series that is not after now |
| `Recurring.ClaimMeans` | `internal/db/recurring.sql.go:35-60` | claiming takes the last of the series up to now and the one right after it as the next run, and keeps plan, frequency and active |
| `Recurring.SuccessiveClaims` | `internal/db/recurring.sql.go:35-60` | the next claim goes on in the same series after the occurrence chosen before, at the very next one exactly when it comes before the one after that: nothing is skipped |
| `Recurring.Worker.ClaimDueRecurring` | `internal/db/recurring.sql.go:35-60` | claims a due, not yet failed schedule with the earliest next run; its last run becomes the latest k-th repetition of its next run up to now, its next run the repetition k + 1, and nothing else changes; none exactly when nothing is left |
| `Recurring.Worker.Materialize` | `internal/recurring/handlers.go:282-336` | one transaction's inserts produce exactly the schedule's instance or fail |
| `Recurring.Worker.RunClaimed` | `internal/recurring/handlers.go:259-262` | an iteration commits instance and schedule together or rolls both back |
| `Recurring.Worker.RunDue` | `internal/recurring/handlers.go:254-346` | terminates; each schedule stays as it was without an instance, or moves on from repetition k to k + 1 of its series with exactly one instance, dated on repetition k, with its plan and the rows of its definitions; due schedules left behind are listed as failed, without faults exactly those whose rows cannot be stored |
| `RecurringDrift.DriftExactly` | `internal/db/recurring.sql.go:46-50` | the k-th date of a monthly or yearly series equals the anchored occurrence exactly when no date on the way was in too short a month |
| `RecurringDrift.NeverDriftsIff` | `internal/db/recurring.sql.go:38-50` | a schedule keeps its planned dates forever if and only if it is not monthly from after the 28th and not yearly from 29 February |
| `RecurringLedger.InstanceBalancesIff` | `internal/recurring/handlers.go:348-424` | an instance keeps the group balanced if and only if its definitions add up, as a condition on the definitions |
| `RecurringLedger.FallbackUnbalances` | `internal/recurring/handlers.go:284-299` | the members' fallback outside EQUAL mode leaves the group off by the whole amount |
| `RateLimit.RateLimiter.Allow` | `internal/httpx/middleware.go:218-239` | answers as the limiter that keeps every bucket, and leaves the pruned table of the whole history |
| `RateLimit.RateLimiter.Prune` | `internal/httpx/middleware.go:222-228` | the loop removes exactly the expired buckets |
| `RateLimit.PruningInvisible` | `internal/httpx/middleware.go:222-239` | pruning never changes an answer, and keys do not influence each other |
| `RateLimit.BucketBound` | `internal/httpx/middleware.go:229-238` | one bucket grants at most max(limit, 1) requests, all within its window |
| `RateLimit.LimiterBound` | `internal/httpx/middleware.go:218-239` | no closed interval as long as the window sees 2 * max(limit, 1) requests of one key allowed |
| `RateLimit.WindowBoundReached` | `internal/httpx/middleware.go:218-239` | 2 * max(limit, 1) - 1 allowed in such an interval do occur, for every limit and window |
| `Like.LikeContainsIsSubstring` | `internal/httpx/middleware.go:75-79` | the pattern matches under LIKE with escape backslash if and only if the text is a substring, up to case folding |
| `Like.UnescapedSearches` | `internal/httpx/middleware.go:75-79` | without the escapes a search for an underscore would find every non-empty text, for a percent sign every text, and for a backslash what ends in a percent sign |
| `SessionRuns.AuthStore.CreateSession` | `internal/auth/auth.go:205-219` | adds one live session, of this user, device and time, that expires after the given days; all other rows stay as they were |
| `SessionRuns.AuthStore.RotateSession` | `internal/auth/auth.go:221-236` | ends the one live session with the token and adds its successor, of the same sign-in, for thirty days, or changes nothing when there is none; all other rows stay as they were |
| `SessionRuns.AuthStore.RevokeSession` | `internal/db/auth.sql.go:378-380` | sets the time of revocation of every row with the token, again if it already had one, and changes nothing else |
| `SessionRuns.AuthStore.RevokeAllSessions` | `internal/db/auth.sql.go:369-371` | ends every live session of the user at this time; every other row, of other users or already revoked, stays exactly as it was |
| `SessionRuns.AuthStore.RevokeSessionByID` | `internal/db/auth.sql.go:401-403` | ends the live session of that id and user, if there is one, which it reports; all other rows stay as they were |
| `SessionRuns.AuthStore.DeleteStaleSessions` | `internal/db/auth.sql.go:118-122` | deletes exactly the rows revoked or expired more than thirty days ago and clears references to them; the others stay as they were |
| `SessionRuns.AuthStore.Refresh` | `internal/auth/handlers.go:295-333` | unauthorized exactly without a live session; otherwise the new tokens belong to that session's user and the new session |
| `SessionRuns.AuthStore.Logout` | `internal/auth/handlers.go:335-342` | an empty token changes nothing, any other revokes its session |
| `SessionRuns.AuthStore.ResetPassword` | `internal/auth/handlers.go:389-440` | exactly with a valid password, unused unexpired token and no failing statement: password, token and all sessions change together; otherwise nothing does |
| `Sessions.NextKeeps` | `internal/db/auth.sql.go:72-438` | every sign-in, refresh, logout, revocation and pruning keeps the session invariant |
| `SessionRuns.OneSessionPerSignIn` | `internal/db/auth.sql.go:417-426` | in every run a sign-in has at most one unrevoked session, and user, device and sign-in time are constant along its chain |
| `SessionRuns.StepMeans` | `internal/db/auth.sql.go:118-425` | in every step of every run the table changes row by row as the change says and not otherwise: a sign-in adds its session, a refresh ends one row and adds its successor for thirty days, logout ends the rows of the token, revoking ends live rows of the one user, pruning drops exactly the rows dead for over thirty days |
| `SessionRuns.OthersStayLive` | `internal/db/auth.sql.go:369-403` | a live session ends only by a refresh or logout with its own token, by revoking its own user's sessions or it, or by pruning long after it expired |
| `SessionRuns.RotatesOnce` | `internal/db/auth.sql.go:417-426` | in every run each refresh token is exchanged at most once |
| `SessionRuns.DeadTokenRefused` | `internal/auth/auth.go:231-234` | refreshing with a rotated, revoked or pruned session's token changes nothing |
| `SessionRuns.DeadStaysDead` | `internal/db/auth.sql.go:118-122` | a session that is revoked or deleted never becomes usable again |
| `SessionRuns.LogoutEndsToken` | `internal/auth/auth.go:238-244` | logging out ends the named token and leaves all other sessions alone |
| `SessionRuns.RevokeAllIsFinal` | `internal/auth/handlers.go:416-439` | after all sessions are revoked by one atomic statement every live one stems from a later sign-in, and no earlier token is ever rotated again |
| `SessionRace.EscapedIff` | `internal/db/auth.sql.go:369-426` | under READ COMMITTED, in every run: when the revocation of all sessions is through, those still live are exactly the ones committed after its snapshot and not rotated on |
| `SessionRace.RevokedAllIff` | `internal/db/auth.sql.go:369-426` | it leaves the user without a session if and only if no rotation and no sign-in of the user's committed between its snapshot and its end |
| `SessionRace.LateIff` | `internal/db/auth.sql.go:417-426` | a row counts as committed after the snapshot exactly when the step that inserted it came later |
| `SessionRace.RotationEscapes` | `internal/db/auth.sql.go:417-426` | a refresh holding its row's lock when the snapshot is taken and committing before the revocation reaches it yields a session that outlives the revocation |
| `SessionRace.NextKeeps` | `internal/db/auth.sql.go:369-426` | every step of sign-ins, rotations and the revocation keeps the invariant on locks, the snapshot and late rows |
| `Paging.QueryBeyond` | `internal/db/export.sql.go:925-932` | what follows the k-th row of an ordered query is the query for the rows beyond that row |
| `Export.NextBackupPage` | `internal/db/export.sql.go:925-932` | the page after the last id sent holds exactly the next rows |
| `Export.NextCsvPage` | `internal/db/export.sql.go:837-854` | the page below the last (time, id) sent holds exactly the next rows |
| `Export.ExportsAreComplete` | `internal/db/export.sql.go:837-854` | both listings hold each live row of the user once, the backup by increasing id, the CSV newest first; the backup holds all of them if and only if none has the nil id |
| `Export.DocumentText` | `internal/export/wallet.go:84-130` | the backup is one object of comma-separated members, the transactions an array of the rows in order |
| `Export.JsonDoc.Key` | `internal/export/wallet.go:96-104` | commas separate exactly the members written so far |
| `Export.JsonDoc.Value` | `internal/export/wallet.go:106-115` | appends one member to the object |
| `Export.JsonDoc.Stream` | `internal/export/wallet.go:117-142` | the streamed array is the comma-joined text of the whole listing, however it was paged |
| `Export.BackupPages.Next` | `internal/export/wallet.go:216-222` | hands out the next rows, reports the end exactly when all were sent, and fails only when a page it needs does not arrive |
| `Export.MyJSON` | `internal/export/wallet.go:159-238` | a finished download is the whole document with all transactions; it is finished exactly when each page arrives, of which there is one more than full ones of 1000 rows; a first page that fails refuses, a later one aborts |
| `Export.TransactionsCSV` | `internal/export/wallet.go:521-565` | a finished download has every live transaction once, newest first; it is finished exactly when each page arrives, one more than full ones of 1000 rows |
| `Reports.AcrossIsSum` | `internal/db/wallet_reports.sql.go:97-101` | the rows of a grouping add up to the sum over the rows it was made of |
| `Reports.ReportsAgree` | `internal/db/wallet_reports.sql.go:432-481` | for every ledger and filter, per currency: income, expense and both transfer sums of the totals, of all trend buckets and of all accounts are equal |
| `Reports.TotalsAreEntrySums` | `internal/db/wallet_reports.sql.go:434-440` | per currency and column the two-leg totals are the plain sum over the entries that count there |
| `ReportsLaws.UnfilteredEntries` | `internal/db/wallet_reports.sql.go:444-479` | without a filter exactly the user's transfers count, and incomes and expenses with a flow, save adjustments, loans and transactions on accounts left out of the balance |
| `ReportsLaws.AccountFilter` | `internal/db/wallet_reports.sql.go:444-479` | an account filter selects exactly what touches one of its accounts, and that even where the account is left out of the balance |
| `ReportsLaws.PeriodFilter` | `internal/db/wallet_reports.sql.go:444-479` | a period selects by the time an entry happened, or is due while it has not, from the start on and before the end |
| `ReportsLaws.TextFilter` | `internal/db/wallet_reports.sql.go:444-479` | search terms narrow the selection to the entries they match |
| `ReportsLaws.ReportsAreAdditive` | `internal/db/wallet_reports.sql.go:444-479` | cutting a filter in two, by time, plan, kinds, types, sources, an excluded source, categories, groups, a tag or an amount, cuts every column of every currency into two that add up |
| `ReportsLaws.ByAccountEntrySums` | `internal/db/wallet_reports.sql.go:49-100` | each row by account is the plain sum over the entries that count there: transfers in under the target account, all else under the entry's |
| `ReportsLaws.ByAccountRows` | `internal/db/wallet_reports.sql.go:49-100` | an account has a row in a currency exactly when a selected entry is booked on it or transferred to it in that currency |
| `Reports.NetFlow` | `internal/db/wallet.sql.go:81-101` | inflow less outflow is the sum of all movements |
| `Reports.BalanceIsEntrySum` | `internal/db/wallet.sql.go:15-30` | a balance is the sum, over the user's entries before the date, of the account amount where account and currency match and the target amount where target account and currency match; zero for a deleted account |
| `Reports.InflowIsEntrySum` | `internal/db/wallet.sql.go:81-101` | inflow is the sum of what entries in the period add to the account, each of their two sides counted apart |
| `Reports.OutflowIsEntrySum` | `internal/db/wallet.sql.go:81-101` | outflow is the sum of what entries in the period take from the account, each side counted apart |
| `Reports.MovementsAreBalanceDifferences` | `internal/db/wallet.sql.go:15-30` | inflow less outflow over [from, to) is the balance at `to` less the balance at `from` |

## Left out

- SessionRuns.RevokeAllIsFinal: rests on atomic statements; what READ COMMITTED makes of them is `SessionRace.EscapedIff`.
- SessionRace.EscapedIff: one revocation at a time, without logout, pruning and transactions that abort.
- Overview.StoredAnswersIff: which aggregates the database computes is a parameter, any set that covers the listed groups, because that depends on the query plan.
- Overview.GetMyBalances: the totals are unbounded integers; as sums of int32 values they could leave int64 only with more than 2^32 groups. The query's row order is that of the given listing.
- LedgerRuns.GroupTables.CreateExpense: the float64 product that becomes the base amount is a parameter; a percentage from 999.995 on counts as refused although those below 999.99995 fit, which no request of fewer than 1.8 * 10^14 participants could otherwise pass; a wrapped share count in the INTEGER column is not modelled.
- LedgerRuns.BalancesSumToZeroIff: for a map that does not show the ledger it does not say when its wrong balances sum to zero all the same.
- Money.SplitEqualWithID: the hash is reduced modulo n, not modulo uint32(n), so more than 2^32 - 1 participants are not modelled faithfully.
- Expenses.ComputeSplit: the rounding of a float64 percentage to basis points is not modelled; basis points are the input.
- Ledger.ComputeBalances: how exchange rates are chosen is left out; a request's rate is any real number.
- Idempotency.Guard.Wrap: starts after the header, key, user and body checks; interim 1xx responses and content types set after the first write are not modelled.
- Recurrence.NextOccurrenceAfter: the float64 day count is a parameter bounded by the true count plus one; int overflow of k * n is not modelled, and k stays within the elapsed span.
- Recurring.Worker.RunDue: a commit that reports an error has either taken effect or not, as a fault chosen beforehand; other workers and locked rows are not modelled.
- RecurringSplits.InsertSplits: the float64 values of the JSON definitions are given as whole parts, and whether the percentage column takes a value as a flag.
- SessionRuns.AuthStore.ResetPassword: the look-up of the reset token and the transaction are one step, so two concurrent resets with one token are not modelled.
- SessionRuns.AuthStore.RotateSession: does not consider `expires_at`, as the statement does not; access tokens and their signatures are left out.
- Export.MyJSON: sections other than the transactions are given as key and value texts; JSON encoding of a row and CSV quoting are arbitrary functions.
- Reports.ReportsAgree: search terms are one arbitrary predicate, ledger entries arbitrary records, and the entry counts, which only the totals report has, are not compared. Sums are unbounded integers here and below.
- Reports.InflowIsEntrySum: the columns of AccountMovements by entry type are not modelled.
- Like.LikeContainsIsSubstring: strings are character sequences and case folding is any function on characters; Unicode normalisation is not modelled.
- Float percentages, currency conversion and remote rate services.
- Cursor pages of the expense list, group activity and global activity, which use the trimmed extra row as cursor.
- Group ownership, where leaving and role changes can remove the last owner.
- HTTP routing, JSON decoding, authorization checks, mail, configuration, seed data and uploads: input and output without a deep invariant.
- Argon2, SHA-256, JWT and FNV-1a.
- The wallet handlers, the sync store and the definition of the `ledger_entries` view.

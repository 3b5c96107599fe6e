# AssetAxis ledger core in Dafny

AssetAxis is a personal-finance application. Users own accounts, and each
account has a balance. Transactions (incomes and expenses, some of them
recurring) move those balances. Budgets raise an e-mail alert when a month's
spending nears them. This project models the bookkeeping behind the
framework and database calls, and proves its properties:

- **Recurring scheduler** (`lib/inngest/function.js`). A daily trigger
  selects the recurring transactions that are due and emits one event per
  transaction. A per-event processor books one occurrence of a due
  transaction, moves its account's balance and advances the original's
  schedule, all in one database transaction. `calculateNextRecurringDate`
  adds a day, a week, a month or a year the way JavaScript's `Date` does.
  A monthly step keeps the day of the month and rolls an overflow into the
  next month, so 31 January becomes 3 March, or 2 March in a leap year.
- **Budget-alert checker** (same file). For each budget whose user has a
  default account, it sums that account's expenses of the current month. It
  alerts when they reach 80% of the budget and no alert went out this
  calendar month, then stamps `lastAlertSent`.
- **`createTransaction`** (`actions/transaction.js`). The authentication,
  rate-limit, user and account gates come first. Then one database
  transaction inserts the row and overwrites the account's balance. Every
  error is rethrown behind `Failed to create transaction: `.
- **Account actions** (`actions/dashboard.js`): `serializeTransaction`, the
  default-account rule of `createAccount`, and the per-user listings
  `getUserAccounts` and `getDashboardData`, newest first.

The modules:

- `Wrappers`: `Option` and `Result`.
- `Calendar`: civil date-times `(year, month, day, seconds)`, with the
  overflow rules of `Date.setDate`, `setMonth` and `setFullYear`.
- `Ledger`: the rows, key helpers, the next-date calculation shared by both
  source files, and the records the database client returns.
- `Database`: class `Store`, which holds one `seq` per table. Its methods are
  the single database statements. A `$transaction` is made all-or-nothing by
  restoring the tables saved when it began.
- `Recurring`, `BudgetAlerts`, `Transactions`, `Dashboard`: the four parts
  above.

Each stateful operation has two forms. A pure function gives its committed
effect on the tables. A method on `Store` does the work step by step, and its
postcondition says that it ends in exactly that effect. The lemmas are stated
about the functions.

Money is integer cents. One `now` stands for every `new Date()` of a run.
Authentication (the Clerk user id), the rate limiter's decision and
`parseFloat`'s result are parameters.

Four behaviours of the code are easy to mistake for something else, and the model follows the code in each:

- A monthly step rolls over; it does not clamp to the month's last day, so 31 January never becomes 28 February.
- A processed transaction's next date is computed from `now`, not from its
  previous `nextRecurringDate`, so a late run shifts the schedule.
- A zero budget does not suppress alerts: it alerts as soon as anything is spent. `total / 0` is
  Infinity, which is at least 80; `0 / 0` is NaN, which compares false.
- The expense window ends at the midnight that starts the month's last day,
  not at the end of that day.

## Model

| member | source | states |
|---|---|---|
| Calendar.DaysInMonth | lib/inngest/function.js:40-44 | every month has 28 to 31 days; February has 28 outside leap years and 29 in them; exactly April, June, September and November have 30 |
| Calendar.AddDays | lib/inngest/function.js:211-216 | `setDate(getDate() + n)` yields a valid date-time at the same time of day; its closed forms are AddOneDay and AddSevenDays |
| Calendar.AddMonth | lib/inngest/function.js:217-219 | `setMonth(getMonth() + 1)` yields a valid date-time at the same time of day; its closed form is AddOneMonth |
| Calendar.AddYear | lib/inngest/function.js:220-222 | `setFullYear(getFullYear() + 1)` yields a valid date-time at the same time of day; its closed form is AddOneYear |
| Calendar.Normalize | lib/inngest/function.js:217-219 | an overflowing day-of-month is carried into later months and always yields a valid date at the same time of day |
| Calendar.StartOfMonth | lib/inngest/function.js:35-39 | midnight on the 1st of the month of `d`, not after `d` |
| Calendar.EndOfMonth | lib/inngest/function.js:40-44 | midnight starting the last day of the month of `d`, strictly after any earlier day of that month |
| Calendar.AddDaysIsLater | lib/inngest/function.js:211-216 | adding one or more days gives a strictly later date-time |
| Calendar.AddOneDay | lib/inngest/function.js:211-213 | a daily step gives the next day of the month, or the 1st of the next month from the last day |
| Calendar.AddSevenDays | lib/inngest/function.js:214-216 | a weekly step stays in the month or lands in the first week of the next |
| Calendar.AddMonthIsLater | lib/inngest/function.js:217-219 | a monthly step is strictly later |
| Calendar.AddOneMonth | lib/inngest/function.js:217-219 | a monthly step keeps the day-of-month when the next month has it; otherwise it rolls into the month after that, never clamping |
| Calendar.MonthlyFromJanuary31 | lib/inngest/function.js:217-219 | 31 January steps to 3 March in 2023 and to 2 March in 2024 |
| Calendar.AddYearIsLater | lib/inngest/function.js:220-222 | a yearly step is strictly later |
| Calendar.AddOneYear | lib/inngest/function.js:220-222 | a yearly step keeps month and day, except that 29 February becomes 1 March |
| Calendar.AddMonthsKeepsEarlyDay | lib/inngest/function.js:217-219 | from a day of the month up to 28, k monthly steps advance the month k times and keep day and time |
| Calendar.TwelveMonthsIsOneYear | lib/inngest/function.js:217-222 | from a day of the month up to 28, twelve monthly steps equal one yearly step |
| Ledger.NextRecurringDate | lib/inngest/function.js:208-227 | succeeds exactly for DAILY, WEEKLY, MONTHLY and YEARLY, giving a valid, strictly later date at the same time of day; any other or missing interval fails with "Invalid interval" (the copy at actions/transaction.js:95-114 is the same) |
| Ledger.BalanceChange | lib/inngest/function.js:177-178 | the signed effect on the balance: minus the amount for an expense, the amount otherwise (the same rule as actions/transaction.js:61) |
| Ledger.FreshId | lib/inngest/function.js:164-175 | the key the database assigns to a created row is non-empty and not yet used |
| Ledger.FindUserByClerkId | actions/transaction.js:46-52 | `user.findUnique({clerkUserId})` yields a user with that identity, or none exists |
| Ledger.UpdateBudgetAt | lib/inngest/function.js:83-86 | under unique keys, updating budget `id` changes exactly that one row |
| Ledger.IncrementBalanceTotal | lib/inngest/function.js:180-187 | a balance increment on key `id` moves the total of all balances by `delta` if the row exists, else by 0 |
| Ledger.SetBalanceTotal | actions/transaction.js:74-77 | overwriting one balance moves the total by new minus old |
| Database.Store.InsertTransaction | lib/inngest/function.js:164-175 | `transaction.create` appends the row and keeps keys unique |
| Database.Store.InsertAccount | actions/dashboard.js:63-70 | `account.create` appends the row and keeps keys unique |
| Database.Store.IncrementBalance | lib/inngest/function.js:180-187 | the increment applies iff the key exists; otherwise nothing changes and the caller throws |
| Database.Store.SetBalance | actions/transaction.js:74-77 | the account's balance is overwritten; keys stay unique |
| Database.Store.SetSchedule | lib/inngest/function.js:189-195 | `lastProcessed` and `nextRecurringDate` of the original are written |
| Database.Store.ClearDefaults | actions/dashboard.js:56-59 | `updateMany` clears the default flag on the user's default accounts |
| Database.Store.SetLastAlertSent | lib/inngest/function.js:83-86 | the budget's `lastAlertSent` is written |
| Database.Store.Restore | lib/inngest/function.js:163-197 | a thrown `$transaction` leaves the tables as they were when it began |
| Recurring.TriggerEvents | lib/inngest/function.js:105-127 | an event is emitted for a row iff the row is recurring, COMPLETED, and never processed or scheduled at or before `now` |
| Recurring.TriggerRecurringTransactions | lib/inngest/function.js:120-132 | `triggered` equals the number of events sent; nothing is sent iff no row is selected |
| Recurring.OneEventPerSelectedTransaction | lib/inngest/function.js:121-127 | with unique keys, each selected row gets exactly one `{transactionId, userId}` event and every other row none |
| Recurring.SelectedByTrigger | lib/inngest/function.js:106-115 | the trigger's query filter: recurring, COMPLETED, and never processed or with a `nextRecurringDate` at or before `now` (a null date fails `lte`) |
| Recurring.IsTransactionDue | lib/inngest/function.js:199-206 | due when never processed or when the next date, read with `new Date(null)` as the epoch, is at or before `now` |
| Recurring.Occurrence | lib/inngest/function.js:164-175 | the booked occurrence copies type, amount, category, owner and account, dates itself `now`, appends "  (Recurring)" to the description and is not recurring |
| Recurring.SelectedIsDue | lib/inngest/function.js:199-206 | every row the trigger selects passes `isTransactionDue` |
| Recurring.FindOwned | lib/inngest/function.js:153-159 | the lookup finds a row with that key owned by that user, or there is none |
| Recurring.ProcessRecurring | lib/inngest/function.js:146-197 | an event missing either field returns "Missing required event data"; any outcome other than Processed leaves both tables unchanged |
| Recurring.ProcessRecurringTransactions | lib/inngest/function.js:146-197 | the store ends in exactly the committed effect, and a throw inside the unit rolls back its insert and its increment |
| Recurring.ProcessOutcomeCases | lib/inngest/function.js:153-197 | a missing or not-due transaction is skipped; a due one fails with "Record to update not found." without its account, fails with "Invalid interval" for an unknown interval, and is otherwise processed |
| Recurring.ProcessedTransactions | lib/inngest/function.js:163-195 | processing inserts exactly one occurrence (same type, amount, category, user, account; not recurring; dated `now`; description + "  (Recurring)"; fresh key), stamps the original with `now` and a strictly later next date, and leaves every other row alone |
| Recurring.ProcessedBalance | lib/inngest/function.js:177-187 | the account moves by −amount for an expense and +amount otherwise; no other account changes; the total moves by the same amount |
| Recurring.ProcessingTwiceIsProcessingOnce | lib/inngest/function.js:189-206 | redelivering a just-processed event is a no-op, because the original is no longer due |
| BudgetAlerts.IsNewMonth | lib/inngest/function.js:95-98 | the month or the year of the two instants differ |
| BudgetAlerts.IsNewMonthIffDifferentMonth | lib/inngest/function.js:95-98 | `isNewMonth` is false iff both dates lie in the same calendar month |
| BudgetAlerts.DefaultAccount | lib/inngest/function.js:10-28 | `user.accounts[0]` of the default-filtered query is a default account of that user, and it is missing iff the user has none |
| BudgetAlerts.MonthWindow | lib/inngest/function.js:35-54 | an expense is summed iff it is in the month of `now`, excluding the last day after its first midnight |
| BudgetAlerts.MonthExpenses | lib/inngest/function.js:46-60 | the `_sum` of the amounts of the user's expenses on the account inside the month window, 0 when there are none |
| BudgetAlerts.MonthExpensesByMonth | lib/inngest/function.js:46-60 | the month's expense total depends on `now` only through its calendar month |
| BudgetAlerts.ThresholdReached | lib/inngest/function.js:62-64 | the 80% test in integer cents, with the comparison flipped for a negative budget and Infinity or NaN for a zero budget |
| BudgetAlerts.ThresholdIsEightyPercent | lib/inngest/function.js:60-64 | for a non-zero budget, the integer test equals `(total / budget) * 100 >= 80` on exact reals |
| BudgetAlerts.CheckBudget | lib/inngest/function.js:26-87 | no default account means no alert; an alert names the budget and its user, the spend reaches the threshold, and no alert was recorded this month |
| BudgetAlerts.CheckBudgets | lib/inngest/function.js:26-91 | each budget row afterwards is its own check's result, stamped with `now` exactly when it alerted, and at most one alert per budget is sent; OutboxIsAlertsOf says which |
| BudgetAlerts.AlertsComeFromBudgets | lib/inngest/function.js:64-81 | every alert sent is the alert of one of the budgets |
| BudgetAlerts.QuietRunSendsNothing | lib/inngest/function.js:64-87 | when no budget is due, nothing is sent |
| BudgetAlerts.AlertsOf | lib/inngest/function.js:26-81 | the reference outbox, read front to back: one alert per alerting budget, in budget order, never more alerts than budgets |
| BudgetAlerts.AlertsOfMembers | lib/inngest/function.js:64-81 | an alert is in the reference outbox iff some budget calls for it |
| BudgetAlerts.AlertsOfDistinct | lib/inngest/function.js:64-81 | with unique budget keys no two reference alerts name the same budget |
| BudgetAlerts.OutboxIsAlertsOf | lib/inngest/function.js:26-91 | the alerts a run sends are exactly the reference outbox, in budget order |
| BudgetAlerts.EveryDueAlertIsSent | lib/inngest/function.js:64-86 | every alerting budget's alert is sent; with unique keys a budget is named by a sent alert iff it alerts (and so iff it is stamped), and by at most one |
| BudgetAlerts.CheckBudgetAlert | lib/inngest/function.js:6-93 | the loop leaves the budgets table and the outbox equal to the whole run's result; the stamp is written whatever the send returned |
| BudgetAlerts.SkippedWithoutDefaultAccount | lib/inngest/function.js:26-28 | a budget whose user has no default account yields no alert and keeps its row |
| BudgetAlerts.AlertCondition | lib/inngest/function.js:64-65 | a budget alerts iff its user has a default account, that account's month expenses reach the threshold, and the last alert is unset or in another month |
| BudgetAlerts.AtMostOneAlertPerMonth | lib/inngest/function.js:64-86 | a second run in the same calendar month over the same accounts and transactions sends nothing and writes nothing |
| BudgetAlerts.OncePerMonth | lib/inngest/function.js:64-86 | a budget stamped by an alert does not alert again in the same calendar month, whatever the accounts and transactions are by then |
| BudgetAlerts.NoSecondAlertInTheMonth | lib/inngest/function.js:64-86 | with unique budget keys, a later run in the same calendar month over any tables sends no alert for a budget the first run alerted for |
| Transactions.NatToString | actions/transaction.js:41 | a number renders as decimal digits without leading zeros |
| Transactions.NatToStringRoundTrip | actions/transaction.js:41 | the rendered digits read back as the number |
| Transactions.FindAccountOf | actions/transaction.js:54-59 | the account lookup finds an account with that key owned by the user, or there is none |
| Transactions.Admit | actions/transaction.js:19-59 | the gates in order: "Unauthorized", the rate-limit message with `reset` and `remaining`, "Request Blocked", "User not found"; admission names a known user and an account that user owns |
| Transactions.AdmitOwnedAccount | actions/transaction.js:54-59 | past the first gates, the call is admitted iff the user owns an account with the requested key |
| Transactions.NewRow | actions/transaction.js:65-72 | the row carries the form's fields, the caller's user id, no `lastProcessed`, status COMPLETED; `nextRecurringDate` is set iff recurring with an interval, and is later than the date; an unknown interval throws "Invalid interval" |
| Transactions.SerializeAmount | actions/transaction.js:13-16 | only `amount` changes, to the same value as a number |
| Transactions.SerializeAmountAgrees | actions/transaction.js:13-16 | on a transaction row, `serializeAmount` gives the same result as the dashboard's `serializeTransaction` |
| Transactions.Response | actions/transaction.js:87 | the caller receives the created row with a numeric amount, or the error |
| Transactions.CreateTransactionOutcome | actions/transaction.js:18-91 | every failure leaves both tables unchanged and carries the prefix "Failed to create transaction: "; success appends exactly the created row |
| Transactions.CreateTransaction | actions/transaction.js:11-91 | the store ends in exactly the committed effect, and the caller receives the serialised row |
| Transactions.CreateTransactionGates | actions/transaction.js:19-59 | each refusing gate throws its own message behind the prefix and writes nothing |
| Transactions.CreatedTransaction | actions/transaction.js:65-87 | a successful call appends exactly the row built for the caller under an unused key, and returns it serialised as `serializeTransaction` would |
| Transactions.CreateTransactionBalance | actions/transaction.js:61-77 | the chosen account's balance becomes old − amount for an expense and old + amount otherwise; every other account is unchanged |
| Transactions.CreateTransactionTotal | actions/transaction.js:61-77 | the total of all balances moves by the signed amount |
| Transactions.InvalidIntervalPersistsNothing | actions/transaction.js:65-81 | an admitted recurring call with an unknown interval throws "Failed to create transaction: Invalid interval" and writes nothing |
| Transactions.CreatedSchedule | actions/transaction.js:70 | a row that is not recurring, or has no interval, has no next date; otherwise the next date is the calculator's result |
| Dashboard.SerializeTransaction | actions/dashboard.js:7-16 | the same keys; `balance` and `amount` become numbers of the same value when they are decimals; every other field is copied |
| Dashboard.SerializeTransactionIsIdempotent | actions/dashboard.js:7-16 | serialising twice equals serialising once, and no money field stays decimal |
| Dashboard.SortNewestFirst | actions/dashboard.js:95 | the result is a permutation of the input, in descending order of the key |
| Dashboard.AccountsOf | actions/dashboard.js:93-95 | exactly the rows of the given user, each as many times as the table holds it, and no other row |
| Dashboard.TransactionsOf | actions/dashboard.js:119-122 | exactly the rows of the given user, each as many times as the table holds it, and no other row |
| Dashboard.CurrentUser | actions/dashboard.js:84-90 | "Unauthorized" without an identity, "User not found" when no user has it, else that user |
| Dashboard.GetUserAccounts | actions/dashboard.js:83-104 | `getUserAccounts`: the auth errors, or the caller's accounts newest first, serialised |
| Dashboard.GetUserAccountsLists | actions/dashboard.js:83-104 | `getUserAccounts` throws the auth errors first; otherwise it lists exactly the caller's accounts, each as often as the table holds it (once, under unique keys), newest first, each serialised |
| Dashboard.GetDashboardData | actions/dashboard.js:110-124 | `getDashboardData`: the auth errors, or the caller's transactions newest first, serialised |
| Dashboard.GetDashboardDataLists | actions/dashboard.js:110-124 | `getDashboardData` throws the auth errors first; otherwise it lists exactly the caller's transactions, each as often as the table holds it, newest first by date, each serialised |
| Dashboard.CreateAccountOutcome | actions/dashboard.js:18-79 | the call fails iff there is no identity, no user or no parseable balance; the failure is "Unauthorized" without an identity, "User not found" without a ledger user, and otherwise "Invalid balance amount"; every failure leaves the table unchanged |
| Dashboard.CreateAccount | actions/dashboard.js:18-79 | the store ends in exactly the committed effect: defaults cleared first when needed, then the insert |
| Dashboard.ShouldBeDefault | actions/dashboard.js:51-52 | a first account is always default; a later one only for `isDefault` "true" or true |
| Dashboard.CreatedAccount | actions/dashboard.js:44-70 | the new account belongs to the caller, holds the parsed balance and an unused key; it is default iff the caller had no account or `isDefault` is "true" or true; a new default clears the caller's other defaults; other users' accounts are untouched |
| Dashboard.AppendKeepsAtMostOneDefault | actions/dashboard.js:51-70 | clearing the user's defaults before appending a default, or appending a non-default, keeps at most one default per user |
| Dashboard.AppendDefaultKeepsDefaultExists | actions/dashboard.js:55-70 | appending a default after clearing keeps a default for every user with accounts |
| Dashboard.AppendOtherKeepsDefaultExists | actions/dashboard.js:51-52 | appending a non-default for a user with accounts keeps a default for every user with accounts |
| Dashboard.CreateAccountKeepsOneDefault | actions/dashboard.js:44-70 | `createAccount` preserves "at most one default account per user" and "every user with accounts has a default" |

## Left out

- The Inngest machinery is not modelled: `step.run` replay, the cron schedules, the per-user throttle (10 per minute), `inngest.send` delivery and retries. The trigger's output is the list of events it would send.
- Concurrency is not modelled. In particular, `createTransaction` reads the balance before its database transaction and writes an absolute value, so two concurrent calls can lose an update. The model runs one caller at a time.
- Floating point is not modelled. Amounts are exact integer cents, so `toNumber()` is the identity on them. `parseFloat` of the balance is a parameter, `Option<int>`, where `None` stands for NaN. The `toFixed(1)` formatting in the alert e-mail is left out.
- Time zones, daylight saving and the millisecond clock are not modelled. One `now` stands for every `new Date()` of a run.
- Sending the e-mail is not modelled. Its address and its rendering are not modelled either. An alert is the data handed to the template, appended to an outbox; the send's result is never read.
- Authentication, the rate limiter, `revalidatePath`, FormData decoding and the console output are not modelled. The first two are parameters; the rest have no effect on the tables. `createAccount` returns `undefined` on failure; the model's result carries, in its place, the message of the error it catches.
- `_count` of transactions in `getUserAccounts` is not modelled. The returned rows do not carry it.
- The schema's default `status` for a created row is not part of this model. It is taken to be COMPLETED, and every other status is an opaque name.
- Database-side validation errors on `create` are not modelled, for example an enum value the schema does not know.
- Dashboard.CreateAccountKeepsOneDefault: holds for the committed effect only. `createAccount` runs `updateMany` and then `create` without a `$transaction`, so a `create` that throws after a default was cleared would leave the user with no default account; such failures are not modelled.
- `Transactions.NatToString`: the rate limiter's `reset` and `remaining` are taken to be natural numbers.
- The route that registers `generateMonthlyReports` is not modelled. That function is not in the source, so there is no report logic to model.
- The UI components and hooks are not modelled. They hold no bookkeeping.

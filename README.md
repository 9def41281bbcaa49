# Balance: the budget-cycle resolver and the statement range

Balance is a personal finance tracker. A user registers with a salary credit
day (the *anchor*, a day of the month). Spending is tracked against a monthly
*cycle* that begins on the anchor day of each month. When the anchor exceeds
the month's length, it is clamped to the month's last day. For each cycle the
user records an allocation (a `MonthlyBudget`). The home page shows the
current cycle's allocation, the user's transactions since the cycle began,
and what is left. The user can also download a statement of one cycle.

This project models the logic behind those two pages:

- `Calendar` (`calendar.dfy`) holds the part of Python's `datetime` and
  `calendar` the resolver uses. It covers:
  - proleptic Gregorian dates in years 1 to 9999, with leap years;
  - `calendar.monthrange`'s month length;
  - the date order;
  - the date constructor, which raises `OverflowError` for an argument that does
    not fit a C `int` and `ValueError` for a day that does not exist;
  - `date ± timedelta(days=n)`, which raises `OverflowError` outside years 1 to 9999.

  Both exceptions become `Err` results. Dates are numbered as
  `date.toordinal()` numbers them, and day arithmetic is specified by these
  ordinals.
- `Cycle` (`cycle.dfy`) holds the resolver `get_current_cycle_start` and the
  handlers' way of finding where a cycle ends: resolve the date 32 days after
  its start.
- `Statement` (`statement.dfy`) holds the two handlers, `index` and
  `download_statement`:
  - the budget lookups;
  - the transaction filters;
  - the two orderings;
  - the totals.

  Persistence queries become pure functions over sequences of records.
- `Scenarios` (`scenarios.dfy`) holds worked cases that the verifier
  evaluates.

The main results are these:

- The resolver returns the latest clamped anchor date that is not after the
  reference date. It fails exactly when no such date exists or the anchor is
  below 1.
- The resolver is idempotent, and it is monotone in the reference date.
- From a cycle start of the current anchor, unless the 32 days pass
  9999-12-31, the +32-day step yields the cycle start of the very next
  calendar month, whatever the months' lengths.
- For a budget whose start is a cycle start of the current anchor, unless
  the 32 days pass 9999-12-31, the statement holds exactly the transactions
  that the resolver places in that cycle. Consecutive statements therefore
  neither overlap nor leave gaps.
- Unless the 32 days after the current cycle start pass 9999-12-31, the home
  page lists the cycle's statement plus every later transaction.
- Each balance is the allocation minus the total of the listed transactions,
  and the total does not depend on the listing order.

Three behaviours of the code shape the model:

- The date 32 days after a cycle start can lie two months on: 31 January
  2024 plus 32 days is 3 March 2024. The resolver still returns the next
  month's cycle start from such a date, as `Cycle.NextCycleStartIsNextMonth`
  proves (its landing lemma is `Cycle.LandingInMonthAfterNext`).
- `set_budget` inserts a new row on every POST, so several budgets can share
  a start. The model therefore accepts any sequence of budgets and takes the
  first match, as `.first()` does.
- The anchor is not assumed to be in 1..31. An anchor below 1 makes the date
  constructor raise: `ValueError` (`InvalidDate`), or `OverflowError`
  (`OutOfRange`) when it is below -2147483648 and does not fit a C `int`. An anchor above
  31 behaves like 31.

## Model

| member | source | states |
|---|---|---|
| Calendar.DaysInMonth | app.py:49 | `calendar.monthrange(y, m)[1]`: every month has 28 to 31 days |
| Calendar.MonthLengths | app.py:49 | February has 29 days exactly in a Gregorian leap year; April, June, September and November have 30 and the other months 31 |
| Calendar.MakeDate | app.py:64-66 | `datetime.date(y, m, d)` succeeds exactly for a date that exists; otherwise it fails with `OutOfRange` (OverflowError) when an argument does not fit a C `int`, and with `InvalidDate` (ValueError) when all do |
| Calendar.PrevDay | app.py:59-60 | `first_of_this_month - timedelta(days=1)` is the valid date one ordinal earlier; fails with `OutOfRange` exactly at 0001-01-01 |
| Calendar.NextDay | app.py:244 | one day later is the valid date one ordinal later; fails with `OutOfRange` exactly at 9999-12-31 |
| Calendar.AddDays | app.py:244 | `date + timedelta(days=n)` is the valid date `n` ordinals later; fails with `OutOfRange` exactly when that passes 9999-12-31 |
| Calendar.OrdinalMonotone | app.py:252-253 | the ordinal agrees with Python's date comparison: an earlier date has a smaller ordinal |
| Calendar.OrdinalInjective | app.py:244 | a valid date is determined by its ordinal, so timedelta arithmetic has one result |
| Calendar.OrdinalRange | app.py:244 | valid dates have ordinals 1 to 3652059; only 0001-01-01 and 9999-12-31 are at the ends |
| Cycle.ActualDay | app.py:48-50 | `get_actual_day` is `min(anchor, last_day)`: at most both, and equal to one of them |
| Cycle.CycleStart | app.py:42-66 | the result is the clamped anchor day of its month and not after `today`; it is `today` exactly when `today.day` is the target; it lies in today's month when `today.day >= target` and otherwise in the previous calendar month (December of the previous year for January); fails exactly for an anchor below 1 (`InvalidDate`, or `OutOfRange` when the anchor does not fit a C `int`) or when January of year 1 has no earlier cycle (`OutOfRange`) |
| Cycle.OneCycleStartPerMonth | app.py:48-56 | a calendar month holds at most one cycle start for a given anchor |
| Cycle.CycleStartInEveryMonth | app.py:48-50 | for an anchor of at least 1, every month of years 1 to 9999 has a cycle start: its clamped anchor day is a valid date |
| Cycle.CycleStartIsLatest | app.py:53-66 | for every cycle start `s` not after `today`, the resolver succeeds and its result is not before `s`: no cycle start lies strictly between the result and `today` |
| Cycle.CycleStartFixedPoints | app.py:42-66 | a date resolves to itself exactly when it is a cycle start of the anchor |
| Cycle.CycleStartIdempotent | app.py:42-66 | resolving a returned cycle start again returns it unchanged |
| Cycle.CycleStartMonotone | app.py:42-66 | a later reference date never resolves to an earlier cycle start |
| Cycle.NextCycleStart | app.py:243-247 | resolving `cycle_start + 32 days` yields a cycle start of the anchor; it fails exactly for an anchor below 1 (`InvalidDate`, or `OutOfRange` when the anchor does not fit a C `int`) or when the 32 days pass 9999-12-31 (`OutOfRange`, raised first) |
| Cycle.LandingInNextMonth | app.py:244 | when the following month is long enough, `s + 32 days` is the day `s.day + 32 - len(s's month)` of the following month |
| Cycle.LandingInMonthAfterNext | app.py:244 | otherwise `s + 32 days` lies in the month after the following one, on the day left over after both months' lengths |
| Cycle.NextCycleStartIsNextMonth | app.py:243-247 | from a cycle start `s`, the next cycle start is the clamped anchor day of the calendar month right after `s`'s month, strictly after `s`, for months of 28, 29, 30 and 31 days |
| Cycle.StatementWindowIsCycle | app.py:243-256 | a date lies in `[cycle_start, next_cycle_start)` exactly when the resolver maps it to `cycle_start` |
| Statement.Select | app.py:249-254 | the filtered rows are exactly the user's rows dated on or after the start and (when given) before the end, each as often as stored |
| Statement.Insert | app.py:255 | inserting into a sorted listing keeps it sorted and adds exactly that row |
| Statement.Sort | app.py:255 | `order_by` returns the same rows (as a multiset), sorted by the requested order |
| Statement.TotalSumsLeftToRight | app.py:89 | `sum(t.amount for t in transactions)` is 0 for no rows and otherwise adds the amounts from left to right: the total of all rows but the last plus the last row's amount |
| Statement.TotalAppend | app.py:259 | the sum of amounts over two concatenated listings is the sum of their sums |
| Statement.TotalPermutation | app.py:89 | `sum(t.amount for t in transactions)` does not depend on the order of the rows |
| Statement.Summarize | app.py:259-260 | `remaining_balance + total_spent == salary_credited`, with no clamping |
| Statement.FindBudget | app.py:235-237 | `.first()` returns nothing exactly when no budget of the user matches, and otherwise the first matching one in stored order |
| Statement.LiveView | app.py:72-90 | the home page fails as the resolver does, redirects exactly when no budget starts on the cycle start, and otherwise shows the first stored budget starting on the cycle start (`.first()`) and lists every row of the user dated on or after the cycle start, newest first, with the sum of their amounts and the allocation minus that sum |
| Statement.StatementFor | app.py:243-260 | the statement of a budget lists exactly the user's rows in `[start, next cycle start)`, oldest first, with their total and the allocation minus it; it fails exactly when the next cycle start cannot be computed, with that computation's error |
| Statement.DownloadStatement | app.py:213-260 | with a (truthy) year and month: the statement of the first budget starting in that month when one exists; a redirect exactly when none exists and the month is a real one; when none exists and the month is not a real one, the error of the flash message's `date(year, month, 1)`: `OutOfRange` when the year or month does not fit a C `int`, `InvalidDate` otherwise. Otherwise: the statement of the budget starting on the current cycle start when one exists, failing as the resolver does and redirecting exactly when no budget starts on the cycle start |
| Statement.StatementHoldsItsCycle | app.py:249-256 | a budget's statement holds a stored row of the user exactly when the resolver maps the row's date to the budget's start |
| Statement.BoundaryTransactionInNextStatement | app.py:253 | a row dated exactly on the next cycle start is left out of the statement and appears in the statement of the budget starting that day |
| Statement.LiveViewIsStatementPlusLater | app.py:81-87 | the home page has no upper bound: it lists the cycle's statement plus every row dated on or after the next cycle start |
| Statement.SelectSplits | app.py:83 | the rows from `start` on are the rows of `[start, end)` plus the rows from `end` on |
| Scenarios.RollBackAndStart | app.py:55-66 | anchor 8: 2024-03-05 resolves to 2024-02-08, and 2024-03-08 to itself |
| Scenarios.ClampToMonthLength | app.py:48-50 | anchor 31: 2024-02-15 resolves to 2024-01-31; 2024-02-29 and 2023-04-30 resolve to themselves |
| Scenarios.RollBackOverNewYear | app.py:59-66 | anchor 8: 2024-01-03 resolves to 2023-12-08 |
| Scenarios.ResolverFailures | app.py:56-60 | early January of year 1 has no earlier cycle; an anchor of 0 is rejected by the date constructor (ValueError), and an anchor of -10^12 overflows its C `int` argument (OverflowError) |
| Scenarios.NextCycleIntoLeapFebruary | app.py:243-247 | anchor 31: the cycle after 2024-01-31 starts on 2024-02-29 |
| Scenarios.NextCycleIntoCommonFebruary | app.py:243-247 | anchor 31: the cycle after 2023-01-31 starts on 2023-02-28 |
| Scenarios.NextCycleOutOfLeapFebruary | app.py:243-247 | anchor 31: the cycle after 2024-02-29 starts on 2024-03-31 |
| Scenarios.NextCycleOutOfThirtyDayMonth | app.py:243-247 | anchor 31: the cycle after 2023-04-30 starts on 2023-05-31 |
| Scenarios.NextCycleOverNewYear | app.py:243-247 | anchor 8: the cycle after 2023-12-08 starts on 2024-01-08 |
| Scenarios.StatementTotals | app.py:259-260 | 100.50 and 40.00 spent of 1000.00 gives 140.50 spent and 859.50 left |
| Scenarios.OverspendingIsNegative | app.py:260 | spending 1200.00 of 1000.00 leaves -200.00 |
| Scenarios.LiveViewKeepsLaterRows | app.py:81-87 | a row dated in the next cycle is on the home page but not in the cycle's statement |

## Left out

- Flask routing, login and logout, registration, password hashing and flash
  messages are web and authentication plumbing. The redirects the handlers
  take are modelled as `NoBudgetFound`.
- Writes to the database (`db.session.add`/`commit` in `register`,
  `set_budget`, `add_transaction`, `update_profile`) and the
  `inject_budgets` context processor are left out as persistence. The
  queries become pure filters over sequences of stored rows, and the stored
  rows are parameters.
- PDF rendering, `strftime` formatting, the download file name and
  `send_file` belong to a foreign library's output.
- Clock reads (`datetime.date.today()`, `datetime.datetime.now()`) are
  replaced by a `today` parameter. The resolver's default `day=8` is not
  modelled: every caller passes the user's anchor.
- Amounts are integers in minor currency units. Float rounding of the
  `Float` columns and of `sum` is not modelled.
- Environment and configuration loading is left out.
- Statement.Sort: the query does not fix the order of rows that compare
  equal (the same date for the statement, the same date and time for the
  home page). The contract therefore states only "sorted and a permutation"
  and leaves the order of ties open.
- Anchor changes: `update_profile` can change the anchor after budgets
  exist. The cycle properties (`Cycle.NextCycleStartIsNextMonth`,
  `Statement.StatementHoldsItsCycle`) are stated for a budget whose start is
  a cycle start of the current anchor. For other budgets only
  `Statement.StatementFor`'s contract applies.
- Statement.FindBudget: the order in which the database returns rows
  without an `ORDER BY` is modelled as the stored sequence order.
- Query arguments that fail to parse as integers are modelled as absent,
  which is what `request.args.get(..., type=int)` returns for them.

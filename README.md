# Nayara expense and income tracker — a verified Dafny model

This project models the logic of a small personal-finance application: a
Next.js dashboard, backed by a hosted database, where a user records
expenses and incomes and sees monthly totals, a balance and a 50/30/20
budget split. The model covers these parts of the program:

- **The expense utilities** (`utils/expenses.ts`):
  - `saveExpense` expands one purchase into its monthly installment rows.
  - `getExpenses` and `getFutureExpenses` are the range queries.
  - `deleteExpense` deletes one row, or a whole installment group.
  - `getMonthsRange` groups the fetched rows into month buckets.
- **The income utilities** (`utils/incomes.ts`): insert, range query,
  month buckets and delete by id.
- **The budget panel** (`components/FinancialDiagnostics.tsx`):
  - the three category groups;
  - each group's ideal share, spending, remainder and usage percentage;
  - the open/closed flag of each group card;
  - the month window it fetches.
- **The dashboard page** (`app/page.tsx`):
  - the month shown and its income and expense totals;
  - the balance;
  - previous/next month navigation;
  - the refresh keys.

The JavaScript `Date` operations the code relies on are `setMonth`,
`setDate`, `setHours` and `new Date(y, m, d)`. They are modelled as
ECMAScript's MakeDay and MakeTime specify them, in a single time zone.
MakeDay rolls an out-of-range month or day over into the neighbouring
months and never clamps. For example, 31 January moved on one month with
`setMonth` is 2 March. This rollover is behind the four findings below.
"## Left out" lists the corners of `Date` the model does not follow.

Modules, one per file:

| file | module | models |
|---|---|---|
| `outcomes.dfy` | `Outcomes` | `Option`, `Result` and the error kinds the utilities raise |
| `calendar.dfy` | `Calendar` | Gregorian days, MakeDay rollover (`Normalize`), `setMonth`, `setDate` and `setHours` as functions |
| `jsdate.dfy` | `JsDates` | a mutable `Date` object (class `JsDate`) whose setters change it in place |
| `seqs.dfy` | `Seqs` | summing `reduce`, pushing in a loop, and the store's `order` by a key |
| `tables.dfy` | `Tables` | a table's rows with assigned ids, the insert, the `eq('id')` lookup and delete, and the `eq('user_id')` filter |
| `buckets.dfy` | `MonthBuckets` | the month-bucketing loop of `getMonthsRange`, shared by expenses and incomes |
| `expenses.dfy` | `Expenses` | the expense table (class `ExpenseStore`) and its operations |
| `incomes.dfy` | `Incomes` | the income table (class `IncomeStore`) and its operations |
| `window.dfy` | `MonthWindows` | the month window the dashboard and the panel query |
| `diagnostics.dfy` | `FinancialDiagnostics` | the budget panel (class `Panel`) |
| `dashboard.dfy` | `Dashboard` | the dashboard page (class `Home`) |

How the environment is represented:

- The database is the two store classes, each holding a `seq` of rows and
  the next id the table will assign.
- The signed-in user is an `Option<string>`.
- A failure the backend might report is a `fault: bool` parameter.
- `crypto.randomUUID()` is a `groupId` parameter. The caller guarantees it
  is non-empty and fresh, meaning no stored row has it yet.
- "Now" is a `DateTime` parameter.

A month shift that clamps to the month's last day would date the second
installment of a 2024-01-31 purchase on 2024-02-29. The code's `setMonth`
dates it 2024-03-02 (`Expenses.InstallmentSkipsFebruary`). The clamped
expansion is `Expenses.IntendedInstallmentMonths`.

The three category tables are constants, so they have no row of their own:
- `Expenses.Categories` is `CATEGORIES` (utils/expenses.ts:189-198).
- `Incomes.IncomeCategories` is `INCOME_CATEGORIES` (utils/incomes.ts:22-29).
- `FinancialDiagnostics.CategoryGroups`, with `Essentials`, `DayToDay` and `Savings`, is `categoryGroups` (components/FinancialDiagnostics.tsx:54-79).

What they guarantee is stated by `FinancialDiagnostics.GroupTable`, `UngroupedCategories` and `SavingsIsIncomeCategory`.

## Model

| member | source | states |
|---|---|---|
| Calendar.Normalize | utils/expenses.ts:168-169 | `new Date(y, m, d)` (ECMAScript MakeDay): the month rolls over into the year and the day into the neighbouring months, always giving a valid day |
| Calendar.NormalizeCarry | utils/expenses.ts:145-146 | `new Date(y, m, d)` carries an out-of-range month into the year: year `y + m div 12`, month `m mod 12` (floor division) |
| Calendar.RollForwardIndex | utils/expenses.ts:168 | a positive day never rolls back before its month, and stays in it exactly when the month has that day |
| Calendar.RollBackwardIndex | utils/expenses.ts:169 | a day of 0 or less always rolls back into an earlier month |
| Calendar.NormalizeIndex | utils/expenses.ts:168-169 | for any month, a positive day lands in that month or later, and a day of 0 or less lands strictly before it |
| Calendar.NormalizeValid | utils/expenses.ts:38 | a valid calendar day is left unchanged by normalisation, so `setMonth(getMonth() + 0)` keeps installment 0 on the input date (used by `Expenses.SingleInstallmentShape`) |
| Calendar.NormalizeFirstDay | utils/expenses.ts:145 | `new Date(y, m, 1)` for any month number `m` is the first day of month index `12 y + m` |
| Calendar.WithTime | app/page.tsx:71 | `setHours` always yields a valid time. For in-range arguments the time of day is exactly h:mi:s.ms and a valid date is kept |
| Calendar.ShiftMonths | utils/expenses.ts:37-38 | `setMonth(getMonth() + k)` on a day: MakeDay of the same year, month + k and the same day, always a valid day |
| Calendar.SetDate | app/page.tsx:70 | `setDate(k)` on a day: MakeDay of the same year and month with day k, always a valid day |
| Calendar.ShiftMonthsCases | utils/expenses.ts:37-38 | `setMonth(getMonth() + k)` keeps the day when the target month has it; otherwise the surplus days spill into the following month |
| Calendar.ShiftMonthsSmallDay | utils/expenses.ts:37-38 | with a day of at most 28, a shift by `k` months keeps the day and moves the month index by exactly `k`, carrying into the year |
| Calendar.ShiftMonthsBounds | utils/expenses.ts:162-163 | a shift by `k` lands `k` or `k + 1` months on, and a shift by 0 changes nothing |
| Calendar.ShiftMonthsRoundTrip | app/page.tsx:95-109 | with a day of at most 28, shifting by `k` and then by `-k` restores the date |
| Calendar.SetDateZero | app/page.tsx:75 | `setDate(0)` lands on the last day of the previous month |
| Calendar.MonthEnds | utils/expenses.ts:168-169 | `new Date(y, m, 1)` and `new Date(y, m + 1, 0)` are the first and the last day of month `m` |
| Calendar.MonthBoundsExact | utils/expenses.ts:171-174 | a valid day lies between a month's first and last day exactly when it is in that month |
| Calendar.MonthSpanContains | utils/expenses.ts:144-146 | every day of the months from a first day to a last day lies between the two |
| Calendar.ShiftMonthsSkipsFebruary | utils/expenses.ts:37-38 | 2024-01-31 plus one month is 2024-03-02; 2024-03-31 minus one month is 2024-03-02 |
| Calendar.AddMonthsClamped | utils/expenses.ts:37-38 | the clamped month shift lands exactly `k` months on, on a valid day no later than the original, which is kept or else is the last day of the month |
| Calendar.AddMonthsClampedAgrees | utils/expenses.ts:37-38 | `setMonth` and the clamped shift agree exactly when the clamped shift keeps the day |
| JsDates.JsDate.constructor | app/page.tsx:69 | `new Date(t)` is a valid copy of `t` |
| JsDates.JsDate.SetMonth | app/page.tsx:74 | the object becomes day `day` of month `m` rolled over, and the time of day is kept |
| JsDates.JsDate.SetDate | app/page.tsx:70 | the object becomes day `d` of its month rolled over, and the time of day is kept |
| JsDates.JsDate.SetHours | app/page.tsx:71 | the object takes the new time of day, and any overflow carries into the date |
| Seqs.Sum | app/page.tsx:83-84 | the `reduce((acc, x) => acc + x.amount, 0)` totals, element by element from 0 |
| Seqs.SumConcat | utils/expenses.ts:176 | the sum of a concatenation is the sum of the sums |
| Seqs.SumNonNegative | utils/expenses.ts:176 | non-negative amounts have a non-negative sum |
| Seqs.SumPermutation | app/page.tsx:83-84 | a reordering of the rows has the same sum, so the totals do not depend on the order the store returns |
| Seqs.TabulateIndex | utils/expenses.ts:178-183 | element `i` of the sequence built by pushing `f(0)`, `f(1)`, ... is `f(i)` |
| Seqs.InsertBy | utils/expenses.ts:81 | inserting adds exactly one element, as a multiset |
| Seqs.InsertBySorted | utils/expenses.ts:81 | inserting into a sorted sequence keeps it sorted |
| Seqs.SortBy | utils/expenses.ts:81 | `order(...)` returns a permutation of the rows that is sorted by the key |
| Tables.Stamp | utils/expenses.ts:55-58 | inserted row `k` gets id `first + k` and keeps its data |
| Tables.FindById | utils/expenses.ts:115-121 | a hit is a stored row with that id; a miss happens exactly when no row has the id |
| Tables.WithoutId | utils/expenses.ts:131-134 | after a delete by id, exactly the rows with another id remain, and unique ids stay unique |
| Tables.WithoutIdRemovesOne | utils/expenses.ts:131-134 | with unique ids, deleting a present id removes that one row and keeps the others in order |
| Tables.WithoutIdAbsent | utils/incomes.ts:137-144 | deleting an id no row has leaves the table unchanged |
| Tables.StampAppend | utils/expenses.ts:55-58 | appending freshly stamped rows keeps ids unique and below the new next id, and adds only the inserted data |
| Tables.OwnedBy | utils/expenses.ts:78 | `eq('user_id', u)` keeps exactly the rows of user `u` |
| Tables.OwnedBySubMultiset | utils/expenses.ts:78 | the owner filter keeps each row at most as often as the table holds it |
| MonthBuckets.InDateRange | utils/expenses.ts:79-80 | the `gte`/`lte` date filter keeps exactly the rows dated from start to end inclusive |
| MonthBuckets.InDateRangeSubMultiset | utils/expenses.ts:79-80 | the date filter keeps each row at most as often as the input holds it |
| MonthBuckets.InDateRangeCount | utils/expenses.ts:79-80 | the date filter keeps a row dated in range exactly as often as the input holds it, and no other row |
| MonthBuckets.InDateRangeConcat | utils/expenses.ts:79-80 | the date filter distributes over concatenation, so the rows it keeps stay in their original order |
| MonthBuckets.BucketDate | utils/expenses.ts:162-163 | the date of bucket `i`: `setMonth(today.getMonth() - i)` on a copy of today, a valid day |
| MonthBuckets.Bucket | utils/expenses.ts:165-176 | bucket `i`: the month and year of its date, the rows from that month's first to its last day, and their summed amounts |
| MonthBuckets.WindowStart | utils/expenses.ts:145 | `new Date(year, month - range + 1, 1)` is day 1 of the month `range - 1` months before today's |
| MonthBuckets.WindowEnd | utils/expenses.ts:146 | `new Date(year, month + 1, 0)` is the last day of today's month |
| MonthBuckets.MonthsRange | utils/expenses.ts:160-186 | the loop builds `range` buckets (none for a range of 0 or less), and bucket `i` is the month of `today` moved back `i` months with `setMonth` |
| MonthBuckets.BucketStep | utils/expenses.ts:162-176 | the loop body's `monthStart`/`monthEnd` filter and total build exactly bucket `i` |
| MonthBuckets.BucketContents | utils/expenses.ts:165-183 | a bucket names a month 0..11, holds exactly the rows of that month, and its total is their sum |
| MonthBuckets.BucketMonthBounds | utils/expenses.ts:162-166 | bucket `i` is `i` months back, or `i - 1` on overflow; bucket 0 is today |
| MonthBuckets.BucketMonthExact | utils/expenses.ts:162-166 | with a day of at most 28, bucket `i` is exactly `i` months back |
| MonthBuckets.BucketsPartition | utils/expenses.ts:161-174 | with a day of at most 28, a row is in bucket `i` exactly when its month is `i` months back |
| MonthBuckets.BucketSkipsFebruary | utils/expenses.ts:162-163 | on 2024-03-31, bucket 1 is March again, and a February row is in no bucket |
| MonthBuckets.IntendedBucketsPartition | utils/expenses.ts:161-174 | with clamping, on every day a row is in bucket `i` exactly when its month is `i` months back |
| MonthBuckets.BucketInsideWindow | utils/expenses.ts:144-146 | the fetch window runs from the first day `range - 1` months back to the last day of this month, and covers every bucket's month |
| MonthBuckets.WindowBucketContents | utils/expenses.ts:144-184 | bucketing the rows fetched for the window gives each bucket exactly the user's rows of its month |
| MonthBuckets.WindowBucketRecords | utils/expenses.ts:144-184 | when the fetched rows are the user's rows in the window, each as often as stored, bucket `i` holds the user's rows of its month with the same multiplicities, and its total is their sum |
| MonthBuckets.WindowMonths | utils/expenses.ts:140-187 | the buckets of the window's rows satisfy `MonthsOf` for all the user's rows: bucket 0 is the current month, bucket `i` names the month of `setMonth(getMonth() - i)` (`i` or `i - 1` months back, exactly `i` for a day up to 28). Each bucket holds, as a multiset, exactly the user's rows of that month, and its total is their sum |
| Expenses.InstallmentRow | utils/expenses.ts:40-50 | one element of `expensesData`: the input's fields, the owner, the given date and, with more than one installment, the count, the number `i + 1`, the group and the total `amount * n` |
| Expenses.InstallmentRows | utils/expenses.ts:33-53 | the whole `expensesData` array: `RowCount` rows, row `i` dated `setMonth(baseDate.getMonth() + i)` |
| Expenses.InstallmentCount | utils/expenses.ts:29 | a missing or zero `installments` means 1; any other value is used as it is |
| Expenses.ExpandInstallments | utils/expenses.ts:33-53 | the loop over fresh copies of the base date builds exactly the installment rows |
| Expenses.InstallmentRowCount | utils/expenses.ts:29-36 | a missing or zero count gives one row, `n >= 1` gives `n` rows, and a negative count gives none |
| Expenses.InstallmentGroupShape | utils/expenses.ts:30-48 | with more than one installment, row `i` is number `i + 1` of `n`, in the shared group, with total `amount * n` |
| Expenses.InstallmentNumbersDistinct | utils/expenses.ts:47 | two rows of one purchase never share an installment number |
| Expenses.SingleInstallmentShape | utils/expenses.ts:29-50 | a single installment gives one row on the input date, with null installment fields and the total equal to the amount |
| Expenses.InstallmentRowsKeepFields | utils/expenses.ts:40-50 | every row keeps the amount, description and category, belongs to the user, and all rows share one total |
| Expenses.InstallmentDates | utils/expenses.ts:37-42 | row `i` is dated `i` or `i + 1` months after the base date; with a day of at most 28, exactly `i` months after, on the same day |
| Expenses.InstallmentSkipsFebruary | utils/expenses.ts:36-42 | a 2024-01-31 purchase in two installments has rows dated 2024-01-31 and 2024-03-02, and none in February |
| Expenses.IntendedInstallmentRows | utils/expenses.ts:36-53 | the clamped expansion has as many rows as the written one |
| Expenses.IntendedInstallmentMonths | utils/expenses.ts:37-38 | clamped installment `i` always falls exactly `i` months on, and equals the written row when the day is at most 28 |
| Expenses.WithoutGroup | utils/expenses.ts:124-127 | a group delete keeps exactly the rows of other groups, and unique ids stay unique |
| Expenses.RowsInRange | utils/expenses.ts:75-81 | the query keeps exactly the user's rows dated from start to end inclusive |
| Expenses.RowsInRangeSubMultiset | utils/expenses.ts:75-81 | the query returns each row at most as often as the table holds it |
| Expenses.DeleteSavedGroup | utils/expenses.ts:123-127 | deleting the group of a just-saved purchase restores the table |
| Expenses.AllInGroup | utils/expenses.ts:123-127 | deleting a group every row belongs to empties the table |
| Expenses.ExpenseStore.SaveExpense | utils/expenses.ts:24-68 | given a non-empty fresh group id, as `randomUUID()` gives: no user gives "not authenticated", and a store error gives an error; neither inserts anything. Otherwise exactly the installment rows are appended with fresh ids and returned |
| Expenses.ExpenseStore.GetExpenses | utils/expenses.ts:70-92 | no user or a store error gives `[]`; otherwise the result is a permutation of the user's rows in range, newest first |
| Expenses.ExpenseStore.GetFutureExpenses | utils/expenses.ts:94-112 | no user or a store error gives an error; otherwise the user's rows from today to `setMonth(+months)`, oldest first |
| Expenses.ExpenseStore.DeleteExpense | utils/expenses.ts:114-138 | a missing id gives "not found" and deletes nothing. `deleteAll` with a non-empty group deletes the group; otherwise it deletes the one row |
| Expenses.ExpenseStore.GetMonthsRange | utils/expenses.ts:140-187 | no user or a store error gives an error; otherwise `range` buckets with `MonthsOf`: the current month first, bucket `i` naming the month `setMonth` gives `i` months back, each holding, as a multiset, exactly the user's rows of its month, with their sum as its total |
| Incomes.RowsInRange | utils/incomes.ts:69-75 | the query keeps exactly the user's incomes dated from start to end inclusive |
| Incomes.RowsInRangeSubMultiset | utils/incomes.ts:69-75 | the query returns each income at most as often as the table holds it |
| Incomes.DeleteIncomeEffect | utils/incomes.ts:137-144 | deleting an absent id changes nothing; deleting a present one removes exactly one row |
| Incomes.IncomeStore.SaveIncome | utils/incomes.ts:31-62 | no user or a store error inserts nothing; otherwise exactly one row, the input plus the owner, is appended and returned |
| Incomes.IncomeStore.GetIncomes | utils/incomes.ts:64-86 | no user or a store error gives `[]`; otherwise a permutation of the user's incomes in range, newest first |
| Incomes.IncomeStore.GetMonthsRange | utils/incomes.ts:88-135 | no user or a store error gives an error; otherwise `range` buckets with `MonthsOf`: the current month first, bucket `i` naming the month `setMonth` gives `i` months back, each holding, as a multiset, exactly the user's incomes of its month, with their sum as its total |
| Incomes.IncomeStore.DeleteIncome | utils/incomes.ts:137-144 | deletes the row with that id, without checking that it exists; a store error deletes nothing |
| MonthWindows.WindowOf | app/page.tsx:69-76 | the window as the `Date` mutations compute it: `setDate(1)` then `setHours(0, 0, 0, 0)`, and `setMonth(+1)`, `setDate(0)` then `setHours(23, 59, 59, 999)` |
| MonthWindows.MonthWindow | app/page.tsx:69-76 | the two mutated copies of the current date are exactly the window |
| MonthWindows.WindowStartsOnFirst | app/page.tsx:69-71 | the window starts on day 1 of the current month at midnight |
| MonthWindows.WindowEndsOnLastDay | app/page.tsx:73-76 | the window ends at 23:59:59.999 on a month's last day: this month's when the next month has the current day, otherwise the next month's |
| MonthWindows.WindowSmallDay | app/page.tsx:73-76 | with a day of at most 28, the window ends on the last day of the current month |
| MonthWindows.WindowOverflow | app/page.tsx:73-76 | on 2024-01-31 the window ends on 2024-02-29 |
| MonthWindows.IntendedWindow | app/page.tsx:69-76 | the window `new Date(y, m, 1)` to `new Date(y, m + 1, 0)` runs from the first to the last day of the current month |
| MonthWindows.IntendedWindowIsMonth | components/FinancialDiagnostics.tsx:102-109 | a day is in the intended window exactly when it is in the current month, and the written window equals it for days up to 28 |
| FinancialDiagnostics.GroupExpenses | components/FinancialDiagnostics.tsx:139-141 | keeps exactly the expenses whose category is in the group |
| FinancialDiagnostics.GroupExpensesSubMultiset | components/FinancialDiagnostics.tsx:139-141 | the group filter keeps each expense at most as often as the list holds it |
| FinancialDiagnostics.GroupExpensesConcat | components/FinancialDiagnostics.tsx:139-141 | the group filter distributes over concatenation, so the kept expenses stay in their original order |
| FinancialDiagnostics.CalculateGroupMetrics | components/FinancialDiagnostics.tsx:128-137 | the ideal is `pct` percent of income, the spending is the group's sum, and remaining plus spent is the ideal. The percentage is 0 for a non-positive ideal and spent/ideal percent otherwise |
| FinancialDiagnostics.IsOverBudget | components/FinancialDiagnostics.tsx:148 | `remaining < 0`, which turns a group card red |
| FinancialDiagnostics.OverBudgetMeansOverspent | components/FinancialDiagnostics.tsx:148 | over budget exactly when spent exceeds the ideal; with a positive ideal, exactly when usage exceeds 100 percent |
| FinancialDiagnostics.UsageAboveHundred | components/FinancialDiagnostics.tsx:134 | with a positive ideal, a usage percentage with `p * ideal == spent * 100` is above 100 exactly when spent exceeds the ideal |
| FinancialDiagnostics.ProgressValue | components/FinancialDiagnostics.tsx:178 | the progress value is the percentage capped at 100 |
| FinancialDiagnostics.ToggleGroup | components/FinancialDiagnostics.tsx:92-97 | the toggled group's flag is negated, and every other flag is kept |
| FinancialDiagnostics.ToggleTwice | components/FinancialDiagnostics.tsx:92-97 | toggling twice restores every flag, and restores the map itself when the key was present |
| FinancialDiagnostics.GroupTable | components/FinancialDiagnostics.tsx:54-79 | the group percentages add to 100, and no category is in two groups |
| FinancialDiagnostics.SpentSplits | components/FinancialDiagnostics.tsx:130-132 | the spending on two disjoint category lists adds up to the spending on both together |
| FinancialDiagnostics.GroupsCoverIncomeAndSpending | components/FinancialDiagnostics.tsx:128-137 | the three ideals add up to the income, and the three spendings add up to the spending on grouped categories |
| FinancialDiagnostics.UngroupedCategories | components/FinancialDiagnostics.tsx:54-79 | 'Compras' and 'Outros' are in no group, and no category of 'Reserva' is an expense-form category |
| FinancialDiagnostics.SavingsIsIncomeCategory | components/FinancialDiagnostics.tsx:71-78 | the category of 'Reserva' is one of the income form's categories and none of the expense form's |
| FinancialDiagnostics.SavingsNeverSpent | components/FinancialDiagnostics.tsx:71-78 | with expenses entered through the form, 'Reserva' always shows zero spending |
| FinancialDiagnostics.GroupsDisjoint | components/FinancialDiagnostics.tsx:54-79 | the three groups' category lists have nothing in common |
| FinancialDiagnostics.NoneInGroup | components/FinancialDiagnostics.tsx:139-141 | a group none of whose categories occurs has no expenses |
| FinancialDiagnostics.SpentNonNegative | components/FinancialDiagnostics.tsx:130-132 | with non-negative amounts, a group's spending is non-negative |
| FinancialDiagnostics.Panel.constructor | components/FinancialDiagnostics.tsx:86-89 | the panel starts with zero income, no expenses, loading, and no open cards |
| FinancialDiagnostics.Panel.FetchData | components/FinancialDiagnostics.tsx:100-123 | the window's expenses, a permutation of the user's rows in range kept newest first as `getExpenses` returns them, and the income total; a failure shows an empty month |
| FinancialDiagnostics.Panel.Toggle | components/FinancialDiagnostics.tsx:92-97 | the open flags become the toggled map, and nothing else changes |
| Dashboard.Balance | app/page.tsx:249-258 | the balance plus the expenses is the income |
| Dashboard.ShowsPositive | app/page.tsx:249-256 | the balance card shows the up arrow in green when `totalIncome - totalExpenses >= 0` |
| Dashboard.PositiveBalance | app/page.tsx:249-251 | the balance shows as positive exactly when income covers expenses |
| Dashboard.Home.constructor | app/page.tsx:54-63 | the page starts on the given date with zero totals, loading, and both keys at 0 |
| Dashboard.Home.FetchTotals | app/page.tsx:66-93 | the totals are the sums over the user's rows in the month window; a failure gives 0, and loading ends |
| Dashboard.Home.HandlePreviousMonth | app/page.tsx:95-101 | the date becomes `setMonth(getMonth() - 1)` of the old one, and nothing else changes |
| Dashboard.Home.HandleNextMonth | app/page.tsx:103-109 | the date becomes `setMonth(getMonth() + 1)` of the old one, and nothing else changes |
| Dashboard.Home.HandleExpenseAdded | app/page.tsx:111-114 | the expense key goes up by one, and nothing else changes |
| Dashboard.Home.HandleIncomeAdded | app/page.tsx:116-119 | the income key goes up by one, and nothing else changes |
| Dashboard.NavigationRoundTrip | app/page.tsx:95-109 | with a day of at most 28, previous and next move exactly one month, keep the day, and undo each other |
| Dashboard.PreviousMonthStuck | app/page.tsx:95-101 | from 2024-03-31, "previous" gives 2024-03-02, still March; a clamped step gives 2024-02-29 |
| Dashboard.ClampedNavigation | app/page.tsx:95-109 | a clamped step always moves exactly one month |

## Left out

- The database service, its network calls and authentication are not modelled as such:
  - Tables are in-memory sequences.
  - The signed-in user is a parameter.
  - A backend failure is a `fault` flag.
- A batch insert is atomic: it either inserts every row or fails without inserting anything.
- Ids the database assigns are a counter, and `created_at` is not stored.
- `crypto.randomUUID()`: a `groupId` parameter that the caller guarantees is fresh.
- Amounts are unbounded reals:
  - floating-point rounding is not modelled;
  - the `toFixed` formatting is not modelled.
- Dates in stored rows and inputs are valid calendar days (the `ValidDate` requirements):
  - parsing malformed date strings is not modelled;
  - the invalid `Date` is not modelled, including the one a time value beyond ±8.64e15 ms (about ±275,760 years) gives.
- `new Date(y, m, d)` with a year from 0 to 99 means 1900 + y in JavaScript; the model takes the year as written, since the code only builds dates from years of the current date.
- Time zones: one time zone is assumed. `toISOString().split('T')[0]` is taken as the date itself, and `new Date('YYYY-MM-DD')` is parsed as that day. The mix of UTC and local time the code has is not modelled:
  - `new Date('YYYY-MM-DD')` parses as UTC midnight, while `setMonth` and `getMonth` work in local time. West of UTC the installment dates can move. In UTC−3, for example, `2024-03-01` is 29 February locally, so the second installment is stored as `2024-03-30`, where the model gives `2024-04-01`.
  - The month buckets compare `new Date(row.date)`, UTC midnight, with the local `new Date(y, m, 1)` and `new Date(y, m + 1, 0)`. West of UTC a row dated on the 1st of a month is then the previous evening locally and falls out of that month's bucket, where the model puts it in.
  - The window end `23:59:59.999` local becomes the next day in `toISOString()` west of UTC. The query then runs up to the first day of the next month, where the model stops at the window's last day.
- Ownership of a row on delete and on the `.single()` lookup is left to the database's row-level rules, which are not modelled: `Expenses.ExpenseStore.DeleteExpense` and `Incomes.IncomeStore.DeleteIncome` delete a row of any user.
- Expenses.ExpenseStore.DeleteExpense: any failure of the `.single()` lookup is reported as "not found", as the code does. Lookup errors are not told apart.
- Expenses.InstallmentCount: a fractional installment count is not modelled, because counts are integers here.
- Promise.all: the two fetches are modelled one after the other, with no concurrency.
- React rendering, forms, modals, tabs and the breakpoint hook are not modelled.
- The `console` logging is not modelled.
- The month dropdowns and charts of the list components are not modelled, because those components are not part of this model.
- `ExpenseForm`, `IncomeForm` and the auth context are not part of this model. Their only effect is the arguments the modelled operations receive.
- MonthBuckets.MonthsRange: `new Date(today)` followed by `setMonth(...)` is computed with the pure rollover function, not through a `JsDate` object.

## Findings

| source | as written | input that shows it | evidently intended | confidence | as-written member | corrected member |
|---|---|---|---|---|---|---|
| utils/expenses.ts:37-38 | installment `i` is dated `setMonth(base month + i)` on a copy of the base date | a purchase on 2024-01-31 in 2 installments: the second row is dated 2024-03-02, and no installment falls in February | installment `i` falls in the month `i` after the purchase, on the last day when the month is shorter (2024-02-29) | high (not executed) | Expenses.InstallmentSkipsFebruary | Expenses.IntendedInstallmentMonths |
| utils/expenses.ts:162-163 | bucket `i` is `today` moved back `i` months with `setMonth` | today 2024-03-31: bucket 1 is March 2024 again, and rows of February 2024 appear in no bucket | bucket `i` is the month `i` before the current one | high (not executed) | MonthBuckets.BucketSkipsFebruary | MonthBuckets.IntendedBucketsPartition |
| app/page.tsx:73-76 | the window end is `setMonth(+1)` then `setDate(0)` on the current date | current date 2024-01-31: the end is 2024-02-29, so the January totals include all of February | the window ends on the last day of the current month | high (not executed) | MonthWindows.WindowOverflow | MonthWindows.IntendedWindowIsMonth |
| app/page.tsx:95-101 | "previous month" is `setMonth(getMonth() - 1)` on the current date | current date 2024-03-31: the result is 2024-03-02, still March | "previous" shows the month before | high (not executed) | Dashboard.PreviousMonthStuck | Dashboard.ClampedNavigation |

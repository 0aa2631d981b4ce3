# Training attendance and membership bookkeeping, in Dafny

This project models the bookkeeping rules of a martial-arts club's web application.
Members check in to training: by scanning their QR code, by being picked from a list, or by being picked with an explicit time.
Each month a member's fee is marked paid or unpaid. A price schedule gives the monthly fee in effect on any date.
A ledger holds the club's other income and expenses. Reports add these up per month, per year and over a date range.
The administration pages list, edit and delete members.

The model follows the three controllers that hold these rules:
- `MembershipController`: the price schedule, the fee grid, fee updates, the yearly balance, the ledger page, ledger entries, the range summary, and new prices.
- `AttendanceController`: the three check-in actions, the month calendar, the list of one day's check-ins, a member's training log, and the member search box.
- `UsersController`: the member list, the profile form, and the deletion of a member.

## How the model is built

- The database is the class `Store.Db`.
  - It has one `seq` field per table: members, check-ins, fee rows, price rows and ledger entries. A table keeps its insertion order.
  - It has counters that hand out identity keys.
  - `Db.Valid()` states what the controllers' own writes keep true:
    - member ids are unique;
    - a member has at most one check-in per calendar day;
    - there is at most one fee row per member and month;
    - ledger keys are unique;
    - ledger amounts carry the sign of their type;
    - the dates of ledger entries and of check-ins are valid.
- Actions that write are methods with `modifies db`. Each one states the whole new state of the tables. Each is tied to a pure function or predicate about which lemmas are proved:
  - fee updates: `UpsertFee`;
  - check-ins: `CheckIn`;
  - deleting a ledger entry: `RemovePayment`;
  - new prices: `Deactivated`;
  - member deletion: `Filter`.
- Loops of the source are methods with `while` loops and invariants. They are proved against functions that define what they compute:
  - the fee grid;
  - the yearly balance;
  - the month walk of `Payments`, as written, with the intended sum beside it as a second function;
  - the month walk of `FinancialSummaryRange`.
- Read-only queries are functions over table contents:
  - the price lookup;
  - the calendar;
  - the list of one day's check-ins;
  - the training log;
  - the member search.
- Money is an integer number of cents. The default price 40.00 is `4000`.
- `DateTime` is a Gregorian date plus the ticks (100 ns) since midnight. `Dates` models `DaysInMonth`, leap years, `AddMonths(1)` with day clamping, and `AddDays(1).AddSeconds(-1)`.
- A `new DateTime(y, m, d)` that .NET would reject is an `Err(InvalidDate)`.
- The clock is a parameter `now`. `DateTime.Today` is `now.date`.
- Strings compare ordinally, character code by character code.

The model follows the code as written, also where the code's own evident intent differs:
- `FinancialSummaryRange` takes only the ledger entries dated within the requested range, down to the day and time. It does not take the whole months at either end.
- `CreatePrice` does not check the price against a range. The `[Range]` annotation of the record is not enforced at insert.
- `Payments` adds the membership income of the months its `AddMonths(1)` cursor visits, and that can leave out the end month.
  - The code points to a different intent: every month up to the end month. Its guard at MembershipController.cs line 192 compares the month's first day with the end date, and the loop of `FinancialSummaryRange` resets its cursor to the first of the month (lines 351-352).
  - `Membership.RangeMembershipIncome` computes the intended sum. `Reports.PaymentsIncomeMissesOnlyEndMonth` proves that the two differ by at most the end month's income.
  - This is the first row under "## Findings".
- `TrainingLog` sorts its monthly summary by the text of the `MM/yyyy` labels. So months of different years can appear out of calendar order.
  - `Training.ChronologicalTrainingSummary` is the summary in calendar order.
  - This is the second row under "## Findings".

Behaviour of the code worth knowing, all modelled as written:
- The guard `monthStart <= endDate` in the `Payments` loop (MembershipController.cs line 192) always holds, because the month start is never after the cursor.
- `monthEnd`, `effectiveStart` and `effectiveEnd` in the `FinancialSummaryRange` loop (lines 314-317) are computed and never used.
- The training log takes check-ins up to `endDate.AddDays(1).AddSeconds(-1)`. For an end given as a date, that is 23:59:59 of the end day, so a check-in later within that last second is not listed. For the default end `now`, the period reaches almost a day past now.

## Model

| member | source | states |
|---|---|---|
| Dates.DaysInMonth | trainingAttendanceTracker/Controllers/AttendanceController.cs:39 | 28 to 31 days; February has 29 exactly in a leap year; April, June, September and November have 30, the other months 31 |
| Dates.MakeDate | trainingAttendanceTracker/Controllers/AttendanceController.cs:56 | `new DateTime(y, m, d)` succeeds exactly for y >= 1, month 1..12 and a day within the month, and gives midnight of that date |
| Dates.LeIsChronological | trainingAttendanceTracker/Controllers/AttendanceController.cs:272-273 | comparing two valid instants orders them by year, month, day, then time of day |
| Dates.LeAntisymmetric | trainingAttendanceTracker/Controllers/AttendanceController.cs:60 | two valid instants each not after the other are equal |
| Dates.FirstOfMonth | trainingAttendanceTracker/Controllers/MembershipController.cs:130 | `new DateTime(y, m, 1)` is a valid midnight on day 1 of that month |
| Dates.AddOneMonth | trainingAttendanceTracker/Controllers/MembershipController.cs:202 | `AddMonths(1)` moves one month ahead, keeps the time of day, and clamps the day to the last day of the new month |
| Dates.DayLaterLessOneSecond | trainingAttendanceTracker/Controllers/AttendanceController.cs:273 | `AddDays(1).AddSeconds(-1)` is valid, and its .NET tick count is that of the input plus one day less one second |
| Dates.DayLaterLessOneSecondBound | trainingAttendanceTracker/Controllers/AttendanceController.cs:273 | an instant is at or before that bound exactly when its tick count is at most the input's plus one day less one second |
| Dates.TicksOrder | trainingAttendanceTracker/Controllers/AttendanceController.cs:272-273 | comparing valid instants agrees with comparing their .NET tick counts |
| Dates.DayNumberOrder | trainingAttendanceTracker/Controllers/AttendanceController.cs:272-273 | a date before another has a smaller .NET day number |
| Dates.NextDayTicks | trainingAttendanceTracker/Controllers/AttendanceController.cs:273 | the same time of day on the next day is one day's ticks later |
| Dates.NextDayNumber | trainingAttendanceTracker/Controllers/AttendanceController.cs:273 | the next day has the next day number, across month and year ends |
| Dates.DayLaterLessOneSecondOfMidnight | trainingAttendanceTracker/Controllers/AttendanceController.cs:273 | for an end date at midnight, an instant is at or before the bound exactly when it is on an earlier day, or on that day no later than 23:59:59 |
| Text.Split | trainingAttendanceTracker/Controllers/AttendanceController.cs:72 | `Split('|')` gives at least one piece and no piece holds the separator |
| Text.SplitLength | trainingAttendanceTracker/Controllers/AttendanceController.cs:72-73 | there is one more piece than there are separators |
| Text.JoinSplit | trainingAttendanceTracker/Controllers/AttendanceController.cs:72 | joining the pieces with the separator gives back the string |
| Text.SplitJoin | trainingAttendanceTracker/Controllers/AttendanceController.cs:72 | splitting a join of separator-free pieces gives back the pieces |
| Text.StrLeTotal | trainingAttendanceTracker/Controllers/UsersController.cs:24-25 | the ordinal order compares any two strings |
| Text.StrLeTransitive | trainingAttendanceTracker/Controllers/UsersController.cs:24-25 | the ordinal order is transitive |
| Text.StrLeAntisymmetric | trainingAttendanceTracker/Controllers/UsersController.cs:24-25 | strings each at or before the other are equal |
| Text.ToUpper | trainingAttendanceTracker/Controllers/UsersController.cs:76-77 | `ToUpper()` keeps the length and upper-cases each ASCII letter, leaving other characters alone |
| Text.Decimal | trainingAttendanceTracker/Controllers/AttendanceController.cs:281 | the decimal form of a number is non-empty and all digits |
| Text.TwoDigits | trainingAttendanceTracker/Controllers/AttendanceController.cs:281 | the `00` form of 0..99 is two digits |
| Text.DecimalInjective | trainingAttendanceTracker/Controllers/AttendanceController.cs:281 | different numbers have different decimal forms |
| Sorting.SortBy | trainingAttendanceTracker/Controllers/UsersController.cs:24-26 | `OrderBy` by a total preorder: the result is sorted and a permutation of the input |
| Sorting.Filter | trainingAttendanceTracker/Controllers/AttendanceController.cs:59 | `Where` keeps every element that passes the test, as often as it occurs, and no other |
| Sorting.FilterSorted | trainingAttendanceTracker/Controllers/UsersController.cs:125-129 | a `Where` keeps any relation that held between every element and the ones after it |
| Sorting.FilterAll | trainingAttendanceTracker/Controllers/AttendanceController.cs:188 | a test that every element passes keeps the whole sequence |
| Sorting.DistinctPermutation | trainingAttendanceTracker/Controllers/UsersController.cs:24-26 | a rearrangement of a sequence without repetitions has none |
| Store.Db.constructor | trainingAttendanceTracker/Data/ApplicationDbContext.cs:7-17 | a new database: the member table and the four tables of the context are empty and the table invariants `Valid()` hold |
| Store.FindMember | trainingAttendanceTracker/Controllers/AttendanceController.cs:79 | `FirstOrDefault(u => u.Id == id)`: the first index holding the id, and none exactly when no member has it |
| Store.NameLeTotalPreorder | trainingAttendanceTracker/Controllers/UsersController.cs:24-25 | ordering by family name, then given name, is a total preorder |
| Store.ByName | trainingAttendanceTracker/Controllers/UsersController.cs:23-26 | the member list is sorted by family name, then given name, and holds exactly the members |
| Models.ResolveDate | trainingAttendanceTracker/Controllers/MembershipController.cs:163-179 | a date given as day, month and year is used when all three are present and fails exactly when .NET would throw; otherwise the default |
| Prices.LatestAtIsLatest | trainingAttendanceTracker/Controllers/MembershipController.cs:420-423 | the row found is in effect and no row in effect starts later; there is none exactly when no row is in effect |
| Prices.LatestInEffectIsLatest | trainingAttendanceTracker/Controllers/MembershipController.cs:420-423 | the same, for `EffectiveFrom <= date` on dates |
| Prices.PriceForDateIsLatest | trainingAttendanceTracker/Controllers/MembershipController.cs:418-426 | the price on a date is that of a row in effect whose `EffectiveFrom` is the latest of the rows in effect, or 40.00 when no row is in effect |
| Prices.Deactivated | trainingAttendanceTracker/Controllers/MembershipController.cs:389-396 | after the loop every row is inactive and nothing else of any row changed |
| Prices.PriceIgnoresActiveFlag | trainingAttendanceTracker/Controllers/MembershipController.cs:418-426 | the price lookup does not look at `IsActive` |
| Prices.NewestRowInEffect | trainingAttendanceTracker/Controllers/MembershipController.cs:418-426 | a row added last is the price in effect on its own `EffectiveFrom` |
| Prices.CreatedPriceInEffect | trainingAttendanceTracker/Controllers/MembershipController.cs:389-407 | after `CreatePrice`, the price on the new row's `EffectiveFrom` is the new price |
| Prices.CreatedPriceOnlyActive | trainingAttendanceTracker/Controllers/MembershipController.cs:389-407 | after `CreatePrice`, the new row is the only active row |
| Fees.FindFee | trainingAttendanceTracker/Controllers/MembershipController.cs:87-88 | the first fee row for (member, year, month), and none exactly when there is no such row |
| Fees.PaidFlagMeansPaidRow | trainingAttendanceTracker/Controllers/MembershipController.cs:49-52 | with one row per key, a grid cell is set exactly when a paid row for its key exists |
| Fees.FeesFor | trainingAttendanceTracker/Controllers/MembershipController.cs:45-47 | the member's rows for the year are exactly the rows with that member and year |
| Fees.PaidFlagOfMemberYear | trainingAttendanceTracker/Controllers/MembershipController.cs:45-52 | looking a month up among the member's rows for the year finds what the whole table holds |
| Fees.CountPaid | trainingAttendanceTracker/Controllers/MembershipController.cs:132-133 | the number of paid rows of a month is at most the number of rows |
| Fees.CountPaidIsFilterSize | trainingAttendanceTracker/Controllers/MembershipController.cs:132-133 | the count is the number of rows of that year and month that are paid, over all members |
| Fees.CountPaidZero | trainingAttendanceTracker/Controllers/MembershipController.cs:132-133 | the count is zero exactly when no row of the month is paid |
| Fees.CheckFeeUpdate | trainingAttendanceTracker/Controllers/MembershipController.cs:66-85 | the update passes its checks exactly when the user id is non-empty, the year is in 2020..2030, the month in 1..12 and the member exists; the first failing check, in that order, is the error, and a missing member is `UserNotFound` |
| Fees.UpsertFee | trainingAttendanceTracker/Controllers/MembershipController.cs:87-107 | an existing row for the key changes only `IsPaid` and `PaymentDate`, otherwise exactly one row is appended; rows of other keys stay; the key's row has the new paid state and a payment date exactly when paid; one row per key is kept |
| Fees.FindFeeAfterUpsert | trainingAttendanceTracker/Controllers/MembershipController.cs:87-107 | after the upsert the key finds the row that was written |
| Fees.UpsertFeeIdempotent | trainingAttendanceTracker/Controllers/MembershipController.cs:87-107 | setting the same paid state twice gives the rows of the first call except for the payment time stamp, and exactly those rows when both clocks read the same |
| Fees.UpsertedRow | trainingAttendanceTracker/Controllers/MembershipController.cs:87-107 | after the upsert, the row found for the member and month has the requested paid state and its payment time stamp |
| Ledger.NormalisedAmount | trainingAttendanceTracker/Controllers/MembershipController.cs:234 | the stored amount has the magnitude of the given one, with sign + for income and - for an expense |
| Ledger.InRange | trainingAttendanceTracker/Controllers/MembershipController.cs:181-182 | the entries kept are exactly those dated from the start to the end, both included |
| Ledger.SumOfExpenseMagnitudes | trainingAttendanceTracker/Controllers/MembershipController.cs:325-329 | summing `Math.Abs` of the expense amounts gives a non-negative total |
| Ledger.ExpenseTotalsAgree | trainingAttendanceTracker/Controllers/MembershipController.cs:205-206 | for sign-normalised entries, the magnitude of the expense sum equals the sum of the expense magnitudes, and the income sum is not negative |
| Ledger.SumsOfPermutation | trainingAttendanceTracker/Controllers/MembershipController.cs:205-206 | the income and expense sums do not depend on the entries' order |
| Ledger.MonthExpenses | trainingAttendanceTracker/Controllers/MembershipController.cs:325-329 | a month's expenses are not negative |
| Ledger.MonthlySumsAddUp | trainingAttendanceTracker/Controllers/MembershipController.cs:325-335 | when every entry lies in the months covered, the monthly sums add up to the overall sums |
| Ledger.RemovePayment | trainingAttendanceTracker/Controllers/MembershipController.cs:264 | after removal no entry holds the key |
| Ledger.RemoveAbsentPayment | trainingAttendanceTracker/Controllers/MembershipController.cs:258-262 | removing a key no entry holds changes nothing |
| Ledger.RemoveOnePayment | trainingAttendanceTracker/Controllers/MembershipController.cs:258-264 | removing a unique key takes out that entry only, keeping the others in order |
| Ledger.RemovalKeepsLedgerValid | trainingAttendanceTracker/Controllers/MembershipController.cs:264 | taking an entry out keeps the keys unique and every entry sign-normalised and validly dated |
| Ledger.DeleteUndoesCreate | trainingAttendanceTracker/Controllers/MembershipController.cs:242-264 | deleting the entry just created gives the ledger back as it was |
| Reports.MonthStart | trainingAttendanceTracker/Controllers/MembershipController.cs:191 | the first of a month is a valid midnight of that month |
| Reports.MonthStartOrder | trainingAttendanceTracker/Controllers/MembershipController.cs:192 | the first of a month is not after an instant exactly when the instant is in that month or later |
| Reports.TimesIsProduct | trainingAttendanceTracker/Controllers/MembershipController.cs:140 | n members paying a price each bring n times the price |
| Reports.MonthIncomeOf | trainingAttendanceTracker/Controllers/MembershipController.cs:130-140 | a month's income is its paid rows times the price in effect on its first day |
| Reports.MonthIncomeAt | trainingAttendanceTracker/Controllers/MembershipController.cs:194-200 | the same, named by the cursor's year and month |
| Reports.MonthIncomeAtStart | trainingAttendanceTracker/Controllers/MembershipController.cs:191-200 | the same, named by the month's first day |
| Reports.IncomeBetweenStep | trainingAttendanceTracker/Controllers/MembershipController.cs:200 | one more month adds that month's income |
| Reports.IncomeBetweenSplit | trainingAttendanceTracker/Controllers/MembershipController.cs:355 | the income of a run of months is the sum over its two parts |
| Reports.VisitedMonths | trainingAttendanceTracker/Controllers/MembershipController.cs:188-203 | the walk of `Payments` visits no month exactly when the start is after the end |
| Reports.PaymentsMembershipIncome | trainingAttendanceTracker/Controllers/MembershipController.cs:188-203 | the income of the months the walk visits; none when the start is after the end |
| Reports.MembershipIncomeForRange | trainingAttendanceTracker/Controllers/MembershipController.cs:188-203 | the intended income: none when the start is after the end, otherwise the income of every month from the start month through the end month |
| Reports.PaymentsIncomeMissesOnlyEndMonth | trainingAttendanceTracker/Controllers/MembershipController.cs:188-203 | the walk's income, plus the end month's income when the walk stops short of the end month, is the intended income |
| Reports.MissedIncome | trainingAttendanceTracker/Controllers/MembershipController.cs:188-203 | a run of months one short of the end month, plus the end month, is the whole run up to the end month |
| Reports.VisitedMonthsBounds | trainingAttendanceTracker/Controllers/MembershipController.cs:188-203 | the walk of `Payments` ends; it visits every month from the start month up to the one before the end month, and at most the end month besides, and no month when the start is after the end |
| Reports.WalkIncomeStep | trainingAttendanceTracker/Controllers/MembershipController.cs:189-202 | while the cursor is not after the end, the first of its month is not either, and the month adds its paid rows times the price on its first day |
| Reports.VisitedStep | trainingAttendanceTracker/Controllers/MembershipController.cs:189-202 | a cursor not after the end visits its month, then the months visited from `AddMonths(1)` |
| Reports.PaymentsIncomeOnWholeMonths | trainingAttendanceTracker/Controllers/MembershipController.cs:169 | when the walk reaches the end month, the walk and the intended sum agree |
| Reports.WalkFromFirstReachesEndMonth | trainingAttendanceTracker/Controllers/MembershipController.cs:169 | from the first of a month at midnight, the default start, the walk reaches the end month |
| Reports.EmptyRangeIncome | trainingAttendanceTracker/Controllers/MembershipController.cs:189 | a start after the end gives no membership income |
| Reports.TrailingMonthSkipped | trainingAttendanceTracker/Controllers/MembershipController.cs:188-203 | from 15 January to 10 February the walk visits January only and leaves out a paid February fee, which the intended sum counts |
| Reports.Summaries | trainingAttendanceTracker/Controllers/MembershipController.cs:310-353 | one summary per month of the run |
| Reports.SummariesAt | trainingAttendanceTracker/Controllers/MembershipController.cs:310-353 | line i is the summary of the i-th month after the start month |
| Reports.SummariesStep | trainingAttendanceTracker/Controllers/MembershipController.cs:348 | one more month appends its summary |
| Reports.SummaryRows | trainingAttendanceTracker/Controllers/MembershipController.cs:337-346 | every line names its month and has as net its membership income plus other income minus expenses |
| Reports.MonthSummaryOf | trainingAttendanceTracker/Controllers/MembershipController.cs:319-346 | a month's line holds its paid rows times its price, its other income and expenses, their net and the price |
| Reports.SummaryTotals | trainingAttendanceTracker/Controllers/MembershipController.cs:355-357 | the column totals are the income and expense sums of the months |
| Reports.SummaryTotalsOfEntries | trainingAttendanceTracker/Controllers/MembershipController.cs:355-357 | when the entries lie within the months, the other-income and expense totals are the entries' sums |
| Membership.LedgerPage | trainingAttendanceTracker/Controllers/MembershipController.cs:181-184 | the entries of the range, latest first |
| Membership.LedgerPageSums | trainingAttendanceTracker/Controllers/MembershipController.cs:205-206 | the page's income and expense totals are those of the range |
| Membership.FeeCells | trainingAttendanceTracker/Controllers/MembershipController.cs:49-53 | twelve cells, cell m-1 holding whether month m is paid |
| Membership.MonthPaid | trainingAttendanceTracker/Controllers/MembershipController.cs:49-53 | the cell read from the member's rows of the year is the paid flag of the whole table for that month |
| Membership.Management | trainingAttendanceTracker/Controllers/MembershipController.cs:23-56 | the grid's year defaults to this year; one line per member, by family name then given name, each with name, e-mail and twelve paid flags |
| Membership.UpdatePayment | trainingAttendanceTracker/Controllers/MembershipController.cs:66-109 | a failed check is reported and changes nothing; otherwise the fee table is upserted; the other tables keep their contents and the table invariants hold |
| Membership.Balance | trainingAttendanceTracker/Controllers/MembershipController.cs:125-152 | twelve months, each with its paid count, the price on its first day and their product; the total is the sum of the twelve amounts and the year's membership income |
| Membership.MonthBalances | trainingAttendanceTracker/Controllers/MembershipController.cs:128-151 | twelve lines, line m-1 for month m of the year, whose amounts add up to the year's membership income |
| Membership.MonthBalance | trainingAttendanceTracker/Controllers/MembershipController.cs:130-140 | one month's line: its paid count, the price on its first day and their product |
| Membership.BalanceStep | trainingAttendanceTracker/Controllers/MembershipController.cs:128-151 | one more month's line adds that month's income to the running total |
| Membership.MonthBalanceIsMonthIncome | trainingAttendanceTracker/Controllers/MembershipController.cs:130-140 | a month's amount is that month's membership income |
| Membership.Payments | trainingAttendanceTracker/Controllers/MembershipController.cs:161-215 | the range defaults to 1 January up to now; entries of the range latest first; membership income of the months the `AddMonths(1)` walk from the start date visits (the loop as written, see Findings); the expense total is the sum of expense magnitudes; net = membership + other income - expenses |
| Membership.RangeMembershipIncome | trainingAttendanceTracker/Controllers/MembershipController.cs:186-203 | the loop of `Payments` as intended: the income of every month from the start month to the end month |
| Membership.IncomeOfMonths | trainingAttendanceTracker/Controllers/MembershipController.cs:188-203 | the loop over months a..b-1 adds each month's paid rows times its price |
| Membership.WalkMembershipIncome | trainingAttendanceTracker/Controllers/MembershipController.cs:186-203 | the loop of `Payments` as written: the income of exactly the months the `AddMonths(1)` cursor visits |
| Membership.WalkStarts | trainingAttendanceTracker/Controllers/MembershipController.cs:186-188 | the walk starts at the start date with nothing added |
| Membership.WalkMonths | trainingAttendanceTracker/Controllers/MembershipController.cs:189-203 | the loop adds up exactly the months the walk visits |
| Membership.VisitMonth | trainingAttendanceTracker/Controllers/MembershipController.cs:189-202 | one pass adds the cursor's month, moves the cursor by `AddMonths(1)` and leaves one month fewer to visit |
| Membership.WalkedMonthIncome | trainingAttendanceTracker/Controllers/MembershipController.cs:191-200 | for a cursor not after the end, the guard holds and the pass adds its month's paid rows times the price on the month's first day |
| Membership.WalkDone | trainingAttendanceTracker/Controllers/MembershipController.cs:189 | once the cursor is after the end, every visited month has been added |
| Membership.CreatePayment | trainingAttendanceTracker/Controllers/MembershipController.cs:225-243 | an invalid form adds nothing; otherwise exactly one entry with the normalised amount and the next key is appended; nothing else changes |
| Membership.DeletePayment | trainingAttendanceTracker/Controllers/MembershipController.cs:258-265 | an unknown key is reported and changes nothing; otherwise exactly that entry is removed, the others keep their order, and nothing else changes |
| Membership.FinancialSummaryRange | trainingAttendanceTracker/Controllers/MembershipController.cs:279-370 | the range defaults to the first of this month up to now, and an end before the start is moved up to the start; the result is the summary of that range |
| Membership.SummarizeRange | trainingAttendanceTracker/Controllers/MembershipController.cs:304-370 | the entries of the range latest first; one line per calendar month from the start month to the end month; column totals equal to the lines' sums, to the membership income of those months and to the entries' sums; net balance |
| Membership.MonthlySummaries | trainingAttendanceTracker/Controllers/MembershipController.cs:310-353 | the loop ends and yields exactly one summary per calendar month from the start month to the end month, ascending |
| Membership.SummarizeMonth | trainingAttendanceTracker/Controllers/MembershipController.cs:310-352 | one pass appends the summary of the cursor's month and moves the cursor to the first of the next month |
| Membership.SummarizingStep | trainingAttendanceTracker/Controllers/MembershipController.cs:310-352 | a cursor not after the end is at most in the end month, so the next month's first day keeps the loop's invariant |
| Membership.SummariesDone | trainingAttendanceTracker/Controllers/MembershipController.cs:310 | when the loop stops, the cursor has just passed the end month |
| Membership.SummaryOfMonth | trainingAttendanceTracker/Controllers/MembershipController.cs:313-346 | the body of that loop builds the summary of the cursor's month |
| Membership.NextMonthStart | trainingAttendanceTracker/Controllers/MembershipController.cs:350-352 | the cursor step gives the first of the next month at midnight |
| Membership.MembershipColumnTotal | trainingAttendanceTracker/Controllers/MembershipController.cs:355 | the membership column adds up to the membership income of every month of the range |
| Membership.EntryColumnTotals | trainingAttendanceTracker/Controllers/MembershipController.cs:356-357 | the other-income and expense columns add up to the sums over the entries of the range |
| Membership.PageWithinMonths | trainingAttendanceTracker/Controllers/MembershipController.cs:305-308 | every entry on the page lies in a month from the start month to the end month |
| Membership.InRangeWithinMonths | trainingAttendanceTracker/Controllers/MembershipController.cs:305-306 | entries of a range lie in the months from the start month to the end month |
| Membership.CreatePrice | trainingAttendanceTracker/Controllers/MembershipController.cs:389-407 | every earlier row becomes inactive with nothing else changed, and one active row with the next key is appended |
| Attendance.QrMemberId | trainingAttendanceTracker/Controllers/AttendanceController.cs:72-78 | a code yields a member id exactly when it has at least three `|`-separated fields, and the id holds no separator |
| Attendance.QrMemberIdOfFields | trainingAttendanceTracker/Controllers/AttendanceController.cs:72-78 | a code made of separator-free fields yields its third field |
| Attendance.CheckedInOn | trainingAttendanceTracker/Controllers/AttendanceController.cs:84-85 | true exactly when the member has a check-in dated on the day |
| Attendance.CheckIn | trainingAttendanceTracker/Controllers/AttendanceController.cs:84-94 | the check-in table only grows, by at most one row, and the member is then checked in that day |
| Attendance.CheckInAddsAtMostOne | trainingAttendanceTracker/Controllers/AttendanceController.cs:84-94 | a check-in appends exactly one row when the member has none that day and nothing otherwise; either way the member is then checked in that day |
| Attendance.CheckInKeepsOnePerDay | trainingAttendanceTracker/Controllers/AttendanceController.cs:84-94 | one check-in per member per day is kept |
| Attendance.SecondCheckInSameDayRejected | trainingAttendanceTracker/Controllers/AttendanceController.cs:84-94 | after a check-in, another of the same member on the same day changes nothing |
| Attendance.CheckInMember | trainingAttendanceTracker/Controllers/AttendanceController.cs:84-110 | the duplicate check and the insert shared by the check-in actions: refused exactly when the member has a check-in that day, otherwise one row with the next key is added; no other table changes |
| Attendance.MarkAttendance | trainingAttendanceTracker/Controllers/AttendanceController.cs:72-110 | a code with fewer than three fields or naming no member adds nothing; otherwise the member is checked in at now, against today; the check-in key counter moves on by one only when a row is added, and no other counter changes |
| Attendance.MarkManualAttendance | trainingAttendanceTracker/Controllers/AttendanceController.cs:203-232 | an unknown member adds nothing; otherwise the member is checked in at now, against today; the check-in key counter moves on by one only when a row is added, and no other counter changes |
| Attendance.MarkAttendanceWithDate | trainingAttendanceTracker/Controllers/AttendanceController.cs:127-147 | an unknown member adds nothing; otherwise the local time is both the day checked for a duplicate and the time stored; the check-in key counter moves on by one only when a row is added, and no other counter changes |
| Attendance.DayCounts | trainingAttendanceTracker/Controllers/AttendanceController.cs:32-36 | the keys are exactly the days of the month with a check-in, each mapped to its number of check-ins |
| Attendance.Calendar | trainingAttendanceTracker/Controllers/AttendanceController.cs:26-51 | year and month default to now's; a year below 1 or a month outside 1..12 is an error; the page shows the month, its first day, its length and the day counts |
| Attendance.CountInMonthIsUpToLastDay | trainingAttendanceTracker/Controllers/AttendanceController.cs:32-33 | every check-in of a month falls on one of its days |
| Attendance.ShownUpToIsCount | trainingAttendanceTracker/Controllers/AttendanceController.cs:32-36 | the counts shown on days 1..n add up to the check-ins on those days |
| Attendance.CalendarCountsAddUp | trainingAttendanceTracker/Controllers/AttendanceController.cs:32-48 | the calendar's counts add up to the number of check-ins in the month |
| Attendance.EarlierFirstTotalPreorder | trainingAttendanceTracker/Controllers/AttendanceController.cs:60 | ordering check-ins by time is a total preorder |
| Attendance.DayDetails | trainingAttendanceTracker/Controllers/AttendanceController.cs:54-61 | an invalid date is an error; otherwise exactly the check-ins of that day, each as often as in the table, in ascending time order |
| Attendance.FilterOnDateCount | trainingAttendanceTracker/Controllers/AttendanceController.cs:59 | a day's list has as many check-ins as the day's count |
| Attendance.DayDetailsMatchesCalendar | trainingAttendanceTracker/Controllers/AttendanceController.cs:32-61 | a day's list has as many entries as its calendar cell shows |
| Attendance.OneDayDistinctMembers | trainingAttendanceTracker/Controllers/AttendanceController.cs:57-59 | check-ins of one day taken from a table with one check-in per member a day belong to distinct members |
| Attendance.DayDetailsListsMembersOnce | trainingAttendanceTracker/Controllers/AttendanceController.cs:57-61 | no member is listed twice in a day's list |
| Attendance.CheckInTimes | trainingAttendanceTracker/Controllers/AttendanceController.cs:287-290 | one time per entry, in order |
| Attendance.TimeOrderTotalPreorder | trainingAttendanceTracker/Controllers/AttendanceController.cs:274 | ordering by time is a total preorder |
| Attendance.LogTimes | trainingAttendanceTracker/Controllers/AttendanceController.cs:270-275 | the times of the check-ins that pass the test, all of them and no others, ascending |
| Attendance.TrainingLog | trainingAttendanceTracker/Controllers/AttendanceController.cs:251-300 | a day/month/year bound replaces the date bound; the defaults are 1 January and now; an invalid date is an error, then a missing user is "not logged in"; otherwise the member's check-ins from the start to one day after the end, less one second, ascending, with their monthly summary sorted by label text (see Findings) and their number |
| Attendance.TrainingLogSummary | trainingAttendanceTracker/Controllers/AttendanceController.cs:277-299 | every summary row is a month with check-ins and its count; every listed check-in's month has a row; the rows are strictly ascending by the text of their `MM/yyyy` labels; the counts add up to the total |
| Attendance.LogTimesListed | trainingAttendanceTracker/Controllers/AttendanceController.cs:270-273 | a check-in that passes the test is listed |
| Attendance.LogTimesPass | trainingAttendanceTracker/Controllers/AttendanceController.cs:270-273 | a listed time is that of a check-in that passes the test |
| Attendance.TrainingLogEndDay | trainingAttendanceTracker/Controllers/AttendanceController.cs:256-273 | with the end given as a date, a check-in of the member from the start on is listed exactly when it is on an earlier day, or on the end day up to 23:59:59 |
| Attendance.Suggestions | trainingAttendanceTracker/Controllers/AttendanceController.cs:189-193 | one suggestion per member, in order |
| Attendance.SearchUsers | trainingAttendanceTracker/Controllers/AttendanceController.cs:185-195 | the first min(10, n) of the n members whose given name, family name or e-mail contains the term, each as id, "name surname (email)" and "name surname" |
| Attendance.SearchFindsAllFewMatches | trainingAttendanceTracker/Controllers/AttendanceController.cs:187-195 | with at most ten matches, the suggestions are exactly those of the matching members |
| Attendance.SearchListsOnlyMatches | trainingAttendanceTracker/Controllers/AttendanceController.cs:187-195 | every suggestion is that of a member matching the term |
| Attendance.SearchListsMatch | trainingAttendanceTracker/Controllers/AttendanceController.cs:187-195 | with at most ten matches, every matching member is suggested |
| Attendance.EmptyTermMatchesAll | trainingAttendanceTracker/Controllers/AttendanceController.cs:188 | an empty term matches every member |
| Training.FindMonth | trainingAttendanceTracker/Controllers/AttendanceController.cs:278 | the position of a month's group, and none exactly when the month has no group |
| Training.CountMonthPositive | trainingAttendanceTracker/Controllers/AttendanceController.cs:282 | a month with a count has a check-in in it |
| Training.CountMonthZero | trainingAttendanceTracker/Controllers/AttendanceController.cs:282 | a month without check-ins counts zero |
| Training.GroupStep | trainingAttendanceTracker/Controllers/AttendanceController.cs:278 | one more check-in adds one to its month's group, or adds a new group of one at the end |
| Training.GroupByMonthKeys | trainingAttendanceTracker/Controllers/AttendanceController.cs:278 | each group is the month of a check-in, no month has two groups, and every check-in's month has a group |
| Training.GroupByMonthCounts | trainingAttendanceTracker/Controllers/AttendanceController.cs:278-282 | each group counts the check-ins of its month |
| Training.GroupByMonthTotal | trainingAttendanceTracker/Controllers/AttendanceController.cs:278-282 | every check-in is counted in exactly one group |
| Training.MonthYearInjective | trainingAttendanceTracker/Controllers/AttendanceController.cs:281 | different months get different `MM/yyyy` labels |
| Training.SameYearLabelOrder | trainingAttendanceTracker/Controllers/AttendanceController.cs:281-284 | within one year the text order of the labels is the order of the months |
| Training.Rows | trainingAttendanceTracker/Controllers/AttendanceController.cs:279-283 | one row per group, in order |
| Training.LabelLeTotalPreorder | trainingAttendanceTracker/Controllers/AttendanceController.cs:284 | ordering rows by label text is a total preorder |
| Training.MonthlyTrainingSummary | trainingAttendanceTracker/Controllers/AttendanceController.cs:277-285 | the summary as written is sorted by label text |
| Training.SumTrainingPermutation | trainingAttendanceTracker/Controllers/AttendanceController.cs:282 | the counts' sum does not depend on the rows' order |
| Training.MonthlyTrainingSummaryRows | trainingAttendanceTracker/Controllers/AttendanceController.cs:277-285 | as written: one row per month with check-ins and its count; every check-in's month has a row; labels strictly increase as text; the counts add up to the number of check-ins |
| Training.DistinctLabels | trainingAttendanceTracker/Controllers/AttendanceController.cs:281 | two different month rows have different labels |
| Training.LabelOrderAcrossYears | trainingAttendanceTracker/Controllers/AttendanceController.cs:281-284 | as written: with check-ins in December 2024 and February 2025, the February 2025 row comes first |
| Training.FebruaryBeforeDecember | trainingAttendanceTracker/Controllers/AttendanceController.cs:284 | "02/2025" sorts before "12/2024" and not the other way round |
| Training.ChronologicalMonths | trainingAttendanceTracker/Controllers/AttendanceController.cs:278-284 | the same groups, in calendar order |
| Training.RowsPermutation | trainingAttendanceTracker/Controllers/AttendanceController.cs:279-284 | rearranging the groups rearranges their rows |
| Training.ChronologicalSummaryRows | trainingAttendanceTracker/Controllers/AttendanceController.cs:277-285 | corrected: the same rows as the summary as written, with strictly increasing months |
| Training.ChronologicalOrderAcrossYears | trainingAttendanceTracker/Controllers/AttendanceController.cs:281-284 | corrected: December 2024 is listed before February 2025 |
| Users.IndexListsMembersOnce | trainingAttendanceTracker/Controllers/UsersController.cs:23-26 | with unique member ids, the member list shows every member once |
| Users.IndexOrder | trainingAttendanceTracker/Controllers/UsersController.cs:24-25 | members are listed by family name, and members with the same family name by given name |
| Users.EditedMember | trainingAttendanceTracker/Controllers/UsersController.cs:68-76 | the form's name, birth date, rank, joining date and e-mail are stored; the user name is the e-mail and both normalised names are its upper-case form; the key and QR code stay |
| Users.EditIdempotent | trainingAttendanceTracker/Controllers/UsersController.cs:68-76 | saving the same form twice stores what saving it once does |
| Users.EditForgetsOldProfile | trainingAttendanceTracker/Controllers/UsersController.cs:68-76 | what is stored depends on the old member only through its key and QR code |
| Users.EditMember | trainingAttendanceTracker/Controllers/UsersController.cs:53-79 | NotFound when the route id differs from the form's or no member has it; an invalid form saves nothing; otherwise only that member is replaced by the edited member; no other table changes |
| Users.EditedMemberFound | trainingAttendanceTracker/Controllers/UsersController.cs:64-79 | after an edit the member is found under the same key, holding the form's profile |
| Users.RemoveMemberKeepsIds | trainingAttendanceTracker/Controllers/UsersController.cs:131 | removing a member keeps the ids unique |
| Users.CascadeKeepsInvariants | trainingAttendanceTracker/Controllers/UsersController.cs:125-131 | the cascade keeps unique ids, one check-in per member a day, one fee row per month and valid check-in dates |
| Users.DeleteConfirmed | trainingAttendanceTracker/Controllers/UsersController.cs:122-132 | an unknown id changes nothing; otherwise the member, all their check-ins and all their fee rows are removed, other rows keep their order, and no other table changes |
| Users.DeleteLeavesNothingOfMember | trainingAttendanceTracker/Controllers/UsersController.cs:122-132 | after the deletion no member has the id, no check-in or fee row of theirs is left, and every row of another member is still there as often as before |

## Left out

- Persistence (Entity Framework, `SaveChanges` and `async`) is not modelled. The tables are sequences, and the keys the database would assign come from counters in `Store.Db`.
- The `try`/`catch` blocks are not modelled. They turn an exception into an error message. So is the concurrency exception handler of `Edit`, because it depends on a concurrent writer.
- Framework validation (`ModelState`) is a boolean parameter `modelValid` of `CreatePayment` and `EditMember`. Its rules are data annotations outside the controllers.
- Time zones: `ToLocalTime()` depends on the host's time zone. In `MarkAttendanceWithDate`, its result is the parameter `asLocal` and the kind of the time is the parameter `isUtc`.
- There is one clock reading for each action. `DateTime.Now` and `DateTime.Today` are `now` and `now.date`, although the source reads the clock more than once.
- Localised text is not modelled: `ToString("MMMM")` month names, `ToString("dddd")` day names, `ViewBag.SelectedDate`, and the messages. Check-in results are the constructors of `CheckInOutcome`, and fee update errors those of `FeeError`.
- Identity: `GetUserId` is the parameter `currentUser`, which is `""` when no one is logged in. The deletion of the identity record after `DeleteConfirmed` (UsersController.cs lines 134-138) belongs to the identity library.
- The navigation load `Include(e => e.User)` in `DayDetails` is left out. The model returns the check-in rows themselves.
- Concurrency between requests is left out. Every action runs alone.
- Years above 9999 are left out. .NET rejects those dates, and `AddMonths` throws past them; the model's years are unbounded above.
- Balance: only years below 1 are rejected, for the same reason.
- String comparison: the database compares strings with its collation, which is usually case-insensitive; the model compares character codes.
  - This covers `Contains` in `SearchUsers` and the member order.
  - `ToUpper` is modelled for ASCII only.
- SearchUsers: the database returns the matches in an unspecified order; the model takes table order.
- Prices.LatestAt: when two price rows have the same `EffectiveFrom`, the database order is unspecified; the model takes the row inserted last.
- The GET forms `Edit` and `Delete` and the pages `Scan`, `List` and `PriceManagement` only display data and are left out.

## Findings

| source | as written | input that shows it | evidently intended | confidence | as-written member | corrected member |
|---|---|---|---|---|---|---|
| trainingAttendanceTracker/Controllers/MembershipController.cs:188-203 | the cursor goes from the start date by `AddMonths(1)`, keeping its time of day; its day is the start's, lowered for good whenever a shorter month clamps it; the loop stops once the cursor is after the end date, so the end month is skipped when the end falls before the cursor's day and time in that month | start 15 January 2024, end 10 February 2024, with one paid fee for February 2024: the cursors are 15 January and 15 February, so February is not counted and the membership income is 0 instead of 40.00 | every calendar month from the start month to the end month counted; the guard at line 192 compares the month's first day with the end date, and `FinancialSummaryRange` resets its cursor to the first of the month for this reason | high, not executed | Reports.TrailingMonthSkipped | Membership.RangeMembershipIncome |
| trainingAttendanceTracker/Controllers/AttendanceController.cs:281-284 | the monthly summary is sorted by its label text `MM/yyyy` | check-ins in December 2024 and February 2025: "02/2025" sorts before "12/2024", so February 2025 is listed first | months in calendar order | high, not executed | Training.LabelOrderAcrossYears | Training.ChronologicalOrderAcrossYears |

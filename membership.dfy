/** The actions of the membership controller: the yearly fee grid, the paid/unpaid
    switch, the yearly balance, the ledger page with its totals, adding and deleting
    ledger entries, the month-by-month summary of a date range, and adding a price.
    `now` stands for `DateTime.Now`. */
module Membership {

  import opened Wrappers
  import opened Dates
  import opened Sorting
  import opened Models
  import opened Store
  import opened Prices
  import opened Fees
  import opened Ledger
  import opened Reports

  /** The ledger order of both report pages: latest payment date first. */
  predicate LaterFirst(p: Payment, q: Payment) {
    Le(q.paymentDate, p.paymentDate)
  }

  lemma LaterFirstTotalPreorder()
    ensures IsTotalPreorder(LaterFirst)
  {
    forall p: Payment, q: Payment
      ensures LaterFirst(p, q) || LaterFirst(q, p)
    {
      LeTotal(p.paymentDate, q.paymentDate);
    }
    forall p: Payment, q: Payment, s: Payment | LaterFirst(p, q) && LaterFirst(q, s)
      ensures LaterFirst(p, s)
    {
      LeTransitive(s.paymentDate, q.paymentDate, p.paymentDate);
    }
  }

  /** The entries dated within the range, latest first (the `paymentsInRange` query). */
  function LedgerPage(ps: seq<Payment>, start: DateTime, end: DateTime): (r: seq<Payment>)
    ensures SortedBy(r, LaterFirst)
    ensures multiset(r) == multiset(InRange(ps, start, end))
  {
    LaterFirstTotalPreorder();
    SortBy(InRange(ps, start, end), LaterFirst)
  }

  /** A page of sign-normalised entries has the income and expense sums of the range. */
  lemma {:induction false} LedgerPageSums(ps: seq<Payment>, start: DateTime, end: DateTime)
    requires forall i :: 0 <= i < |ps| ==> SignNormalised(ps[i])
    ensures var page := LedgerPage(ps, start, end);
            var inRange := InRange(ps, start, end);
            && SumOfType(page, Income) == SumOfType(inRange, Income)
            && Abs(SumOfType(page, Expense)) == SumOfExpenseMagnitudes(inRange)
            && SumOfExpenseMagnitudes(page) == SumOfExpenseMagnitudes(inRange)
  {
    var page := LedgerPage(ps, start, end);
    var inRange := InRange(ps, start, end);
    forall i | 0 <= i < |inRange|
      ensures SignNormalised(inRange[i])
    {
      assert inRange[i] in inRange;
    }
    SumsOfPermutation(page, inRange);
    ExpenseTotalsAgree(inRange);
  }

  // ---------------------------------------------------------------------
  // Management

  /** A line of the grid shows `member` with twelve cells, cell m - 1 holding the paid
      flag of month m of `year`. */
  predicate IsFeeLine(line: MemberFeeStatus, member: Member, fees: seq<MembershipFee>, year: int) {
    && line.userId == member.id
    && line.fullName == member.ime + " " + member.prezime
    && line.email == member.email
    && |line.monthlyPayments| == 12
    && forall m :: 1 <= m <= 12 ==> line.monthlyPayments[m - 1] == PaidFlag(fees, member.id, year, m)
  }

  /** The cells of one member's line, filled month by month from the member's rows of the year. */
  method FeeCells(fees: seq<MembershipFee>, member: Member, year: int) returns (cells: seq<bool>)
    ensures |cells| == 12
    ensures forall m :: 1 <= m <= 12 ==> cells[m - 1] == PaidFlag(fees, member.id, year, m)
  {
    var monthly := new bool[12];
    var existing := FeesFor(fees, member.id, year);
    for month := 1 to 13
      invariant forall m :: 1 <= m < month ==> monthly[m - 1] == PaidFlag(fees, member.id, year, m)
    {
      monthly[month - 1] := MonthPaid(fees, existing, member, year, month);
    }
    cells := monthly[..];
  }

  /** One cell: every row of `existing` has the member and the year, so the month alone
      picks the row, the same one the whole table holds. */
  method MonthPaid(fees: seq<MembershipFee>, existing: seq<MembershipFee>, member: Member, year: int, month: int)
    returns (paid: bool)
    requires existing == FeesFor(fees, member.id, year)
    ensures paid == PaidFlag(fees, member.id, year, month)
  {
    PaidFlagOfMemberYear(fees, member.id, year, month);
    paid := PaidFlag(existing, member.id, year, month);
  }

  /** The yearly fee grid: members by family name, then given name, each with twelve
      cells, cell m - 1 holding whether month m is paid. */
  method Management(users: seq<Member>, fees: seq<MembershipFee>, year: Option<int>, now: DateTime)
    returns (grid: FeeGrid)
    ensures grid.year == (if year.Some? then year.value else now.date.year)
    ensures |grid.members| == |users|
    ensures forall i :: 0 <= i < |users| ==>
              IsFeeLine(grid.members[i], ByName(users)[i], fees, grid.year)
  {
    var currentYear := if year.Some? then year.value else now.date.year;
    var members := ByName(users);
    var lines: seq<MemberFeeStatus> := [];
    var i := 0;
    while i < |members|
      invariant 0 <= i <= |members|
      invariant |lines| == i
      invariant forall j :: 0 <= j < i ==> IsFeeLine(lines[j], members[j], fees, currentYear)
    {
      var member := members[i];
      var cells := FeeCells(fees, member, currentYear);
      lines := lines + [MemberFeeStatus(member.id, member.ime + " " + member.prezime, member.email, cells)];
      i := i + 1;
    }
    grid := FeeGrid(currentYear, lines);
  }

  // ---------------------------------------------------------------------
  // UpdatePayment

  /** Sets the paid state of one member's month: `error` is the first check that fails,
      and nothing changes then; otherwise the fee table is upserted. */
  method UpdatePayment(db: Db, userId: string, year: int, month: int, isPaid: bool, now: DateTime)
    returns (error: Option<FeeError>)
    requires db.Valid()
    modifies db
    ensures db.Valid()
    ensures error == CheckFeeUpdate(old(db.users), userId, year, month)
    ensures error.Some? ==> db.fees == old(db.fees) && db.nextFeeId == old(db.nextFeeId)
    ensures error.None? ==>
              && db.fees == UpsertFee(old(db.fees), old(db.nextFeeId), userId, year, month, isPaid, now)
              && db.nextFeeId == old(db.nextFeeId) + (if FindFee(old(db.fees), userId, year, month).None? then 1 else 0)
    ensures db.users == old(db.users) && db.attendance == old(db.attendance)
    ensures db.prices == old(db.prices) && db.payments == old(db.payments)
    ensures db.nextAttendanceId == old(db.nextAttendanceId) && db.nextPriceId == old(db.nextPriceId)
    ensures db.nextPaymentId == old(db.nextPaymentId)
  {
    error := CheckFeeUpdate(db.users, userId, year, month);
    if error.Some? {
      return;
    }
    match FindFee(db.fees, userId, year, month)
    case Some(i) =>
      db.fees := db.fees[i := db.fees[i].(isPaid := isPaid, paymentDate := PaymentDateFor(isPaid, now))];
    case None =>
      db.fees := db.fees + [MembershipFee(db.nextFeeId, userId, year, month, isPaid, PaymentDateFor(isPaid, now), now)];
      db.nextFeeId := db.nextFeeId + 1;
  }

  // ---------------------------------------------------------------------
  // Balance

  function SumAmounts(mbs: seq<MonthlyBalance>): int {
    if |mbs| == 0 then 0 else SumAmounts(mbs[..|mbs| - 1]) + mbs[|mbs| - 1].amount
  }

  /** Month m of `year`: its paid rows, the price in effect on its first day, and
      their product. */
  predicate IsMonthBalance(mb: MonthlyBalance, fees: seq<MembershipFee>, prices: seq<MembershipPrice>,
                           year: int, m: int)
    requires year >= 1 && 1 <= m <= 12
  {
    && mb.monthNumber == m
    && mb.paidCount == CountPaid(fees, year, m)
    && mb.pricePerMember == PriceForDate(prices, FirstOfMonth(year, m))
    && mb.amount == Times(mb.paidCount, mb.pricePerMember)
  }

  /** The twelve months of a year with their paid counts, prices and amounts. The year
      must make `new DateTime(year, month, 1)` valid. */
  method Balance(fees: seq<MembershipFee>, prices: seq<MembershipPrice>, year: Option<int>, now: DateTime)
    returns (r: Result<BalanceView, RequestError>)
    ensures var y := if year.Some? then year.value else now.date.year;
            && (r.Ok? <==> y >= 1)
            && (r.Err? ==> r.error == InvalidDate)
            && (r.Ok? ==>
                  && r.value.year == y
                  && |r.value.monthlyBalances| == 12
                  && (forall i :: 0 <= i < 12 ==> IsMonthBalance(r.value.monthlyBalances[i], fees, prices, y, i + 1))
                  && r.value.totalBalance == SumAmounts(r.value.monthlyBalances)
                  && r.value.totalBalance == IncomeBetween(fees, prices, MonthIndex(y, 1), MonthIndex(y, 1) + 12))
  {
    var currentYear := if year.Some? then year.value else now.date.year;
    if currentYear < 1 {
      return Err(InvalidDate);
    }
    var monthlyBalances := MonthBalances(fees, prices, currentYear);
    r := Ok(BalanceView(currentYear, monthlyBalances, SumAmounts(monthlyBalances)));
  }

  /** The loop of `Balance` over months 1 to 12. */
  method MonthBalances(fees: seq<MembershipFee>, prices: seq<MembershipPrice>, year: int)
    returns (monthlyBalances: seq<MonthlyBalance>)
    requires year >= 1
    ensures |monthlyBalances| == 12
    ensures forall i :: 0 <= i < 12 ==> IsMonthBalance(monthlyBalances[i], fees, prices, year, i + 1)
    ensures SumAmounts(monthlyBalances) == IncomeBetween(fees, prices, MonthIndex(year, 1), MonthIndex(year, 1) + 12)
  {
    var first := MonthIndex(year, 1);
    monthlyBalances := [];
    for month := 1 to 13
      invariant |monthlyBalances| == month - 1
      invariant forall i :: 0 <= i < month - 1 ==> IsMonthBalance(monthlyBalances[i], fees, prices, year, i + 1)
      invariant SumAmounts(monthlyBalances) == IncomeBetween(fees, prices, first, first + month - 1)
    {
      var mb := MonthBalance(fees, prices, year, month);
      BalanceStep(fees, prices, year, monthlyBalances, mb);
      monthlyBalances := monthlyBalances + [mb];
    }
  }

  /** One pass of that loop: month m's paid rows, its first day's price and their product. */
  method MonthBalance(fees: seq<MembershipFee>, prices: seq<MembershipPrice>, year: int, month: int)
    returns (mb: MonthlyBalance)
    requires year >= 1 && 1 <= month <= 12
    ensures IsMonthBalance(mb, fees, prices, year, month)
  {
    var monthDate := FirstOfMonth(year, month);
    var price := PriceForDate(prices, monthDate);
    var paidCount := CountPaid(fees, year, month);
    TimesIsProduct(paidCount, price);
    mb := MonthlyBalance(month, paidCount, paidCount * price, price);
  }

  lemma {:induction false} BalanceStep(fees: seq<MembershipFee>, prices: seq<MembershipPrice>, year: int,
                                       before: seq<MonthlyBalance>, mb: MonthlyBalance)
    requires year >= 1 && |before| < 12
    requires SumAmounts(before) == IncomeBetween(fees, prices, MonthIndex(year, 1), MonthIndex(year, 1) + |before|)
    requires IsMonthBalance(mb, fees, prices, year, |before| + 1)
    ensures SumAmounts(before + [mb]) == IncomeBetween(fees, prices, MonthIndex(year, 1), MonthIndex(year, 1) + |before| + 1)
  {
    var first, n := MonthIndex(year, 1), |before|;
    MonthBalanceIsMonthIncome(fees, prices, year, n + 1, mb);
    SumAmountsAppend(before, mb);
    IncomeBetweenStep(fees, prices, first, first + n + 1);
  }

  lemma SumAmountsAppend(before: seq<MonthlyBalance>, mb: MonthlyBalance)
    ensures SumAmounts(before + [mb]) == SumAmounts(before) + mb.amount
  {
    assert (before + [mb])[..|before|] == before;
  }

  /** The amount of month m of a year is the membership income of that month's index. */
  lemma {:induction false} MonthBalanceIsMonthIncome(fees: seq<MembershipFee>, prices: seq<MembershipPrice>, year: int, m: int,
                                  mb: MonthlyBalance)
    requires year >= 1 && 1 <= m <= 12
    requires IsMonthBalance(mb, fees, prices, year, m)
    ensures mb.amount == MonthMembershipIncome(fees, prices, MonthIndex(year, 1) + m - 1)
  {
    MonthIncomeOf(fees, prices, year, m, MonthIndex(year, 1) + m - 1);
  }

  // ---------------------------------------------------------------------
  // Payments

  /** The ledger page for a date range (by default 1 January of this year up to now):
      the entries of the range latest first, the membership income of the months the
      `AddMonths(1)` walk from the start date visits, and the balance. */
  method Payments(db: Db, startQ: DateQuery, endQ: DateQuery, now: DateTime)
    returns (r: Result<PaymentView, RequestError>)
    requires db.Valid() && ValidDateTime(now)
    ensures var s := ResolveDate(startQ, FirstOfMonth(now.date.year, 1));
            var e := ResolveDate(endQ, now);
            && (r.Ok? <==> s.Ok? && e.Ok?)
            && (r.Err? ==> r.error == InvalidDate)
            && (r.Ok? ==>
                  var v := r.value;
                  var inRange := InRange(db.payments, s.value, e.value);
                  && SortedBy(v.payments, LaterFirst)
                  && multiset(v.payments) == multiset(inRange)
                  && v.membershipIncome == PaymentsMembershipIncome(db.fees, db.prices, s.value, e.value)
                  && v.totalExpenses == SumOfExpenseMagnitudes(inRange)
                  && v.netBalance == v.membershipIncome + SumOfType(inRange, Income) - v.totalExpenses)
  {
    var s := ResolveDate(startQ, FirstOfMonth(now.date.year, 1));
    var e := ResolveDate(endQ, now);
    if s.Err? || e.Err? {
      return Err(InvalidDate);
    }
    var startDate, endDate := s.value, e.value;
    var payments := LedgerPage(db.payments, startDate, endDate);
    var membershipIncome := WalkMembershipIncome(db.fees, db.prices, startDate, endDate);

    var totalExpenses := Abs(SumOfType(payments, Expense));
    var totalOtherIncome := SumOfType(payments, Income);
    LedgerPageSums(db.payments, startDate, endDate);
    r := Ok(PaymentView(payments, totalExpenses, membershipIncome + totalOtherIncome - totalExpenses,
                        membershipIncome));
  }

  /** The loop of `Payments` as it is meant to run: every calendar month from the month
      of `start` to the month of `end`. */
  method RangeMembershipIncome(fees: seq<MembershipFee>, prices: seq<MembershipPrice>, start: DateTime, end: DateTime)
    returns (membershipIncome: int)
    requires ValidDateTime(start) && ValidDateTime(end)
    ensures membershipIncome == MembershipIncomeForRange(fees, prices, start, end)
  {
    if Le(start, end) {
      MonthOrder(start, end);
      assert MembershipIncomeForRange(fees, prices, start, end)
          == IncomeBetween(fees, prices, MonthOf(start), MonthOf(end) + 1);
      membershipIncome := IncomeOfMonths(fees, prices, MonthOf(start), MonthOf(end) + 1);
    } else {
      membershipIncome := 0;
    }
  }

  /** Months a .. b-1 one at a time, adding each month's paid rows times the price in
      effect on its first day. */
  method IncomeOfMonths(fees: seq<MembershipFee>, prices: seq<MembershipPrice>, a: int, b: int)
    returns (membershipIncome: int)
    requires 12 <= a <= b
    ensures membershipIncome == IncomeBetween(fees, prices, a, b)
  {
    membershipIncome := 0;
    var k := a;
    while k < b
      invariant a <= k <= b
      invariant membershipIncome == IncomeBetween(fees, prices, a, k)
    {
      var monthStart := MonthStart(k);
      var price := PriceForDate(prices, monthStart);
      var paidCount := CountPaid(fees, monthStart.date.year, monthStart.date.month);
      MonthIncomeAtStart(fees, prices, k);
      IncomeBetweenStep(fees, prices, a, k + 1);
      membershipIncome := membershipIncome + paidCount * price;
      k := k + 1;
    }
  }

  /** The loop of `Payments`: from `start`, one month at a time by `AddMonths(1)`, while
      the cursor is not after `end`, adding each visited month's paid rows times the
      price in effect on its first day. */
  method WalkMembershipIncome(fees: seq<MembershipFee>, prices: seq<MembershipPrice>, start: DateTime, end: DateTime)
    returns (membershipIncome: int)
    requires ValidDateTime(start) && ValidDateTime(end)
    ensures membershipIncome == PaymentsMembershipIncome(fees, prices, start, end)
  {
    var first := MonthOf(start);
    var visits := VisitedMonths(start, end);
    WalkStarts(fees, prices, start, end);
    membershipIncome := WalkMonths(fees, prices, start, end, first, visits);
  }

  /** The walk starts at `start` with nothing added. */
  lemma WalkStarts(fees: seq<MembershipFee>, prices: seq<MembershipPrice>, start: DateTime, end: DateTime)
    requires ValidDateTime(start) && ValidDateTime(end)
    ensures Walking(fees, prices, end, MonthOf(start), VisitedMonths(start, end), start, 0)
  {
    assert MonthIndex(start.date.year, start.date.month) >= 12;
  }

  /** The `while` loop itself, from the cursor at `start` and nothing added yet. */
  method WalkMonths(fees: seq<MembershipFee>, prices: seq<MembershipPrice>, start: DateTime, end: DateTime,
                    first: int, visits: int)
    returns (membershipIncome: int)
    requires Walking(fees, prices, end, first, visits, start, 0)
    ensures membershipIncome == IncomeBetween(fees, prices, first, first + visits)
  {
    membershipIncome := 0;
    var currentDate := start;
    while Le(currentDate, end)
      invariant Walking(fees, prices, end, first, visits, currentDate, membershipIncome)
      decreases VisitedMonths(currentDate, end)
    {
      currentDate, membershipIncome := VisitMonth(fees, prices, end, first, visits, currentDate, membershipIncome);
    }
    WalkDone(fees, prices, end, first, visits, currentDate, membershipIncome);
  }

  /** The invariant of that loop: the cursor has moved on from the start month `first`
      without changing the number of months the whole walk visits (`visits`), and
      `income` holds the months before the cursor's. */
  ghost predicate Walking(fees: seq<MembershipFee>, prices: seq<MembershipPrice>, end: DateTime, first: int, visits: int,
                          cur: DateTime, income: int)
  {
    && ValidDateTime(cur) && ValidDateTime(end)
    && 12 <= first <= MonthOf(cur)
    && MonthOf(cur) + VisitedMonths(cur, end) == first + visits
    && income == IncomeBetween(fees, prices, first, MonthOf(cur))
  }

  /** Once the cursor is after `end`, the walk has added all the months it visits. */
  lemma WalkDone(fees: seq<MembershipFee>, prices: seq<MembershipPrice>, end: DateTime, first: int, visits: int,
                 cur: DateTime, income: int)
    requires Walking(fees, prices, end, first, visits, cur, income) && !Le(cur, end)
    ensures income == IncomeBetween(fees, prices, first, first + visits)
  {
    assert VisitedMonths(cur, end) == 0;
  }

  /** One pass of that loop: the cursor's month is added when its first day is not after
      `end` (always, as the cursor is not), and the cursor moves on by `AddMonths(1)`. */
  method VisitMonth(fees: seq<MembershipFee>, prices: seq<MembershipPrice>, end: DateTime, first: int, visits: int,
                    currentDate: DateTime, membershipIncome: int)
    returns (next: DateTime, income: int)
    requires Walking(fees, prices, end, first, visits, currentDate, membershipIncome) && Le(currentDate, end)
    ensures next == AddOneMonth(currentDate)
    ensures Walking(fees, prices, end, first, visits, next, income)
    ensures VisitedMonths(next, end) < VisitedMonths(currentDate, end)
  {
    var monthIncome := WalkedMonthIncome(fees, prices, currentDate, end);
    IncomeBetweenStep(fees, prices, first, MonthOf(currentDate) + 1);
    income := membershipIncome + monthIncome;
    var rest := VisitedStep(currentDate, end);
    next := AddOneMonth(currentDate);
  }

  /** What that loop adds for the cursor's month: when the month's first day is not after
      `end`, which always holds for a cursor not after `end`, its paid rows times the
      price on that day. */
  method WalkedMonthIncome(fees: seq<MembershipFee>, prices: seq<MembershipPrice>,
                           currentDate: DateTime, end: DateTime)
    returns (monthIncome: int)
    requires ValidDateTime(currentDate) && ValidDateTime(end) && Le(currentDate, end)
    ensures MonthOf(currentDate) >= 12
    ensures monthIncome == MonthMembershipIncome(fees, prices, MonthOf(currentDate))
  {
    WalkIncomeStep(fees, prices, currentDate, end);
    monthIncome := 0;
    var monthStart := FirstOfMonth(currentDate.date.year, currentDate.date.month);
    if Le(monthStart, end) {
      var price := PriceForDate(prices, monthStart);
      var paidCount := CountPaid(fees, currentDate.date.year, currentDate.date.month);
      TimesIsProduct(paidCount, price);
      monthIncome := paidCount * price;
    }
  }

  // ---------------------------------------------------------------------
  // CreatePayment and DeletePayment

  /** Adds a ledger entry with the amount's sign set by its type. `modelValid` is the
      outcome of the framework's validation of the request; when it fails nothing is added. */
  method CreatePayment(db: Db, modelValid: bool, description: string, amount: int, paymentType: PaymentType,
                       paymentDate: DateTime, category: string, notes: string, now: DateTime)
    returns (success: bool)
    requires db.Valid() && ValidDateTime(paymentDate)
    modifies db
    ensures db.Valid()
    ensures success == modelValid
    ensures success ==>
              && db.payments == old(db.payments) + [Payment(old(db.nextPaymentId), description,
                                                            NormalisedAmount(paymentType, amount), paymentType,
                                                            paymentDate, category, notes, now)]
              && db.nextPaymentId == old(db.nextPaymentId) + 1
    ensures !success ==> db.payments == old(db.payments) && db.nextPaymentId == old(db.nextPaymentId)
    ensures db.users == old(db.users) && db.attendance == old(db.attendance)
    ensures db.fees == old(db.fees) && db.prices == old(db.prices)
    ensures db.nextAttendanceId == old(db.nextAttendanceId) && db.nextFeeId == old(db.nextFeeId)
    ensures db.nextPriceId == old(db.nextPriceId)
  {
    if !modelValid {
      return false;
    }
    var payment := Payment(db.nextPaymentId, description, NormalisedAmount(paymentType, amount), paymentType,
                           paymentDate, category, notes, now);
    db.payments := db.payments + [payment];
    db.nextPaymentId := db.nextPaymentId + 1;
    success := true;
  }

  /** Deletes the ledger entry with key `id`; `found` is false, and nothing changes,
      when there is none. */
  method DeletePayment(db: Db, id: int) returns (found: bool)
    requires db.Valid()
    modifies db
    ensures db.Valid()
    ensures found <==> exists i :: 0 <= i < |old(db.payments)| && old(db.payments)[i].id == id
    ensures db.payments == RemovePayment(old(db.payments), id)
    ensures !found ==> db.payments == old(db.payments)
    ensures found ==> exists i :: 0 <= i < |old(db.payments)| && old(db.payments)[i].id == id
                                  && db.payments == old(db.payments)[..i] + old(db.payments)[i + 1..]
    ensures db.users == old(db.users) && db.attendance == old(db.attendance)
    ensures db.fees == old(db.fees) && db.prices == old(db.prices)
    ensures db.nextAttendanceId == old(db.nextAttendanceId) && db.nextFeeId == old(db.nextFeeId)
    ensures db.nextPriceId == old(db.nextPriceId) && db.nextPaymentId == old(db.nextPaymentId)
  {
    var ps := db.payments;
    var i := 0;
    while i < |ps| && ps[i].id != id
      invariant 0 <= i <= |ps|
      invariant forall j :: 0 <= j < i ==> ps[j].id != id
    {
      i := i + 1;
    }
    if i == |ps| {
      RemoveAbsentPayment(ps, id);
      return false;
    }
    RemoveOnePayment(ps, i);
    RemovalKeepsLedgerValid(ps, i, db.nextPaymentId);
    db.payments := ps[..i] + ps[i + 1..];
    found := true;
  }

  // ---------------------------------------------------------------------
  // FinancialSummaryRange

  /** What the summary of the range `v.startDate` .. `v.endDate` holds: the entries of the
      range, latest first; one line per calendar month from the start month to the end
      month, each the summary of its own month; column totals that add up the lines and
      equal the membership income of those months and the sums over the entries of the
      range; and the net balance. */
  ghost predicate IsRangeSummary(fees: seq<MembershipFee>, prices: seq<MembershipPrice>, payments: seq<Payment>,
                                 v: FinancialSummaryRangeView)
  {
    && ValidDateTime(v.startDate) && ValidDateTime(v.endDate) && Le(v.startDate, v.endDate)
    && var a := MonthOf(v.startDate);
       var inRange := InRange(payments, v.startDate, v.endDate);
       && SortedBy(v.payments, LaterFirst)
       && multiset(v.payments) == multiset(inRange)
       && |v.monthlySummaries| == MonthOf(v.endDate) - a + 1
       && MonthRows(fees, prices, v.payments, a, v.monthlySummaries)
       && v.totalMembershipIncome == TotalMembership(v.monthlySummaries)
       && v.totalOtherIncome == TotalOther(v.monthlySummaries)
       && v.totalExpenses == TotalExpenses(v.monthlySummaries)
       && v.totalMembershipIncome == MembershipIncomeForRange(fees, prices, v.startDate, v.endDate)
       && v.totalOtherIncome == SumOfType(inRange, Income)
       && v.totalExpenses == SumOfExpenseMagnitudes(inRange)
       && v.netBalance == v.totalMembershipIncome + v.totalOtherIncome - v.totalExpenses
  }

  /** The summary of a date range (by default the first of this month up to now; an
      end before the start is moved up to the start). */
  method FinancialSummaryRange(db: Db, startQ: DateQuery, endQ: DateQuery, now: DateTime)
    returns (r: Result<FinancialSummaryRangeView, RequestError>)
    requires db.Valid() && ValidDateTime(now)
    ensures var s := ResolveDate(startQ, FirstOfMonth(now.date.year, now.date.month));
            var e := ResolveDate(endQ, now);
            && (r.Ok? <==> s.Ok? && e.Ok?)
            && (r.Err? ==> r.error == InvalidDate)
            && (r.Ok? ==>
                  && r.value.startDate == s.value
                  && (Le(s.value, e.value) ==> r.value.endDate == e.value)
                  && (!Le(s.value, e.value) ==> r.value.endDate == s.value)
                  && IsRangeSummary(db.fees, db.prices, db.payments, r.value))
  {
    var s := ResolveDate(startQ, FirstOfMonth(now.date.year, now.date.month));
    var e := ResolveDate(endQ, now);
    if s.Err? || e.Err? {
      return Err(InvalidDate);
    }
    var startDate, endDate := s.value, e.value;
    if Le(startDate, endDate) && Le(endDate, startDate) {
      LeAntisymmetric(startDate, endDate);
    }
    if Lt(endDate, startDate) {
      endDate := startDate;
    }
    LeTotal(startDate, endDate);
    var v := SummarizeRange(db.fees, db.prices, db.payments, startDate, endDate);
    r := Ok(v);
  }

  /** The work of `FinancialSummaryRange` once the range is known: the page of entries,
      the monthly lines and the column totals. */
  method SummarizeRange(fees: seq<MembershipFee>, prices: seq<MembershipPrice>, payments: seq<Payment>,
                        startDate: DateTime, endDate: DateTime)
    returns (v: FinancialSummaryRangeView)
    requires forall i :: 0 <= i < |payments| ==> ValidDateTime(payments[i].paymentDate)
    requires ValidDateTime(startDate) && ValidDateTime(endDate) && Le(startDate, endDate)
    requires startDate.ticks == 0
    ensures v.startDate == startDate && v.endDate == endDate
    ensures IsRangeSummary(fees, prices, payments, v)
  {
    MonthOrder(startDate, endDate);
    var paymentsInRange := LedgerPage(payments, startDate, endDate);
    var monthlySummaries := MonthlySummaries(fees, prices, paymentsInRange, startDate, endDate);
    SummaryRows(fees, prices, paymentsInRange, MonthOf(startDate), MonthOf(endDate) + 1);
    MembershipColumnTotal(fees, prices, paymentsInRange, startDate, endDate);
    EntryColumnTotals(fees, prices, payments, paymentsInRange, startDate, endDate);

    var totalMembershipIncome := TotalMembership(monthlySummaries);
    var totalOtherIncome := TotalOther(monthlySummaries);
    var totalExpenses := TotalExpenses(monthlySummaries);
    v := FinancialSummaryRangeView(startDate, endDate, totalMembershipIncome, totalOtherIncome, totalExpenses,
                                   totalMembershipIncome + totalOtherIncome - totalExpenses,
                                   monthlySummaries, paymentsInRange);
  }

  /** The loop of `FinancialSummaryRange`: one summary per calendar month, from the month
      of `startDate` to that of `endDate`. After the first month the cursor is the first
      of the next month at midnight, so no month is skipped. */
  method MonthlySummaries(fees: seq<MembershipFee>, prices: seq<MembershipPrice>, ps: seq<Payment>,
                          startDate: DateTime, endDate: DateTime)
    returns (monthlySummaries: seq<MonthlySummary>)
    requires ValidDateTime(startDate) && ValidDateTime(endDate) && Le(startDate, endDate)
    requires startDate.ticks == 0
    ensures MonthOf(startDate) <= MonthOf(endDate)
    ensures monthlySummaries == Summaries(fees, prices, ps, MonthOf(startDate), MonthOf(endDate) + 1)
  {
    MonthOrder(startDate, endDate);
    var a, last := MonthOf(startDate), MonthOf(endDate);
    monthlySummaries := [];
    var currentDate := startDate;
    while Le(currentDate, endDate)
      invariant Summarizing(startDate, endDate, currentDate)
      invariant monthlySummaries == Summaries(fees, prices, ps, a, MonthOf(currentDate))
      decreases last + 1 - MonthOf(currentDate)
    {
      monthlySummaries, currentDate := SummarizeMonth(fees, prices, ps, startDate, endDate,
                                                      currentDate, monthlySummaries);
    }
    SummariesDone(startDate, endDate, currentDate);
  }

  /** One turn of that loop: the summary of the cursor's month is appended and the cursor
      moves to the first of the next month. */
  method SummarizeMonth(fees: seq<MembershipFee>, prices: seq<MembershipPrice>, ps: seq<Payment>,
                        startDate: DateTime, endDate: DateTime, currentDate: DateTime,
                        monthlySummaries: seq<MonthlySummary>)
    returns (summaries: seq<MonthlySummary>, next: DateTime)
    requires Summarizing(startDate, endDate, currentDate) && Le(currentDate, endDate)
    requires monthlySummaries == Summaries(fees, prices, ps, MonthOf(startDate), MonthOf(currentDate))
    ensures Summarizing(startDate, endDate, next) && MonthOf(next) == MonthOf(currentDate) + 1
    ensures summaries == Summaries(fees, prices, ps, MonthOf(startDate), MonthOf(next))
  {
    var summary := SummaryOfMonth(fees, prices, ps, currentDate);
    SummariesStep(fees, prices, ps, MonthOf(startDate), MonthOf(currentDate));
    summaries := monthlySummaries + [summary];
    next := NextMonthStart(currentDate);
    SummarizingStep(startDate, endDate, currentDate, next);
  }

  /** The invariant of that loop: the cursor is the start date in the start month and the
      first of its month at midnight after it, and is at most one month past the end. */
  ghost predicate Summarizing(startDate: DateTime, endDate: DateTime, cur: DateTime) {
    && ValidDateTime(startDate) && ValidDateTime(endDate) && Le(startDate, endDate)
    && ValidDateTime(cur) && cur.ticks == 0
    && 12 <= MonthOf(startDate) <= MonthOf(cur) <= MonthOf(endDate) + 1
    && (MonthOf(cur) == MonthOf(startDate) ==> cur == startDate)
    && (MonthOf(cur) > MonthOf(startDate) ==> cur.date.day == 1)
  }

  /** A cursor not after the end date is in a month up to the end date's, so the first of
      the next month keeps the invariant. */
  lemma {:induction false} SummarizingStep(startDate: DateTime, endDate: DateTime, cur: DateTime, next: DateTime)
    requires Summarizing(startDate, endDate, cur) && Le(cur, endDate)
    requires ValidDateTime(next) && next.ticks == 0 && next.date.day == 1
    requires MonthOf(next) == MonthOf(cur) + 1
    ensures Summarizing(startDate, endDate, next)
  {
    MonthOrder(cur, endDate);
  }

  /** When that loop stops, its cursor has just passed the end date's month. */
  lemma {:induction false} SummariesDone(startDate: DateTime, endDate: DateTime, cur: DateTime)
    requires Summarizing(startDate, endDate, cur) && !Le(cur, endDate)
    ensures MonthOf(cur) == MonthOf(endDate) + 1
  {
    if MonthOf(cur) > MonthOf(startDate) {
      AtMonthStart(cur);
      MonthStartOrder(MonthOf(cur), endDate);
    }
  }

  /** The body of that loop for one month: the month's paid rows times the price in effect
      on its first day, and the other income and expenses dated in the month. */
  method SummaryOfMonth(fees: seq<MembershipFee>, prices: seq<MembershipPrice>, ps: seq<Payment>,
                        currentDate: DateTime)
    returns (summary: MonthlySummary)
    requires ValidDateTime(currentDate)
    ensures MonthOf(currentDate) >= 12
    ensures summary == MonthSummaryAt(fees, prices, ps, MonthOf(currentDate))
  {
    var monthStart := FirstOfMonth(currentDate.date.year, currentDate.date.month);
    var price := PriceForDate(prices, monthStart);
    var membershipIncome := CountPaid(fees, currentDate.date.year, currentDate.date.month) * price;
    var expenses := MonthExpenses(ps, MonthOf(currentDate));
    var otherIncome := MonthIncome(ps, MonthOf(currentDate));
    summary := MonthlySummary(currentDate.date.month, currentDate.date.year, membershipIncome,
                              otherIncome, expenses, membershipIncome + otherIncome - expenses, price);
    MonthSummaryOf(fees, prices, ps, currentDate);
  }

  /** The step of that loop: `AddMonths(1)`, then back to the first of the month when the
      day is not 1. From a cursor at midnight this is the first of the next month. */
  method NextMonthStart(currentDate: DateTime) returns (next: DateTime)
    requires ValidDateTime(currentDate) && currentDate.ticks == 0
    ensures ValidDateTime(next) && next.ticks == 0 && next.date.day == 1
    ensures MonthOf(next) == MonthOf(currentDate) + 1
  {
    next := AddOneMonth(currentDate);
    if next.date.day != 1 {
      next := FirstOfMonth(next.date.year, next.date.month);
    }
  }

  /** The membership column of a range's summaries adds up to the membership income of
      every month of the range, whatever entries the lines are built from. */
  lemma {:induction false} MembershipColumnTotal(fees: seq<MembershipFee>, prices: seq<MembershipPrice>,
                                                 page: seq<Payment>, start: DateTime, end: DateTime)
    requires ValidDateTime(start) && ValidDateTime(end) && Le(start, end)
    ensures MonthOf(start) <= MonthOf(end)
    ensures TotalMembership(Summaries(fees, prices, page, MonthOf(start), MonthOf(end) + 1))
              == MembershipIncomeForRange(fees, prices, start, end)
  {
    MonthOrder(start, end);
    SummaryTotals(fees, prices, page, MonthOf(start), MonthOf(end) + 1);
  }

  /** When the lines are built from a reordering of the entries of the range, their other
      income and expense columns add up to the sums over the entries of the range. */
  lemma {:induction false} EntryColumnTotals(fees: seq<MembershipFee>, prices: seq<MembershipPrice>,
                                             ps: seq<Payment>, page: seq<Payment>, start: DateTime, end: DateTime)
    requires forall i :: 0 <= i < |ps| ==> ValidDateTime(ps[i].paymentDate)
    requires ValidDateTime(start) && ValidDateTime(end) && Le(start, end)
    requires multiset(page) == multiset(InRange(ps, start, end))
    ensures MonthOf(start) <= MonthOf(end)
    ensures var ms := Summaries(fees, prices, page, MonthOf(start), MonthOf(end) + 1);
            && TotalOther(ms) == SumOfType(InRange(ps, start, end), Income)
            && TotalExpenses(ms) == SumOfExpenseMagnitudes(InRange(ps, start, end))
  {
    PageWithinMonths(ps, page, start, end);
    SummaryTotalsOfEntries(fees, prices, page, MonthOf(start), MonthOf(end) + 1);
    SumsOfPermutation(page, InRange(ps, start, end));
  }

  /** A reordering of the entries of a range lies in the months from the start month to
      the end month. */
  lemma {:induction false} PageWithinMonths(ps: seq<Payment>, page: seq<Payment>, start: DateTime, end: DateTime)
    requires forall i :: 0 <= i < |ps| ==> ValidDateTime(ps[i].paymentDate)
    requires ValidDateTime(start) && ValidDateTime(end) && Le(start, end)
    requires multiset(page) == multiset(InRange(ps, start, end))
    ensures MonthOf(start) <= MonthOf(end)
    ensures forall i :: 0 <= i < |page| ==> MonthOf(start) <= MonthOf(page[i].paymentDate) < MonthOf(end) + 1
  {
    MonthOrder(start, end);
    InRangeWithinMonths(ps, start, end);
    forall i | 0 <= i < |page|
      ensures MonthOf(start) <= MonthOf(page[i].paymentDate) < MonthOf(end) + 1
    {
      assert page[i] in multiset(InRange(ps, start, end));
    }
  }

  /** Entries of a range lie in the months from the start month to the end month. */
  lemma {:induction false} InRangeWithinMonths(ps: seq<Payment>, start: DateTime, end: DateTime)
    requires forall i :: 0 <= i < |ps| ==> ValidDateTime(ps[i].paymentDate)
    requires ValidDateTime(start) && ValidDateTime(end)
    ensures forall p :: p in InRange(ps, start, end) ==>
              MonthOf(start) <= MonthOf(p.paymentDate) <= MonthOf(end)
  {
    forall p | p in InRange(ps, start, end)
      ensures MonthOf(start) <= MonthOf(p.paymentDate) <= MonthOf(end)
    {
      var i :| 0 <= i < |ps| && ps[i] == p;
      MonthOrder(start, p.paymentDate);
      MonthOrder(p.paymentDate, end);
    }
  }

  // ---------------------------------------------------------------------
  // CreatePrice

  /** Adds a price row: every row that was active is switched off, and the new row is
      the one active row. Nothing else of the earlier rows changes. */
  method CreatePrice(db: Db, price: int, effectiveFrom: DateTime, description: string, now: DateTime)
    requires db.Valid()
    modifies db
    ensures db.Valid()
    ensures db.prices == Deactivated(old(db.prices))
                         + [MembershipPrice(old(db.nextPriceId), price, effectiveFrom, description, true, now)]
    ensures db.nextPriceId == old(db.nextPriceId) + 1
    ensures db.users == old(db.users) && db.attendance == old(db.attendance)
    ensures db.fees == old(db.fees) && db.payments == old(db.payments)
    ensures db.nextAttendanceId == old(db.nextAttendanceId) && db.nextFeeId == old(db.nextFeeId)
    ensures db.nextPaymentId == old(db.nextPaymentId)
  {
    ghost var before := db.prices;
    var i := 0;
    while i < |db.prices|
      invariant 0 <= i <= |db.prices| == |before|
      invariant forall j :: 0 <= j < i ==> db.prices[j] == before[j].(isActive := false)
      invariant forall j :: i <= j < |before| ==> db.prices[j] == before[j]
      invariant db.users == old(db.users) && db.attendance == old(db.attendance)
      invariant db.fees == old(db.fees) && db.payments == old(db.payments)
      invariant db.nextPriceId == old(db.nextPriceId) && db.nextPaymentId == old(db.nextPaymentId)
      invariant db.nextAttendanceId == old(db.nextAttendanceId) && db.nextFeeId == old(db.nextFeeId)
    {
      if db.prices[i].isActive {
        db.prices := db.prices[i := db.prices[i].(isActive := false)];
      }
      i := i + 1;
    }
    assert db.prices == Deactivated(before);
    db.prices := db.prices + [MembershipPrice(db.nextPriceId, price, effectiveFrom, description, true, now)];
    db.nextPriceId := db.nextPriceId + 1;
  }
}

/** The month arithmetic of the reports: membership income of a calendar month,
    its sum over a run of months, the month walk of `Payments` (which steps a cursor
    by `AddMonths(1)` while it is not after `endDate`) and the
    month walk of `FinancialSummaryRange` (one summary per calendar month). */
module Reports {

  import opened Wrappers
  import opened Dates
  import opened Models
  import opened Prices
  import opened Fees
  import opened Ledger

  // ---------------------------------------------------------------------
  // Month indices

  function YearOfIndex(k: int): int {
    k / 12
  }

  function MonthOfIndex(k: int): (m: int)
    ensures 1 <= m <= 12
  {
    k % 12 + 1
  }

  /** Year and month are recovered from their month index. */
  lemma {:induction false} IndexOfMonth(y: int, m: int)
    requires 1 <= m <= 12
    ensures YearOfIndex(MonthIndex(y, m)) == y && MonthOfIndex(MonthIndex(y, m)) == m
  {
  }

  /** Midnight of the first day of the month with index `k`. */
  function MonthStart(k: int): (r: DateTime)
    requires k >= 12
    ensures ValidDateTime(r) && r.date.day == 1 && r.ticks == 0
    ensures MonthOf(r) == k
    ensures Instant(r) == MonthStartInstant(k)
  {
    FirstOfMonth(YearOfIndex(k), MonthOfIndex(k))
  }

  /** The instant (see `Instant`) of midnight on the first day of the month with index `k`. */
  function MonthStartInstant(k: int): int {
    (k * 32 + 1) * 864_000_000_000
  }

  /** The first of a month at midnight is the instant `MonthStartInstant` gives for it. */
  lemma {:induction false} FirstOfMonthInstant(y: int, m: int)
    requires y >= 1 && 1 <= m <= 12
    ensures Instant(FirstOfMonth(y, m)) == MonthStartInstant(MonthIndex(y, m))
  {
  }

  /** The first of a month at midnight is not after an instant of that month or a later
      one, and is after every instant of an earlier month. */
  lemma {:induction false} MonthStartOrder(k: int, t: DateTime)
    requires k >= 12 && ValidDateTime(t)
    ensures Le(MonthStart(k), t) <==> k <= MonthOf(t)
  {
    var s := MonthStart(k);
    MonthOrder(s, t);
    MonthOrder(t, s);
    if k == MonthOf(t) {
      IndexOfMonth(s.date.year, s.date.month);
      IndexOfMonth(t.date.year, t.date.month);
    }
  }

  /** A valid instant at midnight on the first of its month is that month's start. */
  lemma {:induction false} AtMonthStart(t: DateTime)
    requires ValidDateTime(t) && t.date.day == 1 && t.ticks == 0
    ensures MonthOf(t) >= 12 && t == MonthStart(MonthOf(t))
  {
    IndexOfMonth(t.date.year, t.date.month);
  }

  // ---------------------------------------------------------------------
  // Membership income

  /** `n` copies of `price` added up: the amount of `n` members paying `price` each. */
  function Times(n: nat, price: int): int {
    if n == 0 then 0 else Times(n - 1, price) + price
  }

  lemma {:induction false} TimesIsProduct(n: nat, price: int)
    ensures Times(n, price) == n * price
  {
    if n > 0 {
      TimesIsProduct(n - 1, price);
    }
  }

  /** Paid fee rows of month `k` times the price in effect on its first day. */
  function MonthMembershipIncome(fees: seq<MembershipFee>, prices: seq<MembershipPrice>, k: int): int {
    Times(CountPaid(fees, YearOfIndex(k), MonthOfIndex(k)), PriceAt(prices, MonthStartInstant(k)))
  }

  /** The income of month m of year y, whose index is k: its paid rows times the price
      in effect on its first day. */
  lemma {:induction false} MonthIncomeOf(fees: seq<MembershipFee>, prices: seq<MembershipPrice>, y: int, m: int, k: int)
    requires y >= 1 && 1 <= m <= 12 && k == MonthIndex(y, m)
    ensures k >= 12
    ensures Times(CountPaid(fees, y, m), PriceForDate(prices, FirstOfMonth(y, m)))
            == MonthMembershipIncome(fees, prices, k)
  {
    IndexOfMonth(y, m);
    FirstOfMonthInstant(y, m);
  }

  /** The income of month `MonthOf(t)`, written with the year and month of `t`. */
  lemma {:induction false} MonthIncomeAt(fees: seq<MembershipFee>, prices: seq<MembershipPrice>, t: DateTime)
    requires ValidDateTime(t)
    ensures MonthOf(t) >= 12
    ensures Times(CountPaid(fees, t.date.year, t.date.month), PriceForDate(prices, FirstOfMonth(t.date.year, t.date.month)))
            == MonthMembershipIncome(fees, prices, MonthOf(t))
  {
    MonthIncomeOf(fees, prices, t.date.year, t.date.month, MonthOf(t));
  }

  /** The income of month `k`: the paid rows of the month of its first day times the price
      in effect on that day. */
  lemma {:induction false} MonthIncomeAtStart(fees: seq<MembershipFee>, prices: seq<MembershipPrice>, k: int)
    requires k >= 12
    ensures var t := MonthStart(k);
            CountPaid(fees, t.date.year, t.date.month) * PriceForDate(prices, t) == MonthMembershipIncome(fees, prices, k)
  {
    var t := MonthStart(k);
    IndexOfMonth(t.date.year, t.date.month);
    TimesIsProduct(CountPaid(fees, t.date.year, t.date.month), PriceForDate(prices, t));
  }

  /** Membership income of the months a .. b-1. */
  function IncomeBetween(fees: seq<MembershipFee>, prices: seq<MembershipPrice>, a: int, b: int): int
    requires 12 <= a <= b
    decreases b - a
  {
    if a == b then 0 else IncomeBetween(fees, prices, a, b - 1) + MonthMembershipIncome(fees, prices, b - 1)
  }

  /** One more month adds that month's income. */
  lemma {:induction false} IncomeBetweenStep(fees: seq<MembershipFee>, prices: seq<MembershipPrice>, a: int, b: int)
    requires 12 <= a < b
    ensures IncomeBetween(fees, prices, a, b) == IncomeBetween(fees, prices, a, b - 1) + MonthMembershipIncome(fees, prices, b - 1)
  {
  }

  /** The income of a run of months is that of its first part plus that of the rest. */
  lemma {:induction false} IncomeBetweenSplit(fees: seq<MembershipFee>, prices: seq<MembershipPrice>,
                                              a: int, m: int, b: int)
    requires 12 <= a <= m <= b
    ensures IncomeBetween(fees, prices, a, b) == IncomeBetween(fees, prices, a, m) + IncomeBetween(fees, prices, m, b)
    decreases b - m
  {
    if m < b {
      IncomeBetweenSplit(fees, prices, a, m, b - 1);
    }
  }

  // ---------------------------------------------------------------------
  // The month walk of Payments

  /** How many months the loop of `Payments` visits from cursor `cur`: while the cursor
      is not after `end`, its month, then on from the cursor `AddMonths(1)` later. The
      cursor keeps the start's time of day, and its day can only go down (clamped in a
      short month, never restored). */
  function VisitedMonths(cur: DateTime, end: DateTime): (n: nat)
    requires ValidDateTime(cur) && ValidDateTime(end)
    ensures n == 0 <==> !Le(cur, end)
    decreases MonthOf(end) + 1 - MonthOf(cur)
  {
    if !Le(cur, end) then 0
    else
      MonthOrder(cur, end);
      1 + VisitedMonths(AddOneMonth(cur), end)
  }

  /** The walk visits every month from the start month up to the one before the end
      month, and at most the end month besides; nothing when the start is after the end. */
  lemma {:induction false} VisitedMonthsBounds(cur: DateTime, end: DateTime)
    requires ValidDateTime(cur) && ValidDateTime(end)
    ensures Le(cur, end) ==>
              MonthOf(end) - MonthOf(cur) <= VisitedMonths(cur, end) <= MonthOf(end) - MonthOf(cur) + 1
    ensures !Le(cur, end) ==> VisitedMonths(cur, end) == 0
    decreases MonthOf(end) + 1 - MonthOf(cur)
  {
    if Le(cur, end) {
      MonthOrder(cur, end);
      var next := AddOneMonth(cur);
      VisitedMonthsBounds(next, end);
      MonthOrder(next, end);
    }
  }

  /** Membership income as `Payments` sums it. */
  function PaymentsMembershipIncome(fees: seq<MembershipFee>, prices: seq<MembershipPrice>,
                                    start: DateTime, end: DateTime): (r: int)
    requires ValidDateTime(start) && ValidDateTime(end)
    ensures !Le(start, end) ==> r == 0
  {
    assert MonthIndex(start.date.year, start.date.month) >= 12;
    IncomeBetween(fees, prices, MonthOf(start), MonthOf(start) + VisitedMonths(start, end))
  }

  /** The walk's income is the income of the whole range, less the end month's when the
      walk stops short of it, and the walk stops short of no other month. */
  lemma {:induction false} PaymentsIncomeMissesOnlyEndMonth(fees: seq<MembershipFee>, prices: seq<MembershipPrice>,
                                                            start: DateTime, end: DateTime)
    requires ValidDateTime(start) && ValidDateTime(end)
    ensures var missed := Le(start, end) && MonthOf(start) + VisitedMonths(start, end) == MonthOf(end);
            PaymentsMembershipIncome(fees, prices, start, end)
              + (if missed then MonthMembershipIncome(fees, prices, MonthOf(end)) else 0)
              == MembershipIncomeForRange(fees, prices, start, end)
  {
    VisitedMonthsBounds(start, end);
    if Le(start, end) {
      MonthOrder(start, end);
      MissedIncome(fees, prices, MonthOf(start), MonthOf(end), VisitedMonths(start, end));
    }
  }

  /** Months a .. a+v-1 for v = b-a or b-a+1, plus month b when v = b-a, are months a .. b. */
  lemma {:induction false} MissedIncome(fees: seq<MembershipFee>, prices: seq<MembershipPrice>, a: int, b: int, v: int)
    requires 12 <= a <= b && b - a <= v <= b - a + 1
    ensures IncomeBetween(fees, prices, a, a + v) + (if a + v == b then MonthMembershipIncome(fees, prices, b) else 0)
            == IncomeBetween(fees, prices, a, b) + MonthMembershipIncome(fees, prices, b)
  {
    if a + v == b + 1 {
      IncomeBetweenStep(fees, prices, a, b + 1);
    }
  }

  /** A cursor not after `end` visits its month and then the months from the next cursor. */
  lemma VisitedStep(cur: DateTime, end: DateTime) returns (v: nat)
    requires ValidDateTime(cur) && ValidDateTime(end) && Le(cur, end)
    ensures v == VisitedMonths(AddOneMonth(cur), end)
    ensures VisitedMonths(cur, end) == v + 1
  {
    v := VisitedMonths(AddOneMonth(cur), end);
  }

  /** A cursor not after `end` has its month start not after `end` either, so the loop
      adds that month's income: its paid rows times the price on its first day. */
  lemma {:induction false} WalkIncomeStep(fees: seq<MembershipFee>, prices: seq<MembershipPrice>, cur: DateTime, end: DateTime)
    requires ValidDateTime(cur) && ValidDateTime(end) && Le(cur, end)
    ensures MonthOf(cur) >= 12
    ensures Le(FirstOfMonth(cur.date.year, cur.date.month), end)
    ensures Times(CountPaid(fees, cur.date.year, cur.date.month), PriceForDate(prices, FirstOfMonth(cur.date.year, cur.date.month)))
            == MonthMembershipIncome(fees, prices, MonthOf(cur))
  {
    var monthStart := FirstOfMonth(cur.date.year, cur.date.month);
    MonthIncomeAt(fees, prices, cur);
    MonthStartOrder(MonthOf(cur), cur);
    IndexOfMonth(cur.date.year, cur.date.month);
    assert MonthStart(MonthOf(cur)) == monthStart;
    LeTransitive(monthStart, cur, end);
  }

  /** Membership income of every calendar month from the month of `start` to the
      month of `end`, both included: what a report of the range is meant to show,
      and what `FinancialSummaryRange` sums. */
  function MembershipIncomeForRange(fees: seq<MembershipFee>, prices: seq<MembershipPrice>,
                                    start: DateTime, end: DateTime): (r: int)
    requires ValidDateTime(start) && ValidDateTime(end)
    ensures !Le(start, end) ==> r == 0
    ensures Le(start, end) ==>
              && 12 <= MonthOf(start) <= MonthOf(end)
              && r == IncomeBetween(fees, prices, MonthOf(start), MonthOf(end))
                      + MonthMembershipIncome(fees, prices, MonthOf(end))
  {
    if !Le(start, end) then 0
    else
      MonthOrder(start, end);
      assert MonthIndex(start.date.year, start.date.month) >= 12;
      IncomeBetweenStep(fees, prices, MonthOf(start), MonthOf(end) + 1);
      IncomeBetween(fees, prices, MonthOf(start), MonthOf(end) + 1)
  }

  /** The two agree when the range is empty or the walk reaches the end month, which
      it always does when the range starts on the first of a month at midnight (the
      default start of both reports). */
  lemma {:induction false} PaymentsIncomeOnWholeMonths(fees: seq<MembershipFee>, prices: seq<MembershipPrice>,
                                    start: DateTime, end: DateTime)
    requires ValidDateTime(start) && ValidDateTime(end)
    requires Le(start, end) ==> VisitedMonths(start, end) == MonthOf(end) - MonthOf(start) + 1
    ensures PaymentsMembershipIncome(fees, prices, start, end) == MembershipIncomeForRange(fees, prices, start, end)
  {
    if !Le(start, end) {
      EmptyRangeIncome(fees, prices, start, end);
    } else {
      assert MonthOf(start) + VisitedMonths(start, end) == MonthOf(end) + 1;
    }
  }

  /** A start after the end gives no membership income in either sum. */
  lemma {:induction false} EmptyRangeIncome(fees: seq<MembershipFee>, prices: seq<MembershipPrice>, start: DateTime, end: DateTime)
    requires ValidDateTime(start) && ValidDateTime(end) && !Le(start, end)
    ensures PaymentsMembershipIncome(fees, prices, start, end) == MembershipIncomeForRange(fees, prices, start, end)
    ensures PaymentsMembershipIncome(fees, prices, start, end) == 0
    ensures MembershipIncomeForRange(fees, prices, start, end) == 0
  {
  }

  /** A start on the first of a month at midnight lets the walk reach the end month. */
  lemma {:induction false} WalkFromFirstReachesEndMonth(cur: DateTime, end: DateTime)
    requires ValidDateTime(cur) && ValidDateTime(end)
    requires cur.date.day == 1 && cur.ticks == 0 && Le(cur, end)
    ensures VisitedMonths(cur, end) == MonthOf(end) - MonthOf(cur) + 1
    decreases MonthOf(end) + 1 - MonthOf(cur)
  {
    MonthOrder(cur, end);
    var next := AddOneMonth(cur);
    MonthOrder(end, next);
    if MonthOf(cur) < MonthOf(end) {
      assert Le(next, end);
      WalkFromFirstReachesEndMonth(next, end);
    }
  }

  /** From 15 January to 10 February the walk visits January only: its second
      cursor, 15 February, is after the end date. Paid February fees are left out. */
  lemma TrailingMonthSkipped()
    ensures var start := DateTime(Date(2024, 1, 15), 0);
            var end := DateTime(Date(2024, 2, 10), 0);
            var fees := [MembershipFee(1, "m", 2024, 2, true, None, start)];
            && VisitedMonths(start, end) == 1
            && MonthOf(end) - MonthOf(start) + 1 == 2
            && PaymentsMembershipIncome(fees, [], start, end) == 0
            && MembershipIncomeForRange(fees, [], start, end) == DefaultPrice
  {
    var start := DateTime(Date(2024, 1, 15), 0);
    var end := DateTime(Date(2024, 2, 10), 0);
    var fees := [MembershipFee(1, "m", 2024, 2, true, None, start)];
    var a := MonthOf(start);
    assert a == 24288 && MonthOf(end) == 24289;
    IndexOfMonth(2024, 1);
    IndexOfMonth(2024, 2);
    assert AddOneMonth(start) == DateTime(Date(2024, 2, 15), 0);
    assert VisitedMonths(AddOneMonth(start), end) == 0;
    assert VisitedMonths(start, end) == 1;
    assert CountPaid(fees, 2024, 1) == 0;
    assert CountPaid(fees, 2024, 2) == 1;
    assert PriceAt([], MonthStartInstant(a + 1)) == DefaultPrice;
    assert MonthMembershipIncome(fees, [], a) == 0;
    assert MonthMembershipIncome(fees, [], a + 1) == DefaultPrice;
    assert IncomeBetween(fees, [], a, a) == 0;
    assert IncomeBetween(fees, [], a, a + 1) == 0;
    assert IncomeBetween(fees, [], a, a + 2) == DefaultPrice;
  }

  // ---------------------------------------------------------------------
  // The month walk of FinancialSummaryRange

  /** The summary of month `k` over the ledger entries `ps`. */
  function MonthSummaryAt(fees: seq<MembershipFee>, prices: seq<MembershipPrice>, ps: seq<Payment>,
                          k: int): MonthlySummary
    requires k >= 12
  {
    var membership := MonthMembershipIncome(fees, prices, k);
    var other := MonthIncome(ps, k);
    var expenses := MonthExpenses(ps, k);
    MonthlySummary(MonthOfIndex(k), YearOfIndex(k), membership, other, expenses,
                   membership + other - expenses, PriceAt(prices, MonthStartInstant(k)))
  }

  /** The summaries of months a .. b-1, in ascending order. */
  function Summaries(fees: seq<MembershipFee>, prices: seq<MembershipPrice>, ps: seq<Payment>,
                     a: int, b: int): (r: seq<MonthlySummary>)
    requires 12 <= a <= b
    ensures |r| == b - a
    decreases b - a
  {
    if a == b then [] else Summaries(fees, prices, ps, a, b - 1) + [MonthSummaryAt(fees, prices, ps, b - 1)]
  }

  /** Row `i` of the summaries of months a .. b-1 is the summary of month a + i. */
  lemma {:induction false} SummariesAt(fees: seq<MembershipFee>, prices: seq<MembershipPrice>, ps: seq<Payment>,
                                       a: int, b: int, i: int)
    requires 12 <= a <= b && 0 <= i < b - a
    ensures Summaries(fees, prices, ps, a, b)[i] == MonthSummaryAt(fees, prices, ps, a + i)
    decreases b - a
  {
    if i < b - a - 1 {
      SummariesAt(fees, prices, ps, a, b - 1, i);
    }
  }

  /** One more month appends that month's summary. */
  lemma {:induction false} SummariesStep(fees: seq<MembershipFee>, prices: seq<MembershipPrice>, ps: seq<Payment>,
                                         a: int, b: int)
    requires 12 <= a <= b
    ensures Summaries(fees, prices, ps, a, b + 1) == Summaries(fees, prices, ps, a, b) + [MonthSummaryAt(fees, prices, ps, b)]
  {
  }

  /** Lines `ms` of consecutive months from month `a`: line `i` is the summary of month
      a + i, names that month, and has as net its income minus its expenses. */
  ghost predicate MonthRows(fees: seq<MembershipFee>, prices: seq<MembershipPrice>, ps: seq<Payment>,
                            a: int, ms: seq<MonthlySummary>)
  {
    a >= 12
    && forall i :: 0 <= i < |ms| ==>
         && ms[i] == MonthSummaryAt(fees, prices, ps, a + i)
         && MonthIndex(ms[i].year, ms[i].monthNumber) == a + i
         && ms[i].net == ms[i].membershipIncome + ms[i].otherIncome - ms[i].expenses
  }

  /** The summaries of months a .. b-1 are such lines. */
  lemma {:induction false} SummaryRows(fees: seq<MembershipFee>, prices: seq<MembershipPrice>, ps: seq<Payment>,
                                       a: int, b: int)
    requires 12 <= a <= b
    ensures MonthRows(fees, prices, ps, a, Summaries(fees, prices, ps, a, b))
  {
    var ms := Summaries(fees, prices, ps, a, b);
    forall i | 0 <= i < |ms|
      ensures ms[i] == MonthSummaryAt(fees, prices, ps, a + i)
      ensures MonthIndex(ms[i].year, ms[i].monthNumber) == a + i
    {
      var k := a + i;
      SummariesAt(fees, prices, ps, a, b, i);
      assert MonthIndex(YearOfIndex(k), MonthOfIndex(k)) == k;
    }
  }

  /** The summary of the month of `t`, in the terms the loop of `FinancialSummaryRange`
      builds it: the month's paid rows times the price on its first day, and the month's
      other income and expenses. */
  lemma {:induction false} MonthSummaryOf(fees: seq<MembershipFee>, prices: seq<MembershipPrice>, ps: seq<Payment>,
                                          t: DateTime)
    requires ValidDateTime(t)
    ensures MonthOf(t) >= 12
    ensures var price := PriceForDate(prices, FirstOfMonth(t.date.year, t.date.month));
            var membership := CountPaid(fees, t.date.year, t.date.month) * price;
            var other := MonthIncome(ps, MonthOf(t));
            var expenses := MonthExpenses(ps, MonthOf(t));
            MonthSummaryAt(fees, prices, ps, MonthOf(t))
              == MonthlySummary(t.date.month, t.date.year, membership, other, expenses,
                                membership + other - expenses, price)
  {
    var price := PriceForDate(prices, FirstOfMonth(t.date.year, t.date.month));
    MonthIncomeAt(fees, prices, t);
    TimesIsProduct(CountPaid(fees, t.date.year, t.date.month), price);
    FirstOfMonthInstant(t.date.year, t.date.month);
    IndexOfMonth(t.date.year, t.date.month);
  }

  function TotalMembership(ms: seq<MonthlySummary>): int {
    if |ms| == 0 then 0 else TotalMembership(ms[..|ms| - 1]) + ms[|ms| - 1].membershipIncome
  }

  function TotalOther(ms: seq<MonthlySummary>): int {
    if |ms| == 0 then 0 else TotalOther(ms[..|ms| - 1]) + ms[|ms| - 1].otherIncome
  }

  function TotalExpenses(ms: seq<MonthlySummary>): int {
    if |ms| == 0 then 0 else TotalExpenses(ms[..|ms| - 1]) + ms[|ms| - 1].expenses
  }

  /** The column sums of the summaries of months a .. b-1 are the income and expense
      sums of those months. */
  lemma {:induction false} SummaryTotals(fees: seq<MembershipFee>, prices: seq<MembershipPrice>,
                                         ps: seq<Payment>, a: int, b: int)
    requires 12 <= a <= b
    ensures TotalMembership(Summaries(fees, prices, ps, a, b)) == IncomeBetween(fees, prices, a, b)
    ensures TotalOther(Summaries(fees, prices, ps, a, b)) == IncomeOverMonths(ps, a, b)
    ensures TotalExpenses(Summaries(fees, prices, ps, a, b)) == ExpensesOverMonths(ps, a, b)
    decreases b - a
  {
    if a < b {
      SummaryTotals(fees, prices, ps, a, b - 1);
      var s := Summaries(fees, prices, ps, a, b);
      assert s[..|s| - 1] == Summaries(fees, prices, ps, a, b - 1);
    }
  }

  /** When every entry is dated within months a .. b-1, the other-income and expense
      columns add up to the entries' income sum and expense magnitudes. */
  lemma {:induction false} SummaryTotalsOfEntries(fees: seq<MembershipFee>, prices: seq<MembershipPrice>,
                               ps: seq<Payment>, a: int, b: int)
    requires 12 <= a <= b
    requires forall i :: 0 <= i < |ps| ==> a <= MonthOf(ps[i].paymentDate) < b
    ensures TotalOther(Summaries(fees, prices, ps, a, b)) == SumOfType(ps, Income)
    ensures TotalExpenses(Summaries(fees, prices, ps, a, b)) == SumOfExpenseMagnitudes(ps)
  {
    SummaryTotals(fees, prices, ps, a, b);
    MonthlySumsAddUp(ps, a, b);
  }
}

/** The records of the four tables and of the member table, and the shapes of
    the reports the controllers build. Money is held in integer cents: the
    application's `decimal` amounts have two decimal places and are exact. */
module Models {

  import opened Wrappers
  import opened Dates

  /** A club member (ApplicationUser). `ime` is the given name, `prezime` the
      family name, `rang` the rank label, `datumRodjenja` the birth date and
      `datumUclanjenja` the date of joining. */
  datatype Member = Member(
    id: string,
    ime: string,
    prezime: string,
    datumRodjenja: DateTime,
    rang: string,
    datumUclanjenja: DateTime,
    email: string,
    userName: string,
    normalizedEmail: string,
    normalizedUserName: string,
    qrCodePath: string)

  /** One check-in (EvidencijaDolazaka): who came, and when (`datumDolaska`). */
  datatype AttendanceEntry = AttendanceEntry(id: int, userId: string, datumDolaska: DateTime)

  /** Paid or unpaid status of one member for one month of one year. */
  datatype MembershipFee = MembershipFee(
    id: int,
    userId: string,
    year: int,
    month: int,
    isPaid: bool,
    paymentDate: Option<DateTime>,
    createdAt: DateTime)

  /** One row of the price schedule; `price` is in cents. */
  datatype MembershipPrice = MembershipPrice(
    id: int,
    price: int,
    effectiveFrom: DateTime,
    description: string,
    isActive: bool,
    createdAt: DateTime)

  datatype PaymentType = Expense | Income

  /** An entry of the ledger of other income and expenses; `amount` is in cents. */
  datatype Payment = Payment(
    id: int,
    description: string,
    amount: int,
    paymentType: PaymentType,
    paymentDate: DateTime,
    category: string,
    notes: string,
    createdAt: DateTime)

  // ---------------------------------------------------------------------
  // Report shapes

  /** One line of the yearly fee grid; `monthlyPayments[m - 1]` is month m. */
  datatype MemberFeeStatus = MemberFeeStatus(
    userId: string, fullName: string, email: string, monthlyPayments: seq<bool>)

  datatype FeeGrid = FeeGrid(year: int, members: seq<MemberFeeStatus>)

  datatype MonthlyBalance = MonthlyBalance(
    monthNumber: int, paidCount: nat, amount: int, pricePerMember: int)

  datatype BalanceView = BalanceView(
    year: int, monthlyBalances: seq<MonthlyBalance>, totalBalance: int)

  datatype PaymentView = PaymentView(
    payments: seq<Payment>, totalExpenses: int, netBalance: int, membershipIncome: int)

  /** One calendar month of the range summary; `year` is the part of the month
      name that gives the year. */
  datatype MonthlySummary = MonthlySummary(
    monthNumber: int,
    year: int,
    membershipIncome: int,
    otherIncome: int,
    expenses: int,
    net: int,
    pricePerMember: int)

  datatype FinancialSummaryRangeView = FinancialSummaryRangeView(
    startDate: DateTime,
    endDate: DateTime,
    totalMembershipIncome: int,
    totalOtherIncome: int,
    totalExpenses: int,
    netBalance: int,
    monthlySummaries: seq<MonthlySummary>,
    payments: seq<Payment>)

  datatype CalendarView = CalendarView(
    year: int,
    month: int,
    attendanceCounts: map<Date, nat>,
    firstDayOfMonth: DateTime,
    daysInMonth: int)

  datatype TrainingMonthlySummary = TrainingMonthlySummary(monthYear: string, trainingCount: nat)

  datatype TrainingLogView = TrainingLogView(
    startDate: DateTime,
    endDate: DateTime,
    attendanceRecords: seq<DateTime>,
    monthlySummary: seq<TrainingMonthlySummary>,
    totalTrainings: nat)

  /** One hit of the member search box: `caption` (the `label` of the JSON) and `value` are display texts. */
  datatype UserSuggestion = UserSuggestion(id: string, caption: string, value: string)

  /** A day, month and year given as optional query parameters. */
  datatype DateQuery = DateQuery(day: Option<int>, month: Option<int>, year: Option<int>)

  datatype RequestError =
    | InvalidDate        // `new DateTime(...)` throws for the given numbers
    | NotLoggedIn        // no current user: the action redirects to the login page

  /** A date given as day, month and year query parameters; `fallback` when any of
      the three is missing, and an error when `new DateTime` would throw. */
  function ResolveDate(q: DateQuery, fallback: DateTime): (r: Result<DateTime, RequestError>)
    ensures q.day.Some? && q.month.Some? && q.year.Some? ==>
              && (r.Ok? <==> ValidDate(Date(q.year.value, q.month.value, q.day.value)))
              && (r.Ok? ==> r.value == DateTime(Date(q.year.value, q.month.value, q.day.value), 0))
    ensures !(q.day.Some? && q.month.Some? && q.year.Some?) ==> r == Ok(fallback)
  {
    if q.day.Some? && q.month.Some? && q.year.Some? then
      match MakeDate(q.year.value, q.month.value, q.day.value)
      case Some(t) => Ok(t)
      case None => Err(InvalidDate)
    else Ok(fallback)
  }
}

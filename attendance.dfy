/** The actions of the attendance controller: the three ways of checking a member in
    (scanning the member's QR code, picking the member by hand, and picking the member
    with an explicit time), the month calendar of check-in counts, the list of one
    day's check-ins, a member's training log, and the member search box.
    `now` stands for `DateTime.Now`, and `now.date` for `DateTime.Today`. */
module Attendance {

  import opened Wrappers
  import opened Dates
  import opened Text
  import opened Sorting
  import opened Models
  import opened Store
  import opened Training

  // ---------------------------------------------------------------------
  // Reading the QR code

  /** The member id of a scanned code: the third of the `'|'`-separated fields, and
      none when there are fewer than three fields. */
  function QrMemberId(qrData: string): (r: Option<string>)
    ensures r.Some? <==> Occurrences(qrData, '|') >= 2
    ensures r.Some? ==> '|' !in r.value
  {
    var parts := Split(qrData, '|');
    SplitLength(qrData, '|');
    if |parts| < 3 then None else Some(parts[2])
  }

  /** A code made of separator-free fields reads back its third field as the member id. */
  lemma {:induction false} QrMemberIdOfFields(fields: seq<string>)
    requires |fields| >= 3
    requires forall i :: 0 <= i < |fields| ==> '|' !in fields[i]
    ensures QrMemberId(Join(fields, '|')) == Some(fields[2])
  {
    SplitJoin(fields, '|');
  }

  // ---------------------------------------------------------------------
  // The one-check-in-per-day rule

  /** Some check-in of the member is dated on `day` (the `postoji` query). */
  function CheckedInOn(att: seq<AttendanceEntry>, userId: string, day: Date): (r: bool)
    ensures r <==> exists i :: 0 <= i < |att| && att[i].userId == userId && att[i].datumDolaska.date == day
  {
    if |att| == 0 then false
    else
      var last := att[|att| - 1];
      var earlier := att[..|att| - 1];
      assert forall i :: 0 <= i < |earlier| ==> earlier[i] == att[i];
      (last.userId == userId && last.datumDolaska.date == day) || CheckedInOn(earlier, userId, day)
  }

  /** The table after a check-in of `userId` at `at`: one new row with key `nextId`,
      unless the member already has a check-in on the day of `at`. */
  function CheckIn(att: seq<AttendanceEntry>, nextId: int, userId: string, at: DateTime): (r: seq<AttendanceEntry>)
    ensures att <= r && |r| <= |att| + 1
    ensures CheckedInOn(r, userId, at.date)
  {
    if CheckedInOn(att, userId, at.date) then att
    else
      var r := att + [AttendanceEntry(nextId, userId, at)];
      assert r[|att|].userId == userId && r[|att|].datumDolaska.date == at.date;
      r
  }

  /** A check-in adds exactly one row when the member has none on that day, and
      nothing otherwise; either way the member is then checked in on that day. */
  lemma {:induction false} CheckInAddsAtMostOne(att: seq<AttendanceEntry>, nextId: int, userId: string, at: DateTime)
    ensures var r := CheckIn(att, nextId, userId, at);
            && (!CheckedInOn(att, userId, at.date) ==> r == att + [AttendanceEntry(nextId, userId, at)])
            && (CheckedInOn(att, userId, at.date) ==> r == att)
            && CheckedInOn(r, userId, at.date)
  {
    var r := CheckIn(att, nextId, userId, at);
    if !CheckedInOn(att, userId, at.date) {
      assert r[|att|] == AttendanceEntry(nextId, userId, at);
    }
  }

  /** Checking in keeps at most one check-in per member per day. */
  lemma {:induction false} CheckInKeepsOnePerDay(att: seq<AttendanceEntry>, nextId: int, userId: string, at: DateTime)
    requires OneCheckInPerDay(att)
    ensures OneCheckInPerDay(CheckIn(att, nextId, userId, at))
  {
    var r := CheckIn(att, nextId, userId, at);
    if !CheckedInOn(att, userId, at.date) {
      forall i, j | 0 <= i < j < |r|
        ensures !(r[i].userId == r[j].userId && r[i].datumDolaska.date == r[j].datumDolaska.date)
      {
        if j == |att| {
          assert r[i] == att[i];
        }
      }
    }
  }

  /** After a successful check-in, another check-in of the same member on the same day,
      at whatever time and under whatever key, changes nothing. */
  lemma {:induction false} SecondCheckInSameDayRejected(att: seq<AttendanceEntry>, nextId1: int, nextId2: int,
                                                        userId: string, at1: DateTime, at2: DateTime)
    requires at1.date == at2.date
    ensures var once := CheckIn(att, nextId1, userId, at1);
            CheckIn(once, nextId2, userId, at2) == once
  {
    CheckInAddsAtMostOne(att, nextId1, userId, at1);
  }

  // ---------------------------------------------------------------------
  // The three check-in actions

  datatype CheckInOutcome =
    | InvalidQrCode              // fewer than three fields in the scanned code
    | MemberNotFound             // no member has the id
    | AlreadyCheckedIn           // the member already has a check-in on that day
    | CheckedIn(member: string)  // one row added; `member` is the name shown back

  /** Given name, a space, family name: how the messages name the member. */
  function FullName(m: Member): string {
    m.ime + " " + m.prezime
  }

  /** The shared step of the three actions: check in the member `users[k]` at `at`, the
      duplicate check looking at the day of `at`. */
  method CheckInMember(db: Db, k: nat, at: DateTime) returns (outcome: CheckInOutcome)
    requires db.Valid() && k < |db.users| && ValidDateTime(at)
    modifies db
    ensures db.Valid()
    ensures var userId := old(db.users)[k].id;
            && (outcome == AlreadyCheckedIn <==> CheckedInOn(old(db.attendance), userId, at.date))
            && (outcome != AlreadyCheckedIn ==> outcome == CheckedIn(FullName(old(db.users)[k])))
            && db.attendance == CheckIn(old(db.attendance), old(db.nextAttendanceId), userId, at)
            && db.nextAttendanceId == old(db.nextAttendanceId) + (if outcome.CheckedIn? then 1 else 0)
    ensures db.users == old(db.users) && db.fees == old(db.fees) && db.prices == old(db.prices)
    ensures db.payments == old(db.payments)
    ensures db.nextFeeId == old(db.nextFeeId) && db.nextPriceId == old(db.nextPriceId)
    ensures db.nextPaymentId == old(db.nextPaymentId)
  {
    var user := db.users[k];
    var postoji := CheckedInOn(db.attendance, user.id, at.date);
    CheckInKeepsOnePerDay(db.attendance, db.nextAttendanceId, user.id, at);
    if postoji {
      return AlreadyCheckedIn;
    }
    db.attendance := db.attendance + [AttendanceEntry(db.nextAttendanceId, user.id, at)];
    db.nextAttendanceId := db.nextAttendanceId + 1;
    outcome := CheckedIn(FullName(user));
  }

  /** Check-in by scanning the member's QR code (`MarkAttendance`): the member id is the
      third field of the code; the check-in is stamped `now` and checked against today. */
  method MarkAttendance(db: Db, qrData: string, now: DateTime) returns (outcome: CheckInOutcome)
    requires db.Valid() && ValidDateTime(now)
    modifies db
    ensures db.Valid()
    ensures QrMemberId(qrData).None? ==> outcome == InvalidQrCode
    ensures QrMemberId(qrData).Some? && FindMember(old(db.users), QrMemberId(qrData).value).None? ==>
              outcome == MemberNotFound
    ensures (outcome == InvalidQrCode || outcome == MemberNotFound) ==>
              db.attendance == old(db.attendance) && db.nextAttendanceId == old(db.nextAttendanceId)
    ensures QrMemberId(qrData).Some? && FindMember(old(db.users), QrMemberId(qrData).value).Some? ==>
              var userId := QrMemberId(qrData).value;
              var member := old(db.users)[FindMember(old(db.users), userId).value];
              && (outcome == AlreadyCheckedIn <==> CheckedInOn(old(db.attendance), userId, now.date))
              && (outcome != AlreadyCheckedIn ==> outcome == CheckedIn(FullName(member)))
              && db.attendance == CheckIn(old(db.attendance), old(db.nextAttendanceId), userId, now)
    ensures db.nextAttendanceId == old(db.nextAttendanceId) + (if outcome.CheckedIn? then 1 else 0)
    ensures db.users == old(db.users) && db.fees == old(db.fees) && db.prices == old(db.prices)
    ensures db.payments == old(db.payments)
    ensures db.nextFeeId == old(db.nextFeeId) && db.nextPriceId == old(db.nextPriceId)
    ensures db.nextPaymentId == old(db.nextPaymentId)
  {
    var id := QrMemberId(qrData);
    if id.None? {
      return InvalidQrCode;
    }
    var user := FindMember(db.users, id.value);
    if user.None? {
      return MemberNotFound;
    }
    outcome := CheckInMember(db, user.value, now);
  }

  /** Check-in of a member picked by hand (`MarkManualAttendance`), stamped `now`. */
  method MarkManualAttendance(db: Db, userId: string, now: DateTime) returns (outcome: CheckInOutcome)
    requires db.Valid() && ValidDateTime(now)
    modifies db
    ensures db.Valid()
    ensures outcome != InvalidQrCode
    ensures outcome == MemberNotFound <==> FindMember(old(db.users), userId).None?
    ensures outcome == MemberNotFound ==>
              db.attendance == old(db.attendance) && db.nextAttendanceId == old(db.nextAttendanceId)
    ensures FindMember(old(db.users), userId).Some? ==>
              var member := old(db.users)[FindMember(old(db.users), userId).value];
              && (outcome == AlreadyCheckedIn <==> CheckedInOn(old(db.attendance), userId, now.date))
              && (outcome != AlreadyCheckedIn ==> outcome == CheckedIn(FullName(member)))
              && db.attendance == CheckIn(old(db.attendance), old(db.nextAttendanceId), userId, now)
    ensures db.nextAttendanceId == old(db.nextAttendanceId) + (if outcome.CheckedIn? then 1 else 0)
    ensures db.users == old(db.users) && db.fees == old(db.fees) && db.prices == old(db.prices)
    ensures db.payments == old(db.payments)
    ensures db.nextFeeId == old(db.nextFeeId) && db.nextPriceId == old(db.nextPriceId)
    ensures db.nextPaymentId == old(db.nextPaymentId)
  {
    var user := FindMember(db.users, userId);
    if user.None? {
      return MemberNotFound;
    }
    outcome := CheckInMember(db, user.value, now);
  }

  /** The time the form sends for `MarkAttendanceWithDate`: a UTC time is first turned
      into local time, which depends on the host's time zone and is given as
      `asLocal` (the value of `ToLocalTime()`); other times are taken as they are. */
  function LocalTime(attendanceDate: DateTime, isUtc: bool, asLocal: DateTime): DateTime {
    if isUtc then asLocal else attendanceDate
  }

  /** Check-in of a member picked by hand at a given time (`MarkAttendanceWithDate`): the
      local time is both the day checked for a duplicate and the time stored. */
  method MarkAttendanceWithDate(db: Db, userId: string, attendanceDate: DateTime, isUtc: bool, asLocal: DateTime)
    returns (outcome: CheckInOutcome, localTime: DateTime)
    requires db.Valid() && ValidDateTime(attendanceDate) && ValidDateTime(asLocal)
    modifies db
    ensures db.Valid()
    ensures outcome != InvalidQrCode
    ensures outcome == MemberNotFound <==> FindMember(old(db.users), userId).None?
    ensures outcome == MemberNotFound ==>
              db.attendance == old(db.attendance) && db.nextAttendanceId == old(db.nextAttendanceId)
    ensures outcome != MemberNotFound ==> localTime == LocalTime(attendanceDate, isUtc, asLocal)
    ensures FindMember(old(db.users), userId).Some? ==>
              var member := old(db.users)[FindMember(old(db.users), userId).value];
              && (outcome == AlreadyCheckedIn <==> CheckedInOn(old(db.attendance), userId, localTime.date))
              && (outcome != AlreadyCheckedIn ==> outcome == CheckedIn(FullName(member)))
              && db.attendance == CheckIn(old(db.attendance), old(db.nextAttendanceId), userId, localTime)
    ensures db.nextAttendanceId == old(db.nextAttendanceId) + (if outcome.CheckedIn? then 1 else 0)
    ensures db.users == old(db.users) && db.fees == old(db.fees) && db.prices == old(db.prices)
    ensures db.payments == old(db.payments)
    ensures db.nextFeeId == old(db.nextFeeId) && db.nextPriceId == old(db.nextPriceId)
    ensures db.nextPaymentId == old(db.nextPaymentId)
  {
    localTime := attendanceDate;
    var user := FindMember(db.users, userId);
    if user.None? {
      return MemberNotFound, localTime;
    }
    if isUtc {
      localTime := asLocal;
    }
    outcome := CheckInMember(db, user.value, localTime);
  }

  // ---------------------------------------------------------------------
  // The month calendar

  /** Number of check-ins dated on `day`. */
  function CountOnDay(att: seq<AttendanceEntry>, day: Date): nat {
    if |att| == 0 then 0
    else CountOnDay(att[..|att| - 1], day) + (if att[|att| - 1].datumDolaska.date == day then 1 else 0)
  }

  /** Number of check-ins in month `m` of year `y` (the `Where` clause of `Calendar`). */
  function CountInMonth(att: seq<AttendanceEntry>, y: int, m: int): nat {
    if |att| == 0 then 0
    else
      var d := att[|att| - 1].datumDolaska.date;
      CountInMonth(att[..|att| - 1], y, m) + (if d.year == y && d.month == m then 1 else 0)
  }

  /** The `attendanceCounts` dictionary: every day of the month with a check-in, mapped
      to the number of check-ins on it. */
  function DayCounts(att: seq<AttendanceEntry>, y: int, m: int): (r: map<Date, nat>)
    ensures forall d :: d in r <==> d.year == y && d.month == m && CountOnDay(att, d) > 0
    ensures forall d :: d in r ==> r[d] == CountOnDay(att, d)
  {
    if |att| == 0 then map[]
    else
      var rest := DayCounts(att[..|att| - 1], y, m);
      var d := att[|att| - 1].datumDolaska.date;
      if d.year == y && d.month == m then rest[d := (if d in rest then rest[d] else 0) + 1] else rest
  }

  /** The calendar page (`Calendar`): the month asked for, this month by default. */
  function Calendar(att: seq<AttendanceEntry>, year: Option<int>, month: Option<int>, now: DateTime)
    : (r: Result<CalendarView, RequestError>)
    ensures var y := if year.Some? then year.value else now.date.year;
            var m := if month.Some? then month.value else now.date.month;
            && (r.Ok? <==> y >= 1 && 1 <= m <= 12)
            && (r.Err? ==> r.error == InvalidDate)
            && (r.Ok? ==>
                  && r.value.year == y && r.value.month == m
                  && r.value.firstDayOfMonth == DateTime(Date(y, m, 1), 0)
                  && r.value.daysInMonth == DaysInMonth(y, m)
                  && (forall d :: d in r.value.attendanceCounts <==> d.year == y && d.month == m && CountOnDay(att, d) > 0)
                  && (forall d :: d in r.value.attendanceCounts ==> r.value.attendanceCounts[d] == CountOnDay(att, d)))
  {
    var y := if year.Some? then year.value else now.date.year;
    var m := if month.Some? then month.value else now.date.month;
    var counts := DayCounts(att, y, m);
    match MakeDate(y, m, 1)
    case None => Err(InvalidDate)
    case Some(first) => Ok(CalendarView(y, m, counts, first, DaysInMonth(y, m)))
  }

  /** The value shown on day `d` of the calendar page: its count, or nothing. */
  function ShownCount(counts: map<Date, nat>, d: Date): nat {
    if d in counts then counts[d] else 0
  }

  /** The counts shown on days 1 to `n` of month `m` of year `y`, added up. */
  function ShownUpTo(counts: map<Date, nat>, y: int, m: int, n: int): nat
    decreases n
  {
    if n < 1 then 0 else ShownUpTo(counts, y, m, n - 1) + ShownCount(counts, Date(y, m, n))
  }

  /** Number of check-ins in month `m` of year `y` on days 1 to `n`. */
  function CountInMonthUpTo(att: seq<AttendanceEntry>, y: int, m: int, n: int): nat {
    if |att| == 0 then 0
    else
      var d := att[|att| - 1].datumDolaska.date;
      CountInMonthUpTo(att[..|att| - 1], y, m, n) + (if d.year == y && d.month == m && 1 <= d.day <= n then 1 else 0)
  }

  lemma {:induction false} CountInMonthUpToNone(att: seq<AttendanceEntry>, y: int, m: int, n: int)
    requires n < 1
    ensures CountInMonthUpTo(att, y, m, n) == 0
  {
    if |att| > 0 {
      CountInMonthUpToNone(att[..|att| - 1], y, m, n);
    }
  }

  lemma {:induction false} CountInMonthUpToStep(att: seq<AttendanceEntry>, y: int, m: int, n: int)
    requires n >= 1
    ensures CountInMonthUpTo(att, y, m, n) == CountInMonthUpTo(att, y, m, n - 1) + CountOnDay(att, Date(y, m, n))
  {
    if |att| > 0 {
      CountInMonthUpToStep(att[..|att| - 1], y, m, n);
    }
  }

  /** On valid dates, every check-in of the month falls on one of its days. */
  lemma {:induction false} CountInMonthIsUpToLastDay(att: seq<AttendanceEntry>, y: int, m: int)
    requires 1 <= m <= 12
    requires forall i :: 0 <= i < |att| ==> ValidDateTime(att[i].datumDolaska)
    ensures CountInMonth(att, y, m) == CountInMonthUpTo(att, y, m, DaysInMonth(y, m))
  {
    if |att| > 0 {
      CountInMonthIsUpToLastDay(att[..|att| - 1], y, m);
      assert ValidDateTime(att[|att| - 1].datumDolaska);
    }
  }

  lemma {:induction false} ShownUpToIsCount(att: seq<AttendanceEntry>, y: int, m: int, n: int)
    ensures ShownUpTo(DayCounts(att, y, m), y, m, n) == CountInMonthUpTo(att, y, m, n)
    decreases n
  {
    if n < 1 {
      CountInMonthUpToNone(att, y, m, n);
    } else {
      ShownUpToIsCount(att, y, m, n - 1);
      CountInMonthUpToStep(att, y, m, n);
    }
  }

  /** The counts on the calendar page add up to the check-ins of the month: no
      check-in is lost or counted twice. */
  lemma {:induction false} CalendarCountsAddUp(att: seq<AttendanceEntry>, year: Option<int>, month: Option<int>, now: DateTime)
    requires forall i :: 0 <= i < |att| ==> ValidDateTime(att[i].datumDolaska)
    ensures var r := Calendar(att, year, month, now);
            r.Ok? ==> ShownUpTo(r.value.attendanceCounts, r.value.year, r.value.month, r.value.daysInMonth)
                      == CountInMonth(att, r.value.year, r.value.month)
  {
    var r := Calendar(att, year, month, now);
    if r.Ok? {
      var y, m := r.value.year, r.value.month;
      ShownUpToIsCount(att, y, m, DaysInMonth(y, m));
      CountInMonthIsUpToLastDay(att, y, m);
    }
  }

  // ---------------------------------------------------------------------
  // One day's check-ins

  /** The test of the `Where` clause of `DayDetails`. */
  function OnDate(day: Date): AttendanceEntry -> bool {
    (e: AttendanceEntry) => e.datumDolaska.date == day
  }

  /** Check-ins in chronological order. */
  predicate EarlierFirst(a: AttendanceEntry, b: AttendanceEntry) {
    Le(a.datumDolaska, b.datumDolaska)
  }

  lemma EarlierFirstTotalPreorder()
    ensures IsTotalPreorder(EarlierFirst)
  {
    forall a: AttendanceEntry, b: AttendanceEntry
      ensures EarlierFirst(a, b) || EarlierFirst(b, a)
    {
      LeTotal(a.datumDolaska, b.datumDolaska);
    }
    forall a: AttendanceEntry, b: AttendanceEntry, c: AttendanceEntry | EarlierFirst(a, b) && EarlierFirst(b, c)
      ensures EarlierFirst(a, c)
    {
      LeTransitive(a.datumDolaska, b.datumDolaska, c.datumDolaska);
    }
  }

  /** The check-ins of one day in chronological order (`DayDetails`). */
  function DayDetails(att: seq<AttendanceEntry>, year: int, month: int, day: int)
    : (r: Result<seq<AttendanceEntry>, RequestError>)
    ensures r.Ok? <==> ValidDate(Date(year, month, day))
    ensures r.Err? ==> r.error == InvalidDate
    ensures r.Ok? ==> SortedBy(r.value, EarlierFirst)
    ensures r.Ok? ==> forall e :: multiset(r.value)[e] ==
                        if e.datumDolaska.date == Date(year, month, day) then multiset(att)[e] else 0
  {
    match MakeDate(year, month, day)
    case None => Err(InvalidDate)
    case Some(date) =>
      EarlierFirstTotalPreorder();
      Ok(SortBy(Filter(att, OnDate(date.date)), EarlierFirst))
  }

  lemma {:induction false} FilterOnDateCount(att: seq<AttendanceEntry>, day: Date)
    ensures |Filter(att, OnDate(day))| == CountOnDay(att, day)
  {
    if |att| > 0 {
      FilterOnDateCount(att[..|att| - 1], day);
    }
  }

  /** The list of a day has as many entries as its calendar cell shows. */
  lemma {:induction false} DayDetailsMatchesCalendar(att: seq<AttendanceEntry>, year: int, month: int, day: int, now: DateTime)
    requires ValidDate(Date(year, month, day))
    ensures var c := Calendar(att, Some(year), Some(month), now);
            var r := DayDetails(att, year, month, day);
            && c.Ok? && r.Ok?
            && |r.value| == ShownCount(c.value.attendanceCounts, Date(year, month, day))
  {
    FilterOnDateCount(att, Date(year, month, day));
  }

  /** Check-ins taken from a table with one check-in per member per day, all on one
      day and none repeated more often than in the table, belong to distinct members. */
  lemma {:induction false} OneDayDistinctMembers(att: seq<AttendanceEntry>, s: seq<AttendanceEntry>, day: Date)
    requires OneCheckInPerDay(att)
    requires forall x :: multiset(s)[x] <= multiset(att)[x]
    requires forall i :: 0 <= i < |s| ==> s[i].datumDolaska.date == day
    ensures forall i, j :: 0 <= i < j < |s| ==> s[i].userId != s[j].userId
  {
    assert Distinct(att);
    forall x
      ensures multiset(s)[x] <= 1
    {
      DistinctOnce(att, x);
    }
    DistinctOfOnce(s);
    forall i, j | 0 <= i < j < |s|
      ensures s[i].userId != s[j].userId
    {
      assert s[i] in multiset(s) && s[j] in multiset(s);
      var p :| 0 <= p < |att| && att[p] == s[i];
      var q :| 0 <= q < |att| && att[q] == s[j];
      if p < q {
        assert att[p].userId != att[q].userId;
      } else {
        assert att[q].userId != att[p].userId;
      }
    }
  }

  /** With at most one check-in per member per day, no member is listed twice. */
  lemma {:induction false} DayDetailsListsMembersOnce(att: seq<AttendanceEntry>, year: int, month: int, day: int)
    requires OneCheckInPerDay(att)
    ensures var r := DayDetails(att, year, month, day);
            r.Ok? ==> forall i, j :: 0 <= i < j < |r.value| ==> r.value[i].userId != r.value[j].userId
  {
    var r := DayDetails(att, year, month, day);
    if r.Ok? {
      forall i | 0 <= i < |r.value|
        ensures r.value[i].datumDolaska.date == Date(year, month, day)
      {
        assert r.value[i] in multiset(r.value);
      }
      OneDayDistinctMembers(att, r.value, Date(year, month, day));
    }
  }

  // ---------------------------------------------------------------------
  // The training log

  /** `o ?? fallback`. */
  function Or(o: Option<DateTime>, fallback: DateTime): DateTime {
    if o.Some? then o.value else fallback
  }

  /** The test of the `Where` clause of `TrainingLog`: a check-in of the member from
      `start` up to and including `bound`. */
  function InLog(userId: string, start: DateTime, bound: DateTime): AttendanceEntry -> bool {
    (e: AttendanceEntry) => e.userId == userId && Le(start, e.datumDolaska) && Le(e.datumDolaska, bound)
  }

  /** The check-in times of the entries, in their order. */
  function CheckInTimes(es: seq<AttendanceEntry>): (ts: seq<DateTime>)
    ensures |ts| == |es| && forall i :: 0 <= i < |es| ==> ts[i] == es[i].datumDolaska
  {
    if |es| == 0 then [] else CheckInTimes(es[..|es| - 1]) + [es[|es| - 1].datumDolaska]
  }

  lemma TimeOrderTotalPreorder()
    ensures IsTotalPreorder(Le)
  {
    forall a: DateTime, b: DateTime
      ensures Le(a, b) || Le(b, a)
    {
      LeTotal(a, b);
    }
    forall a: DateTime, b: DateTime, c: DateTime | Le(a, b) && Le(b, c)
      ensures Le(a, c)
    {
      LeTransitive(a, b, c);
    }
  }

  /** The times of the member's check-ins that pass the test, in chronological order. */
  function LogTimes(att: seq<AttendanceEntry>, p: AttendanceEntry -> bool): (r: seq<DateTime>)
    requires forall i :: 0 <= i < |att| ==> ValidDateTime(att[i].datumDolaska)
    ensures SortedBy(r, Le)
    ensures multiset(r) == multiset(CheckInTimes(Filter(att, p)))
    ensures forall i :: 0 <= i < |r| ==> ValidDateTime(r[i])
  {
    var times := CheckInTimes(Filter(att, p));
    TimeOrderTotalPreorder();
    var r := SortBy(times, Le);
    forall i | 0 <= i < |r|
      ensures ValidDateTime(r[i])
    {
      assert r[i] in multiset(times);
      var k :| 0 <= k < |times| && times[k] == r[i];
      assert Filter(att, p)[k] in multiset(att);
    }
    r
  }

  /** The training log page: the period, the member's check-ins in it in chronological
      order, the monthly summary of those check-ins, and their number. */
  ghost predicate IsTrainingLog(att: seq<AttendanceEntry>, userId: string, start: DateTime, end: DateTime,
                                v: TrainingLogView) {
    && ValidDateTime(end)
    && v.startDate == start && v.endDate == end
    && SortedBy(v.attendanceRecords, Le)
    && multiset(v.attendanceRecords) == multiset(CheckInTimes(Filter(att, InLog(userId, start, DayLaterLessOneSecond(end)))))
    && (forall i :: 0 <= i < |v.attendanceRecords| ==> ValidDateTime(v.attendanceRecords[i]))
    && v.monthlySummary == MonthlyTrainingSummary(v.attendanceRecords)
    && v.totalTrainings == |v.attendanceRecords|
  }

  /** The training log of the logged-in member (`TrainingLog`). A period bound given as
      day, month and year replaces the one given as a date; the period defaults to
      1 January of this year up to now; the end bound reaches one day later, less one
      second. The monthly summary is sorted by the text of its `MM/yyyy` labels. */
  function TrainingLog(att: seq<AttendanceEntry>, currentUser: string,
                       startDate: Option<DateTime>, endDate: Option<DateTime>,
                       startQ: DateQuery, endQ: DateQuery, now: DateTime): (r: Result<TrainingLogView, RequestError>)
    requires ValidDateTime(now)
    requires startDate.Some? ==> ValidDateTime(startDate.value)
    requires endDate.Some? ==> ValidDateTime(endDate.value)
    requires forall i :: 0 <= i < |att| ==> ValidDateTime(att[i].datumDolaska)
    ensures var s := ResolveDate(startQ, Or(startDate, FirstOfMonth(now.date.year, 1)));
            var e := ResolveDate(endQ, Or(endDate, now));
            && (r.Ok? <==> s.Ok? && e.Ok? && currentUser != "")
            && (r.Err? ==> (r.error == NotLoggedIn <==> s.Ok? && e.Ok?))
            && (r.Err? && r.error != NotLoggedIn ==> r.error == InvalidDate)
            && (r.Ok? ==> IsTrainingLog(att, currentUser, s.value, e.value, r.value))
  {
    match ResolveDate(startQ, Or(startDate, FirstOfMonth(now.date.year, 1)))
    case Err(error) => Err(error)
    case Ok(start) =>
      match ResolveDate(endQ, Or(endDate, now))
      case Err(error) => Err(error)
      case Ok(end) =>
        if currentUser == "" then Err(NotLoggedIn)
        else
          var records := LogTimes(att, InLog(currentUser, start, DayLaterLessOneSecond(end)));
          Ok(TrainingLogView(start, end, records, MonthlyTrainingSummary(records), |records|))
  }

  /** The summary rows of the log are its months with their numbers of check-ins, every
      month of a listed check-in has a row, the rows go in strictly increasing order of
      their label text, and their counts add up to the total. */
  lemma {:induction false} TrainingLogSummary(att: seq<AttendanceEntry>, currentUser: string,
                                              startDate: Option<DateTime>, endDate: Option<DateTime>,
                                              startQ: DateQuery, endQ: DateQuery, now: DateTime)
    requires ValidDateTime(now)
    requires startDate.Some? ==> ValidDateTime(startDate.value)
    requires endDate.Some? ==> ValidDateTime(endDate.value)
    requires forall i :: 0 <= i < |att| ==> ValidDateTime(att[i].datumDolaska)
    ensures var r := TrainingLog(att, currentUser, startDate, endDate, startQ, endQ, now);
            r.Ok? ==> && RowsAreMonths(r.value.monthlySummary, r.value.attendanceRecords)
                      && CoversMonths(r.value.monthlySummary, r.value.attendanceRecords)
                      && StrictlyByLabel(r.value.monthlySummary)
                      && SumTraining(r.value.monthlySummary) == r.value.totalTrainings
  {
    var r := TrainingLog(att, currentUser, startDate, endDate, startQ, endQ, now);
    if r.Ok? {
      MonthlyTrainingSummaryRows(r.value.attendanceRecords);
    }
  }

  /** A check-in that passes the test has its time listed. */
  lemma {:induction false} LogTimesListed(att: seq<AttendanceEntry>, p: AttendanceEntry -> bool, k: nat)
    requires forall i :: 0 <= i < |att| ==> ValidDateTime(att[i].datumDolaska)
    requires k < |att| && p(att[k])
    ensures att[k].datumDolaska in LogTimes(att, p)
  {
    var f := Filter(att, p);
    assert att[k] in multiset(att);
    assert att[k] in multiset(f);
    var i :| 0 <= i < |f| && f[i] == att[k];
    assert CheckInTimes(f)[i] == att[k].datumDolaska;
    assert att[k].datumDolaska in multiset(LogTimes(att, p));
  }

  /** A listed time is the time of a check-in that passes the test. */
  lemma {:induction false} LogTimesPass(att: seq<AttendanceEntry>, p: AttendanceEntry -> bool, x: DateTime)
    requires forall i :: 0 <= i < |att| ==> ValidDateTime(att[i].datumDolaska)
    requires x in LogTimes(att, p)
    ensures exists e :: e in att && p(e) && e.datumDolaska == x
  {
    var f := Filter(att, p);
    var times := CheckInTimes(f);
    assert x in multiset(LogTimes(att, p));
    assert x in multiset(times);
    var i :| 0 <= i < |times| && times[i] == x;
    assert f[i] in multiset(f);
    assert p(f[i]) && f[i] in att;
  }

  /** With the end of the period given as day, month and year, a check-in of the member
      from the start on is listed exactly when it is on an earlier day, or on the end
      day no later than 23:59:59. */
  lemma {:induction false} TrainingLogEndDay(att: seq<AttendanceEntry>, currentUser: string,
                                             startDate: Option<DateTime>, endDate: Option<DateTime>,
                                             startQ: DateQuery, endQ: DateQuery, now: DateTime, k: nat)
    requires ValidDateTime(now)
    requires startDate.Some? ==> ValidDateTime(startDate.value)
    requires endDate.Some? ==> ValidDateTime(endDate.value)
    requires forall i :: 0 <= i < |att| ==> ValidDateTime(att[i].datumDolaska)
    requires endQ.day.Some? && endQ.month.Some? && endQ.year.Some?
    requires k < |att|
    ensures var r := TrainingLog(att, currentUser, startDate, endDate, startQ, endQ, now);
            var x := att[k].datumDolaska;
            var endDay := Date(endQ.year.value, endQ.month.value, endQ.day.value);
            r.Ok? && att[k].userId == currentUser && Le(r.value.startDate, x) ==>
              (x in r.value.attendanceRecords <==>
                 DateLt(x.date, endDay) || (x.date == endDay && x.ticks <= TicksPerDay - TicksPerSecond))
  {
    var r := TrainingLog(att, currentUser, startDate, endDate, startQ, endQ, now);
    var x := att[k].datumDolaska;
    if r.Ok? && att[k].userId == currentUser && Le(r.value.startDate, x) {
      var end := r.value.endDate;
      var p := InLog(currentUser, r.value.startDate, DayLaterLessOneSecond(end));
      assert r.value.attendanceRecords == LogTimes(att, p);
      assert end.ticks == 0;
      DayLaterLessOneSecondOfMidnight(end, x);
      if Le(x, DayLaterLessOneSecond(end)) {
        LogTimesListed(att, p, k);
      }
      if x in r.value.attendanceRecords {
        LogTimesPass(att, p, x);
      }
    }
  }

  // ---------------------------------------------------------------------
  // The member search box

  /** The test of the `Where` clause of `SearchUsers`. */
  predicate Matches(u: Member, term: string) {
    Contains(u.ime, term) || Contains(u.prezime, term) || Contains(u.email, term)
  }

  function MatchesTerm(term: string): Member -> bool {
    (u: Member) => Matches(u, term)
  }

  /** The hit shown for a member: "name surname (email)", filling in "name surname". */
  function SuggestionOf(u: Member): UserSuggestion {
    UserSuggestion(u.id, u.ime + " " + u.prezime + " (" + u.email + ")", u.ime + " " + u.prezime)
  }

  function Suggestions(users: seq<Member>): (r: seq<UserSuggestion>)
    ensures |r| == |users| && forall i :: 0 <= i < |users| ==> r[i] == SuggestionOf(users[i])
  {
    if |users| == 0 then [] else Suggestions(users[..|users| - 1]) + [SuggestionOf(users[|users| - 1])]
  }

  /** The members whose given name, family name or e-mail contains `term`, as suggestions,
      at most ten of them (`SearchUsers`). */
  function SearchUsers(users: seq<Member>, term: string): (r: seq<UserSuggestion>)
    ensures var hits := Filter(users, MatchesTerm(term));
            && |r| == Min(10, |hits|)
            && forall i :: 0 <= i < |r| ==> r[i] == SuggestionOf(hits[i])
  {
    var hits := Filter(users, MatchesTerm(term));
    Suggestions(if |hits| <= 10 then hits else hits[..10])
  }

  /** A search with ten matches or fewer suggests every matching member, and only them. */
  lemma {:induction false} SearchFindsAllFewMatches(users: seq<Member>, term: string, u: Member)
    requires |Filter(users, MatchesTerm(term))| <= 10
    ensures SuggestionOf(u) in SearchUsers(users, term) <==>
              exists v :: v in users && Matches(v, term) && SuggestionOf(v) == SuggestionOf(u)
  {
    if SuggestionOf(u) in SearchUsers(users, term) {
      SearchListsOnlyMatches(users, term, u);
    }
    if exists v :: v in users && Matches(v, term) && SuggestionOf(v) == SuggestionOf(u) {
      var v :| v in users && Matches(v, term) && SuggestionOf(v) == SuggestionOf(u);
      SearchListsMatch(users, term, v);
    }
  }

  lemma {:induction false} SearchListsOnlyMatches(users: seq<Member>, term: string, u: Member)
    requires SuggestionOf(u) in SearchUsers(users, term)
    ensures exists v :: v in users && Matches(v, term) && SuggestionOf(v) == SuggestionOf(u)
  {
    var hits := Filter(users, MatchesTerm(term));
    var r := SearchUsers(users, term);
    var i :| 0 <= i < |r| && r[i] == SuggestionOf(u);
    assert hits[i] in multiset(hits);
    assert MatchesTerm(term)(hits[i]);
    assert hits[i] in multiset(users);
  }

  lemma {:induction false} SearchListsMatch(users: seq<Member>, term: string, v: Member)
    requires |Filter(users, MatchesTerm(term))| <= 10
    requires v in users && Matches(v, term)
    ensures SuggestionOf(v) in SearchUsers(users, term)
  {
    var hits := Filter(users, MatchesTerm(term));
    var r := SearchUsers(users, term);
    assert v in multiset(users);
    assert MatchesTerm(term)(v);
    assert v in multiset(hits);
    var i :| 0 <= i < |hits| && hits[i] == v;
    assert r[i] == SuggestionOf(v);
  }

  /** Every string contains the empty string: an empty term matches every member. */
  lemma EmptyTermMatchesAll(users: seq<Member>)
    ensures Filter(users, MatchesTerm("")) == users
  {
    forall i | 0 <= i < |users|
      ensures MatchesTerm("")(users[i])
    {
      ContainsEmpty(users[i].ime);
    }
    FilterAll(users, MatchesTerm(""));
  }
}

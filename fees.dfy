/** The membership fee table: lookups by (member, year, month), the paid count
    of a month, and the upsert that `UpdatePayment` performs. */
module Fees {

  import opened Wrappers
  import opened Dates
  import opened Models
  import opened Store
  import Sorting

  /** The first fee row for the key, if there is one. */
  function FindFee(fees: seq<MembershipFee>, userId: string, year: int, month: int): (r: Option<nat>)
    ensures r.Some? ==> r.value < |fees| && SameFeeKey(fees[r.value], userId, year, month)
    ensures r.Some? ==> forall j :: 0 <= j < r.value ==> !SameFeeKey(fees[j], userId, year, month)
    ensures r.None? ==> forall j :: 0 <= j < |fees| ==> !SameFeeKey(fees[j], userId, year, month)
  {
    if |fees| == 0 then None
    else if SameFeeKey(fees[0], userId, year, month) then Some(0)
    else match FindFee(fees[1..], userId, year, month)
      case None => None
      case Some(k) => Some(k + 1)
  }

  /** One cell of the yearly grid: the `IsPaid` of the first row for the key, and
      false when there is none. */
  function PaidFlag(fees: seq<MembershipFee>, userId: string, year: int, month: int): bool {
    match FindFee(fees, userId, year, month)
    case Some(i) => fees[i].isPaid
    case None => false
  }

  /** With one row per key, a cell is set exactly when a paid row for its key exists. */
  lemma {:induction false} PaidFlagMeansPaidRow(fees: seq<MembershipFee>, userId: string, year: int, month: int)
    requires OneFeePerMonth(fees)
    ensures PaidFlag(fees, userId, year, month) <==>
              exists i :: 0 <= i < |fees| && SameFeeKey(fees[i], userId, year, month) && fees[i].isPaid
  {
    match FindFee(fees, userId, year, month)
    case None =>
    case Some(k) =>
      forall i | 0 <= i < |fees| && SameFeeKey(fees[i], userId, year, month)
        ensures i == k
      {
      }
  }

  /** The rows of one member for one year, in table order (the `existingPayments` query). */
  function FeesFor(fees: seq<MembershipFee>, userId: string, year: int): (r: seq<MembershipFee>)
    ensures forall f :: f in r <==> f in fees && f.userId == userId && f.year == year
    ensures |r| <= |fees|
  {
    if |fees| == 0 then []
    else
      var rest := FeesFor(fees[1..], userId, year);
      assert fees == [fees[0]] + fees[1..];
      if fees[0].userId == userId && fees[0].year == year then [fees[0]] + rest else rest
  }

  /** Looking up a month among a member's rows for the year finds the same row as
      looking it up in the whole table. */
  lemma {:induction false} PaidFlagOfMemberYear(fees: seq<MembershipFee>, userId: string, year: int, month: int)
    ensures PaidFlag(FeesFor(fees, userId, year), userId, year, month) == PaidFlag(fees, userId, year, month)
    ensures FindFee(FeesFor(fees, userId, year), userId, year, month).Some?
              == FindFee(fees, userId, year, month).Some?
  {
    if |fees| > 0 {
      PaidFlagOfMemberYear(fees[1..], userId, year, month);
    }
  }

  /** Number of paid rows for a month, over all members. */
  function CountPaid(fees: seq<MembershipFee>, year: int, month: int): (n: nat)
    ensures n <= |fees|
  {
    if |fees| == 0 then 0
    else
      (if fees[0].year == year && fees[0].month == month && fees[0].isPaid then 1 else 0)
      + CountPaid(fees[1..], year, month)
  }

  /** Whether a row is a paid row of the month. */
  predicate PaidIn(f: MembershipFee, year: int, month: int) {
    f.year == year && f.month == month && f.isPaid
  }

  /** The count is the number of paid rows of the month: the rows the query's `Where`
      keeps, whose `Count()` it takes. */
  lemma {:induction false} CountPaidIsFilterSize(fees: seq<MembershipFee>, year: int, month: int)
    ensures CountPaid(fees, year, month) == |Sorting.Filter(fees, f => PaidIn(f, year, month))|
    decreases |fees|
  {
    if |fees| > 0 {
      var init := fees[..|fees| - 1];
      CountPaidLast(fees, year, month);
      CountPaidIsFilterSize(init, year, month);
    }
  }

  /** Counting from the end: the count of all rows but the last, plus the last. */
  lemma {:induction false} CountPaidLast(fees: seq<MembershipFee>, year: int, month: int)
    requires |fees| > 0
    ensures CountPaid(fees, year, month)
            == CountPaid(fees[..|fees| - 1], year, month) + (if PaidIn(fees[|fees| - 1], year, month) then 1 else 0)
    decreases |fees|
  {
    if |fees| > 1 {
      CountPaidLast(fees[1..], year, month);
      assert fees[1..][..|fees| - 2] == fees[..|fees| - 1][1..];
    }
  }

  /** The count is zero exactly when no row of the month is paid. */
  lemma {:induction false} CountPaidZero(fees: seq<MembershipFee>, year: int, month: int)
    ensures CountPaid(fees, year, month) == 0 <==>
              forall i :: 0 <= i < |fees| ==> !(fees[i].year == year && fees[i].month == month && fees[i].isPaid)
  {
    if |fees| > 0 {
      CountPaidZero(fees[1..], year, month);
      assert forall i :: 1 <= i < |fees| ==> fees[1..][i - 1] == fees[i];
    }
  }

  // ---------------------------------------------------------------------
  // UpdatePayment

  datatype FeeError = UserIdRequired | InvalidYear | InvalidMonth | UserNotFound

  /** The checks `UpdatePayment` makes before it touches the table, in its order. */
  function CheckFeeUpdate(users: seq<Member>, userId: string, year: int, month: int): (r: Option<FeeError>)
    ensures r.None? <==>
              userId != "" && 2020 <= year <= 2030 && 1 <= month <= 12 && FindMember(users, userId).Some?
    ensures userId == "" ==> r == Some(UserIdRequired)
    ensures userId != "" && !(2020 <= year <= 2030) ==> r == Some(InvalidYear)
    ensures userId != "" && 2020 <= year <= 2030 && !(1 <= month <= 12) ==> r == Some(InvalidMonth)
    ensures userId != "" && 2020 <= year <= 2030 && 1 <= month <= 12 && FindMember(users, userId).None? ==>
              r == Some(UserNotFound)
  {
    if userId == "" then Some(UserIdRequired)
    else if year < 2020 || year > 2030 then Some(InvalidYear)
    else if month < 1 || month > 12 then Some(InvalidMonth)
    else if FindMember(users, userId).None? then Some(UserNotFound)
    else None
  }

  function PaymentDateFor(isPaid: bool, now: DateTime): Option<DateTime> {
    if isPaid then Some(now) else None
  }

  /** The fee table after setting the key's paid state: the existing row is updated
      (`IsPaid` and `PaymentDate` only), or a new row with key `nextId` is appended. */
  function UpsertFee(fees: seq<MembershipFee>, nextId: int, userId: string, year: int, month: int,
                     isPaid: bool, now: DateTime): (r: seq<MembershipFee>)
    ensures FindFee(fees, userId, year, month).Some? ==> |r| == |fees|
    ensures FindFee(fees, userId, year, month).None? ==>
              r == fees + [MembershipFee(nextId, userId, year, month, isPaid, PaymentDateFor(isPaid, now), now)]
    ensures forall j :: 0 <= j < |fees| && !SameFeeKey(fees[j], userId, year, month) ==> r[j] == fees[j]
    ensures forall j :: 0 <= j < |fees| && SameFeeKey(fees[j], userId, year, month) ==>
              r[j] == fees[j] || r[j] == fees[j].(isPaid := isPaid, paymentDate := PaymentDateFor(isPaid, now))
    ensures exists i :: 0 <= i < |r| && SameFeeKey(r[i], userId, year, month)
                        && r[i].isPaid == isPaid && (r[i].paymentDate.Some? <==> isPaid)
    ensures OneFeePerMonth(fees) ==> OneFeePerMonth(r)
  {
    match FindFee(fees, userId, year, month)
    case Some(i) =>
      var r := fees[i := fees[i].(isPaid := isPaid, paymentDate := PaymentDateFor(isPaid, now))];
      assert SameFeeKey(r[i], userId, year, month);
      r
    case None =>
      var r := fees + [MembershipFee(nextId, userId, year, month, isPaid, PaymentDateFor(isPaid, now), now)];
      assert SameFeeKey(r[|fees|], userId, year, month);
      r
  }

  /** After the upsert, the row the key finds is the one the upsert wrote. */
  lemma {:induction false} FindFeeAfterUpsert(fees: seq<MembershipFee>, nextId: int, userId: string, year: int, month: int,
                           isPaid: bool, now: DateTime)
    ensures var r := UpsertFee(fees, nextId, userId, year, month, isPaid, now);
            FindFee(r, userId, year, month)
              == Some(if FindFee(fees, userId, year, month).Some? then FindFee(fees, userId, year, month).value
                      else |fees|)
  {
    var r := UpsertFee(fees, nextId, userId, year, month, isPaid, now);
    var i := if FindFee(fees, userId, year, month).Some? then FindFee(fees, userId, year, month).value else |fees|;
    assert SameFeeKey(r[i], userId, year, month);
    FindFeeFirst(r, userId, year, month, i);
  }

  /** An index holding the key, with no earlier index holding it, is what `FindFee` finds. */
  lemma {:induction false} FindFeeFirst(fees: seq<MembershipFee>, userId: string, year: int, month: int, i: nat)
    requires i < |fees| && SameFeeKey(fees[i], userId, year, month)
    requires forall j :: 0 <= j < i ==> !SameFeeKey(fees[j], userId, year, month)
    ensures FindFee(fees, userId, year, month) == Some(i)
  {
    if i > 0 {
      FindFeeFirst(fees[1..], userId, year, month, i - 1);
    }
  }

  /** Setting the same paid state twice leaves the rows of the first call, except for the
      time stamp in `PaymentDate`; with the same clock reading, exactly the same rows. */
  lemma {:induction false} UpsertFeeIdempotent(fees: seq<MembershipFee>, nextId1: int, nextId2: int, userId: string,
                            year: int, month: int, isPaid: bool, now1: DateTime, now2: DateTime)
    ensures var once := UpsertFee(fees, nextId1, userId, year, month, isPaid, now1);
            var twice := UpsertFee(once, nextId2, userId, year, month, isPaid, now2);
            && |twice| == |once|
            && (forall j :: 0 <= j < |once| ==>
                  twice[j] == once[j].(paymentDate := twice[j].paymentDate)
                  && (twice[j].paymentDate.Some? <==> once[j].paymentDate.Some?))
            && (now1 == now2 ==> twice == once)
  {
    var once := UpsertFee(fees, nextId1, userId, year, month, isPaid, now1);
    FindFeeAfterUpsert(fees, nextId1, userId, year, month, isPaid, now1);
    UpsertedRow(fees, nextId1, userId, year, month, isPaid, now1);
    var k := FindFee(once, userId, year, month).value;
    var twice := UpsertFee(once, nextId2, userId, year, month, isPaid, now2);
    assert twice == once[k := once[k].(isPaid := isPaid, paymentDate := PaymentDateFor(isPaid, now2))];
    forall j | 0 <= j < |once|
      ensures twice[j] == once[j].(paymentDate := twice[j].paymentDate)
      ensures twice[j].paymentDate.Some? <==> once[j].paymentDate.Some?
    {
      if j != k {
        assert twice[j] == once[j];
      }
    }
  }

  /** The row the key finds after the upsert holds the new paid state and payment date. */
  lemma UpsertedRow(fees: seq<MembershipFee>, nextId: int, userId: string, year: int, month: int,
                    isPaid: bool, now: DateTime)
    requires FindFee(UpsertFee(fees, nextId, userId, year, month, isPaid, now), userId, year, month).Some?
    ensures var r := UpsertFee(fees, nextId, userId, year, month, isPaid, now);
            var k := FindFee(r, userId, year, month).value;
            r[k].isPaid == isPaid && r[k].paymentDate == PaymentDateFor(isPaid, now)
  {
    FindFeeAfterUpsert(fees, nextId, userId, year, month, isPaid, now);
  }
}

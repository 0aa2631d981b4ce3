/** The database context: the member table and the four tables the
    controllers read and write, each a sequence in insertion order, with the
    counters the database uses to hand out identity keys. */
module Store {

  import opened Wrappers
  import opened Dates
  import opened Models
  import opened Text
  import opened Sorting

  /** At most one check-in per member per calendar day. */
  ghost predicate OneCheckInPerDay(att: seq<AttendanceEntry>) {
    forall i, j :: 0 <= i < j < |att| ==>
      !(att[i].userId == att[j].userId && att[i].datumDolaska.date == att[j].datumDolaska.date)
  }

  predicate SameFeeKey(f: MembershipFee, userId: string, year: int, month: int) {
    f.userId == userId && f.year == year && f.month == month
  }

  /** At most one fee row per (member, year, month). */
  ghost predicate OneFeePerMonth(fees: seq<MembershipFee>) {
    forall i, j :: 0 <= i < j < |fees| ==>
      !SameFeeKey(fees[j], fees[i].userId, fees[i].year, fees[i].month)
  }

  ghost predicate UniqueMemberIds(users: seq<Member>) {
    forall i, j :: 0 <= i < j < |users| ==> users[i].id != users[j].id
  }

  /** Ledger keys are distinct and below the next key to be handed out. */
  ghost predicate PaymentKeys(payments: seq<Payment>, next: int) {
    && (forall i :: 0 <= i < |payments| ==> payments[i].id < next)
    && (forall i, j :: 0 <= i < j < |payments| ==> payments[i].id != payments[j].id)
  }

  /** Income rows hold a non-negative amount and expense rows a non-positive one. */
  predicate SignNormalised(p: Payment) {
    if p.paymentType == Income then p.amount >= 0 else p.amount <= 0
  }

  /** The first member with the given id (`FirstOrDefault(u => u.Id == id)`). */
  function FindMember(users: seq<Member>, id: string): (r: Option<nat>)
    ensures r.Some? ==> r.value < |users| && users[r.value].id == id
                        && forall j :: 0 <= j < r.value ==> users[j].id != id
    ensures r.None? ==> forall j :: 0 <= j < |users| ==> users[j].id != id
  {
    if |users| == 0 then None
    else if users[0].id == id then Some(0)
    else match FindMember(users[1..], id)
      case None => None
      case Some(k) => Some(k + 1)
  }

  /** The member order of the lists: by `prezime`, then by `ime` (ordinal comparison). */
  predicate NameLe(a: Member, b: Member) {
    StrLt(a.prezime, b.prezime) || (a.prezime == b.prezime && StrLe(a.ime, b.ime))
  }

  lemma NameLeTotalPreorder()
    ensures IsTotalPreorder(NameLe)
  {
    forall a: Member, b: Member
      ensures NameLe(a, b) || NameLe(b, a)
    {
      StrLeTotal(a.prezime, b.prezime);
      StrLeTotal(a.ime, b.ime);
    }
    forall a: Member, b: Member, c: Member | NameLe(a, b) && NameLe(b, c)
      ensures NameLe(a, c)
    {
      if a.prezime == b.prezime && b.prezime == c.prezime {
        StrLeTransitive(a.ime, b.ime, c.ime);
      } else if a.prezime != b.prezime && b.prezime != c.prezime {
        StrLeTransitive(a.prezime, b.prezime, c.prezime);
        if a.prezime == c.prezime {
          StrLeAntisymmetric(a.prezime, b.prezime);
        }
      }
    }
  }

  /** The members ordered by `NameLe` (`OrderBy(u => u.Prezime).ThenBy(u => u.Ime)`). */
  function ByName(users: seq<Member>): (r: seq<Member>)
    ensures SortedBy(r, NameLe)
    ensures multiset(r) == multiset(users)
    ensures |r| == |users|
  {
    NameLeTotalPreorder();
    SortBy(users, NameLe)
  }

  class Db {
    var users: seq<Member>
    var attendance: seq<AttendanceEntry>
    var fees: seq<MembershipFee>
    var prices: seq<MembershipPrice>
    var payments: seq<Payment>
    var nextAttendanceId: int
    var nextFeeId: int
    var nextPriceId: int
    var nextPaymentId: int

    /** What the controllers' own writes keep true of the tables. */
    ghost predicate Valid()
      reads this
    {
      && UniqueMemberIds(users)
      && OneCheckInPerDay(attendance)
      && OneFeePerMonth(fees)
      && PaymentKeys(payments, nextPaymentId)
      && (forall i :: 0 <= i < |payments| ==> SignNormalised(payments[i]))
      && (forall i :: 0 <= i < |payments| ==> ValidDateTime(payments[i].paymentDate))
      && (forall i :: 0 <= i < |attendance| ==> ValidDateTime(attendance[i].datumDolaska))
    }

    /** An empty database. */
    constructor ()
      ensures Valid()
      ensures users == [] && attendance == [] && fees == [] && prices == [] && payments == []
    {
      users, attendance, fees, prices, payments := [], [], [], [], [];
      nextAttendanceId, nextFeeId, nextPriceId, nextPaymentId := 1, 1, 1, 1;
    }
  }
}

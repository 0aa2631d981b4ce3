/** The member administration pages: the member list, the profile form and the
    deletion of a member together with the rows that belong to them. */
module Users {

  import opened Wrappers
  import opened Dates
  import opened Text
  import opened Sorting
  import opened Models
  import opened Store

  // ---------------------------------------------------------------------
  // Index

  /** The member list (`Index`, which is `ByName`) shows every member once when the
      member ids are unique. */
  lemma {:induction false} IndexListsMembersOnce(users: seq<Member>)
    requires UniqueMemberIds(users)
    ensures UniqueMemberIds(ByName(users))
  {
    var r := ByName(users);
    assert Distinct(users);
    DistinctPermutation(users, r);
    forall i, j | 0 <= i < j < |r|
      ensures r[i].id != r[j].id
    {
      assert r[i] in multiset(users) && r[j] in multiset(users);
      var a :| 0 <= a < |users| && users[a] == r[i];
      var b :| 0 <= b < |users| && users[b] == r[j];
      assert a != b;
    }
  }

  /** Members with different family names are listed in the order of those names,
      and members with the same family name in the order of their given names. */
  lemma {:induction false} IndexOrder(users: seq<Member>, i: nat, j: nat)
    requires i < j < |users|
    ensures var r := ByName(users);
            && StrLe(r[i].prezime, r[j].prezime)
            && (r[i].prezime == r[j].prezime ==> StrLe(r[i].ime, r[j].ime))
  {
    var r := ByName(users);
    assert NameLe(r[i], r[j]);
    StrLeReflexive(r[i].prezime);
  }

  // ---------------------------------------------------------------------
  // Edit

  datatype EditOutcome =
    | UnknownMember      // the route id and the form id differ, or no member has the id
    | FormRedisplayed    // the form did not validate: nothing is saved
    | Updated

  /** The stored member after the profile form `form` is saved: the name, birth date,
      rank, joining date and e-mail come from the form, the user name is the e-mail
      and both normalised names are its upper-case form; the key and the QR code
      image stay. */
  function EditedMember(existing: Member, form: Member): (m: Member)
    ensures m.id == existing.id && m.qrCodePath == existing.qrCodePath
    ensures m.ime == form.ime && m.prezime == form.prezime && m.email == form.email
    ensures m.datumRodjenja == form.datumRodjenja && m.datumUclanjenja == form.datumUclanjenja
    ensures m.rang == form.rang
    ensures m.userName == form.email
    ensures m.normalizedEmail == ToUpper(form.email) && m.normalizedUserName == ToUpper(form.email)
  {
    existing.(ime := form.ime, prezime := form.prezime, datumRodjenja := form.datumRodjenja,
              rang := form.rang, datumUclanjenja := form.datumUclanjenja, email := form.email,
              userName := form.email, normalizedEmail := ToUpper(form.email),
              normalizedUserName := ToUpper(form.email))
  }

  /** Saving the same form twice stores what saving it once does. */
  lemma {:induction false} EditIdempotent(existing: Member, form: Member)
    ensures EditedMember(EditedMember(existing, form), form) == EditedMember(existing, form)
  {
  }

  /** What is stored depends on the stored member only through its key and QR code image. */
  lemma {:induction false} EditForgetsOldProfile(a: Member, b: Member, form: Member)
    requires a.id == b.id && a.qrCodePath == b.qrCodePath
    ensures EditedMember(a, form) == EditedMember(b, form)
  {
  }

  /** The profile form posted for the member `id` (`Edit`, POST). */
  method EditMember(db: Db, id: string, form: Member, modelValid: bool) returns (outcome: EditOutcome)
    requires db.Valid()
    modifies db
    ensures db.Valid()
    ensures outcome == UnknownMember <==> id != form.id || (modelValid && FindMember(old(db.users), id).None?)
    ensures outcome == FormRedisplayed <==> id == form.id && !modelValid
    ensures outcome == Updated ==>
              var k := FindMember(old(db.users), id).value;
              db.users == old(db.users)[k := EditedMember(old(db.users)[k], form)]
    ensures outcome != Updated ==> db.users == old(db.users)
    ensures db.attendance == old(db.attendance) && db.fees == old(db.fees)
    ensures db.prices == old(db.prices) && db.payments == old(db.payments)
    ensures db.nextAttendanceId == old(db.nextAttendanceId) && db.nextFeeId == old(db.nextFeeId)
    ensures db.nextPriceId == old(db.nextPriceId) && db.nextPaymentId == old(db.nextPaymentId)
  {
    if id != form.id {
      return UnknownMember;
    }
    if !modelValid {
      return FormRedisplayed;
    }
    var found := FindMember(db.users, id);
    if found.None? {
      return UnknownMember;
    }
    var k := found.value;
    var users := db.users[k := EditedMember(db.users[k], form)];
    assert forall i :: 0 <= i < |users| ==> users[i].id == db.users[i].id;
    db.users := users;
    outcome := Updated;
  }

  /** After an update the member is found under the same key, holding the form's profile. */
  lemma {:induction false} EditedMemberFound(users: seq<Member>, id: string, form: Member)
    requires FindMember(users, id).Some?
    ensures var k := FindMember(users, id).value;
            var r := FindMember(users[k := EditedMember(users[k], form)], id);
            && r == Some(k)
            && users[k := EditedMember(users[k], form)][k] == EditedMember(users[k], form)
  {
  }

  // ---------------------------------------------------------------------
  // DeleteConfirmed

  /** The test of the rows that remain: rows of any member other than `id`. */
  function OtherCheckIn(id: string): AttendanceEntry -> bool {
    (e: AttendanceEntry) => e.userId != id
  }

  function OtherFee(id: string): MembershipFee -> bool {
    (f: MembershipFee) => f.userId != id
  }

  /** Two check-ins in table order that are not of one member on one day. */
  predicate ApartCheckIns(a: AttendanceEntry, b: AttendanceEntry) {
    !(a.userId == b.userId && a.datumDolaska.date == b.datumDolaska.date)
  }

  /** Two fee rows in table order that are not of one member for one month. */
  predicate ApartFees(a: MembershipFee, b: MembershipFee) {
    !SameFeeKey(b, a.userId, a.year, a.month)
  }

  lemma {:induction false} RemoveMemberKeepsIds(users: seq<Member>, k: nat)
    requires UniqueMemberIds(users) && k < |users|
    ensures UniqueMemberIds(users[..k] + users[k + 1..])
  {
    var r := users[..k] + users[k + 1..];
    forall i, j | 0 <= i < j < |r|
      ensures r[i].id != r[j].id
    {
      var a := if i < k then i else i + 1;
      var b := if j < k then j else j + 1;
      assert r[i] == users[a] && r[j] == users[b];
    }
  }

  /** Removing member `k` and the rows of member `id` keeps the tables' invariants. */
  lemma {:induction false} CascadeKeepsInvariants(users: seq<Member>, att: seq<AttendanceEntry>,
                                                  fees: seq<MembershipFee>, id: string, k: nat)
    requires UniqueMemberIds(users) && k < |users|
    requires OneCheckInPerDay(att) && OneFeePerMonth(fees)
    requires forall i :: 0 <= i < |att| ==> ValidDateTime(att[i].datumDolaska)
    ensures UniqueMemberIds(users[..k] + users[k + 1..])
    ensures OneCheckInPerDay(Filter(att, OtherCheckIn(id)))
    ensures OneFeePerMonth(Filter(fees, OtherFee(id)))
    ensures forall i :: 0 <= i < |Filter(att, OtherCheckIn(id))| ==>
              ValidDateTime(Filter(att, OtherCheckIn(id))[i].datumDolaska)
  {
    var attendance := Filter(att, OtherCheckIn(id));
    assert SortedBy(att, ApartCheckIns);
    FilterSorted(att, OtherCheckIn(id), ApartCheckIns);
    assert SortedBy(fees, ApartFees);
    FilterSorted(fees, OtherFee(id), ApartFees);
    forall i | 0 <= i < |attendance|
      ensures ValidDateTime(attendance[i].datumDolaska)
    {
      assert attendance[i] in multiset(att);
    }
    RemoveMemberKeepsIds(users, k);
  }

  /** Stores new member, check-in and fee tables that keep their invariants. */
  method ReplaceMemberTables(db: Db, users: seq<Member>, attendance: seq<AttendanceEntry>, fees: seq<MembershipFee>)
    requires db.Valid()
    requires UniqueMemberIds(users) && OneCheckInPerDay(attendance) && OneFeePerMonth(fees)
    requires forall i :: 0 <= i < |attendance| ==> ValidDateTime(attendance[i].datumDolaska)
    modifies db
    ensures db.Valid()
    ensures db.users == users && db.attendance == attendance && db.fees == fees
    ensures db.prices == old(db.prices) && db.payments == old(db.payments)
    ensures db.nextAttendanceId == old(db.nextAttendanceId) && db.nextFeeId == old(db.nextFeeId)
    ensures db.nextPriceId == old(db.nextPriceId) && db.nextPaymentId == old(db.nextPaymentId)
  {
    db.users, db.attendance, db.fees := users, attendance, fees;
  }

  /** Deletes the member `id` with their check-ins and fee rows (`DeleteConfirmed`);
      `found` is false, and nothing changes, when there is no such member. */
  method DeleteConfirmed(db: Db, id: string) returns (found: bool)
    requires db.Valid()
    modifies db
    ensures db.Valid()
    ensures found <==> FindMember(old(db.users), id).Some?
    ensures found ==>
              var k := FindMember(old(db.users), id).value;
              && db.users == old(db.users)[..k] + old(db.users)[k + 1..]
              && db.attendance == Filter(old(db.attendance), OtherCheckIn(id))
              && db.fees == Filter(old(db.fees), OtherFee(id))
    ensures !found ==> db.users == old(db.users) && db.attendance == old(db.attendance) && db.fees == old(db.fees)
    ensures db.prices == old(db.prices) && db.payments == old(db.payments)
    ensures db.nextAttendanceId == old(db.nextAttendanceId) && db.nextFeeId == old(db.nextFeeId)
    ensures db.nextPriceId == old(db.nextPriceId) && db.nextPaymentId == old(db.nextPaymentId)
  {
    var m := FindMember(db.users, id);
    if m.None? {
      return false;
    }
    var k := m.value;
    CascadeKeepsInvariants(db.users, db.attendance, db.fees, id, k);
    ReplaceMemberTables(db, db.users[..k] + db.users[k + 1..], Filter(db.attendance, OtherCheckIn(id)),
                        Filter(db.fees, OtherFee(id)));
    found := true;
  }

  /** After the deletion no member has the id, nothing of theirs is left, and the rows of the
      other members are all still there. */
  lemma {:induction false} DeleteLeavesNothingOfMember(users: seq<Member>, att: seq<AttendanceEntry>,
                                                      fees: seq<MembershipFee>, id: string)
    requires UniqueMemberIds(users)
    requires FindMember(users, id).Some?
    ensures var k := FindMember(users, id).value;
            && FindMember(users[..k] + users[k + 1..], id).None?
            && (forall e: AttendanceEntry :: e.userId == id ==> e !in Filter(att, OtherCheckIn(id)))
            && (forall f: MembershipFee :: f.userId == id ==> f !in Filter(fees, OtherFee(id)))
            && (forall e: AttendanceEntry :: e.userId != id ==>
                  multiset(Filter(att, OtherCheckIn(id)))[e] == multiset(att)[e])
            && (forall f: MembershipFee :: f.userId != id ==>
                  multiset(Filter(fees, OtherFee(id)))[f] == multiset(fees)[f])
  {
    var k := FindMember(users, id).value;
    var r := users[..k] + users[k + 1..];
    forall j | 0 <= j < |r|
      ensures r[j].id != id
    {
      var a := if j < k then j else j + 1;
      assert r[j] == users[a];
    }
    forall e: AttendanceEntry | e.userId == id
      ensures e !in Filter(att, OtherCheckIn(id))
    {
      assert multiset(Filter(att, OtherCheckIn(id)))[e] == 0;
    }
    forall f: MembershipFee | f.userId == id
      ensures f !in Filter(fees, OtherFee(id))
    {
      assert multiset(Filter(fees, OtherFee(id)))[f] == 0;
    }
  }
}

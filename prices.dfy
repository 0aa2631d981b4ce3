/** The membership price schedule: which price is in effect on a date, and what
    adding a price does to the flags of the rows already there. */
module Prices {

  import opened Wrappers
  import opened Dates
  import opened Models

  /** 40.00, the price used when no row of the schedule is in effect yet. */
  const DefaultPrice: int := 4000

  predicate InEffectBy(p: MembershipPrice, date: DateTime) {
    Le(p.effectiveFrom, date)
  }

  /** The row with the latest `effectiveFrom` at or before the instant `at` (see
      `Instant`). Of rows with the same `effectiveFrom`, the one inserted last is taken. */
  function LatestAt(prices: seq<MembershipPrice>, at: int): Option<MembershipPrice> {
    if |prices| == 0 then None
    else
      var p := prices[|prices| - 1];
      var rest := LatestAt(prices[..|prices| - 1], at);
      if Instant(p.effectiveFrom) > at then rest
      else if rest.None? || Instant(rest.value.effectiveFrom) <= Instant(p.effectiveFrom) then Some(p)
      else rest
  }

  /** The row in effect on `date`: the latest `effectiveFrom` not after it. */
  function LatestInEffect(prices: seq<MembershipPrice>, date: DateTime): Option<MembershipPrice> {
    LatestAt(prices, Instant(date))
  }

  /** The row found is in the schedule and in effect, and no row in effect starts
      later; there is none exactly when no row is in effect. */
  lemma {:induction false} LatestAtIsLatest(prices: seq<MembershipPrice>, at: int)
    ensures var r := LatestAt(prices, at);
            && (r.Some? ==> r.value in prices && Instant(r.value.effectiveFrom) <= at)
            && (r.Some? ==> forall q :: q in prices && Instant(q.effectiveFrom) <= at ==>
                              Instant(q.effectiveFrom) <= Instant(r.value.effectiveFrom))
            && (r.None? <==> forall q :: q in prices ==> Instant(q.effectiveFrom) > at)
  {
    if |prices| > 0 {
      var p := prices[|prices| - 1];
      var earlier := prices[..|prices| - 1];
      assert prices == earlier + [p];
      LatestAtIsLatest(earlier, at);
    }
  }

  /** The same, in terms of dates. */
  lemma {:induction false} LatestInEffectIsLatest(prices: seq<MembershipPrice>, date: DateTime)
    ensures var r := LatestInEffect(prices, date);
            && (r.Some? ==> r.value in prices && InEffectBy(r.value, date))
            && (r.Some? ==> forall q :: q in prices && InEffectBy(q, date) ==>
                              Le(q.effectiveFrom, r.value.effectiveFrom))
            && (r.None? <==> forall q :: q in prices ==> !InEffectBy(q, date))
  {
    LatestAtIsLatest(prices, Instant(date));
  }

  /** The price in effect at instant `at`. */
  function PriceAt(prices: seq<MembershipPrice>, at: int): int {
    match LatestAt(prices, at)
    case Some(p) => p.price
    case None => DefaultPrice
  }

  /** The price in effect on `date` (`GetMembershipPriceForDate`). */
  function PriceForDate(prices: seq<MembershipPrice>, date: DateTime): int {
    PriceAt(prices, Instant(date))
  }

  /** The price on a date is that of a row in effect by then whose `effectiveFrom` is
      the latest of all rows in effect; with no row in effect it is the default. */
  lemma {:induction false} PriceForDateIsLatest(prices: seq<MembershipPrice>, date: DateTime)
    ensures (exists p :: p in prices && InEffectBy(p, date)) ==>
              exists p :: p in prices && InEffectBy(p, date) && p.price == PriceForDate(prices, date)
                          && forall q :: q in prices && InEffectBy(q, date) ==>
                                           Le(q.effectiveFrom, p.effectiveFrom)
    ensures (forall p :: p in prices ==> !InEffectBy(p, date)) ==> PriceForDate(prices, date) == DefaultPrice
  {
    LatestInEffectIsLatest(prices, date);
  }

  /** The schedule after the loop of `CreatePrice`: every row inactive, nothing else changed. */
  function Deactivated(prices: seq<MembershipPrice>): (r: seq<MembershipPrice>)
    ensures |r| == |prices|
    ensures forall i :: 0 <= i < |r| ==> !r[i].isActive
    ensures forall i :: 0 <= i < |r| ==> r[i].(isActive := prices[i].isActive) == prices[i]
  {
    if |prices| == 0 then []
    else Deactivated(prices[..|prices| - 1]) + [prices[|prices| - 1].(isActive := false)]
  }

  /** The `isActive` flag plays no part in price resolution. */
  lemma {:induction false} PriceIgnoresActiveFlag(prices: seq<MembershipPrice>, at: int)
    ensures PriceAt(Deactivated(prices), at) == PriceAt(prices, at)
    ensures LatestAt(Deactivated(prices), at).Some? == LatestAt(prices, at).Some?
    ensures LatestAt(prices, at).Some? ==>
              LatestAt(Deactivated(prices), at).value == LatestAt(prices, at).value.(isActive := false)
  {
    if |prices| > 0 {
      var earlier := prices[..|prices| - 1];
      PriceIgnoresActiveFlag(earlier, at);
      var d := Deactivated(prices);
      assert d[..|d| - 1] == Deactivated(earlier);
    }
  }

  /** A row appended to the schedule is the price in effect on its own `effectiveFrom`:
      rows dated later are not in effect yet, and of rows with the same date the last
      inserted is taken. */
  lemma {:induction false} NewestRowInEffect(prices: seq<MembershipPrice>, row: MembershipPrice)
    ensures PriceForDate(prices + [row], row.effectiveFrom) == row.price
  {
    var all := prices + [row];
    assert all[..|all| - 1] == prices;
    LatestAtIsLatest(prices, Instant(row.effectiveFrom));
  }

  /** Adding a price and then asking for the price on its `effectiveFrom` date gives it back. */
  lemma {:induction false} CreatedPriceInEffect(prices: seq<MembershipPrice>, row: MembershipPrice)
    ensures PriceForDate(Deactivated(prices) + [row], row.effectiveFrom) == row.price
  {
    NewestRowInEffect(Deactivated(prices), row);
  }

  /** After adding an active row, it is the only active row. */
  lemma {:induction false} CreatedPriceOnlyActive(prices: seq<MembershipPrice>, row: MembershipPrice)
    requires row.isActive
    ensures var r := Deactivated(prices) + [row];
            forall i :: 0 <= i < |r| ==> (r[i].isActive <==> i == |prices|)
  {
  }
}

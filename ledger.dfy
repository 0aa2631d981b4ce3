/** The ledger of other income and expenses: sign normalisation on insert, the
    sums the reports take, and how those sums split over calendar months. */
module Ledger {

  import opened Dates
  import opened Sorting
  import opened Models
  import opened Store

  function Abs(x: int): (r: int)
    ensures r >= 0 && (r == x || r == -x)
  {
    if x < 0 then -x else x
  }

  /** The amount `CreatePayment` stores: the magnitude of the given amount, with the
      sign of the entry's type. */
  function NormalisedAmount(t: PaymentType, amount: int): (r: int)
    ensures Abs(r) == Abs(amount)
    ensures t == Income ==> r >= 0
    ensures t == Expense ==> r <= 0
  {
    if t == Income then Abs(amount) else -Abs(amount)
  }

  /** Entries whose date lies between `start` and `end`, both included. */
  function InRange(ps: seq<Payment>, start: DateTime, end: DateTime): (r: seq<Payment>)
    ensures forall p :: p in r <==> p in ps && Le(start, p.paymentDate) && Le(p.paymentDate, end)
    ensures |r| <= |ps|
  {
    if |ps| == 0 then []
    else
      var rest := InRange(ps[1..], start, end);
      assert ps == [ps[0]] + ps[1..];
      if Le(start, ps[0].paymentDate) && Le(ps[0].paymentDate, end) then [ps[0]] + rest else rest
  }

  /** Sum of the amounts of the entries of type `t`. */
  function SumOfType(ps: seq<Payment>, t: PaymentType): int {
    if |ps| == 0 then 0
    else (if ps[0].paymentType == t then ps[0].amount else 0) + SumOfType(ps[1..], t)
  }

  /** Sum of the magnitudes of the expense entries. */
  function SumOfExpenseMagnitudes(ps: seq<Payment>): (r: int)
    ensures r >= 0
  {
    if |ps| == 0 then 0
    else (if ps[0].paymentType == Expense then Abs(ps[0].amount) else 0) + SumOfExpenseMagnitudes(ps[1..])
  }

  /** For sign-normalised entries, the magnitude of the expense sum (as `Payments` takes it)
      equals the sum of the expense magnitudes (as `FinancialSummaryRange` takes it), and
      the income sum is not negative. */
  lemma {:induction false} ExpenseTotalsAgree(ps: seq<Payment>)
    requires forall i :: 0 <= i < |ps| ==> SignNormalised(ps[i])
    ensures SumOfType(ps, Expense) <= 0
    ensures Abs(SumOfType(ps, Expense)) == SumOfExpenseMagnitudes(ps)
    ensures SumOfType(ps, Income) >= 0
  {
    if |ps| > 0 {
      ExpenseTotalsAgree(ps[1..]);
    }
  }

  lemma {:induction false} SumsOfConcat(a: seq<Payment>, b: seq<Payment>)
    ensures SumOfType(a + b, Income) == SumOfType(a, Income) + SumOfType(b, Income)
    ensures SumOfType(a + b, Expense) == SumOfType(a, Expense) + SumOfType(b, Expense)
    ensures SumOfExpenseMagnitudes(a + b) == SumOfExpenseMagnitudes(a) + SumOfExpenseMagnitudes(b)
  {
    if |a| > 0 {
      SumsOfConcat(a[1..], b);
      assert (a + b)[0] == a[0];
      assert (a + b)[1..] == a[1..] + b;
    } else {
      assert a + b == b;
    }
  }

  /** Sums do not depend on the order of the entries. */
  lemma {:induction false} SumsOfPermutation(a: seq<Payment>, b: seq<Payment>)
    requires multiset(a) == multiset(b)
    ensures SumOfType(a, Income) == SumOfType(b, Income)
    ensures SumOfType(a, Expense) == SumOfType(b, Expense)
    ensures SumOfExpenseMagnitudes(a) == SumOfExpenseMagnitudes(b)
    decreases |a|
  {
    if |a| > 0 {
      var i := Position(b, a[0]);
      var rest := RemovedPermutation(a, b, i);
      SumsOfPermutation(a[1..], rest);
      SumsOfRemoval(b, i);
    }
  }

  /** The sums of `b` are those of `b` without entry `i`, plus entry `i`'s share. */
  lemma {:induction false} SumsOfRemoval(b: seq<Payment>, i: nat)
    requires i < |b|
    ensures var rest := b[..i] + b[i + 1..];
            && SumOfType(b, Income) == SumOfType([b[i]], Income) + SumOfType(rest, Income)
            && SumOfType(b, Expense) == SumOfType([b[i]], Expense) + SumOfType(rest, Expense)
            && SumOfExpenseMagnitudes(b) == SumOfExpenseMagnitudes([b[i]]) + SumOfExpenseMagnitudes(rest)
  {
    assert b == b[..i] + ([b[i]] + b[i + 1..]);
    SumsOfConcat(b[..i], [b[i]] + b[i + 1..]);
    SumsOfConcat([b[i]], b[i + 1..]);
    SumsOfConcat(b[..i], b[i + 1..]);
  }

  // ---------------------------------------------------------------------
  // Monthly buckets

  predicate InMonth(p: Payment, k: int) {
    MonthOf(p.paymentDate) == k
  }

  /** Income of the entries dated in month `k` (year and month match). */
  function MonthIncome(ps: seq<Payment>, k: int): int {
    if |ps| == 0 then 0
    else (if InMonth(ps[0], k) && ps[0].paymentType == Income then ps[0].amount else 0)
         + MonthIncome(ps[1..], k)
  }

  /** Expense magnitudes of the entries dated in month `k`. */
  function MonthExpenses(ps: seq<Payment>, k: int): (r: int)
    ensures r >= 0
  {
    if |ps| == 0 then 0
    else (if InMonth(ps[0], k) && ps[0].paymentType == Expense then Abs(ps[0].amount) else 0)
         + MonthExpenses(ps[1..], k)
  }

  /** The monthly income sums for months a .. b-1. */
  function IncomeOverMonths(ps: seq<Payment>, a: int, b: int): int
    requires a <= b
    decreases b - a
  {
    if a == b then 0 else IncomeOverMonths(ps, a, b - 1) + MonthIncome(ps, b - 1)
  }

  /** The monthly expense sums for months a .. b-1. */
  function ExpensesOverMonths(ps: seq<Payment>, a: int, b: int): int
    requires a <= b
    decreases b - a
  {
    if a == b then 0 else ExpensesOverMonths(ps, a, b - 1) + MonthExpenses(ps, b - 1)
  }

  /** When every entry is dated in one of the months a .. b-1, the monthly sums add up
      to the overall sums: each entry lands in exactly one month. */
  lemma {:induction false} MonthlySumsAddUp(ps: seq<Payment>, a: int, b: int)
    requires a <= b
    requires forall i :: 0 <= i < |ps| ==> a <= MonthOf(ps[i].paymentDate) < b
    ensures IncomeOverMonths(ps, a, b) == SumOfType(ps, Income)
    ensures ExpensesOverMonths(ps, a, b) == SumOfExpenseMagnitudes(ps)
  {
    if |ps| > 0 {
      assert a <= MonthOf(ps[0].paymentDate) < b;
      assert forall i :: 0 <= i < |ps[1..]| ==> ps[1..][i] == ps[i + 1];
      MonthlySumsAddUp(ps[1..], a, b);
      SplitFirst(ps, a, b);
    } else {
      OverMonthsOfNothing(ps, a, b);
    }
  }

  /** With no entries, every month's sum is zero. */
  lemma {:induction false} OverMonthsOfNothing(ps: seq<Payment>, a: int, b: int)
    requires |ps| == 0 && a <= b
    ensures IncomeOverMonths(ps, a, b) == 0 && ExpensesOverMonths(ps, a, b) == 0
    decreases b - a
  {
    if a < b {
      OverMonthsOfNothing(ps, a, b - 1);
    }
  }

  /** Over months a .. b-1, the first entry contributes to exactly its own month. */
  lemma {:induction false} SplitFirst(ps: seq<Payment>, a: int, b: int)
    requires |ps| > 0 && a <= b
    ensures IncomeOverMonths(ps, a, b) == IncomeOverMonths(ps[1..], a, b)
              + (if a <= MonthOf(ps[0].paymentDate) < b && ps[0].paymentType == Income then ps[0].amount else 0)
    ensures ExpensesOverMonths(ps, a, b) == ExpensesOverMonths(ps[1..], a, b)
              + (if a <= MonthOf(ps[0].paymentDate) < b && ps[0].paymentType == Expense then Abs(ps[0].amount) else 0)
    decreases b - a
  {
    if a < b {
      SplitFirst(ps, a, b - 1);
    }
  }

  // ---------------------------------------------------------------------
  // Deleting an entry

  /** The ledger without the entries whose key is `id`. */
  function RemovePayment(ps: seq<Payment>, id: int): (r: seq<Payment>)
    ensures forall i :: 0 <= i < |r| ==> r[i].id != id
    ensures |r| <= |ps|
  {
    if |ps| == 0 then []
    else
      var rest := RemovePayment(ps[1..], id);
      if ps[0].id == id then rest else [ps[0]] + rest
  }

  /** Removing a key that no entry holds leaves the ledger as it is. */
  lemma {:induction false} RemoveAbsentPayment(ps: seq<Payment>, id: int)
    requires forall i :: 0 <= i < |ps| ==> ps[i].id != id
    ensures RemovePayment(ps, id) == ps
  {
    if |ps| > 0 {
      RemoveAbsentPayment(ps[1..], id);
      assert ps == [ps[0]] + ps[1..];
    }
  }

  /** When no other entry shares its key, removing the key held at index `i` removes
      that entry only, keeping the order of the others. */
  lemma {:induction false} RemoveOnePayment(ps: seq<Payment>, i: nat)
    requires i < |ps|
    requires forall j :: 0 <= j < |ps| && j != i ==> ps[j].id != ps[i].id
    ensures RemovePayment(ps, ps[i].id) == ps[..i] + ps[i + 1..]
  {
    var id := ps[i].id;
    if i == 0 {
      assert forall j :: 0 <= j < |ps[1..]| ==> ps[1..][j] == ps[j + 1];
      RemoveAbsentPayment(ps[1..], id);
      WithoutFirst(ps);
    } else {
      var tail := ps[1..];
      assert tail[i - 1] == ps[i];
      assert forall j :: 0 <= j < |tail| ==> tail[j] == ps[j + 1];
      RemoveOnePayment(tail, i - 1);
      assert RemovePayment(ps, id) == [ps[0]] + RemovePayment(tail, id);
      WithoutLater(ps, i);
    }
  }

  /** Taking entry `i` out keeps the keys unique and below `next`, and keeps every entry
      sign-normalised and validly dated. */
  lemma {:induction false} RemovalKeepsLedgerValid(ps: seq<Payment>, i: nat, next: int)
    requires i < |ps| && PaymentKeys(ps, next)
    requires forall j :: 0 <= j < |ps| ==> SignNormalised(ps[j])
    requires forall j :: 0 <= j < |ps| ==> ValidDateTime(ps[j].paymentDate)
    ensures PaymentKeys(ps[..i] + ps[i + 1..], next)
    ensures var r := ps[..i] + ps[i + 1..];
            && (forall j :: 0 <= j < |r| ==> SignNormalised(r[j]))
            && (forall j :: 0 <= j < |r| ==> ValidDateTime(r[j].paymentDate))
  {
    var r := ps[..i] + ps[i + 1..];
    assert forall j :: 0 <= j < |r| ==> r[j] == ps[if j < i then j else j + 1];
  }

  /** Deleting the entry just added, under a key above every key in use, gives the
      ledger back as it was. */
  lemma {:induction false} DeleteUndoesCreate(ps: seq<Payment>, p: Payment)
    requires forall i :: 0 <= i < |ps| ==> ps[i].id < p.id
    ensures RemovePayment(ps + [p], p.id) == ps
  {
    var all := ps + [p];
    assert all[..|ps|] == ps;
    assert all[|ps| + 1..] == [];
    RemoveOnePayment(all, |ps|);
  }
}

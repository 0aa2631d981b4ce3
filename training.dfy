/** The monthly summary of the training log: the member's check-in times grouped
    by calendar month, each group labelled `MM/yyyy` with its number of check-ins.
    The source lists the groups in the text order of their labels, which is not the
    calendar order across years. The training log uses that label-text order, as the
    source does; `ChronologicalTrainingSummary` gives the same rows in calendar order,
    as the evident intent. */
module Training {

  import opened Wrappers
  import opened Dates
  import opened Text
  import opened Sorting
  import opened Models

  // ---------------------------------------------------------------------
  // GroupBy year and month

  /** One group of the `GroupBy`: a month and the number of check-ins in it. */
  datatype MonthCount = MonthCount(year: nat, month: MonthNumber, count: nat)

  type MonthNumber = m: int | 1 <= m <= 12 witness 1

  predicate SameMonth(g: MonthCount, y: int, m: int) {
    g.year == y && g.month == m
  }

  /** Number of times in month `m` of year `y`. */
  function CountMonth(ts: seq<DateTime>, y: int, m: int): nat {
    if |ts| == 0 then 0
    else
      var d := ts[|ts| - 1].date;
      CountMonth(ts[..|ts| - 1], y, m) + (if d.year == y && d.month == m then 1 else 0)
  }

  /** The position of the group of month `m` of year `y`, if there is one. */
  function FindMonth(g: seq<MonthCount>, y: int, m: int): (k: Option<nat>)
    ensures k.Some? ==> k.value < |g| && SameMonth(g[k.value], y, m)
    ensures k.None? ==> forall i :: 0 <= i < |g| ==> !SameMonth(g[i], y, m)
  {
    if |g| == 0 then None
    else if SameMonth(g[0], y, m) then Some(0)
    else match FindMonth(g[1..], y, m)
      case None => None
      case Some(k) => Some(k + 1)
  }

  /** The groups in the order in which their months first occur. */
  function GroupByMonth(ts: seq<DateTime>): seq<MonthCount>
    requires forall i :: 0 <= i < |ts| ==> ValidDateTime(ts[i])
  {
    if |ts| == 0 then []
    else
      var g := GroupByMonth(ts[..|ts| - 1]);
      var d := ts[|ts| - 1].date;
      assert ValidDateTime(ts[|ts| - 1]);
      match FindMonth(g, d.year, d.month)
      case Some(k) => g[k := g[k].(count := g[k].count + 1)]
      case None => g + [MonthCount(d.year, d.month, 1)]
  }

  /** A month with a count has a time in it. */
  lemma {:induction false} CountMonthPositive(ts: seq<DateTime>, y: int, m: int)
    requires CountMonth(ts, y, m) > 0
    ensures exists k :: 0 <= k < |ts| && ts[k].date.year == y && ts[k].date.month == m
  {
    var init := ts[..|ts| - 1];
    if CountMonth(init, y, m) > 0 {
      CountMonthPositive(init, y, m);
      var k :| 0 <= k < |init| && init[k].date.year == y && init[k].date.month == m;
      assert ts[k] == init[k];
    }
  }

  /** A month without times has no count. */
  lemma {:induction false} CountMonthZero(ts: seq<DateTime>, y: int, m: int)
    requires forall k :: 0 <= k < |ts| ==> !(ts[k].date.year == y && ts[k].date.month == m)
    ensures CountMonth(ts, y, m) == 0
  {
    if |ts| > 0 {
      var init := ts[..|ts| - 1];
      assert forall k :: 0 <= k < |init| ==> init[k] == ts[k];
      CountMonthZero(init, y, m);
    }
  }

  /** What one more time does to the groups: the group of its month counts one more,
      or a new group with a count of one is added at the end. */
  lemma {:induction false} GroupStep(ts: seq<DateTime>)
    requires |ts| > 0
    requires forall i :: 0 <= i < |ts| ==> ValidDateTime(ts[i])
    ensures var g0, g, d := GroupByMonth(ts[..|ts| - 1]), GroupByMonth(ts), ts[|ts| - 1].date;
            && (FindMonth(g0, d.year, d.month).Some? ==>
                  var p := FindMonth(g0, d.year, d.month).value;
                  && |g| == |g0|
                  && g[p] == MonthCount(d.year, d.month, g0[p].count + 1)
                  && forall i :: 0 <= i < |g0| && i != p ==> g[i] == g0[i])
            && (FindMonth(g0, d.year, d.month).None? ==>
                  && |g| == |g0| + 1
                  && g[|g0|] == MonthCount(d.year, d.month, 1)
                  && forall i :: 0 <= i < |g0| ==> g[i] == g0[i])
  {
  }

  /** Each group is a month of some time, no month has two groups, and every month
      of a time has a group. */
  ghost predicate GroupsAreMonths(ts: seq<DateTime>, g: seq<MonthCount>) {
    && (forall i, j :: 0 <= i < j < |g| ==> !SameMonth(g[j], g[i].year, g[i].month))
    && (forall i :: 0 <= i < |g| ==> CountMonth(ts, g[i].year, g[i].month) > 0)
    && (forall k :: 0 <= k < |ts| ==> FindMonth(g, ts[k].date.year, ts[k].date.month).Some?)
  }

  lemma {:induction false} GroupByMonthKeys(ts: seq<DateTime>)
    requires forall i :: 0 <= i < |ts| ==> ValidDateTime(ts[i])
    ensures GroupsAreMonths(ts, GroupByMonth(ts))
  {
    if |ts| > 0 {
      var init := ts[..|ts| - 1];
      GroupByMonthKeys(init);
      GroupStep(ts);
      var g0, g, d := GroupByMonth(init), GroupByMonth(ts), ts[|ts| - 1].date;
      var f := FindMonth(g0, d.year, d.month);
      if f.Some? {
        ExistingMonthKeys(ts, init, g0, g, f.value);
      } else {
        NewMonthKeys(ts, init, g0, g);
      }
    }
  }

  lemma {:induction false} ExistingMonthKeys(ts: seq<DateTime>, init: seq<DateTime>, g0: seq<MonthCount>,
                                             g: seq<MonthCount>, p: nat)
    requires |ts| > 0 && init == ts[..|ts| - 1] && GroupsAreMonths(init, g0)
    requires p < |g0| && SameMonth(g0[p], ts[|ts| - 1].date.year, ts[|ts| - 1].date.month)
    requires |g| == |g0| && g[p] == g0[p].(count := g0[p].count + 1)
    requires forall i :: 0 <= i < |g0| && i != p ==> g[i] == g0[i]
    ensures GroupsAreMonths(ts, g)
  {
    assert forall i :: 0 <= i < |g| ==> SameMonth(g[i], g0[i].year, g0[i].month);
    forall k | 0 <= k < |ts|
      ensures FindMonth(g, ts[k].date.year, ts[k].date.month).Some?
    {
      if k < |init| {
        assert ts[k] == init[k];
        var q := FindMonth(g0, init[k].date.year, init[k].date.month).value;
        assert SameMonth(g[q], ts[k].date.year, ts[k].date.month);
      } else {
        assert SameMonth(g[p], ts[k].date.year, ts[k].date.month);
      }
    }
  }

  lemma {:induction false} NewMonthKeys(ts: seq<DateTime>, init: seq<DateTime>, g0: seq<MonthCount>, g: seq<MonthCount>)
    requires |ts| > 0 && init == ts[..|ts| - 1] && GroupsAreMonths(init, g0)
    requires FindMonth(g0, ts[|ts| - 1].date.year, ts[|ts| - 1].date.month).None?
    requires |g| == |g0| + 1 && SameMonth(g[|g0|], ts[|ts| - 1].date.year, ts[|ts| - 1].date.month)
    requires forall i :: 0 <= i < |g0| ==> g[i] == g0[i]
    ensures GroupsAreMonths(ts, g)
  {
    var d := ts[|ts| - 1].date;
    forall i | 0 <= i < |g|
      ensures CountMonth(ts, g[i].year, g[i].month) > 0
    {
      if i < |g0| {
        assert CountMonth(init, g0[i].year, g0[i].month) > 0;
      }
    }
    forall k | 0 <= k < |ts|
      ensures FindMonth(g, ts[k].date.year, ts[k].date.month).Some?
    {
      if k < |init| {
        assert ts[k] == init[k];
        var q := FindMonth(g0, init[k].date.year, init[k].date.month).value;
        assert SameMonth(g[q], ts[k].date.year, ts[k].date.month);
      } else {
        assert SameMonth(g[|g0|], ts[k].date.year, ts[k].date.month);
      }
    }
  }

  /** Each group counts the times of its month. */
  lemma {:induction false} GroupByMonthCounts(ts: seq<DateTime>)
    requires forall i :: 0 <= i < |ts| ==> ValidDateTime(ts[i])
    ensures forall i :: 0 <= i < |GroupByMonth(ts)| ==>
              GroupByMonth(ts)[i].count == CountMonth(ts, GroupByMonth(ts)[i].year, GroupByMonth(ts)[i].month)
  {
    if |ts| > 0 {
      var init := ts[..|ts| - 1];
      GroupByMonthCounts(init);
      GroupByMonthKeys(init);
      GroupStep(ts);
      var g0, g, d := GroupByMonth(init), GroupByMonth(ts), ts[|ts| - 1].date;
      var f := FindMonth(g0, d.year, d.month);
      forall i | 0 <= i < |g|
        ensures g[i].count == CountMonth(ts, g[i].year, g[i].month)
      {
        if f.Some? && i != f.value {
          assert !SameMonth(g0[i], d.year, d.month) by {
            if i < f.value {
              assert !SameMonth(g0[f.value], g0[i].year, g0[i].month);
            } else {
              assert !SameMonth(g0[i], g0[f.value].year, g0[f.value].month);
            }
          }
        } else if f.None? && i == |g0| {
          assert forall k :: 0 <= k < |init| ==> !(init[k].date.year == d.year && init[k].date.month == d.month) by {
            forall k | 0 <= k < |init|
              ensures FindMonth(g0, init[k].date.year, init[k].date.month).Some?
            {
            }
          }
          CountMonthZero(init, d.year, d.month);
        }
      }
    }
  }

  /** The group counts of the groups add up. */
  function SumCounts(g: seq<MonthCount>): nat {
    if |g| == 0 then 0 else SumCounts(g[..|g| - 1]) + g[|g| - 1].count
  }

  lemma {:induction false} SumCountsUpdate(g: seq<MonthCount>, k: nat, c: nat)
    requires k < |g|
    ensures SumCounts(g[k := g[k].(count := c)]) + g[k].count == SumCounts(g) + c
  {
    var h := g[k := g[k].(count := c)];
    if k < |g| - 1 {
      SumCountsUpdate(g[..|g| - 1], k, c);
      assert h[..|h| - 1] == g[..|g| - 1][k := g[k].(count := c)];
    } else {
      assert h[..|h| - 1] == g[..|g| - 1];
    }
  }

  /** Every time is counted in exactly one group. */
  lemma {:induction false} GroupByMonthTotal(ts: seq<DateTime>)
    requires forall i :: 0 <= i < |ts| ==> ValidDateTime(ts[i])
    ensures SumCounts(GroupByMonth(ts)) == |ts|
  {
    if |ts| > 0 {
      var init := ts[..|ts| - 1];
      GroupByMonthTotal(init);
      var g0 := GroupByMonth(init);
      var d := ts[|ts| - 1].date;
      match FindMonth(g0, d.year, d.month)
      case Some(k) => SumCountsUpdate(g0, k, g0[k].count + 1);
      case None =>
        var g := g0 + [MonthCount(d.year, d.month, 1)];
        assert g[..|g| - 1] == g0;
    }
  }

  // ---------------------------------------------------------------------
  // Labels

  /** `$"{month:00}/{year}"`. */
  function MonthYear(y: int, m: int): string
    requires y >= 0 && 1 <= m <= 12
  {
    TwoDigits(m) + "/" + Decimal(y)
  }

  /** Different months get different labels. */
  lemma {:induction false} MonthYearInjective(y1: int, m1: int, y2: int, m2: int)
    requires y1 >= 0 && 1 <= m1 <= 12 && y2 >= 0 && 1 <= m2 <= 12
    ensures MonthYear(y1, m1) == MonthYear(y2, m2) ==> y1 == y2 && m1 == m2
  {
    var a, b := MonthYear(y1, m1), MonthYear(y2, m2);
    if a == b {
      assert a[0] == b[0] && a[1] == b[1];
      assert a[3..] == Decimal(y1) && b[3..] == Decimal(y2);
      DecimalInjective(y1, y2);
    }
  }

  /** Within one year the text order of the labels is the order of the months. */
  lemma {:induction false} SameYearLabelOrder(y: int, m1: int, m2: int)
    requires y >= 0 && 1 <= m1 <= 12 && 1 <= m2 <= 12
    ensures StrLe(MonthYear(y, m1), MonthYear(y, m2)) <==> m1 <= m2
  {
    var a, b := MonthYear(y, m1), MonthYear(y, m2);
    if m1 == m2 {
      StrLeReflexive(a);
    } else if m1 / 10 == m2 / 10 {
      assert a[0] == b[0] && a[1] != b[1];
      assert a[1..][0] == a[1] && b[1..][0] == b[1];
    } else {
      assert a[0] != b[0];
    }
  }

  /** A group as a row of the summary. */
  function Row(g: MonthCount): TrainingMonthlySummary {
    TrainingMonthlySummary(MonthYear(g.year, g.month), g.count)
  }

  function Rows(g: seq<MonthCount>): (r: seq<TrainingMonthlySummary>)
    ensures |r| == |g| && forall i :: 0 <= i < |g| ==> r[i] == Row(g[i])
  {
    if |g| == 0 then [] else Rows(g[..|g| - 1]) + [Row(g[|g| - 1])]
  }

  /** The row order of the source: by the text of the label. */
  predicate LabelLe(a: TrainingMonthlySummary, b: TrainingMonthlySummary) {
    StrLe(a.monthYear, b.monthYear)
  }

  lemma LabelLeTotalPreorder()
    ensures IsTotalPreorder(LabelLe)
  {
    forall a: TrainingMonthlySummary, b: TrainingMonthlySummary
      ensures LabelLe(a, b) || LabelLe(b, a)
    {
      StrLeTotal(a.monthYear, b.monthYear);
    }
    forall a: TrainingMonthlySummary, b: TrainingMonthlySummary, c: TrainingMonthlySummary
      | LabelLe(a, b) && LabelLe(b, c)
      ensures LabelLe(a, c)
    {
      StrLeTransitive(a.monthYear, b.monthYear, c.monthYear);
    }
  }

  /** The `monthlySummary` list of the training log, as the source orders it. */
  function MonthlyTrainingSummary(ts: seq<DateTime>): (r: seq<TrainingMonthlySummary>)
    requires forall i :: 0 <= i < |ts| ==> ValidDateTime(ts[i])
    ensures SortedBy(r, LabelLe)
  {
    LabelLeTotalPreorder();
    SortBy(Rows(GroupByMonth(ts)), LabelLe)
  }

  // ---------------------------------------------------------------------
  // What the summary states

  /** The training counts of the rows, added up. */
  function SumTraining(rows: seq<TrainingMonthlySummary>): int {
    if |rows| == 0 then 0 else SumTraining(rows[..|rows| - 1]) + rows[|rows| - 1].trainingCount
  }

  lemma {:induction false} SumTrainingConcat(a: seq<TrainingMonthlySummary>, b: seq<TrainingMonthlySummary>)
    ensures SumTraining(a + b) == SumTraining(a) + SumTraining(b)
    decreases |b|
  {
    if |b| == 0 {
      assert a + b == a;
    } else {
      SumTrainingConcat(a, b[..|b| - 1]);
      assert (a + b)[..|a + b| - 1] == a + b[..|b| - 1];
    }
  }

  lemma {:induction false} SumTrainingPermutation(a: seq<TrainingMonthlySummary>, b: seq<TrainingMonthlySummary>)
    requires multiset(a) == multiset(b)
    ensures SumTraining(a) == SumTraining(b)
    decreases |a|
  {
    if |a| > 0 {
      var i := Position(b, a[0]);
      var rest := RemovedPermutation(a, b, i);
      SumTrainingPermutation(a[1..], rest);
      SumTrainingFirst(a);
      SumTrainingRemove(b, i);
    }
  }

  /** The first row's count and the sum of the others make up the sum. */
  lemma SumTrainingFirst(s: seq<TrainingMonthlySummary>)
    requires |s| > 0
    ensures SumTraining(s) == SumTraining(s[1..]) + s[0].trainingCount
  {
    assert s == [s[0]] + s[1..];
    SumTrainingConcat([s[0]], s[1..]);
    assert SumTraining([s[0]]) == s[0].trainingCount;
  }

  /** Taking row `i` out of the sum subtracts its count. */
  lemma {:induction false} SumTrainingRemove(s: seq<TrainingMonthlySummary>, i: nat)
    requires i < |s|
    ensures SumTraining(s) == SumTraining(s[..i] + s[i + 1..]) + s[i].trainingCount
  {
    assert s == s[..i] + ([s[i]] + s[i + 1..]);
    SumTrainingConcat(s[..i], [s[i]] + s[i + 1..]);
    SumTrainingConcat([s[i]], s[i + 1..]);
    SumTrainingConcat(s[..i], s[i + 1..]);
    assert SumTraining([s[i]]) == s[i].trainingCount;
  }

  lemma {:induction false} RowsSum(g: seq<MonthCount>)
    ensures SumTraining(Rows(g)) == SumCounts(g)
  {
    if |g| > 0 {
      RowsSum(g[..|g| - 1]);
      assert Rows(g)[..|g| - 1] == Rows(g[..|g| - 1]);
    }
  }

  /** The label of the month of `t`. */
  function LabelOf(t: DateTime): string
    requires ValidDateTime(t)
  {
    MonthYear(t.date.year, t.date.month)
  }

  /** `row` is the row of a month with check-ins: its label and its count. */
  ghost predicate IsMonthRow(row: TrainingMonthlySummary, ts: seq<DateTime>) {
    exists y, m :: y >= 0 && 1 <= m <= 12 && CountMonth(ts, y, m) > 0
                   && row == TrainingMonthlySummary(MonthYear(y, m), CountMonth(ts, y, m))
  }

  /** Every row is the row of a month with check-ins. */
  ghost predicate RowsAreMonths(r: seq<TrainingMonthlySummary>, ts: seq<DateTime>) {
    forall i :: 0 <= i < |r| ==> IsMonthRow(r[i], ts)
  }

  /** The month of every check-in has a row. */
  ghost predicate CoversMonths(r: seq<TrainingMonthlySummary>, ts: seq<DateTime>) {
    forall k :: 0 <= k < |ts| && ValidDateTime(ts[k]) ==>
      exists i :: 0 <= i < |r| && r[i].monthYear == LabelOf(ts[k])
  }

  /** The labels go in strictly increasing text order. */
  ghost predicate StrictlyByLabel(r: seq<TrainingMonthlySummary>) {
    forall i, j :: 0 <= i < j < |r| ==> StrLt(r[i].monthYear, r[j].monthYear)
  }

  lemma {:induction false} RowsAreMonthsOfGroups(ts: seq<DateTime>)
    requires forall i :: 0 <= i < |ts| ==> ValidDateTime(ts[i])
    ensures RowsAreMonths(Rows(GroupByMonth(ts)), ts)
  {
    var g := GroupByMonth(ts);
    GroupByMonthKeys(ts);
    GroupByMonthCounts(ts);
    var rows := Rows(g);
    forall i | 0 <= i < |rows|
      ensures IsMonthRow(rows[i], ts)
    {
      var y, m := g[i].year, g[i].month;
      assert g[i].count == CountMonth(ts, y, m);
      assert CountMonth(ts, y, m) > 0;
      assert rows[i] == Row(g[i]) == TrainingMonthlySummary(MonthYear(y, m), CountMonth(ts, y, m));
    }
  }

  lemma {:induction false} RowsCoverOfGroups(ts: seq<DateTime>)
    requires forall i :: 0 <= i < |ts| ==> ValidDateTime(ts[i])
    ensures CoversMonths(Rows(GroupByMonth(ts)), ts)
  {
    var g := GroupByMonth(ts);
    GroupByMonthKeys(ts);
    var rows := Rows(g);
    forall k | 0 <= k < |ts| && ValidDateTime(ts[k])
      ensures exists i :: 0 <= i < |rows| && rows[i].monthYear == LabelOf(ts[k])
    {
      var p := FindMonth(g, ts[k].date.year, ts[k].date.month).value;
      assert rows[p].monthYear == LabelOf(ts[k]);
    }
  }

  lemma {:induction false} RowsDistinctOfGroups(ts: seq<DateTime>)
    requires forall i :: 0 <= i < |ts| ==> ValidDateTime(ts[i])
    ensures Distinct(Rows(GroupByMonth(ts)))
  {
    var g := GroupByMonth(ts);
    GroupByMonthKeys(ts);
    var rows := Rows(g);
    forall i, j | 0 <= i < j < |rows|
      ensures rows[i] != rows[j]
    {
      MonthYearInjective(g[i].year, g[i].month, g[j].year, g[j].month);
      assert !SameMonth(g[j], g[i].year, g[i].month);
    }
  }

  lemma {:induction false} RowsTotalOfGroups(ts: seq<DateTime>)
    requires forall i :: 0 <= i < |ts| ==> ValidDateTime(ts[i])
    ensures SumTraining(Rows(GroupByMonth(ts))) == |ts|
  {
    GroupByMonthTotal(ts);
    RowsSum(GroupByMonth(ts));
  }

  lemma {:induction false} RowsAreMonthsPermutation(a: seq<TrainingMonthlySummary>, b: seq<TrainingMonthlySummary>,
                                                    ts: seq<DateTime>)
    requires multiset(a) == multiset(b) && RowsAreMonths(a, ts)
    ensures RowsAreMonths(b, ts)
  {
    forall i | 0 <= i < |b|
      ensures IsMonthRow(b[i], ts)
    {
      assert b[i] in multiset(a);
    }
  }

  lemma {:induction false} CoversMonthsPermutation(a: seq<TrainingMonthlySummary>, b: seq<TrainingMonthlySummary>,
                                                   ts: seq<DateTime>)
    requires multiset(a) == multiset(b) && CoversMonths(a, ts)
    ensures CoversMonths(b, ts)
  {
    forall k | 0 <= k < |ts| && ValidDateTime(ts[k])
      ensures exists i :: 0 <= i < |b| && b[i].monthYear == LabelOf(ts[k])
    {
      var p :| 0 <= p < |a| && a[p].monthYear == LabelOf(ts[k]);
      assert a[p] in multiset(b);
    }
  }

  /** Sorted rows of different months are in strictly increasing label order. */
  lemma {:induction false} SortedRowsStrictly(r: seq<TrainingMonthlySummary>, ts: seq<DateTime>)
    requires SortedBy(r, LabelLe) && Distinct(r) && RowsAreMonths(r, ts)
    ensures StrictlyByLabel(r)
  {
    forall i, j | 0 <= i < j < |r|
      ensures StrLt(r[i].monthYear, r[j].monthYear)
    {
      DistinctLabels(ts, r[i], r[j]);
    }
  }

  /** The summary as the source builds it: one row per month with check-ins, with the
      number of check-ins in that month; every check-in's month has its row; the rows
      go in strictly increasing text order of their labels; and the counts add up
      to the number of check-ins. */
  lemma {:induction false} MonthlyTrainingSummaryRows(ts: seq<DateTime>)
    requires forall i :: 0 <= i < |ts| ==> ValidDateTime(ts[i])
    ensures var r := MonthlyTrainingSummary(ts);
            && RowsAreMonths(r, ts)
            && CoversMonths(r, ts)
            && StrictlyByLabel(r)
            && SumTraining(r) == |ts|
  {
    RowsAreMonthsOfGroups(ts);
    RowsCoverOfGroups(ts);
    RowsDistinctOfGroups(ts);
    RowsTotalOfGroups(ts);
    var rows := Rows(GroupByMonth(ts));
    var r := MonthlyTrainingSummary(ts);
    SumTrainingPermutation(r, rows);
    RowsAreMonthsPermutation(rows, r, ts);
    CoversMonthsPermutation(rows, r, ts);
    DistinctPermutation(rows, r);
    SortedRowsStrictly(r, ts);
  }

  /** Two different rows of months have different labels. */
  lemma {:induction false} DistinctLabels(ts: seq<DateTime>, a: TrainingMonthlySummary, b: TrainingMonthlySummary)
    requires IsMonthRow(a, ts) && IsMonthRow(b, ts) && a != b
    ensures a.monthYear != b.monthYear
  {
    var y1, m1 :| y1 >= 0 && 1 <= m1 <= 12 && CountMonth(ts, y1, m1) > 0
                  && a == TrainingMonthlySummary(MonthYear(y1, m1), CountMonth(ts, y1, m1));
    var y2, m2 :| y2 >= 0 && 1 <= m2 <= 12 && CountMonth(ts, y2, m2) > 0
                  && b == TrainingMonthlySummary(MonthYear(y2, m2), CountMonth(ts, y2, m2));
    MonthYearInjective(y1, m1, y2, m2);
  }

  // ---------------------------------------------------------------------
  // The order of the rows across a change of year

  /** A log with check-ins in December 2024 and in February 2025 lists the row of
      February 2025 before the row of December 2024: "02/2025" sorts before "12/2024". */
  lemma {:induction false} LabelOrderAcrossYears(ts: seq<DateTime>, k1: nat, k2: nat)
    requires forall i :: 0 <= i < |ts| ==> ValidDateTime(ts[i])
    requires k1 < |ts| && ts[k1].date.year == 2024 && ts[k1].date.month == 12
    requires k2 < |ts| && ts[k2].date.year == 2025 && ts[k2].date.month == 2
    ensures var r := MonthlyTrainingSummary(ts);
            exists i, j :: 0 <= i < j < |r| && r[i].monthYear == MonthYear(2025, 2)
                                           && r[j].monthYear == MonthYear(2024, 12)
  {
    MonthlyTrainingSummaryRows(ts);
    var r := MonthlyTrainingSummary(ts);
    assert ValidDateTime(ts[k1]) && ValidDateTime(ts[k2]);
    var j :| 0 <= j < |r| && r[j].monthYear == LabelOf(ts[k1]);
    var i :| 0 <= i < |r| && r[i].monthYear == LabelOf(ts[k2]);
    FebruaryBeforeDecember();
    assert i < j;
  }

  /** "02/2025" sorts before "12/2024", and not the other way round. */
  lemma FebruaryBeforeDecember()
    ensures StrLt(MonthYear(2025, 2), MonthYear(2024, 12))
    ensures !StrLe(MonthYear(2024, 12), MonthYear(2025, 2))
  {
    assert MonthYear(2025, 2)[0] == '0' && MonthYear(2024, 12)[0] == '1';
  }

  /** Months in calendar order. */
  predicate MonthCountLe(a: MonthCount, b: MonthCount) {
    MonthIndex(a.year, a.month) <= MonthIndex(b.year, b.month)
  }

  lemma MonthCountLeTotalPreorder()
    ensures IsTotalPreorder(MonthCountLe)
  {
  }

  /** The groups in calendar order, as the summary is evidently meant to list them. */
  function ChronologicalMonths(ts: seq<DateTime>): (s: seq<MonthCount>)
    requires forall i :: 0 <= i < |ts| ==> ValidDateTime(ts[i])
    ensures multiset(s) == multiset(GroupByMonth(ts))
    ensures SortedBy(s, MonthCountLe)
  {
    MonthCountLeTotalPreorder();
    SortBy(GroupByMonth(ts), MonthCountLe)
  }

  /** The summary with its rows in calendar order. */
  function ChronologicalTrainingSummary(ts: seq<DateTime>): seq<TrainingMonthlySummary>
    requires forall i :: 0 <= i < |ts| ==> ValidDateTime(ts[i])
  {
    Rows(ChronologicalMonths(ts))
  }

  lemma {:induction false} RowsConcat(a: seq<MonthCount>, b: seq<MonthCount>)
    ensures Rows(a + b) == Rows(a) + Rows(b)
  {
    assert forall i :: 0 <= i < |a + b| ==> (a + b)[i] == if i < |a| then a[i] else b[i - |a|];
  }

  lemma {:induction false} RowsOfFirst(a: seq<MonthCount>)
    requires |a| > 0
    ensures multiset(Rows(a)) == multiset{Row(a[0])} + multiset(Rows(a[1..]))
  {
    assert a == [a[0]] + a[1..];
    RowsConcat([a[0]], a[1..]);
  }

  lemma {:induction false} RowsOfSplit(b: seq<MonthCount>, i: nat)
    requires i < |b|
    ensures multiset(Rows(b)) == multiset{Row(b[i])} + multiset(Rows(b[..i] + b[i + 1..]))
  {
    var front, back := b[..i], b[i + 1..];
    assert b == front + ([b[i]] + back);
    RowsConcat([b[i]], back);
    RowsConcat(front, [b[i]] + back);
    RowsConcat(front, back);
  }

  /** Rearranging the groups rearranges their rows. */
  lemma {:induction false} RowsPermutation(a: seq<MonthCount>, b: seq<MonthCount>)
    requires multiset(a) == multiset(b)
    ensures multiset(Rows(a)) == multiset(Rows(b))
    decreases |a|
  {
    if |a| > 0 {
      var i := Position(b, a[0]);
      var rest := RemovedPermutation(a, b, i);
      RowsOfFirst(a);
      RowsOfSplit(b, i);
      RowsPermutation(a[1..], rest);
    }
  }

  /** The corrected summary has the same rows as the source's, and its months strictly
      increase. */
  lemma {:induction false} ChronologicalSummaryRows(ts: seq<DateTime>)
    requires forall i :: 0 <= i < |ts| ==> ValidDateTime(ts[i])
    ensures multiset(ChronologicalTrainingSummary(ts)) == multiset(MonthlyTrainingSummary(ts))
    ensures var s := ChronologicalMonths(ts);
            forall i, j :: 0 <= i < j < |s| ==> MonthIndex(s[i].year, s[i].month) < MonthIndex(s[j].year, s[j].month)
  {
    var g := GroupByMonth(ts);
    var s := ChronologicalMonths(ts);
    RowsPermutation(g, s);
    GroupByMonthKeys(ts);
    forall i, j | 0 <= i < j < |s|
      ensures MonthIndex(s[i].year, s[i].month) < MonthIndex(s[j].year, s[j].month)
    {
      ChronologicalStep(ts, g, s, i, j);
    }
  }

  lemma {:induction false} ChronologicalStep(ts: seq<DateTime>, g: seq<MonthCount>, s: seq<MonthCount>, i: nat, j: nat)
    requires GroupsAreMonths(ts, g) && multiset(s) == multiset(g) && SortedBy(s, MonthCountLe)
    requires i < j < |s|
    ensures MonthIndex(s[i].year, s[i].month) < MonthIndex(s[j].year, s[j].month)
  {
    assert forall p, q :: 0 <= p < q < |g| ==> g[p] != g[q];
    DistinctPermutation(g, s);
    assert s[i] in multiset(g) && s[j] in multiset(g);
    var p :| 0 <= p < |g| && g[p] == s[i];
    var q :| 0 <= q < |g| && g[q] == s[j];
    assert p != q;
    if p < q {
      assert !SameMonth(g[q], g[p].year, g[p].month);
    } else {
      assert !SameMonth(g[p], g[q].year, g[q].month);
    }
  }

  /** In groups of strictly increasing months, the group of an earlier month comes first. */
  lemma EarlierRowFirst(s: seq<MonthCount>, i: nat, j: nat)
    requires forall p, q :: 0 <= p < q < |s| ==> MonthIndex(s[p].year, s[p].month) < MonthIndex(s[q].year, s[q].month)
    requires i < |s| && j < |s| && MonthIndex(s[i].year, s[i].month) < MonthIndex(s[j].year, s[j].month)
    ensures i < j
  {
  }

  /** The corrected summary lists December 2024 before February 2025. */
  lemma {:induction false} ChronologicalOrderAcrossYears(ts: seq<DateTime>, k1: nat, k2: nat)
    requires forall i :: 0 <= i < |ts| ==> ValidDateTime(ts[i])
    requires k1 < |ts| && ts[k1].date.year == 2024 && ts[k1].date.month == 12
    requires k2 < |ts| && ts[k2].date.year == 2025 && ts[k2].date.month == 2
    ensures var r := ChronologicalTrainingSummary(ts);
            exists i, j :: 0 <= i < j < |r| && r[i].monthYear == MonthYear(2024, 12)
                                           && r[j].monthYear == MonthYear(2025, 2)
  {
    var g := GroupByMonth(ts);
    GroupByMonthKeys(ts);
    var x := g[FindMonth(g, 2024, 12).value];
    var y := g[FindMonth(g, 2025, 2).value];
    var s := ChronologicalMonths(ts);
    ChronologicalSummaryRows(ts);
    var i := Position(s, x);
    var j := Position(s, y);
    EarlierRowFirst(s, i, j);
  }
}

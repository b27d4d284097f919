/** The analytics over transactions and the ledger: the budget analysis
    (totals, per-category breakdown, alerts) and the spending trends
    (daily and weekly totals, direction, peak day). */
module BudgetAnalytics {
  import opened Wrappers
  import opened Clock
  import opened Text
  import opened ExpenseProcessor
  import opened BudgetLedger
  import Grouping

  /** A category's limit in the breakdown: the ledger's figure, or none
      when the category has no ledger row. */
  datatype Limit = NoLimit | Limit(amount: real)

  /** A category's remaining amount, not applicable without a ledger row. */
  datatype Remaining = NotApplicable | Remaining(amount: real)

  datatype CategoryEntry = CategoryEntry(category: string, spent: real, limit: Limit,
                                         remaining: Remaining, percentUsed: real)

  /** An overspend alert: over the limit by `over`, or past 80% of it. */
  datatype Alert = Overspent(category: string, over: real, percentUsed: real)
                 | Approaching(category: string, percentUsed: real)

  datatype Analysis = Analysis(totalSpent: real, startDay: Option<int>, endDay: Option<int>, avgDaily: real,
                               breakdown: seq<CategoryEntry>, alerts: seq<Alert>)

  // ---------------------------------------------------------------------
  // Breakdown and alerts

  /** The first ledger row of `category` (`budget_row.iloc[0]`). */
  function FirstRow(ledger: seq<BudgetRow>, category: string): (r: Option<BudgetRow>)
    ensures r.Some? <==> Listed(ledger, category)
    ensures r.Some? ==> exists i :: 0 <= i < |ledger| && ledger[i] == r.value
                                    && forall j :: 0 <= j < i ==> ledger[j].category != category
    ensures r.Some? ==> r.value.category == category
  {
    if |ledger| == 0 then None
    else if ledger[0].category == category then Some(ledger[0])
    else
      var r := FirstRow(ledger[1..], category);
      assert forall i :: 1 <= i < |ledger| ==> ledger[i] == ledger[1..][i - 1];
      assert Listed(ledger, category) ==> Listed(ledger[1..], category) by {
        if Listed(ledger, category) {
          var i :| 0 <= i < |ledger| && ledger[i].category == category;
          assert ledger[1..][i - 1].category == category;
        }
      }
      r
  }

  /** A category's breakdown entry. With a ledger row it reports the row's
      limit and remaining amount and the percentage of a positive limit
      used (zero for a limit that is not positive); without one it reports
      no limit, no remaining amount and zero percent. */
  function Entry(category: string, spent: real, ledger: seq<BudgetRow>): (e: CategoryEntry)
    ensures e.category == category && e.spent == spent
    ensures !Listed(ledger, category) ==> e.limit == NoLimit && e.remaining == NotApplicable && e.percentUsed == 0.0
    ensures Listed(ledger, category) ==>
              e.limit == Limit(FirstRow(ledger, category).value.limit)
              && e.remaining == Remaining(FirstRow(ledger, category).value.remaining)
    ensures e.limit.Limit? && e.limit.amount > 0.0 ==> e.percentUsed * e.limit.amount == spent * 100.0
    ensures !(e.limit.Limit? && e.limit.amount > 0.0) ==> e.percentUsed == 0.0
  {
    match FirstRow(ledger, category)
    case None => CategoryEntry(category, spent, NoLimit, NotApplicable, 0.0)
    case Some(row) =>
      var pct := if row.limit > 0.0 then spent / row.limit * 100.0 else 0.0;
      assert row.limit > 0.0 ==> pct * row.limit == spent * 100.0;
      CategoryEntry(category, spent, Limit(row.limit), Remaining(row.remaining), pct)
  }

  function EntryCategories(entries: seq<CategoryEntry>): (r: seq<string>)
    ensures |r| == |entries|
    ensures forall i :: 0 <= i < |entries| ==> r[i] == entries[i].category
  {
    seq(|entries|, i requires 0 <= i < |entries| => entries[i].category)
  }

  /** The per-category breakdown: one entry per category that occurs in the
      transactions, in ascending order of category name, with that
      category's all-time total. */
  function Breakdown(expenses: seq<Expense>, ledger: seq<BudgetRow>): (r: seq<CategoryEntry>)
    ensures Grouping.Increasing(EntryCategories(r), StrLess)
    ensures forall c :: c in EntryCategories(r) <==> HasCategory(expenses, c)
    ensures forall i :: 0 <= i < |r| ==>
              r[i] == Entry(r[i].category, Grouping.SumAt(Pairs(expenses, CategoryOf), r[i].category), ledger)
    ensures Grouping.Total(seq(|r|, i requires 0 <= i < |r| => (r[i].category, r[i].spent))) == Spent(expenses)
  {
    var totals := CategoryTotals(expenses);
    var r := seq(|totals|, i requires 0 <= i < |totals| => Entry(totals[i].0, totals[i].1, ledger));
    assert EntryCategories(r) == Grouping.Keys(totals);
    assert seq(|r|, i requires 0 <= i < |r| => (r[i].category, r[i].spent)) == totals;
    r
  }

  /** The alert a breakdown entry raises, if any. Only a positive numeric
      limit can raise one: overspent above the limit, approaching above
      80% of it. */
  function AlertFor(e: CategoryEntry): (a: Option<Alert>)
    ensures a.Some? ==> a.value.category == e.category
    ensures !(e.limit.Limit? && e.limit.amount > 0.0) ==> a == None
    ensures e.limit.Limit? && e.limit.amount > 0.0 && e.spent > e.limit.amount
            ==> a == Some(Overspent(e.category, e.spent - e.limit.amount, e.percentUsed))
    ensures e.limit.Limit? && e.limit.amount > 0.0 && e.spent <= e.limit.amount
            ==> (a.Some? <==> e.percentUsed > 80.0)
                && (a.Some? ==> a.value == Approaching(e.category, e.percentUsed))
  {
    match e.limit
    case NoLimit => None
    case Limit(limit) =>
      if limit > 0.0 then
        if e.spent > limit then Some(Overspent(e.category, e.spent - limit, e.percentUsed))
        else if e.percentUsed > 80.0 then Some(Approaching(e.category, e.percentUsed))
        else None
      else None
  }

  /** An entry is overspent exactly when its spending exceeds a positive
      limit, and approaching exactly when the spending is above 80% of a
      positive limit without exceeding it. Categories without a ledger row
      never alert. */
  lemma AlertThresholds(category: string, spent: real, ledger: seq<BudgetRow>)
    ensures var e := Entry(category, spent, ledger);
            && (AlertFor(e).Some? && AlertFor(e).value.Overspent?
                <==> e.limit.Limit? && e.limit.amount > 0.0 && spent > e.limit.amount)
            && (AlertFor(e).Some? && AlertFor(e).value.Approaching?
                <==> e.limit.Limit? && e.limit.amount > 0.0 && spent <= e.limit.amount
                     && spent * 5.0 > e.limit.amount * 4.0)
            && (e.limit == NoLimit ==> AlertFor(e).None?)
  {
    var e := Entry(category, spent, ledger);
    if e.limit.Limit? && e.limit.amount > 0.0 {
      var l := e.limit.amount;
      var pct := e.percentUsed;
      assert pct * l == spent * 100.0;
      PercentAboveEighty(pct, l, spent);
    }
  }

  /** With `pct * l == spent * 100` and a positive `l`, `pct` exceeds 80
      exactly when `spent` exceeds four fifths of `l`. */
  lemma PercentAboveEighty(pct: real, l: real, spent: real)
    requires l > 0.0 && pct * l == spent * 100.0
    ensures pct > 80.0 <==> spent * 5.0 > l * 4.0
  {
    if pct > 80.0 {
      MulPositive(pct - 80.0, l);
    } else {
      MulNonNegative(80.0 - pct, l);
    }
  }

  lemma MulPositive(a: real, b: real)
    requires a > 0.0 && b > 0.0
    ensures a * b > 0.0
  {
  }

  lemma MulNonNegative(a: real, b: real)
    requires a >= 0.0 && b > 0.0
    ensures a * b >= 0.0
  {
  }

  function AlertCategory(a: Alert): string {
    a.category
  }

  /** The alerts of a breakdown, in breakdown order. */
  function Alerts(breakdown: seq<CategoryEntry>): (r: seq<Alert>)
    ensures |r| <= |breakdown|
    ensures forall a :: a in r <==> exists i :: 0 <= i < |breakdown| && AlertFor(breakdown[i]) == Some(a)
  {
    if |breakdown| == 0 then []
    else
      var rest := Alerts(breakdown[1..]);
      assert forall i :: 1 <= i < |breakdown| ==> breakdown[i] == breakdown[1..][i - 1];
      match AlertFor(breakdown[0])
      case None => rest
      case Some(a) => [a] + rest
  }

  /** Alerts come out in breakdown order: when the breakdown's categories
      increase, so do the alerts' categories. */
  lemma {:induction false} AlertsInOrder(breakdown: seq<CategoryEntry>)
    requires Grouping.Increasing(EntryCategories(breakdown), StrLess)
    ensures forall i, j :: 0 <= i < j < |Alerts(breakdown)| ==> StrLess(Alerts(breakdown)[i].category, Alerts(breakdown)[j].category)
  {
    if |breakdown| > 0 {
      var tail := breakdown[1..];
      IncreasingTail(breakdown);
      AlertsInOrder(tail);
      var rest := Alerts(tail);
      match AlertFor(breakdown[0])
      case None =>
      case Some(a) =>
        forall j | 0 <= j < |rest| ensures StrLess(a.category, rest[j].category) {
          assert rest[j] in rest;
          var i :| 0 <= i < |tail| && AlertFor(tail[i]) == Some(rest[j]);
          assert EntryCategories(breakdown)[i + 1] == rest[j].category;
        }
        ConsInOrder(a, rest);
    }
  }

  /** Dropping the first entry keeps the categories increasing. */
  lemma IncreasingTail(breakdown: seq<CategoryEntry>)
    requires |breakdown| > 0 && Grouping.Increasing(EntryCategories(breakdown), StrLess)
    ensures Grouping.Increasing(EntryCategories(breakdown[1..]), StrLess)
  {
    var tail := breakdown[1..];
    forall i, j | 0 <= i < j < |tail|
      ensures StrLess(EntryCategories(tail)[i], EntryCategories(tail)[j])
    {
      assert EntryCategories(breakdown)[i + 1] == EntryCategories(tail)[i];
      assert EntryCategories(breakdown)[j + 1] == EntryCategories(tail)[j];
    }
  }

  /** An alert whose category precedes all of an ordered list's stays
      ordered in front of it. */
  lemma ConsInOrder(a: Alert, rest: seq<Alert>)
    requires forall i, j :: 0 <= i < j < |rest| ==> StrLess(rest[i].category, rest[j].category)
    requires forall j :: 0 <= j < |rest| ==> StrLess(a.category, rest[j].category)
    ensures forall i, j :: 0 <= i < j < |[a] + rest| ==> StrLess(([a] + rest)[i].category, ([a] + rest)[j].category)
  {
    var r := [a] + rest;
    forall i, j | 0 <= i < j < |r| ensures StrLess(r[i].category, r[j].category) {
      assert r[j] == rest[j - 1];
      if i > 0 {
        assert r[i] == rest[i - 1];
      }
    }
  }

  /** Alert order follows breakdown order, so no category alerts twice. */
  lemma AtMostOneAlertPerCategory(breakdown: seq<CategoryEntry>)
    requires Grouping.Increasing(EntryCategories(breakdown), StrLess)
    ensures forall i, j :: 0 <= i < j < |Alerts(breakdown)| ==> Alerts(breakdown)[i].category != Alerts(breakdown)[j].category
  {
    AlertsInOrder(breakdown);
    var r := Alerts(breakdown);
    forall i, j | 0 <= i < j < |r| ensures r[i].category != r[j].category {
      StrLessIrreflexive(r[i].category);
    }
  }

  // ---------------------------------------------------------------------
  // analyze_budget

  /** The total spread evenly over the inclusive day span. */
  function AverageDaily(rows: seq<Expense>): (r: real)
    requires |rows| > 0
    ensures r * (DaySpan(rows) as real) == Spent(rows)
  {
    Spent(rows) / (DaySpan(rows) as real)
  }

  /** The number of calendar days from the first to the last transaction,
      both included; never below one, so the average's divisor is safe. */
  function DaySpan(rows: seq<Expense>): (n: nat)
    requires |rows| > 0
    ensures n >= 1 && MinDate(rows) + n - 1 == MaxDate(rows)
  {
    MaxDate(rows) - MinDate(rows) + 1
  }

  /** What `analyze_budget` produces: the analysis, and the ledger it leaves
      saved (reconciled with the current month's spending). */
  datatype Analyzed = Analyzed(analysis: Analysis, saved: seq<BudgetRow>)

  /** `analyze_budget`: a zero result for no transactions, with the ledger
      left as stored; otherwise the ledger is first reconciled against the
      current month and saved, then the total, the date range, the average
      per day of the inclusive range (a divisor never below one), the
      breakdown against the saved ledger and its alerts are computed. */
  function AnalyzeBudget(expenses: seq<Expense>, stored: seq<BudgetRow>, now: Now): (r: Analyzed)
    ensures |expenses| == 0 ==> r == Analyzed(Analysis(0.0, None, None, 0.0, [], []), stored)
    ensures |expenses| > 0 ==> r.saved == Reconcile(stored, expenses, MonthStart(now))
    ensures |expenses| > 0 ==> r.analysis.totalSpent == Spent(expenses)
    ensures |expenses| > 0 ==> r.analysis.startDay == Some(MinDate(expenses)) && r.analysis.endDay == Some(MaxDate(expenses))
    ensures |expenses| > 0 ==> r.analysis.avgDaily == AverageDaily(expenses)
    ensures |expenses| > 0 ==> r.analysis.breakdown == Breakdown(expenses, r.saved)
    ensures r.analysis.alerts == Alerts(r.analysis.breakdown)
  {
    if |expenses| == 0 then Analyzed(Analysis(0.0, None, None, 0.0, [], []), stored)
    else
      var ledger := Reconcile(stored, expenses, MonthStart(now));
      var total := Spent(expenses);
      var first := MinDate(expenses);
      var last := MaxDate(expenses);
      var avg := AverageDaily(expenses);
      var breakdown := Breakdown(expenses, ledger);
      Analyzed(Analysis(total, Some(first), Some(last), avg, breakdown, Alerts(breakdown)), ledger)
  }

  // ---------------------------------------------------------------------
  // get_spending_trends

  datatype Direction = Increasing | Decreasing | Stable

  datatype Trends = Trends(daily: seq<(int, real)>, weekly: seq<(int, real)>,
                           direction: Direction, peak: Option<(int, real)>)

  const NoTrends: Trends := Trends([], [], Stable, None)

  function Mean(xs: seq<(int, real)>): real
    requires |xs| > 0
  {
    Grouping.Total(xs) / (|xs| as real)
  }

  /** The trend of a daily series: split at half its length (rounded down),
      increasing when the second half's mean exceeds the first's by more
      than 10%, decreasing when it falls short by more than 10%, stable
      otherwise and for series of at most one day. */
  function TrendDirection(daily: seq<(int, real)>): (d: Direction)
    ensures |daily| <= 1 ==> d == Stable
    ensures |daily| > 1 ==> 0 < |daily| / 2 < |daily|
    ensures |daily| > 1 ==>
              var first := Mean(daily[..|daily| / 2]);
              var second := Mean(daily[|daily| / 2..]);
              (d == Increasing <==> second > first * 1.1)
              && (d == Decreasing <==> !(second > first * 1.1) && second < first * 0.9)
  {
    if |daily| <= 1 then Stable
    else
      var half := |daily| / 2;
      var first := Mean(daily[..half]);
      var second := Mean(daily[half..]);
      if second > first * 1.1 then Increasing
      else if second < first * 0.9 then Decreasing
      else Stable
  }

  /** The first day of a series holding its largest total (`idxmax`). */
  function PeakIndex(xs: seq<(int, real)>): (k: nat)
    requires |xs| > 0
    ensures k < |xs|
    ensures forall j :: 0 <= j < |xs| ==> xs[j].1 <= xs[k].1
    ensures forall j :: 0 <= j < k ==> xs[j].1 < xs[k].1
  {
    if |xs| == 1 then 0
    else
      var m := PeakIndex(xs[..|xs| - 1]);
      assert forall j :: 0 <= j < |xs| - 1 ==> xs[j] == xs[..|xs| - 1][j];
      if xs[|xs| - 1].1 > xs[m].1 then |xs| - 1 else m
  }

  function WeekPairs(rows: seq<Expense>, weekOf: int -> int): (r: seq<(int, real)>)
    ensures |r| == |rows|
    ensures forall i :: 0 <= i < |rows| ==> r[i] == (weekOf(rows[i].date), rows[i].amount)
  {
    seq(|rows|, i requires 0 <= i < |rows| => (weekOf(rows[i].date), rows[i].amount))
  }

  /** `groupby('date')['amount'].sum()`: one total per day with spending,
      days ascending, adding up to the overall total. */
  function DailyTotals(recent: seq<Expense>): (r: seq<(int, real)>)
    ensures |recent| > 0 ==> |r| > 0
    ensures Grouping.Increasing(Grouping.Keys(r), Grouping.IntLess)
    ensures forall d :: d in Grouping.Keys(r) <==> exists i :: 0 <= i < |recent| && recent[i].date == d
    ensures forall i :: 0 <= i < |r| ==> r[i].1 == Grouping.SumAt(Pairs(recent, DateOf), r[i].0)
    ensures Grouping.Total(r) == Spent(recent)
  {
    Grouping.IntLessIsStrictTotalOrder();
    var datePairs := Pairs(recent, DateOf);
    assert forall d :: d in Grouping.Keys(datePairs) <==> exists i :: 0 <= i < |recent| && recent[i].date == d by {
      forall d ensures d in Grouping.Keys(datePairs) <==> exists i :: 0 <= i < |recent| && recent[i].date == d {
        if exists i :: 0 <= i < |recent| && recent[i].date == d {
          var i :| 0 <= i < |recent| && recent[i].date == d;
          assert Grouping.Keys(datePairs)[i] == d;
        }
      }
    }
    var r := Grouping.GroupSum(datePairs, Grouping.IntLess);
    assert |recent| > 0 ==> Grouping.Keys(datePairs)[0] in Grouping.Keys(r);
    Grouping.GroupSumConserves(datePairs, Grouping.IntLess);
    PairsTotal(recent, DateOf);
    r
  }

  /** The totals per ISO week number, `weekOf` standing in for
      `isocalendar().week`: weeks ascending, adding up to the overall total. */
  function WeeklyTotals(recent: seq<Expense>, weekOf: int -> int): (r: seq<(int, real)>)
    ensures Grouping.Increasing(Grouping.Keys(r), Grouping.IntLess)
    ensures forall w :: w in Grouping.Keys(r) <==> exists i :: 0 <= i < |recent| && weekOf(recent[i].date) == w
    ensures Grouping.Total(r) == Spent(recent)
  {
    Grouping.IntLessIsStrictTotalOrder();
    var weekPairs := WeekPairs(recent, weekOf);
    assert forall w :: w in Grouping.Keys(weekPairs) <==> exists i :: 0 <= i < |recent| && weekOf(recent[i].date) == w by {
      forall w ensures w in Grouping.Keys(weekPairs) <==> exists i :: 0 <= i < |recent| && weekOf(recent[i].date) == w {
        if exists i :: 0 <= i < |recent| && weekOf(recent[i].date) == w {
          var i :| 0 <= i < |recent| && weekOf(recent[i].date) == w;
          assert Grouping.Keys(weekPairs)[i] == w;
        }
      }
    }
    Grouping.GroupSumConserves(weekPairs, Grouping.IntLess);
    WeekPairsTotal(recent, weekOf);
    Grouping.GroupSum(weekPairs, Grouping.IntLess)
  }

  /** `get_spending_trends`: the rows dated on or after `days` before now;
      the empty result when there are none. Otherwise the daily and weekly
      totals, the direction of the daily series and its peak day. */
  function SpendingTrends(expenses: seq<Expense>, now: Now, days: int, weekOf: int -> int): (t: Trends)
    ensures |Since(expenses, DaysBefore(now, days))| == 0 ==> t == NoTrends
    ensures |Since(expenses, DaysBefore(now, days))| > 0 ==>
              && t.daily == DailyTotals(Since(expenses, DaysBefore(now, days)))
              && t.weekly == WeeklyTotals(Since(expenses, DaysBefore(now, days)), weekOf)
              && |t.daily| > 0
              && t.direction == TrendDirection(t.daily)
              && t.peak == Some(t.daily[PeakIndex(t.daily)])
  {
    if |expenses| == 0 then NoTrends
    else
      var recent := Since(expenses, DaysBefore(now, days));
      if |recent| == 0 then NoTrends
      else
        var daily := DailyTotals(recent);
        Trends(daily, WeeklyTotals(recent, weekOf), TrendDirection(daily), Some(daily[PeakIndex(daily)]))
  }

  lemma {:induction false} WeekPairsTotal(rows: seq<Expense>, weekOf: int -> int)
    ensures Grouping.Total(WeekPairs(rows, weekOf)) == Spent(rows)
  {
    if |rows| > 0 {
      WeekPairsTotal(rows[..|rows| - 1], weekOf);
      assert WeekPairs(rows, weekOf)[..|rows| - 1] == WeekPairs(rows[..|rows| - 1], weekOf);
    }
  }

  // ---------------------------------------------------------------------
  // Properties and scenarios

  /** Over a series of equal daily totals the halves have equal means, so
      a non-negative series is stable; a negative one (refunds) reads as
      increasing, because 1.1 times a negative mean is smaller. */
  lemma ConstantSeriesDirection(daily: seq<(int, real)>, v: real)
    requires |daily| > 1
    requires forall i :: 0 <= i < |daily| ==> daily[i].1 == v
    ensures v >= 0.0 ==> TrendDirection(daily) == Stable
    ensures v < 0.0 ==> TrendDirection(daily) == Increasing
  {
    var half := |daily| / 2;
    ConstantMean(daily[..half], v);
    ConstantMean(daily[half..], v);
  }

  lemma {:induction false} ConstantTotal(xs: seq<(int, real)>, v: real)
    requires forall i :: 0 <= i < |xs| ==> xs[i].1 == v
    ensures Grouping.Total(xs) == (|xs| as real) * v
  {
    if |xs| > 0 {
      ConstantTotal(xs[..|xs| - 1], v);
    }
  }

  lemma ConstantMean(xs: seq<(int, real)>, v: real)
    requires |xs| > 0
    requires forall i :: 0 <= i < |xs| ==> xs[i].1 == v
    ensures Mean(xs) == v
  {
    ConstantTotal(xs, v);
  }

  /** Daily totals 10, 10, 10, 20, 20, 20: the second half's mean doubles
      the first's, so the trend is increasing, and the peak is the first
      day with 20. */
  lemma IncreasingScenario()
    ensures var daily := [(1, 10.0), (2, 10.0), (3, 10.0), (4, 20.0), (5, 20.0), (6, 20.0)];
            TrendDirection(daily) == Increasing && PeakIndex(daily) == 3
  {
    var daily := [(1, 10.0), (2, 10.0), (3, 10.0), (4, 20.0), (5, 20.0), (6, 20.0)];
    ConstantMean(daily[..3], 10.0);
    ConstantMean(daily[3..], 20.0);
    assert daily[..5][..4][..3] == daily[..3];
    assert daily[..4] == daily[..3] + [(4, 20.0)];
  }

  /** Limit 100: spending 120 is overspent by 20 at 120%, spending 85 is
      approaching at 85%, spending 70 raises nothing. */
  lemma AlertScenarios()
    ensures AlertFor(Entry("Dining", 120.0, [BudgetRow("Dining", 100.0, 0.0, 100.0)])) == Some(Overspent("Dining", 20.0, 120.0))
    ensures AlertFor(Entry("Dining", 85.0, [BudgetRow("Dining", 100.0, 0.0, 100.0)])) == Some(Approaching("Dining", 85.0))
    ensures AlertFor(Entry("Dining", 70.0, [BudgetRow("Dining", 100.0, 0.0, 100.0)])) == None
  {
  }

  /** A transaction dated the first day of the month is left out of the
      month's reconciliation unless "now" is exactly midnight, because the
      month cutoff keeps now's time of day. */
  lemma FirstOfMonthIgnoredAfterMidnight(ledger: seq<BudgetRow>, e: Expense, now: Now)
    requires ValidNow(now) && now.micros > 0
    requires e.date == MonthStart(now).day
    ensures Reconcile(ledger, [e], MonthStart(now)) == ledger
  {
    OnOrAfterBoundary(e.date, MonthStart(now));
    assert Since([e], MonthStart(now)) == [];
  }

  /** Likewise a transaction dated exactly `days` days ago is outside the
      trend window unless "now" is exactly midnight. */
  lemma WindowStartIgnoredAfterMidnight(e: Expense, now: Now, days: int, weekOf: int -> int)
    requires ValidNow(now) && now.micros > 0
    requires e.date == now.day - days
    ensures SpendingTrends([e], now, days, weekOf) == NoTrends
  {
    OnOrAfterBoundary(e.date, DaysBefore(now, days));
    assert Since([e], DaysBefore(now, days)) == [];
  }
}

/** The budget ledger: one row per category with its monthly limit, the
    amount spent this month and what remains. The ledger is a value; the
    operations return the ledger the program would write back to its file. */
module BudgetLedger {
  import opened Wrappers
  import opened Clock
  import opened ExpenseProcessor
  import Grouping

  datatype BudgetRow = BudgetRow(category: string, limit: real, spent: real, remaining: real)

  /** How a ledger change went: the program reports the two refusals as
      warnings and leaves the ledger as it was. */
  datatype Status = Applied | DuplicateCategory | UnknownCategory

  datatype Change = Change(ledger: seq<BudgetRow>, status: Status)

  /** Some row belongs to `category`. */
  predicate Listed(ledger: seq<BudgetRow>, category: string) {
    exists i | 0 <= i < |ledger| :: ledger[i].category == category
  }

  ghost predicate UniqueCategories(ledger: seq<BudgetRow>) {
    forall i, j :: 0 <= i < j < |ledger| ==> ledger[i].category != ledger[j].category
  }

  /** Every row's remaining amount is its limit minus its spending. */
  ghost predicate Consistent(ledger: seq<BudgetRow>) {
    forall i :: 0 <= i < |ledger| ==> ledger[i].remaining == ledger[i].limit - ledger[i].spent
  }

  /** The two ledgers list the same categories in the same order. */
  ghost predicate SameCategories(a: seq<BudgetRow>, b: seq<BudgetRow>) {
    |a| == |b| && forall i :: 0 <= i < |a| ==> a[i].category == b[i].category
  }

  // ---------------------------------------------------------------------
  // add_budget_category / update_budget_limit

  /** `add_budget_category`: a category already listed is refused and the
      ledger kept; otherwise one row with nothing spent and the whole limit
      remaining is appended. */
  function AddCategory(ledger: seq<BudgetRow>, category: string, limit: real): (r: Change)
    ensures Listed(ledger, category) ==> r == Change(ledger, DuplicateCategory)
    ensures !Listed(ledger, category) ==>
              r.status == Applied && r.ledger == ledger + [BudgetRow(category, limit, 0.0, limit)]
    ensures Listed(r.ledger, category)
    ensures UniqueCategories(ledger) ==> UniqueCategories(r.ledger)
    ensures Consistent(ledger) ==> Consistent(r.ledger)
  {
    if Listed(ledger, category) then Change(ledger, DuplicateCategory)
    else
      var grown := ledger + [BudgetRow(category, limit, 0.0, limit)];
      assert grown[|ledger|].category == category;
      Change(grown, Applied)
  }

  /** `update_budget_limit`: an unlisted category is refused and the ledger
      kept; otherwise that category's rows get the new limit and a
      remaining amount recomputed from what they have spent. */
  function UpdateLimit(ledger: seq<BudgetRow>, category: string, newLimit: real): (r: Change)
    ensures !Listed(ledger, category) ==> r == Change(ledger, UnknownCategory)
    ensures Listed(ledger, category) ==> r.status == Applied
    ensures SameCategories(ledger, r.ledger)
    ensures forall i :: 0 <= i < |ledger| && ledger[i].category != category ==> r.ledger[i] == ledger[i]
    ensures Listed(ledger, category) ==> forall i :: 0 <= i < |ledger| && ledger[i].category == category ==>
              r.ledger[i].limit == newLimit && r.ledger[i].spent == ledger[i].spent
              && r.ledger[i].remaining == newLimit - ledger[i].spent
    ensures Consistent(ledger) ==> Consistent(r.ledger)
  {
    if !Listed(ledger, category) then Change(ledger, UnknownCategory)
    else
      Change(seq(|ledger|, i requires 0 <= i < |ledger| =>
               if ledger[i].category == category
               then ledger[i].(limit := newLimit, remaining := newLimit - ledger[i].spent)
               else ledger[i]),
             Applied)
  }

  /** Changing a limit keeps every category's row unique and the limits of
      the other categories as they were. */
  lemma UpdateLimitKeepsUnique(ledger: seq<BudgetRow>, category: string, newLimit: real)
    requires UniqueCategories(ledger)
    ensures UniqueCategories(UpdateLimit(ledger, category, newLimit).ledger)
  {
  }

  // ---------------------------------------------------------------------
  // update_budget_spending

  /** The rows dated on or after `cutoff` (`expenses['date'] >= cutoff`),
      in their original order. */
  function Since(rows: seq<Expense>, cutoff: Instant): (r: seq<Expense>)
    ensures |r| <= |rows|
    ensures forall e :: e in r <==> e in rows && OnOrAfter(e.date, cutoff)
    ensures forall e :: multiset(r)[e] == if OnOrAfter(e.date, cutoff) then multiset(rows)[e] else 0
    ensures IsSubsequence(r, rows)
  {
    if |rows| == 0 then []
    else
      var rest := Since(rows[..|rows| - 1], cutoff);
      SinceStep(rows, rest, cutoff);
      if OnOrAfter(rows[|rows| - 1].date, cutoff) then rest + [rows[|rows| - 1]] else rest
  }

  /** One step of `Since`: the filter of all rows but the last, extended by
      the verdict on the last row, is the filter of all rows. */
  lemma SinceStep(rows: seq<Expense>, rest: seq<Expense>, cutoff: Instant)
    requires |rows| > 0
    requires |rest| <= |rows| - 1
    requires forall e :: multiset(rest)[e] == if OnOrAfter(e.date, cutoff) then multiset(rows[..|rows| - 1])[e] else 0
    requires IsSubsequence(rest, rows[..|rows| - 1])
    ensures var r := if OnOrAfter(rows[|rows| - 1].date, cutoff) then rest + [rows[|rows| - 1]] else rest;
            && |r| <= |rows|
            && (forall e :: e in r <==> e in rows && OnOrAfter(e.date, cutoff))
            && (forall e :: multiset(r)[e] == if OnOrAfter(e.date, cutoff) then multiset(rows)[e] else 0)
            && IsSubsequence(r, rows)
  {
    var init := rows[..|rows| - 1];
    var last := rows[|rows| - 1];
    var r := if OnOrAfter(last.date, cutoff) then rest + [last] else rest;
    assert rows == init + [last];
    assert multiset(rows) == multiset(init) + multiset{last};
    if OnOrAfter(last.date, cutoff) {
      assert r[..|r| - 1] == rest && r[|r| - 1] == last;
      assert multiset(r) == multiset(rest) + multiset{last};
    }
    FilterMembership(r, rows, cutoff);
  }

  /** Counting every row as the filter does fixes which rows are present. */
  lemma FilterMembership(r: seq<Expense>, rows: seq<Expense>, cutoff: Instant)
    requires forall e :: multiset(r)[e] == if OnOrAfter(e.date, cutoff) then multiset(rows)[e] else 0
    ensures forall e :: e in r <==> e in rows && OnOrAfter(e.date, cutoff)
  {
    forall e ensures e in r <==> e in rows && OnOrAfter(e.date, cutoff) {
      assert e in r <==> multiset(r)[e] > 0;
      assert e in rows <==> multiset(rows)[e] > 0;
    }
  }

  /** Some row is in `category`. */
  predicate HasCategory(rows: seq<Expense>, category: string) {
    exists i | 0 <= i < |rows| :: rows[i].category == category
  }

  /** The total of `category`'s rows dated on or after the cutoff. */
  function MonthSpend(expenses: seq<Expense>, cutoff: Instant, category: string): (r: real)
    ensures !HasCategory(Since(expenses, cutoff), category) ==> r == 0.0
  {
    var rows := Since(expenses, cutoff);
    assert !HasCategory(rows, category) ==> Grouping.SumAt(Pairs(rows, CategoryOf), category) == 0.0 by {
      if !HasCategory(rows, category) { NoSpend(rows, category); }
    }
    Grouping.SumAt(Pairs(Since(expenses, cutoff), CategoryOf), category)
  }

  /** Without a row of the category, nothing is spent on it. */
  lemma {:induction false} NoSpend(rows: seq<Expense>, category: string)
    requires !HasCategory(rows, category)
    ensures Grouping.SumAt(Pairs(rows, CategoryOf), category) == 0.0
  {
    if |rows| > 0 {
      var init := rows[..|rows| - 1];
      assert Pairs(rows, CategoryOf)[..|rows| - 1] == Pairs(init, CategoryOf);
      NoSpend(init, category);
    }
  }

  /** One more expense adds its amount to its own category's month spend
      when it falls on or after the cutoff, and changes nothing else. */
  lemma MonthSpendSnoc(expenses: seq<Expense>, e: Expense, cutoff: Instant, category: string)
    ensures MonthSpend(expenses + [e], cutoff, category)
            == MonthSpend(expenses, cutoff, category)
               + (if OnOrAfter(e.date, cutoff) && e.category == category then e.amount else 0.0)
  {
    var all := expenses + [e];
    assert all[..|all| - 1] == expenses;
    var s := Since(expenses, cutoff);
    if OnOrAfter(e.date, cutoff) {
      assert Since(all, cutoff) == s + [e];
      assert Pairs(s + [e], CategoryOf)[..|s|] == Pairs(s, CategoryOf);
    } else {
      assert Since(all, cutoff) == s;
    }
  }

  /** One row after reconciliation: overwritten when its category has
      spending since the cutoff, left stale otherwise. */
  function ReconcileRow(row: BudgetRow, expenses: seq<Expense>, cutoff: Instant): BudgetRow {
    if HasCategory(Since(expenses, cutoff), row.category) then
      var spent := MonthSpend(expenses, cutoff, row.category);
      row.(spent := spent, remaining := row.limit - spent)
    else row
  }

  /** `update_budget_spending`: for every listed category with spending
      since the month cutoff, spent becomes that spending and remaining the
      limit minus it; every other row keeps its old, possibly stale,
      values. No row is added or removed. */
  function Reconcile(ledger: seq<BudgetRow>, expenses: seq<Expense>, cutoff: Instant): (r: seq<BudgetRow>)
    ensures SameCategories(ledger, r)
    ensures forall i :: 0 <= i < |ledger| ==> r[i].limit == ledger[i].limit
    ensures forall i :: 0 <= i < |ledger| && !HasCategory(Since(expenses, cutoff), ledger[i].category) ==> r[i] == ledger[i]
    ensures forall i :: 0 <= i < |ledger| && HasCategory(Since(expenses, cutoff), ledger[i].category) ==>
              r[i].spent == MonthSpend(expenses, cutoff, ledger[i].category) && r[i].remaining == r[i].limit - r[i].spent
  {
    if |expenses| == 0 || |ledger| == 0 then
      ledger
    else
      seq(|ledger|, i requires 0 <= i < |ledger| => ReconcileRow(ledger[i], expenses, cutoff))
  }

  /** Reconciling twice with the same transactions changes nothing more. */
  lemma ReconcileIdempotent(ledger: seq<BudgetRow>, expenses: seq<Expense>, cutoff: Instant)
    ensures Reconcile(Reconcile(ledger, expenses, cutoff), expenses, cutoff) == Reconcile(ledger, expenses, cutoff)
  {
    var once := Reconcile(ledger, expenses, cutoff);
    var twice := Reconcile(once, expenses, cutoff);
    assert |twice| == |once|;
    forall i | 0 <= i < |once| ensures twice[i] == once[i] {
    }
  }

  /** Reconciliation keeps the ledger consistent and its categories unique. */
  lemma ReconcileKeepsInvariants(ledger: seq<BudgetRow>, expenses: seq<Expense>, cutoff: Instant)
    ensures Consistent(ledger) ==> Consistent(Reconcile(ledger, expenses, cutoff))
    ensures UniqueCategories(ledger) ==> UniqueCategories(Reconcile(ledger, expenses, cutoff))
  {
  }

  /** A category with no spending this month keeps last month's figures. */
  lemma ReconcileLeavesStaleRow()
    ensures var row := BudgetRow("Dining", 300.0, 120.0, 180.0);
            var e := Expense(100, Some("Pizza"), 15.0, "Dining", "Card");
            Reconcile([row], [e], Instant(101, 0)) == [row]
  {
    var e := Expense(100, Some("Pizza"), 15.0, "Dining", "Card");
    assert !OnOrAfter(100, Instant(101, 0));
    assert Since([e], Instant(101, 0)) == [];
  }

  // ---------------------------------------------------------------------
  // get_budget_summary

  function LimitOf(row: BudgetRow): real { row.limit }
  function SpentOf(row: BudgetRow): real { row.spent }
  function RemainingOf(row: BudgetRow): real { row.remaining }

  /** The sum of one numeric column. */
  function Column(ledger: seq<BudgetRow>, field: BudgetRow -> real): real {
    if |ledger| == 0 then 0.0 else Column(ledger[..|ledger| - 1], field) + field(ledger[|ledger| - 1])
  }

  /** In a consistent ledger the remaining column sums to the limit column
      minus the spent column. */
  lemma {:induction false} ConsistentColumns(ledger: seq<BudgetRow>)
    requires Consistent(ledger)
    ensures Column(ledger, RemainingOf) == Column(ledger, LimitOf) - Column(ledger, SpentOf)
  {
    if |ledger| > 0 {
      ConsistentColumns(ledger[..|ledger| - 1]);
    }
  }

  datatype BudgetSummary = BudgetSummary(totalBudget: real, totalSpent: real, totalRemaining: real,
                                         utilization: real, categories: nat)

  /** `get_budget_summary`: column totals, spending as a percentage of the
      total budget (zero when that total is not positive) and the number
      of rows. */
  function Summary(ledger: seq<BudgetRow>): (s: BudgetSummary)
    ensures |ledger| == 0 ==> s == BudgetSummary(0.0, 0.0, 0.0, 0.0, 0)
    ensures s.categories == |ledger|
    ensures s.totalBudget == Column(ledger, LimitOf) && s.totalSpent == Column(ledger, SpentOf)
            && s.totalRemaining == Column(ledger, RemainingOf)
    ensures s.totalBudget > 0.0 ==> s.utilization * s.totalBudget == s.totalSpent * 100.0
    ensures s.totalBudget <= 0.0 ==> s.utilization == 0.0
    ensures Consistent(ledger) ==> s.totalRemaining == s.totalBudget - s.totalSpent
  {
    if |ledger| == 0 then BudgetSummary(0.0, 0.0, 0.0, 0.0, 0)
    else
      var budget := Column(ledger, LimitOf);
      var spent := Column(ledger, SpentOf);
      var utilization := if budget > 0.0 then spent / budget * 100.0 else 0.0;
      assert budget > 0.0 ==> utilization * budget == spent * 100.0;
      assert Consistent(ledger) ==> Column(ledger, RemainingOf) == budget - spent by {
        if Consistent(ledger) {
          ConsistentColumns(ledger);
        }
      }
      BudgetSummary(budget, spent, Column(ledger, RemainingOf), utilization, |ledger|)
  }

  /** With a positive total budget, utilization exceeds 100% exactly when
      the total spent exceeds the total budget. */
  lemma UtilizationOverHundred(ledger: seq<BudgetRow>)
    requires Summary(ledger).totalBudget > 0.0
    ensures Summary(ledger).utilization > 100.0 <==> Summary(ledger).totalSpent > Summary(ledger).totalBudget
  {
    var s := Summary(ledger);
    PercentAboveHundred(s.utilization, s.totalBudget, s.totalSpent);
  }

  /** A percentage `u` of a positive `budget` with `u * budget == 100 * spent`
      is above 100 exactly when `spent` is above `budget`. */
  lemma PercentAboveHundred(u: real, budget: real, spent: real)
    requires budget > 0.0 && u * budget == spent * 100.0
    ensures u > 100.0 <==> spent > budget
  {
    assert (u - 100.0) * budget == (spent - budget) * 100.0;
    if u > 100.0 {
      assert (u - 100.0) * budget > 0.0;
    } else {
      assert (u - 100.0) * budget <= 0.0;
    }
  }
}

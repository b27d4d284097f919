# Personal expense tracker and budget analyzer: a verified model

The system keeps a store of expenses (date, description, amount, category,
payment method) and a budget ledger (category, monthly limit, current
spent, remaining). It sorts expenses into categories by keywords, imports
external tables of expenses, and adds single expenses. It reconciles the
ledger with this month's spending, analyzes spending against the limits
and raises overspend alerts. It also summarizes the budget and reports
spending trends.

This project models the expense processor (`src/expense_processor.py`) and
the budget analyzer (`src/budget_analyzer.py`) as pure Dafny functions
over immutable data:

- `Wrappers`: `Option` and `Result`.
- `Text`: ASCII lower-casing, substring search, `\b…\b` word patterns, and
  the code-point order on strings.
- `Clock`: the wall clock, which is a parameter. It provides the "first of
  this month" and "N days ago" cutoffs, both of which keep the current time
  of day.
- `Grouping`: a generic sorted group-by-sum. It is proved to keep every key
  and to conserve the total.
- `Categorizer`: the keyword table, the fallback patterns and
  `_auto_categorize`.
- `ExpenseProcessor`: category backfill, CSV import (column check, amount
  filter, defaults, merge with de-duplication), `add_expense` and
  `get_expense_summary`.
- `BudgetLedger`: `add_budget_category`, `update_budget_limit`,
  `update_budget_spending` and `get_budget_summary`.
- `BudgetAnalytics`: `analyze_budget` (breakdown and alerts) and
  `get_spending_trends`.

Modelling choices:

- Amounts are exact reals.
- Dates are integer day numbers.
- "Now" is a day number plus the day of the month and the microseconds
  since midnight.
- pandas `groupby` sorts its keys. So the category breakdown, the alert
  list and the category totals come out in code-point order of the category
  name, and daily totals come out in date order. The model returns them in
  that order, which is what the code does, rather than in order of first
  appearance.
- The import checks for the lower-case column names `date`, `description`
  and `amount` before it renames the capitalised headers. So a table with
  only capitalised headers is rejected (`ExpenseProcessor.CapitalisedHeaderRejected`),
  even though `column_mapping` (src/expense_processor.py:83-92) renames
  exactly those headers. The model follows the code.

## Model

| member | source | states |
|---|---|---|
| Categorizer.Categorize | src/expense_processor.py:139-168 | a missing or empty description is Uncategorized; otherwise the result is the category of the first rule (in table order) with a keyword occurring in the lower-cased description, else the first fallback pattern's category, else Uncategorized |
| Categorizer.FirstRule | src/expense_processor.py:146-150 | the index returned is the first rule having a keyword contained in the text; None exactly when no rule matches |
| Categorizer.KeywordPass | src/expense_processor.py:146-150 | None exactly when no rule has a keyword in the text; otherwise the category of a matching rule with no matching rule before it |
| Categorizer.PatternPass | src/expense_processor.py:152-166 | a returned category belongs to a pattern matching as a whole word; None exactly when no pattern matches |
| Categorizer.FallbackPatternsSubsumed | src/expense_processor.py:153-162 | every word of every fallback pattern is a keyword of the same category in the keyword table |
| Categorizer.CategorizeIsKeywordPass | src/expense_processor.py:152-168 | the regex fallback never changes the answer: categorizing equals the keyword pass alone, or Uncategorized |
| Categorizer.KeywordCategoriesDistinct | src/expense_processor.py:21-32 | the ten categories of the keyword table are pairwise distinct |
| Categorizer.CategorizeResultDeclared | src/expense_processor.py:139-168 | the category is always one of the ten declared names or Uncategorized |
| Categorizer.CategorizeFirstMatch | src/expense_processor.py:144-150 | for a non-empty description, the result is rule i's category if and only if rule i matches and no earlier rule matches |
| Categorizer.CategorizeNoMatch | src/expense_processor.py:139-168 | the result is Uncategorized if and only if the description is missing, empty, or contains no keyword |
| Categorizer.CategorizeSoleMatch | src/expense_processor.py:146-150 | a description matching exactly one rule gets that rule's category |
| Categorizer.GasIsTransportation | src/expense_processor.py:22-26 | a description containing "gas" is Groceries or Transportation, never Utilities, since Transportation's "gas" is checked before Utilities' "gas bill" |
| Categorizer.FoodCourtIsGroceries | src/expense_processor.py:22-24 | "Food court" is Groceries, since "food" is checked before Dining's "food court" |
| Text.Find | src/expense_processor.py:149 | returns the first position where the keyword occurs, or None exactly when it does not occur |
| Text.ContainsPrefix | src/expense_processor.py:149 | a text containing a keyword contains each of its prefixes |
| Text.WordPatternHasSubstring | src/expense_processor.py:165 | a whole-word match of a word implies plain containment of that word |
| ExpenseProcessor.Backfill | src/expense_processor.py:106-111 | a non-blank category is kept; a missing or empty one becomes the categorizer's verdict; the result is never blank |
| ExpenseProcessor.BackfillIdempotent | src/expense_processor.py:106-111 | backfilling an already backfilled category changes nothing |
| ExpenseProcessor.Dedupe | src/expense_processor.py:128-129 | the result has no two rows with the same (date, description, amount) key and holds exactly the keys of the input |
| ExpenseProcessor.DedupeKeepsFirstOccurrences | src/expense_processor.py:128-129 | every kept row is the first occurrence of its key in the input |
| ExpenseProcessor.DedupeIsSubsequence | src/expense_processor.py:128-129 | the kept rows appear in their input order |
| ExpenseProcessor.DedupeOfUnique | src/expense_processor.py:128-129 | de-duplicating rows with unique keys leaves them unchanged |
| ExpenseProcessor.DedupeLength | src/expense_processor.py:128-129 | de-duplication never lengthens the table |
| ExpenseProcessor.Merge | src/expense_processor.py:125-129 | the merged store has unique keys, holds the union of both key sets, is no longer than both tables together, and starts with the de-duplicated existing rows (the existing rows themselves when they are duplicate-free); it keeps rows in their original order, and each kept row is the first occurrence of its identity, existing rows first |
| ExpenseProcessor.MergeAsWrittenKeepsStoredDuplicate | src/expense_processor.py:123-129 | re-importing a stored row keeps both copies under the merge as written, while the intended merge keeps one |
| ExpenseProcessor.ImportRow | src/expense_processor.py:100-111 | an imported row keeps its date, description and parsed amount; its category is the given one when non-blank and otherwise the categorizer's verdict (a table without a category column counts as blank), so it is never blank; its payment method is "Unknown" when the table has no payment-method column |
| ExpenseProcessor.ParseRows | src/expense_processor.py:116-120 | exactly the rows whose amount parsed survive, as imported rows, one per such row |
| ExpenseProcessor.ParseRowsAppend | src/expense_processor.py:116-120 | filtering a table equals filtering its two halves and concatenating, so surviving rows are neither reordered nor repeated |
| ExpenseProcessor.ParseRowsPositions | src/expense_processor.py:116-120 | the row at position i whose amount parsed lands at the position given by the number of parsed rows before i |
| ExpenseProcessor.ImportFromCsv | src/expense_processor.py:69-137 | fails exactly when a required lower-case column is missing, listing exactly those columns; otherwise the store becomes the merge of the existing rows with the rows whose amount parsed (backfilled, payment method defaulted), the count is the number of those rows, the stored rows have unique keys, and every new stored row is a backfilled imported row |
| ExpenseProcessor.StoredRowOrigin | src/expense_processor.py:125-129 | a merged row that was not in the existing store is one of the imported rows |
| ExpenseProcessor.CapitalisedHeaderRejected | src/expense_processor.py:75-92 | a table with only Date/Description/Amount headers is rejected, because the check runs before the rename |
| ExpenseProcessor.ReimportKeepsStore | src/expense_processor.py:120-134 | importing rows whose identities are all stored already leaves a duplicate-free store unchanged, yet reports every parsed row |
| ExpenseProcessor.DedupeIgnoresStoredKeys | src/expense_processor.py:126-129 | appended rows whose identities are already present are all dropped by de-duplication |
| ExpenseProcessor.AddExpense | src/expense_processor.py:196-215 | appends exactly one row with the given fields, leaves the existing rows unchanged, and categorizes it when the category is empty |
| ExpenseProcessor.AddExpenseKeepsDuplicates | src/expense_processor.py:210-215 | adding an expense does no de-duplication: adding a stored row twice stores both copies |
| ExpenseProcessor.CategoryTotals | src/expense_processor.py:191 | one total per category present, in increasing name order, each the sum of that category's amounts, together summing to the store total |
| ExpenseProcessor.SortDescending | src/expense_processor.py:191 | the result is non-increasing by amount and a permutation of the input |
| ExpenseProcessor.TopCategories | src/expense_processor.py:191 | returns min(5, number of categories) category totals, largest first, each at most as often as it occurs among the totals, and no category left out has a larger total than one listed |
| ExpenseProcessor.Summarize | src/expense_processor.py:170-194 | an empty store gives zeros and no date range; otherwise the row count, the total, the mean amount, the least and greatest dates (both attained), and the top five categories |
| ExpenseProcessor.AverageAmount | src/expense_processor.py:186 | the mean transaction amount times the number of transactions is the total |
| Grouping.GroupSum | src/budget_analyzer.py:70 | one entry per distinct key, keys in increasing order, each value the sum over its key |
| Grouping.GroupSumConserves | src/budget_analyzer.py:109 | the group totals add up to the sum of all amounts |
| Clock.MonthStart | src/budget_analyzer.py:66 | the cutoff is the first day of the current month, at now's time of day |
| Clock.OnOrAfterBoundary | src/budget_analyzer.py:67 | a date counts from the cutoff on if it is a later day, or the same day when the cutoff time is midnight |
| BudgetLedger.AddCategory | src/budget_analyzer.py:182-201 | an existing category leaves the ledger unchanged; otherwise one row (limit, 0 spent, remaining = limit) is appended; unique categories and remaining = limit − spent are preserved |
| BudgetLedger.UpdateLimit | src/budget_analyzer.py:204-217 | an unknown category leaves the ledger unchanged; otherwise every row of the category gets the new limit and remaining = new limit − spent, other rows unchanged, same categories in the same order |
| BudgetLedger.UpdateLimitKeepsUnique | src/budget_analyzer.py:204-217 | updating a limit keeps categories unique |
| BudgetLedger.Since | src/budget_analyzer.py:67 | keeps exactly the expenses on or after the cutoff, each as many times as it occurs, in their original order |
| BudgetLedger.MonthSpend | src/budget_analyzer.py:65-69 | a category with no expense since the first of the month has spent nothing |
| BudgetLedger.MonthSpendSnoc | src/budget_analyzer.py:65-69 | one more expense adds its amount to its own category's month spend exactly when it is dated on or after the cutoff, and leaves every other category's spend unchanged |
| BudgetLedger.Reconcile | src/budget_analyzer.py:56-80 | no expenses or an empty ledger leave it unchanged; otherwise limits and categories are kept, rows of categories spent in since the cutoff get that spending and remaining = limit − spent, all other rows are unchanged |
| BudgetLedger.ReconcileIdempotent | src/budget_analyzer.py:56-80 | reconciling twice with the same expenses equals reconciling once |
| BudgetLedger.ReconcileKeepsInvariants | src/budget_analyzer.py:56-80 | reconciliation preserves unique categories and remaining = limit − spent |
| BudgetLedger.ReconcileLeavesStaleRow | src/budget_analyzer.py:69-77 | a category with no spending this month keeps last month's spent and remaining |
| BudgetLedger.ConsistentColumns | src/budget_analyzer.py:169-171 | when every row has remaining = limit − spent, the remaining column sums to the limit sum minus the spent sum |
| BudgetLedger.Summary | src/budget_analyzer.py:156-180 | an empty ledger gives zeros; otherwise the column sums, the row count, and a utilization whose product with a positive budget is 100 times the spent sum (0 otherwise) |
| BudgetLedger.UtilizationOverHundred | src/budget_analyzer.py:169-172 | with a positive total budget, utilization exceeds 100 exactly when the spent sum exceeds the budget |
| BudgetAnalytics.FirstRow | src/budget_analyzer.py:112-116 | a row is found exactly when the category is in the ledger, and then it is the earliest ledger row of that category |
| BudgetAnalytics.Entry | src/budget_analyzer.py:111-129 | an unbudgeted category gets no limit, no remaining, 0 percent; a budgeted one gets the first matching row's limit and remaining and a percentage whose product with a positive limit is 100 times spent (0 otherwise) |
| BudgetAnalytics.Breakdown | src/budget_analyzer.py:107-129 | one entry per category present in all expenses, in increasing name order, with that category's all-time total; the totals add up to the total spent |
| BudgetAnalytics.AlertFor | src/budget_analyzer.py:133-145 | no alert without a positive limit; overspent by spent − limit, carrying the percentage, when spent exceeds the limit; otherwise an approaching alert, carrying the percentage, exactly when the percentage exceeds 80 |
| BudgetAnalytics.AlertThresholds | src/budget_analyzer.py:133-145 | overspent exactly when the limit is positive and spent exceeds it; approaching exactly when spent is within the limit and above 80% of it; an unbudgeted category never alerts |
| BudgetAnalytics.Alerts | src/budget_analyzer.py:131-145 | an alert is listed exactly when some breakdown entry raises it, and there are no more alerts than entries |
| BudgetAnalytics.AlertsInOrder | src/budget_analyzer.py:131-145 | when the breakdown's categories increase, so do the alerts' categories |
| BudgetAnalytics.AtMostOneAlertPerCategory | src/budget_analyzer.py:131-145 | no category gets two alerts |
| BudgetAnalytics.AlertScenarios | src/budget_analyzer.py:133-145 | against a limit of 100, spending 120 is overspent by 20 at 120%, 85 is approaching at 85%, and 70 raises nothing |
| BudgetAnalytics.DaySpan | src/budget_analyzer.py:104 | the number of days from the first to the last expense, both included, is at least 1 |
| BudgetAnalytics.AverageDaily | src/budget_analyzer.py:103-105 | the daily average times the day span is the total spent |
| BudgetAnalytics.AnalyzeBudget | src/budget_analyzer.py:82-154 | no expenses give zeros and leave the stored ledger as it is; otherwise the saved ledger is the stored one reconciled with this month's spending, and the analysis holds the total, first and last dates, daily average, the breakdown against the saved ledger, and that breakdown's alerts |
| BudgetAnalytics.FirstOfMonthIgnoredAfterMidnight | src/budget_analyzer.py:66-67 | an expense dated the first of the month is left out of reconciliation unless now is exactly midnight |
| BudgetAnalytics.DailyTotals | src/budget_analyzer.py:242-244 | one total per date, dates increasing, each the sum of that date's amounts, together the total spent |
| BudgetAnalytics.WeeklyTotals | src/budget_analyzer.py:246-248 | one total per week number, weeks increasing, together the total spent |
| BudgetAnalytics.TrendDirection | src/budget_analyzer.py:250-262 | at most one day is stable; otherwise increasing exactly when the second half's mean exceeds 1.1 times the first's, decreasing exactly when it does not and is below 0.9 times |
| BudgetAnalytics.ConstantSeriesDirection | src/budget_analyzer.py:250-260 | equal daily totals are stable when non-negative, and read as increasing when negative |
| BudgetAnalytics.IncreasingScenario | src/budget_analyzer.py:250-265 | daily totals 10,10,10,20,20,20 are increasing, with the peak on the fourth day |
| BudgetAnalytics.PeakIndex | src/budget_analyzer.py:264-265 | the peak is the first day holding the largest daily total |
| BudgetAnalytics.SpendingTrends | src/budget_analyzer.py:220-276 | no expenses in the window give empty totals, stable and no peak; otherwise daily and weekly totals, the direction of the daily totals and the peak day |
| BudgetAnalytics.WindowStartIgnoredAfterMidnight | src/budget_analyzer.py:230-240 | an expense dated exactly the window length ago is outside the window unless now is exactly midnight |

## Left out

- File I/O and CSV reading and writing (`load_expenses`, `save_expenses`,
  `load_budget`, `save_budget`, `to_csv`) are left out: the store and the
  ledger are values passed in and returned. The "error loading" fallbacks
  and the console messages are left out too.
- Date parsing and `strftime` formatting are left out. Dates are day
  numbers, and a date string that fails to parse is not modelled.
- Amount parsing is left out. An amount that fails to parse is `None`, and
  the model drops such rows as the code does.
- Non-ASCII lower-casing and Unicode `\w` are left out. `Text.Lower` and
  `Text.IsWordChar` cover ASCII only.
- Floating-point rounding is left out. Amounts, means, percentages and
  thresholds are exact reals.
- The text of the alert messages (`:.2f`, `:.1f`) is left out. An alert
  carries its category and its numbers.
- The ISO week number is a parameter `weekOf` of `BudgetAnalytics.SpendingTrends`.
  It is not computed from the calendar.
- The `budget` argument of `analyze_budget` is not an input of
  `BudgetAnalytics.AnalyzeBudget`. The code overwrites it with the reloaded,
  reconciled ledger before using it.
- Payment-method cells that are present but empty (NaN) are kept as given.
  Only an absent column defaults to "Unknown".
- Tables with duplicate column names are not modelled. Missing
  descriptions are `None` and compare equal to each other, as NaN cells
  do in `drop_duplicates`.
- ExpenseProcessor.TopCategories: the ordering among equal totals is fixed
  here (stable, by category name). The code's quicksort `sort_values` does
  not specify an order for ties.
- ExpenseProcessor.ImportFromCsv: the stored rows are those of the
  corrected merge `ExpenseProcessor.Merge`, which also drops an imported
  row duplicating a stored one. The code as written keeps such a row (see
  "## Findings" and `ExpenseProcessor.MergeAsWritten`).
- ExpenseProcessor.ReimportKeepsStore: describes the corrected merge. As
  written, re-importing stored rows appends them to the store again
  (`ExpenseProcessor.MergeAsWrittenKeepsStoredDuplicate`).
- BudgetAnalytics.AlertFor: every ledger limit is treated as a number. The
  code alerts only when the limit is a Python `int` or `float`
  (src/budget_analyzer.py:134). A limit read from an all-integer
  `monthly_limit` column is a numpy `int64`, which is neither, so such a
  category would never alert. Column dtypes are not modelled.
- ExpenseProcessor.ImportFromCsv: the error path is a `Result`, not the
  re-raised `Exception` wrapping the message.
- `report_generator.py` and `main.py` are not part of this model. They are
  presentation and command-line handling.

## Findings

| source | as written | input that shows it | evidently intended | confidence | as-written member | corrected member |
|---|---|---|---|---|---|---|
| src/expense_processor.py:123-129 | rows loaded from the store carry parsed timestamps in `date`, while the imported rows carry `YYYY-MM-DD` strings, so `drop_duplicates` never treats a stored row and an imported row as equal; the merge only removes duplicates within each side | store holds 2024-01-15 "Grocery Store" 45.67; importing the same row again stores it twice | duplicates across the stored and the imported rows are removed too, so importing a stored row again keeps one copy | not executed | ExpenseProcessor.MergeAsWritten (shown by ExpenseProcessor.MergeAsWrittenKeepsStoredDuplicate) | ExpenseProcessor.Merge |

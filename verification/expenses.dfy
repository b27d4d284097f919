/** The expense store's ingestion rules: category backfill, the import of
    an external table (amount filter, payment-method default, merge with
    de-duplication), the single-expense append and the summary
    aggregates. Rows are already parsed: dates are day numbers and a cell
    that is missing or failed to parse is `None`. */
module ExpenseProcessor {
  import opened Wrappers
  import opened Categorizer
  import opened Text
  import Grouping

  /** A stored transaction. `description` is `None` when the cell is missing. */
  datatype Expense = Expense(date: int, description: Option<string>, amount: real, category: string, payment: string)

  /** The identity used for de-duplication: (date, description, amount). */
  datatype Key = Key(date: int, description: Option<string>, amount: real)

  function KeyOf(e: Expense): Key {
    Key(e.date, e.description, e.amount)
  }

  // ---------------------------------------------------------------------
  // Category backfill

  /** A blank or missing category is replaced by the categorizer's verdict
      on the description; any other category is kept as it is. */
  function Backfill(category: Option<string>, description: Option<string>): (c: string)
    ensures category.Some? && category.value != "" ==> c == category.value
    ensures category.None? || category == Some("") ==> c == Categorize(description)
    ensures c != ""
  {
    match category
    case Some(given) =>
      if given == "" then CategorizedNonBlank(description) else given
    case None => CategorizedNonBlank(description)
  }

  /** The categorizer never answers with a blank category. */
  function CategorizedNonBlank(description: Option<string>): (c: string)
    ensures c == Categorize(description) && c != ""
  {
    CategorizeResultDeclared(description);
    KeywordCategoriesNonBlank();
    Categorize(description)
  }

  lemma KeywordCategoriesNonBlank()
    ensures forall c :: c in Names(KeywordRules) ==> c != ""
  {
  }

  /** Backfilling an already backfilled category changes nothing. */
  lemma BackfillIdempotent(category: Option<string>, description: Option<string>)
    ensures Backfill(Some(Backfill(category, description)), description) == Backfill(category, description)
  {
  }

  // ---------------------------------------------------------------------
  // De-duplication

  /** Some row has identity `k`. */
  predicate HasKey(rows: seq<Expense>, k: Key) {
    exists i | 0 <= i < |rows| :: KeyOf(rows[i]) == k
  }

  ghost predicate UniqueKeys(rows: seq<Expense>) {
    forall i, j :: 0 <= i < j < |rows| ==> KeyOf(rows[i]) != KeyOf(rows[j])
  }

  /** `a` is `b` with some rows left out, the rest in their original order. */
  ghost predicate IsSubsequence(a: seq<Expense>, b: seq<Expense>)
    decreases |b|
  {
    if |a| == 0 then true
    else if |b| == 0 then false
    else (a[|a| - 1] == b[|b| - 1] && IsSubsequence(a[..|a| - 1], b[..|b| - 1]))
         || IsSubsequence(a, b[..|b| - 1])
  }

  /** `e` is the first row of `rows` with its identity. */
  ghost predicate FirstOccurrence(rows: seq<Expense>, e: Expense) {
    exists j :: 0 <= j < |rows| && rows[j] == e && forall j' :: 0 <= j' < j ==> KeyOf(rows[j']) != KeyOf(e)
  }

  lemma HasKeySnoc(rows: seq<Expense>, x: Expense)
    ensures forall k :: HasKey(rows + [x], k) <==> HasKey(rows, k) || KeyOf(x) == k
  {
    forall k ensures HasKey(rows + [x], k) <==> HasKey(rows, k) || KeyOf(x) == k {
      if HasKey(rows, k) {
        var i :| 0 <= i < |rows| && KeyOf(rows[i]) == k;
        assert KeyOf((rows + [x])[i]) == k;
      }
      if KeyOf(x) == k {
        assert KeyOf((rows + [x])[|rows|]) == k;
      }
    }
  }

  lemma UniqueSnoc(rows: seq<Expense>, x: Expense)
    requires UniqueKeys(rows) && !HasKey(rows, KeyOf(x))
    ensures UniqueKeys(rows + [x])
  {
    forall i | 0 <= i < |rows| ensures KeyOf(rows[i]) != KeyOf(x) {
    }
  }

  /** `drop_duplicates(subset=['date', 'description', 'amount'])`: keeps the
      first row of every identity, in the original order. */
  function Dedupe(rows: seq<Expense>): (r: seq<Expense>)
    ensures UniqueKeys(r)
    ensures forall k :: HasKey(r, k) <==> HasKey(rows, k)
  {
    if |rows| == 0 then []
    else
      var init := rows[..|rows| - 1];
      var last := rows[|rows| - 1];
      var kept := Dedupe(init);
      assert rows == init + [last];
      HasKeySnoc(init, last);
      if HasKey(init, KeyOf(last)) then
        kept
      else
        HasKeySnoc(kept, last);
        UniqueSnoc(kept, last);
        kept + [last]
  }

  /** Every row de-duplication keeps is the first row of its identity. */
  lemma {:induction false} DedupeKeepsFirstOccurrences(rows: seq<Expense>)
    ensures forall i :: 0 <= i < |Dedupe(rows)| ==> FirstOccurrence(rows, Dedupe(rows)[i])
  {
    if |rows| > 0 {
      var init := rows[..|rows| - 1];
      var last := rows[|rows| - 1];
      var kept := Dedupe(init);
      DedupeKeepsFirstOccurrences(init);
      assert rows == init + [last];
      forall i | 0 <= i < |kept| ensures FirstOccurrence(rows, kept[i]) {
        var j :| 0 <= j < |init| && init[j] == kept[i] && forall j' :: 0 <= j' < j ==> KeyOf(init[j']) != KeyOf(kept[i]);
        assert rows[j] == kept[i];
      }
      if !HasKey(init, KeyOf(last)) {
        assert Dedupe(rows) == kept + [last];
        forall j' | 0 <= j' < |init| ensures KeyOf(rows[j']) != KeyOf(last) {
          assert rows[j'] == init[j'];
        }
        assert FirstOccurrence(rows, last);
      }
    }
  }

  /** De-duplication keeps the relative order of the rows it keeps. */
  lemma {:induction false} DedupeIsSubsequence(rows: seq<Expense>)
    ensures IsSubsequence(Dedupe(rows), rows)
  {
    if |rows| > 0 {
      var init := rows[..|rows| - 1];
      var last := rows[|rows| - 1];
      DedupeIsSubsequence(init);
      var r := Dedupe(rows);
      if HasKey(init, KeyOf(last)) {
        if |r| > 0 { assert IsSubsequence(r, rows[..|rows| - 1]); }
      } else {
        assert r == Dedupe(init) + [last];
        assert r[..|r| - 1] == Dedupe(init);
      }
    }
  }

  /** Rows that already have distinct identities pass unchanged. */
  lemma {:induction false} DedupeOfUnique(rows: seq<Expense>)
    requires UniqueKeys(rows)
    ensures Dedupe(rows) == rows
  {
    if |rows| > 0 {
      var init := rows[..|rows| - 1];
      DedupeOfUnique(init);
      assert !HasKey(init, KeyOf(rows[|rows| - 1]));
      assert rows == init + [rows[|rows| - 1]];
    }
  }

  /** De-duplicating a concatenation starts with the de-duplicated front:
      earlier rows always win over later ones. */
  lemma {:induction false} DedupeKeepsFront(a: seq<Expense>, b: seq<Expense>)
    ensures |Dedupe(a)| <= |Dedupe(a + b)|
    ensures Dedupe(a + b)[..|Dedupe(a)|] == Dedupe(a)
  {
    if |b| > 0 {
      var b' := b[..|b| - 1];
      DedupeKeepsFront(a, b');
      assert (a + b)[..|a + b| - 1] == a + b';
    } else {
      assert a + b == a;
    }
  }

  /** De-duplication never produces more rows than it is given. */
  lemma {:induction false} DedupeLength(rows: seq<Expense>)
    ensures |Dedupe(rows)| <= |rows|
  {
    if |rows| > 0 {
      DedupeLength(rows[..|rows| - 1]);
    }
  }

  /** The store after an import: existing rows followed by the imported
      ones, de-duplicated on identity, first occurrence kept. */
  function Merge(existing: seq<Expense>, imported: seq<Expense>): (r: seq<Expense>)
    ensures UniqueKeys(r)
    ensures forall k :: HasKey(r, k) <==> HasKey(existing, k) || HasKey(imported, k)
    ensures |r| <= |existing| + |imported|
    ensures UniqueKeys(existing) ==> |existing| <= |r| && r[..|existing|] == existing
    ensures |Dedupe(existing)| <= |r| && r[..|Dedupe(existing)|] == Dedupe(existing)
    ensures IsSubsequence(r, existing + imported)
    ensures forall i :: 0 <= i < |r| ==> FirstOccurrence(existing + imported, r[i])
  {
    var r := Dedupe(existing + imported);
    DedupeIsSubsequence(existing + imported);
    DedupeKeepsFirstOccurrences(existing + imported);
    assert forall k :: HasKey(existing + imported, k) <==> HasKey(existing, k) || HasKey(imported, k) by {
      forall k ensures HasKey(existing + imported, k) <==> HasKey(existing, k) || HasKey(imported, k) {
        var c := existing + imported;
        if HasKey(c, k) {
          var i :| 0 <= i < |c| && KeyOf(c[i]) == k;
          if i < |existing| { assert KeyOf(existing[i]) == k; } else { assert KeyOf(imported[i - |existing|]) == k; }
        }
        if HasKey(existing, k) {
          var i :| 0 <= i < |existing| && KeyOf(existing[i]) == k;
          assert KeyOf(c[i]) == k;
        }
        if HasKey(imported, k) {
          var i :| 0 <= i < |imported| && KeyOf(imported[i]) == k;
          assert KeyOf(c[|existing| + i]) == k;
        }
      }
    }
    DedupeLength(existing + imported);
    DedupeKeepsFront(existing, imported);
    UniqueFrontKept(existing, imported);
    r
  }

  lemma UniqueFrontKept(existing: seq<Expense>, imported: seq<Expense>)
    ensures UniqueKeys(existing) ==> |existing| <= |Dedupe(existing + imported)|
                                     && Dedupe(existing + imported)[..|existing|] == existing
  {
    if UniqueKeys(existing) {
      DedupeOfUnique(existing);
      DedupeKeepsFront(existing, imported);
    }
  }

  /** The merge as `import_from_csv` performs it. The stored rows' dates are
      parsed timestamps while the imported rows' dates are formatted
      strings, and pandas never equates a timestamp with a string, so no
      imported row is recognised as a duplicate of a stored one: only
      duplicates within each half are dropped. */
  function MergeAsWritten(existing: seq<Expense>, imported: seq<Expense>): (r: seq<Expense>)
    ensures |r| <= |existing| + |imported|
  {
    DedupeLength(existing);
    DedupeLength(imported);
    Dedupe(existing) + Dedupe(imported)
  }

  /** Importing a row that is already stored keeps both copies in the
      merge as written, where the intended merge keeps one. */
  lemma MergeAsWrittenKeepsStoredDuplicate()
    ensures var e := Expense(19737, Some("Grocery Store"), 45.67, "Groceries", "Card");
            && MergeAsWritten([e], [e]) == [e, e]
            && Merge([e], [e]) == [e]
  {
    var e := Expense(19737, Some("Grocery Store"), 45.67, "Groceries", "Card");
    assert Dedupe([e]) == [e];
    assert [e] + [e] == [e, e];
    assert [e, e][..1] == [e];
    assert HasKey([e], KeyOf(e));
  }

  // ---------------------------------------------------------------------
  // Import from an external table

  /** One row of the external table. Cells of columns the table does not
      have are ignored. `amount` is `None` when the cell is not numeric;
      `category` is `None` when the cell is missing. */
  datatype RawRow = RawRow(date: int, description: Option<string>, amount: Option<real>,
                           category: Option<string>, payment: string)

  /** The external table: its header and its rows. */
  datatype CsvTable = CsvTable(columns: seq<string>, rows: seq<RawRow>)

  datatype ImportError = MissingColumns(columns: seq<string>)

  /** The rows stored after an import and the count the import reports. */
  datatype Imported = Imported(stored: seq<Expense>, count: nat)

  const RequiredColumns: seq<string> := ["date", "description", "amount"]

  /** The required columns absent from `columns`, in their declared order;
      the check looks for the exact lower-case names. */
  function Missing(columns: seq<string>, required: seq<string>): (r: seq<string>)
    ensures forall c :: c in r <==> c in required && c !in columns
  {
    if |required| == 0 then []
    else (if required[0] in columns then [] else [required[0]]) + Missing(columns, required[1..])
  }

  /** The header renaming applied after the required-column check. */
  function Rename(column: string): string {
    if column == "Date" then "date"
    else if column == "Description" then "description"
    else if column == "Amount" then "amount"
    else if column == "Category" then "category"
    else if column == "Payment Method" || column == "Payment_Method" then "payment_method"
    else column
  }

  /** The table has a column called `name` once headers are renamed. */
  predicate HasColumn(columns: seq<string>, name: string) {
    exists i | 0 <= i < |columns| :: Rename(columns[i]) == name
  }

  /** A row whose amount parsed, as stored: category backfilled (a table
      without a category column counts as blank everywhere), payment
      method "Unknown" when the table has no such column. */
  function ImportRow(row: RawRow, hasCategory: bool, hasPayment: bool): (r: Expense)
    requires row.amount.Some?
    ensures r.date == row.date && r.description == row.description && r.amount == row.amount.value
    ensures r.category != ""
    ensures hasCategory && row.category.Some? && row.category.value != "" ==> r.category == row.category.value
    ensures !hasCategory || row.category.None? || row.category == Some("") ==> r.category == Categorize(row.description)
    ensures r.payment == if hasPayment then row.payment else "Unknown"
  {
    Expense(row.date, row.description, row.amount.value,
            Backfill(if hasCategory then row.category else Some(""), row.description),
            if hasPayment then row.payment else "Unknown")
  }

  /** How many rows have a numeric amount. */
  function CountParsed(rows: seq<RawRow>): nat {
    if |rows| == 0 then 0 else (if rows[0].amount.Some? then 1 else 0) + CountParsed(rows[1..])
  }

  /** The imported rows: every row whose amount is not numeric is dropped,
      the rest keep their order (`ParseRowsAppend`, `ParseRowsPositions`). */
  function ParseRows(rows: seq<RawRow>, hasCategory: bool, hasPayment: bool): (r: seq<Expense>)
    ensures |r| == CountParsed(rows)
    ensures forall e :: e in r <==> exists i :: 0 <= i < |rows| && rows[i].amount.Some? && e == ImportRow(rows[i], hasCategory, hasPayment)
  {
    if |rows| == 0 then []
    else
      var rest := ParseRows(rows[1..], hasCategory, hasPayment);
      assert forall i :: 1 <= i < |rows| ==> rows[i] == rows[1..][i - 1];
      if rows[0].amount.Some? then [ImportRow(rows[0], hasCategory, hasPayment)] + rest else rest
  }

  /** Parsing a table is parsing its two halves one after the other: rows
      are neither reordered nor repeated. */
  lemma {:induction false} ParseRowsAppend(x: seq<RawRow>, y: seq<RawRow>, hasCategory: bool, hasPayment: bool)
    ensures ParseRows(x + y, hasCategory, hasPayment) == ParseRows(x, hasCategory, hasPayment) + ParseRows(y, hasCategory, hasPayment)
  {
    if |x| > 0 {
      assert (x + y)[1..] == x[1..] + y;
      ParseRowsAppend(x[1..], y, hasCategory, hasPayment);
    } else {
      assert x + y == y;
    }
  }

  /** The row at position `i` whose amount parsed is stored at position
      "number of parsed rows before `i`". */
  lemma {:induction false} ParseRowsPositions(rows: seq<RawRow>, hasCategory: bool, hasPayment: bool, i: nat)
    requires i < |rows| && rows[i].amount.Some?
    ensures CountParsed(rows[..i]) < |ParseRows(rows, hasCategory, hasPayment)|
    ensures ParseRows(rows, hasCategory, hasPayment)[CountParsed(rows[..i])] == ImportRow(rows[i], hasCategory, hasPayment)
  {
    assert rows == rows[..i] + rows[i..];
    ParseRowsAppend(rows[..i], rows[i..], hasCategory, hasPayment);
    assert rows[i..][1..] == rows[i + 1..];
    assert |ParseRows(rows[..i], hasCategory, hasPayment)| == CountParsed(rows[..i]);
  }

  /** `import_from_csv`: fails when a required column is absent; otherwise
      stores the merge of the existing rows with the parsed rows and
      reports how many rows parsed, a count taken before de-duplication. */
  function ImportFromCsv(existing: seq<Expense>, table: CsvTable): (r: Result<Imported, ImportError>)
    ensures r.Failure? <==> exists c :: c in RequiredColumns && c !in table.columns
    ensures r.Failure? ==> forall c :: c in r.error.columns <==> c in RequiredColumns && c !in table.columns
    ensures r.Success? ==> r.value.count == CountParsed(table.rows)
    ensures r.Success? ==> r.value.stored == Merge(existing, ParseRows(table.rows, HasColumn(table.columns, "category"), HasColumn(table.columns, "payment_method")))
    ensures r.Success? ==> UniqueKeys(r.value.stored) && |r.value.stored| <= |existing| + r.value.count
    ensures r.Success? ==> forall e :: e in r.value.stored && e !in existing ==>
              exists i :: 0 <= i < |table.rows| && table.rows[i].amount.Some? && e == (ImportRow(table.rows[i], HasColumn(table.columns, "category"), HasColumn(table.columns, "payment_method")))
  {
    var missing := Missing(table.columns, RequiredColumns);
    if |missing| > 0 then
      assert missing[0] in missing;
      Failure(MissingColumns(missing))
    else
      var parsed := ParseRows(table.rows, HasColumn(table.columns, "category"), HasColumn(table.columns, "payment_method"));
      var stored := Merge(existing, parsed);
      assert forall e :: e in stored && e !in existing ==> e in parsed by {
        forall e | e in stored && e !in existing
          ensures e in parsed
        {
          StoredRowOrigin(existing, parsed, e);
        }
      }
      Success(Imported(stored, |parsed|))
  }

  /** Every merged row comes from one of the two inputs. */
  lemma StoredRowOrigin(existing: seq<Expense>, imported: seq<Expense>, e: Expense)
    requires e in Merge(existing, imported) && e !in existing
    ensures e in imported
  {
    var r := Merge(existing, imported);
    var i :| 0 <= i < |r| && r[i] == e;
    DedupeKeepsFirstOccurrences(existing + imported);
    assert FirstOccurrence(existing + imported, e);
    var j :| 0 <= j < |existing + imported| && (existing + imported)[j] == e;
    assert j >= |existing|;
    assert imported[j - |existing|] == e;
  }

  /** The required-column check runs before the header renaming, so a
      table headed "Date", "Description", "Amount" is rejected. */
  lemma CapitalisedHeaderRejected(existing: seq<Expense>, rows: seq<RawRow>)
    ensures ImportFromCsv(existing, CsvTable(["Date", "Description", "Amount"], rows)).Failure?
  {
    assert "date" !in ["Date", "Description", "Amount"];
  }

  /** Re-importing rows that are all stored already leaves the store as it
      was, yet the import still reports every parsed row: the count is
      taken before de-duplication. */
  lemma ReimportKeepsStore(existing: seq<Expense>, table: CsvTable)
    requires UniqueKeys(existing)
    requires forall c :: c in RequiredColumns ==> c in table.columns
    requires forall e :: e in ParseRows(table.rows, HasColumn(table.columns, "category"), HasColumn(table.columns, "payment_method"))
                         ==> HasKey(existing, KeyOf(e))
    ensures ImportFromCsv(existing, table) == Success(Imported(existing, CountParsed(table.rows)))
  {
    var parsed := ParseRows(table.rows, HasColumn(table.columns, "category"), HasColumn(table.columns, "payment_method"));
    assert ImportFromCsv(existing, table).Success?;
    assert forall i :: 0 <= i < |parsed| ==> HasKey(existing, KeyOf(parsed[i])) by {
      forall i | 0 <= i < |parsed| ensures HasKey(existing, KeyOf(parsed[i])) {
        assert parsed[i] in parsed;
      }
    }
    DedupeIgnoresStoredKeys(existing, parsed);
    DedupeOfUnique(existing);
  }

  /** Rows whose identities are already present are all dropped. */
  lemma {:induction false} DedupeIgnoresStoredKeys(existing: seq<Expense>, imported: seq<Expense>)
    requires forall i :: 0 <= i < |imported| ==> HasKey(existing, KeyOf(imported[i]))
    ensures Dedupe(existing + imported) == Dedupe(existing)
  {
    if |imported| == 0 {
      assert existing + imported == existing;
    } else {
      var init := imported[..|imported| - 1];
      var last := imported[|imported| - 1];
      DedupeIgnoresStoredKeys(existing, init);
      var rows := existing + imported;
      assert rows[..|rows| - 1] == existing + init;
      assert rows[|rows| - 1] == last;
      HasKeyExtend(existing, init, KeyOf(last));
      DedupeSkipsKnown(rows);
    }
  }

  lemma HasKeyExtend(rows: seq<Expense>, more: seq<Expense>, k: Key)
    requires HasKey(rows, k)
    ensures HasKey(rows + more, k)
  {
    var i :| 0 <= i < |rows| && KeyOf(rows[i]) == k;
    assert (rows + more)[i] == rows[i];
  }

  /** A last row whose identity occurs earlier is dropped. */
  lemma DedupeSkipsKnown(rows: seq<Expense>)
    requires |rows| > 0 && HasKey(rows[..|rows| - 1], KeyOf(rows[|rows| - 1]))
    ensures Dedupe(rows) == Dedupe(rows[..|rows| - 1])
  {
  }

  // ---------------------------------------------------------------------
  // Single-expense append

  /** `add_expense`: appends exactly one row at the end, categorized by its
      description when the given category is empty; earlier rows are left
      as they are and nothing is de-duplicated. */
  function AddExpense(existing: seq<Expense>, date: int, description: string, amount: real,
                      category: string, payment: string): (r: seq<Expense>)
    ensures |r| == |existing| + 1 && r[..|existing|] == existing
    ensures var e := r[|existing|];
            e.date == date && e.description == Some(description) && e.amount == amount && e.payment == payment
    ensures category != "" ==> r[|existing|].category == category
    ensures category == "" ==> r[|existing|].category == Categorize(Some(description))
  {
    existing + [Expense(date, Some(description), amount, Backfill(Some(category), Some(description)), payment)]
  }

  /** Adding the same expense twice stores it twice. */
  lemma AddExpenseKeepsDuplicates(existing: seq<Expense>, date: int, description: string, amount: real,
                                  category: string, payment: string)
    ensures var twice := AddExpense(AddExpense(existing, date, description, amount, category, payment),
                                    date, description, amount, category, payment);
            !UniqueKeys(twice) && |twice| == |existing| + 2
  {
    var once := AddExpense(existing, date, description, amount, category, payment);
    var twice := AddExpense(once, date, description, amount, category, payment);
    assert twice[|existing|] == once[|existing|];
    assert KeyOf(twice[|existing|]) == KeyOf(twice[|existing| + 1]);
  }

  // ---------------------------------------------------------------------
  // Aggregates

  /** The sum of the amounts. */
  function Spent(rows: seq<Expense>): real {
    if |rows| == 0 then 0.0 else Spent(rows[..|rows| - 1]) + rows[|rows| - 1].amount
  }

  /** Each row's amount paired with a key computed from the row. */
  function Pairs<K>(rows: seq<Expense>, key: Expense -> K): (r: seq<(K, real)>)
    ensures |r| == |rows|
    ensures forall i :: 0 <= i < |rows| ==> r[i] == (key(rows[i]), rows[i].amount)
  {
    seq(|rows|, i requires 0 <= i < |rows| => (key(rows[i]), rows[i].amount))
  }

  /** Pairing the rows with keys keeps their total. */
  lemma {:induction false} PairsTotal<K>(rows: seq<Expense>, key: Expense -> K)
    ensures Grouping.Total(Pairs(rows, key)) == Spent(rows)
  {
    if |rows| > 0 {
      PairsTotal(rows[..|rows| - 1], key);
      assert Pairs(rows, key)[..|rows| - 1] == Pairs(rows[..|rows| - 1], key);
    }
  }

  function CategoryOf(e: Expense): string {
    e.category
  }

  function DateOf(e: Expense): int {
    e.date
  }

  lemma CategoryOrder()
    ensures Grouping.StrictTotalOrder(StrLess)
  {
    forall a: string ensures !StrLess(a, a) { StrLessIrreflexive(a); }
    forall a: string, b: string, c: string | StrLess(a, b) && StrLess(b, c) ensures StrLess(a, c) {
      StrLessTransitive(a, b, c);
    }
    forall a: string, b: string | a != b ensures StrLess(a, b) || StrLess(b, a) {
      StrLessConnected(a, b);
    }
  }

  /** `groupby('category')['amount'].sum()`: one pair per category, in
      ascending order of category name. */
  function CategoryTotals(rows: seq<Expense>): (r: seq<(string, real)>)
    ensures Grouping.Increasing(Grouping.Keys(r), StrLess)
    ensures forall c :: c in Grouping.Keys(r) <==> exists i :: 0 <= i < |rows| && rows[i].category == c
    ensures forall i :: 0 <= i < |r| ==> r[i].1 == Grouping.SumAt(Pairs(rows, CategoryOf), r[i].0)
    ensures Grouping.Total(r) == Spent(rows)
  {
    CategoryOrder();
    var pairs := Pairs(rows, CategoryOf);
    assert forall c :: c in Grouping.Keys(pairs) <==> exists i :: 0 <= i < |rows| && rows[i].category == c by {
      forall c ensures c in Grouping.Keys(pairs) <==> exists i :: 0 <= i < |rows| && rows[i].category == c {
        if exists i :: 0 <= i < |rows| && rows[i].category == c {
          var i :| 0 <= i < |rows| && rows[i].category == c;
          assert Grouping.Keys(pairs)[i] == c;
        }
      }
    }
    Grouping.GroupSumConserves(pairs, StrLess);
    PairsTotal(rows, CategoryOf);
    Grouping.GroupSum(pairs, StrLess)
  }

  /** The earliest date. */
  function MinDate(rows: seq<Expense>): (d: int)
    requires |rows| > 0
    ensures forall i :: 0 <= i < |rows| ==> d <= rows[i].date
    ensures exists i :: 0 <= i < |rows| && rows[i].date == d
  {
    if |rows| == 1 then rows[0].date
    else
      var m := MinDate(rows[1..]);
      assert forall i :: 1 <= i < |rows| ==> rows[i] == rows[1..][i - 1];
      if rows[0].date <= m then rows[0].date else m
  }

  /** The latest date. */
  function MaxDate(rows: seq<Expense>): (d: int)
    requires |rows| > 0
    ensures forall i :: 0 <= i < |rows| ==> rows[i].date <= d
    ensures exists i :: 0 <= i < |rows| && rows[i].date == d
  {
    if |rows| == 1 then rows[0].date
    else
      var m := MaxDate(rows[1..]);
      assert forall i :: 1 <= i < |rows| ==> rows[i] == rows[1..][i - 1];
      if rows[0].date >= m then rows[0].date else m
  }

  ghost predicate NonIncreasing(xs: seq<(string, real)>) {
    forall i, j :: 0 <= i < j < |xs| ==> xs[i].1 >= xs[j].1
  }

  /** `x` placed before the first entry whose amount does not exceed it. */
  function InsertDescending(x: (string, real), xs: seq<(string, real)>): (r: seq<(string, real)>)
    requires NonIncreasing(xs)
    ensures NonIncreasing(r)
    ensures multiset(r) == multiset(xs) + multiset{x}
    ensures forall t :: t in r ==> t == x || t in xs
  {
    if |xs| == 0 then [x]
    else if xs[0].1 <= x.1 then
      ConsNonIncreasing(x, xs);
      [x] + xs
    else
      var rest := InsertDescending(x, xs[1..]);
      assert xs == [xs[0]] + xs[1..];
      assert multiset([xs[0]] + rest) == multiset{xs[0]} + multiset(rest);
      HeadBounds(xs);
      BoundedInsert(x, xs[1..], rest, xs[0].1);
      ConsNonIncreasing(xs[0], rest);
      [xs[0]] + rest
  }

  /** `rest` holds `x` and entries of `tail`; if all of those are bounded
      by `b`, so is `rest`. */
  lemma BoundedInsert(x: (string, real), tail: seq<(string, real)>, rest: seq<(string, real)>, b: real)
    requires forall t :: t in rest ==> t == x || t in tail
    requires forall t :: t in tail ==> t.1 <= b
    requires x.1 <= b
    ensures forall t :: t in rest ==> t.1 <= b
  {
  }

  /** The head of a non-increasing list bounds everything after it. */
  lemma HeadBounds(xs: seq<(string, real)>)
    requires NonIncreasing(xs) && |xs| > 0
    ensures forall t :: t in xs[1..] ==> t.1 <= xs[0].1
  {
    forall t | t in xs[1..] ensures t.1 <= xs[0].1 {
      var i :| 0 <= i < |xs[1..]| && xs[1..][i] == t;
      assert xs[i + 1] == t;
    }
  }

  /** Putting an entry no smaller than all others in front keeps the list
      non-increasing. */
  lemma ConsNonIncreasing(h: (string, real), rest: seq<(string, real)>)
    requires NonIncreasing(rest)
    requires forall t :: t in rest ==> t.1 <= h.1
    ensures NonIncreasing([h] + rest)
  {
    var r := [h] + rest;
    forall i, j | 0 <= i < j < |r| ensures r[i].1 >= r[j].1 {
      assert r[j] == rest[j - 1];
      assert rest[j - 1] in rest;
      if i > 0 {
        assert r[i] == rest[i - 1];
      }
    }
  }

  /** A stable sort by amount, largest first. */
  function SortDescending(xs: seq<(string, real)>): (r: seq<(string, real)>)
    ensures NonIncreasing(r)
    ensures multiset(r) == multiset(xs)
    ensures |r| == |xs|
    ensures forall t :: t in r <==> t in xs
  {
    if |xs| == 0 then []
    else
      assert xs == [xs[0]] + xs[1..];
      var r := InsertDescending(xs[0], SortDescending(xs[1..]));
      assert |r| == |multiset(r)|;
      assert forall t :: t in r <==> t in multiset(r);
      assert forall t :: t in xs <==> t in multiset(xs);
      r
  }

  /** The (up to) five categories with the largest totals, largest first:
      every category left out has a total no larger than any listed one. */
  function TopCategories(rows: seq<Expense>, n: nat): (r: seq<(string, real)>)
    ensures |r| == if |CategoryTotals(rows)| < n then |CategoryTotals(rows)| else n
    ensures NonIncreasing(r)
    ensures forall t :: t in r ==> t in CategoryTotals(rows)
    ensures multiset(r) <= multiset(CategoryTotals(rows))
    ensures forall g :: g in CategoryTotals(rows) && g !in r ==> forall t :: t in r ==> g.1 <= t.1
  {
    var sorted := SortDescending(CategoryTotals(rows));
    var k := if |sorted| < n then |sorted| else n;
    PrefixIsTop(sorted, k);
    sorted[..k]
  }

  /** A prefix of a non-increasing list holds its largest amounts: nothing
      outside the prefix exceeds anything inside it. */
  lemma PrefixIsTop(sorted: seq<(string, real)>, k: nat)
    requires NonIncreasing(sorted) && k <= |sorted|
    ensures NonIncreasing(sorted[..k])
    ensures multiset(sorted[..k]) <= multiset(sorted)
    ensures forall t :: t in sorted[..k] ==> t in sorted
    ensures forall g :: g in sorted && g !in sorted[..k] ==> forall t :: t in sorted[..k] ==> g.1 <= t.1
  {
    var r := sorted[..k];
    assert sorted == r + sorted[k..];
    assert forall m :: 0 <= m < k ==> sorted[m] == r[m];
    forall g, t | g in sorted && g !in r && t in r ensures g.1 <= t.1 {
      var j :| 0 <= j < |sorted| && sorted[j] == g;
      var i :| 0 <= i < k && r[i] == t;
      assert k <= j;
    }
  }

  /** `get_expense_summary`. */
  datatype ExpenseSummary = ExpenseSummary(total: real, count: nat, average: real,
                                           dateRange: Option<(int, int)>,
                                           topCategories: seq<(string, real)>)

  /** `get_expense_summary`: all zeros for an empty store; otherwise the
      total, the row count, the mean amount, the first and last dates and
      the five categories with the largest totals. */
  function Summarize(rows: seq<Expense>): (s: ExpenseSummary)
    ensures |rows| == 0 ==> s == ExpenseSummary(0.0, 0, 0.0, None, [])
    ensures |rows| > 0 ==> s.count == |rows| && s.total == Spent(rows) && s.average == AverageAmount(rows)
    ensures |rows| > 0 ==> s.dateRange.Some?
                           && (forall i :: 0 <= i < |rows| ==> s.dateRange.value.0 <= rows[i].date <= s.dateRange.value.1)
                           && (exists i :: 0 <= i < |rows| && rows[i].date == s.dateRange.value.0)
                           && (exists i :: 0 <= i < |rows| && rows[i].date == s.dateRange.value.1)
    ensures |rows| > 0 ==> s.topCategories == TopCategories(rows, 5)
  {
    if |rows| == 0 then ExpenseSummary(0.0, 0, 0.0, None, [])
    else ExpenseSummary(Spent(rows), |rows|, AverageAmount(rows), Some((MinDate(rows), MaxDate(rows))), TopCategories(rows, 5))
  }

  /** The mean transaction amount. */
  function AverageAmount(rows: seq<Expense>): (a: real)
    requires |rows| > 0
    ensures a * (|rows| as real) == Spent(rows)
  {
    Spent(rows) / (|rows| as real)
  }
}

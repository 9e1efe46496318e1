/** What the five expense trackers share: the CSV ledger file held in memory
    as a sequence of rows, the header every script writes when the file is
    absent, appending one row, dropping the rows a predicate matches, and
    summing amounts per category in first-seen order.

    Amounts are abstracted: `parse` turns the stored text into a whole number
    (of cents, say) or fails where Python's `float()` raises. */
module Expenses {
  import opened Wrappers

  /** A CSV row with at least the date, category and amount fields. */
  type Row = r: seq<string> | |r| >= 3 witness ["", "", ""]

  /** The whole file: row 0 is the header when the file is in its normal
      shape, every other row an expense. */
  type Ledger = seq<Row>

  type AmountParser = string -> Option<int>

  const Header: Row := ["Date", "Category", "Amount"]

  // ---------------------------------------------------------------------
  // Initialisation and appending

  /** The module-level start-up step: an absent file is created holding the
      header alone; an existing file is left as it is. */
  function Initialize(store: Option<Ledger>): (l: Ledger)
    ensures store.None? ==> l == [Header]
    ensures store.Some? ==> l == store.value
  {
    match store
    case None => [Header]
    case Some(existing) => existing
  }

  /** Running start-up again on the file it produced changes nothing. */
  lemma InitializeIdempotent(store: Option<Ledger>)
    ensures Initialize(Some(Initialize(store))) == Initialize(store)
  {
  }

  /** Appending mode: one row after all existing rows, which stay as they
      were. */
  function Append(l: Ledger, row: Row): (r: Ledger)
    ensures |r| == |l| + 1
    ensures r[..|l|] == l && r[|l|] == row
  {
    l + [row]
  }

  /** `add_expense` as written in Dylan/expense.py and expense-tracker.py:
      the three answers stored verbatim, unchecked. */
  function AddExpense(l: Ledger, date: string, category: string, amount: string): (r: Ledger)
    ensures |r| == |l| + 1 && r[..|l|] == l
    ensures r[|l|][0] == date && r[|l|][1] == category && r[|l|][2] == amount && |r[|l|]| == 3
  {
    Append(l, [date, category, amount])
  }

  // ---------------------------------------------------------------------
  // Reading: open the file, skip one row with next(reader), list the rest

  datatype Contents = Missing | Headerless | Data(rows: seq<Row>)

  function Read(store: Option<Ledger>): (c: Contents)
    ensures store.None? <==> c.Missing?
    ensures c.Headerless? <==> store == Some([])
    ensures c.Data? ==> |store.value| >= 1 && c.rows == store.value[1..]
  {
    match store
    case None => Missing
    case Some(l) => if l == [] then Headerless else Data(l[1..])
  }

  /** Appending and then reading back gives what was read before, with the
      new row at the end. */
  lemma AppendThenRead(l: Ledger, row: Row)
    requires Read(Some(l)).Data?
    ensures Read(Some(Append(l, row))) == Data(Read(Some(l)).rows + [row])
  {
    assert Append(l, row)[1..] == l[1..] + [row];
  }

  /** Append mode creates a missing file holding only the new row, with no
      header: every later read skips that row as if it were the header, and
      lists only the rows added after it. */
  lemma AddToMissingFile(row: Row, later: seq<Row>)
    ensures Read(Some(Append([], row) + later)) == Data(later)
  {
    assert (Append([], row) + later)[1..] == later;
  }

  // ---------------------------------------------------------------------
  // Filtering: `[row for row in rows if not matches(row)]`

  /** The rows that `matches` does not select, in their original order. */
  function Remove(rows: seq<Row>, matches: Row -> bool): (r: seq<Row>)
    ensures |r| <= |rows|
    ensures forall row :: row in r <==> row in rows && !matches(row)
  {
    if rows == [] then []
    else if matches(rows[0]) then Remove(rows[1..], matches)
    else [rows[0]] + Remove(rows[1..], matches)
  }

  /** How many rows `matches` selects. */
  function CountMatches(rows: seq<Row>, matches: Row -> bool): nat
  {
    if rows == [] then 0
    else (if matches(rows[0]) then 1 else 0) + CountMatches(rows[1..], matches)
  }

  /** Filtering distributes over concatenation: each row is kept or dropped on
      its own, and the kept rows stay in their relative order. */
  lemma {:induction false} RemoveConcat(a: seq<Row>, b: seq<Row>, matches: Row -> bool)
    ensures Remove(a + b, matches) == Remove(a, matches) + Remove(b, matches)
  {
    if a == [] {
      assert a + b == b;
    } else {
      assert (a + b)[1..] == a[1..] + b;
      RemoveConcat(a[1..], b, matches);
    }
  }

  /** Filtering one more row at the end appends it unless it is selected. */
  lemma RemoveStep(rows: seq<Row>, row: Row, matches: Row -> bool)
    ensures Remove(rows + [row], matches)
            == Remove(rows, matches) + (if matches(row) then [] else [row])
  {
    RemoveConcat(rows, [row], matches);
    assert [row][1..] == [];
  }

  /** Each copy of a row survives exactly when the row is not selected. */
  lemma {:induction false} RemoveMultiplicity(rows: seq<Row>, matches: Row -> bool, x: Row)
    ensures multiset(Remove(rows, matches))[x] == if matches(x) then 0 else multiset(rows)[x]
  {
    if rows != [] {
      RemoveMultiplicity(rows[1..], matches, x);
      assert rows == [rows[0]] + rows[1..];
    }
  }

  /** The number of rows dropped is the number of rows selected. */
  lemma {:induction false} RemovedCount(rows: seq<Row>, matches: Row -> bool)
    ensures |rows| - |Remove(rows, matches)| == CountMatches(rows, matches)
  {
    if rows != [] {
      RemovedCount(rows[1..], matches);
    }
  }

  /** The filter drops something exactly when some row is selected. */
  lemma {:induction false} RemoveShortens(rows: seq<Row>, matches: Row -> bool)
    ensures |Remove(rows, matches)| < |rows| <==> exists row :: row in rows && matches(row)
  {
    if rows != [] {
      RemoveShortens(rows[1..], matches);
      assert forall row :: row in rows <==> row == rows[0] || row in rows[1..];
    }
  }

  /** Nothing selected: nothing changes. */
  lemma {:induction false} RemoveNothing(rows: seq<Row>, matches: Row -> bool)
    requires forall row :: row in rows ==> !matches(row)
    ensures Remove(rows, matches) == rows
  {
    if rows != [] {
      RemoveNothing(rows[1..], matches);
    }
  }

  /** Filtering twice with the same predicate is filtering once. */
  lemma RemoveIdempotent(rows: seq<Row>, matches: Row -> bool)
    ensures Remove(Remove(rows, matches), matches) == Remove(rows, matches)
  {
    RemoveNothing(Remove(rows, matches), matches);
  }

  /** The selectors the scripts use. */
  function DateIs(date: string): Row -> bool
  {
    (row: Row) => row[0] == date
  }

  function CategoryIs(category: string): Row -> bool
  {
    (row: Row) => row[1] == category
  }

  // ---------------------------------------------------------------------
  // Category totals

  /** An insertion-ordered dictionary from category to total. */
  datatype Totals = Totals(order: seq<string>, sums: map<string, int>)
  {
    /** `totals[c] += a`, where a category seen for the first time starts at
        0 and goes to the end of the order. */
    function Add(c: string, a: int): Totals
    {
      if c in sums then Totals(order, sums[c := sums[c] + a])
      else Totals(order + [c], sums[c := a])
    }
  }

  /** What a report shows: no file, a file with no expenses, a file that
      could not be processed (no header row to skip, or an amount that does
      not parse), or the computed value. */
  datatype Report<T> = NoFile | NoExpenses | Unreadable | Ready(value: T)

  predicate AllParse(rows: seq<Row>, parse: AmountParser)
  {
    forall i :: 0 <= i < |rows| ==> parse(rows[i][2]).Some?
  }

  function AmountOf(row: Row, parse: AmountParser): int
  {
    match parse(row[2])
    case Some(v) => v
    case None => 0
  }

  predicate Distinct(s: seq<string>)
  {
    forall i, j :: 0 <= i < j < |s| ==> s[i] != s[j]
  }

  /** The categories of `rows`, each once, in the order of first appearance. */
  function Categories(rows: seq<Row>): (order: seq<string>)
    ensures Distinct(order)
  {
    if rows == [] then []
    else
      var before := Categories(rows[..|rows| - 1]);
      var c := rows[|rows| - 1][1];
      if c in before then before else before + [c]
  }

  /** Every category of the rows is listed, and only those. */
  lemma {:induction false} CategoriesMembers(rows: seq<Row>, c: string)
    ensures c in Categories(rows) <==> exists i :: 0 <= i < |rows| && rows[i][1] == c
  {
    if rows != [] {
      var init := rows[..|rows| - 1];
      CategoriesMembers(init, c);
      assert forall i :: 0 <= i < |init| ==> init[i] == rows[i];
    }
  }

  /** Reading more rows only extends the category order: a category's place
      is fixed by where it first appears. */
  lemma {:induction false} CategoriesPrefix(rows: seq<Row>, n: nat)
    requires n <= |rows|
    ensures Categories(rows[..n]) <= Categories(rows)
    decreases |rows|
  {
    if n < |rows| {
      var init := rows[..|rows| - 1];
      assert init[..n] == rows[..n];
      CategoriesPrefix(init, n);
    } else {
      assert rows[..n] == rows;
    }
  }

  /** The sum of the amounts of the rows of one category. */
  function CategorySum(rows: seq<Row>, c: string, parse: AmountParser): int
  {
    if rows == [] then 0
    else
      var last := rows[|rows| - 1];
      CategorySum(rows[..|rows| - 1], c, parse) + (if last[1] == c then AmountOf(last, parse) else 0)
  }

  /** The sum of the amounts of all rows. */
  function TotalAmount(rows: seq<Row>, parse: AmountParser): int
  {
    if rows == [] then 0 else TotalAmount(rows[..|rows| - 1], parse) + AmountOf(rows[|rows| - 1], parse)
  }

  /** The dictionary the accumulation loops build. */
  function TotalsOf(rows: seq<Row>, parse: AmountParser): Totals
  {
    var order := Categories(rows);
    Totals(order, map c | c in order :: CategorySum(rows, c, parse))
  }

  /** A category that never appears sums to zero. */
  lemma {:induction false} CategorySumAbsent(rows: seq<Row>, c: string, parse: AmountParser)
    requires c !in Categories(rows)
    ensures CategorySum(rows, c, parse) == 0
  {
    if rows != [] {
      CategorySumAbsent(rows[..|rows| - 1], c, parse);
    }
  }

  lemma CategoriesStep(rows: seq<Row>, row: Row)
    ensures var before := Categories(rows);
            Categories(rows + [row]) == if row[1] in before then before else before + [row[1]]
  {
    assert (rows + [row])[..|rows|] == rows;
  }

  lemma CategorySumStep(rows: seq<Row>, row: Row, c: string, parse: AmountParser)
    ensures CategorySum(rows + [row], c, parse)
            == CategorySum(rows, c, parse) + (if row[1] == c then AmountOf(row, parse) else 0)
  {
    assert (rows + [row])[..|rows|] == rows;
  }

  /** One loop step, for one category of the new order: its total in the
      new dictionary is what `Add` leaves there. */
  lemma TotalsStepAt(rows: seq<Row>, row: Row, parse: AmountParser, k: string)
    requires k in Categories(rows + [row])
    ensures var u := TotalsOf(rows, parse).Add(row[1], AmountOf(row, parse));
            k in u.sums && TotalsOf(rows + [row], parse).sums[k] == u.sums[k]
  {
    CategoriesStep(rows, row);
    CategorySumStep(rows, row, k, parse);
    if k !in Categories(rows) {
      CategorySumAbsent(rows, k, parse);
    }
  }

  /** One loop step, for the keys: the new order and key set are those
      `Add` leaves. */
  lemma TotalsStepKeys(rows: seq<Row>, row: Row, parse: AmountParser)
    ensures var u := TotalsOf(rows, parse).Add(row[1], AmountOf(row, parse));
            var t' := TotalsOf(rows + [row], parse);
            t'.order == u.order && t'.sums.Keys == u.sums.Keys
  {
    CategoriesStep(rows, row);
  }

  /** One loop step: adding a row adds its amount to its own category,
      which is created at the end of the order when first seen; the other
      categories keep their totals. */
  lemma TotalsStep(rows: seq<Row>, row: Row, parse: AmountParser)
    ensures TotalsOf(rows + [row], parse) == TotalsOf(rows, parse).Add(row[1], AmountOf(row, parse))
  {
    var t' := TotalsOf(rows + [row], parse);
    var u := TotalsOf(rows, parse).Add(row[1], AmountOf(row, parse));
    TotalsStepKeys(rows, row, parse);
    forall k | k in t'.sums
      ensures t'.sums[k] == u.sums[k]
    {
      TotalsStepAt(rows, row, parse, k);
    }
  }

  /** Summing over a list of distinct categories after one more row adds that
      row's amount once if its category is listed. */
  lemma {:induction false} SumOverStep(order: seq<string>, rows: seq<Row>, row: Row, parse: AmountParser)
    requires Distinct(order)
    ensures var rows' := rows + [row];
            SumOver(order, rows', parse)
            == SumOver(order, rows, parse) + (if row[1] in order then AmountOf(row, parse) else 0)
  {
    var rows' := rows + [row];
    assert rows'[..|rows'| - 1] == rows;
    if order != [] {
      assert Distinct(order[1..]) by {
        forall i, j | 0 <= i < j < |order[1..]| ensures order[1..][i] != order[1..][j] {
          assert order[1..][i] == order[i + 1] && order[1..][j] == order[j + 1];
        }
      }
      SumOverStep(order[1..], rows, row, parse);
      assert row[1] in order <==> row[1] == order[0] || row[1] in order[1..];
      assert row[1] == order[0] ==> row[1] !in order[1..];
    }
  }

  /** The sum of the totals of the listed categories. */
  function SumOver(order: seq<string>, rows: seq<Row>, parse: AmountParser): int
  {
    if order == [] then 0 else CategorySum(rows, order[0], parse) + SumOver(order[1..], rows, parse)
  }

  lemma {:induction false} SumOverAppendCategory(order: seq<string>, c: string, rows: seq<Row>, parse: AmountParser)
    ensures SumOver(order + [c], rows, parse) == SumOver(order, rows, parse) + CategorySum(rows, c, parse)
  {
    if order != [] {
      assert (order + [c])[1..] == order[1..] + [c];
      SumOverAppendCategory(order[1..], c, rows, parse);
    }
  }

  /** No amount is lost or counted twice: the category totals add up to the
      sum of all amounts. */
  lemma {:induction false} TotalsAddUp(rows: seq<Row>, parse: AmountParser)
    ensures SumOver(Categories(rows), rows, parse) == TotalAmount(rows, parse)
  {
    if rows != [] {
      var init := rows[..|rows| - 1];
      var row := rows[|rows| - 1];
      assert rows == init + [row];
      TotalsAddUp(init, parse);
      var before := Categories(init);
      SumOverStep(before, init, row, parse);
      if row[1] !in before {
        SumOverAppendCategory(before, row[1], rows, parse);
        CategorySumAbsent(init, row[1], parse);
        assert CategorySum(rows, row[1], parse) == AmountOf(row, parse);
      }
    }
  }

  /** The accumulation loop shared by all five scripts:
      `totals[row[1]] += float(row[2])` over the data rows, inserting a
      category on first sight. A row whose amount does not parse stops the
      loop with no result, as the `ValueError` does. */
  method SumByCategory(rows: seq<Row>, parse: AmountParser) returns (r: Option<Totals>)
    ensures r.Some? <==> AllParse(rows, parse)
    ensures r.Some? ==> r.value == TotalsOf(rows, parse)
  {
    var order: seq<string> := [];
    var sums: map<string, int> := map[];
    var i := 0;
    while i < |rows|
      invariant 0 <= i <= |rows|
      invariant AllParse(rows[..i], parse)
      invariant Totals(order, sums) == TotalsOf(rows[..i], parse)
    {
      var row := rows[i];
      var amount := parse(row[2]);
      if amount.None? {
        return None;
      }
      assert rows[..i + 1] == rows[..i] + [row];
      TotalsStep(rows[..i], row, parse);
      var c := row[1];
      if c in sums {
        sums := sums[c := sums[c] + amount.value];
      } else {
        order := order + [c];
        sums := sums[c := amount.value];
      }
      i := i + 1;
    }
    assert rows[..i] == rows;
    return Some(Totals(order, sums));
  }
}

/** placide/proj.py: capitalised categories on entry and on deletion, a
    positivity check on amounts, delete by date or by category, and category
    totals. */
module Placide {
  import opened Wrappers
  import opened Text
  import opened Expenses

  /** `validate_amount`: the text parses and the value is positive; a parse
      failure is a rejection, not an error. */
  function ValidateAmount(amount: string, parse: AmountParser): (ok: bool)
    ensures ok <==> (parse(amount).Some? && parse(amount).value > 0)
  {
    match parse(amount)
    case None => false
    case Some(v) => v > 0
  }

  /** `add_expense` once its prompt loops have accepted the date and the
      amount: the category is stored capitalised, date and amount as typed. */
  function AddExpense(l: Ledger, date: string, category: string, amount: string, parse: AmountParser): (r: Ledger)
    requires ValidateAmount(amount, parse)
    ensures |r| == |l| + 1 && r[..|l|] == l
    ensures r[|l|] == [date, Capitalize(category), amount]
    ensures parse(r[|l|][2]).Some? && parse(r[|l|][2]).value > 0
    ensures Lower(r[|l|][1]) == Lower(category)
    ensures r[|l|][1] == [] || !IsLowerLetter(r[|l|][1][0])
  {
    LowerCapitalize(category);
    CapitalizeHead(category);
    Append(l, [date, Capitalize(category), amount])
  }

  /** `delete_expense`: option "1" drops the rows whose date is `key`,
      option "2" the rows whose category is `key.capitalize()`; any other
      choice returns before the file is read. The header row is filtered
      like any other row. */
  function DeleteExpense(l: Ledger, choice: string, key: string): (r: Ledger)
    ensures choice != "1" && choice != "2" ==> r == l
    ensures choice == "1" ==> forall row :: row in r <==> row in l && row[0] != key
    ensures choice == "2" ==> forall row :: row in r <==> row in l && row[1] != Capitalize(key)
    ensures |r| <= |l|
  {
    if choice == "1" then Remove(l, DateIs(key))
    else if choice == "2" then Remove(l, CategoryIs(Capitalize(key)))
    else l
  }

  /** Deleting by category ignores the case of the key: two keys that agree
      ignoring case delete the same rows. */
  lemma DeleteByCategoryIgnoresKeyCase(l: Ledger, key1: string, key2: string)
    requires Lower(key1) == Lower(key2)
    ensures DeleteExpense(l, "2", key1) == DeleteExpense(l, "2", key2)
  {
    CapitalizeEqIffLowerEq(key1, key2);
  }

  /** A category stored with a lower-case first letter (as other scripts may
      write it) survives every delete-by-category. */
  lemma LowerCaseCategorySurvives(l: Ledger, key: string, row: Row)
    requires row in l && row[1] != [] && IsLowerLetter(row[1][0])
    ensures row in DeleteExpense(l, "2", key)
  {
    CapitalizeHead(key);
  }

  /** The header goes through the date filter: it is dropped exactly when
      the key is "Date". */
  lemma HeaderDeletedByDate(l: Ledger, key: string)
    requires l != [] && l[0] == Header
    ensures Header in DeleteExpense(l, "1", key) <==> key != "Date"
  {
    assert Header[0] == "Date";
  }

  /** The header goes through the category filter too: it is dropped exactly
      when the key is "category" in any mix of cases. */
  lemma HeaderDeletedByCategory(l: Ledger, key: string)
    requires l != [] && l[0] == Header
    ensures Header in DeleteExpense(l, "2", key) <==> Lower(key) != "category"
  {
    assert Header[1] == "Category";
    CapitalizeCategoryWord();
    LowerCategoryWord();
    CapitalizeEqIffLowerEq(key, "category");
  }

  /** What losing the header costs: when no expense is dated "Date",
      deleting by the key "Date" removes only the header, and every later read
      (`next(reader)` skips one row) then treats the first expense as the
      header, so it disappears from listings and totals. */
  lemma DeletingHeaderHidesFirstExpense(l: Ledger)
    requires |l| >= 2 && l[0] == Header
    requires forall i :: 1 <= i < |l| ==> l[i][0] != "Date"
    ensures DeleteExpense(l, "1", "Date") == l[1..]
    ensures Read(Some(DeleteExpense(l, "1", "Date"))) == Data(l[2..])
  {
    assert l == [l[0]] + l[1..];
    RemoveConcat([l[0]], l[1..], DateIs("Date"));
    assert Header[0] == "Date";
    RemoveNothing(l[1..], DateIs("Date"));
    assert l[1..][1..] == l[2..];
  }

  /** Either delete keeps the rows before and after any split, filtered one
      by one, so the survivors keep their relative order. */
  lemma DeleteSplits(l: Ledger, n: nat, choice: string, key: string)
    requires n <= |l|
    ensures DeleteExpense(l, choice, key) == DeleteExpense(l[..n], choice, key) + DeleteExpense(l[n..], choice, key)
  {
    assert l == l[..n] + l[n..];
    RemoveConcat(l[..n], l[n..], DateIs(key));
    RemoveConcat(l[..n], l[n..], CategoryIs(Capitalize(key)));
  }

  /** Every copy of a row survives unless the chosen filter selects it, in
      which case none does. */
  lemma DeleteRowFate(l: Ledger, choice: string, key: string, row: Row)
    ensures multiset(DeleteExpense(l, choice, key))[row]
            == if (choice == "1" && row[0] == key) || (choice == "2" && row[1] == Capitalize(key))
               then 0 else multiset(l)[row]
  {
    RemoveMultiplicity(l, DateIs(key), row);
    RemoveMultiplicity(l, CategoryIs(Capitalize(key)), row);
  }

  /** `show_category_totals`: the header is skipped, an empty list is
      reported, and otherwise the categories appear in first-seen order, each
      with the sum of its amounts. */
  method ShowCategoryTotals(store: Option<Ledger>, parse: AmountParser) returns (r: Report<Totals>)
    ensures store.None? ==> r == NoFile
    ensures store == Some([]) ==> r == Unreadable
    ensures store.Some? && |store.value| == 1 ==> r == NoExpenses
    ensures store.Some? && |store.value| > 1 ==>
              (r.Ready? <==> AllParse(store.value[1..], parse))
              && (r.Ready? ==> r.value == TotalsOf(store.value[1..], parse))
              && (!r.Ready? ==> r == Unreadable)
  {
    match Read(store)
    case Missing => return NoFile;
    case Headerless => return Unreadable;
    case Data(rows) =>
      if rows == [] {
        return NoExpenses;
      }
      var t := SumByCategory(rows, parse);
      if t.None? {
        return Unreadable;
      }
      return Ready(t.value);
  }
}

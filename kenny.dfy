/** kenny/track.py: stripped input with a default category, a delete that
    refuses a header-only file, matches categories ignoring case and reports
    how many rows it removed, and category totals. */
module Kenny {
  import opened Wrappers
  import opened Text
  import opened Expenses

  const DefaultCategory := "Uncategorized"

  /** The category `add_expense` stores: the stripped answer, or
      "Uncategorized" when nothing but whitespace was typed. Either way it is
      non-empty and has no whitespace at either end. */
  function CategoryOrDefault(answer: string): (c: string)
    ensures c != [] && !IsSpace(c[0]) && !IsSpace(c[|c| - 1])
    ensures AllSpace(answer) ==> c == DefaultCategory
    ensures !AllSpace(answer) ==> c == Strip(answer)
  {
    var c := Strip(answer);
    if c == [] then DefaultCategory else c
  }

  /** `add_expense` once the prompt loops have accepted the date and the
      amount. Date, category and amount are stripped; the amount is stored
      as `float(amount)`, which `render` writes back out as text. */
  function AddExpense(l: Ledger, date: string, category: string, amount: string,
                      parse: AmountParser, render: int -> string): (r: Ledger)
    requires parse(Strip(amount)).Some? && parse(Strip(amount)).value > 0
    ensures |r| == |l| + 1 && r[..|l|] == l
    ensures r[|l|] == [Strip(date), CategoryOrDefault(category), render(parse(Strip(amount)).value)]
  {
    var row: Row := [Strip(date), CategoryOrDefault(category), render(parse(Strip(amount)).value)];
    Append(l, row)
  }

  /** Compares categories as `row[1].lower() == category.lower()` does. */
  function CategoryIsIgnoringCase(category: string): Row -> bool
  {
    (row: Row) => Lower(row[1]) == Lower(category)
  }

  /** The ways `delete_expense` ends: an error caught and printed (the file
      cannot be opened), nothing to delete (at most a header in the file),
      an invalid menu choice, or the file rewritten with the count printed. */
  datatype Deletion = Failed | NothingToDelete | InvalidChoice | Deleted(rows: Ledger, count: int)

  /** The filter behind menu choice "1" (by date) or "2" (by category,
      ignoring case). */
  function Selected(choice: string, key: string): Row -> bool
  {
    if choice == "1" then DateIs(key) else CategoryIsIgnoringCase(key)
  }

  /** `delete_expense`. The whole file, header included, goes through the
      filter; `deleted_count` is the drop in length. A missing file is caught
      by the `except` clause. */
  function DeleteExpense(store: Option<Ledger>, choice: string, key: string): (d: Deletion)
    ensures store.None? ==> d == Failed
    ensures store.Some? && |store.value| <= 1 ==> d == NothingToDelete
    ensures store.Some? && |store.value| > 1 && choice != "1" && choice != "2" ==> d == InvalidChoice
    ensures store.Some? && |store.value| > 1 && choice == "1" ==>
              var l := store.value;
              d.Deleted? && (forall row :: row in d.rows <==> row in l && row[0] != key)
              && d.count == CountMatches(l, DateIs(key))
    ensures store.Some? && |store.value| > 1 && choice == "2" ==>
              var l := store.value;
              d.Deleted? && (forall row :: row in d.rows <==> row in l && Lower(row[1]) != Lower(key))
              && d.count == CountMatches(l, CategoryIsIgnoringCase(key))
    ensures d.Deleted? ==> store.Some? && 0 <= d.count == |store.value| - |d.rows|
  {
    match store
    case None => Failed
    case Some(l) =>
      if |l| <= 1 then NothingToDelete
      else if choice == "1" || choice == "2" then
        var kept := Remove(l, Selected(choice, key));
        RemovedCount(l, Selected(choice, key));
        Deleted(kept, |l| - |kept|)
      else InvalidChoice
  }

  /** The header is filtered like a data row: deleting by category with the
      key "category" in any case removes it, and the count includes it. */
  lemma HeaderDeletedByCategory(l: Ledger, key: string)
    requires |l| > 1 && l[0] == Header
    ensures var d := DeleteExpense(Some(l), "2", key);
            Header in d.rows <==> Lower(key) != "category"
  {
    assert Header[1] == "Category";
    LowerCategoryWord();
  }

  /** The same for the date filter and the key "Date". */
  lemma HeaderDeletedByDate(l: Ledger, key: string)
    requires |l| > 1 && l[0] == Header
    ensures var d := DeleteExpense(Some(l), "1", key);
            Header in d.rows <==> key != "Date"
  {
    assert Header[0] == "Date";
  }

  /** Deleting by category with two keys that agree ignoring case gives the
      same file and the same count. */
  lemma DeleteByCategoryIgnoresKeyCase(l: Ledger, key1: string, key2: string)
    requires Lower(key1) == Lower(key2)
    ensures DeleteExpense(Some(l), "2", key1) == DeleteExpense(Some(l), "2", key2)
  {
  }

  /** Every copy of a row survives a delete unless the chosen filter selects
      it, in which case none does. */
  lemma DeleteRowFate(l: Ledger, choice: string, key: string, row: Row)
    requires |l| > 1 && (choice == "1" || choice == "2")
    ensures multiset(DeleteExpense(Some(l), choice, key).rows)[row]
            == if (choice == "1" && row[0] == key) || (choice == "2" && Lower(row[1]) == Lower(key))
               then 0 else multiset(l)[row]
  {
    RemoveMultiplicity(l, Selected(choice, key), row);
  }

  /** The rows a delete keeps are those kept from each part of any split, in
      order: survivors keep their relative order. */
  lemma DeleteSplits(l: Ledger, n: nat, choice: string, key: string)
    requires |l| > 1 && (choice == "1" || choice == "2") && n <= |l|
    ensures DeleteExpense(Some(l), choice, key).rows
            == Remove(l[..n], Selected(choice, key)) + Remove(l[n..], Selected(choice, key))
  {
    assert l == l[..n] + l[n..];
    RemoveConcat(l[..n], l[n..], Selected(choice, key));
  }

  /** `total_by_category`: the header is skipped, an empty list is reported,
      any error (a missing file, no header row, a bad amount) is caught by
      the same handler, and otherwise the categories appear in first-seen
      order with their sums. */
  method TotalByCategory(store: Option<Ledger>, parse: AmountParser) returns (r: Report<Totals>)
    ensures store.None? || store == Some([]) ==> r == Unreadable
    ensures store.Some? && |store.value| == 1 ==> r == NoExpenses
    ensures store.Some? && |store.value| > 1 ==>
              (r.Ready? <==> AllParse(store.value[1..], parse))
              && (r.Ready? ==> r.value == TotalsOf(store.value[1..], parse))
              && (!r.Ready? ==> r == Unreadable)
  {
    var contents := Read(store);
    if contents.Missing? || contents.Headerless? {
      return Unreadable;
    }
    var rows := contents.rows;
    if rows == [] {
      return NoExpenses;
    }
    var t := SumByCategory(rows, parse);
    r := if t.Some? then Ready(t.value) else Unreadable;
  }
}

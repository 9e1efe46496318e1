/** expense-tracker.py: one key deletes the rows whose date or category
    equals it, and category totals without an early return. Rows are added
    verbatim (`Expenses.AddExpense`). */
module Tracker {
  import opened Wrappers
  import opened Expenses

  function DateOrCategoryIs(key: string): Row -> bool
  {
    (row: Row) => row[0] == key || row[1] == key
  }

  /** `delete_expense`: keeps `row` exactly when `row[0] != key and
      row[1] != key`; the header goes through the same test. */
  function DeleteExpense(l: Ledger, key: string): (r: Ledger)
    ensures forall row :: row in r <==> row in l && row[0] != key && row[1] != key
    ensures |r| <= |l|
  {
    Remove(l, DateOrCategoryIs(key))
  }

  /** The header is dropped exactly when the key is "Date" or "Category";
      the "Amount" field is never compared. */
  lemma HeaderDeleted(l: Ledger, key: string)
    requires l != [] && l[0] == Header
    ensures Header !in DeleteExpense(l, key) <==> key == "Date" || key == "Category"
  {
    assert Header[0] == "Date" && Header[1] == "Category";
  }

  /** Deleting with the same key again changes nothing. */
  lemma DeleteIdempotent(l: Ledger, key: string)
    ensures DeleteExpense(DeleteExpense(l, key), key) == DeleteExpense(l, key)
  {
    RemoveIdempotent(l, DateOrCategoryIs(key));
  }

  /** The survivors keep their relative order: deleting from a file split in
      two is deleting from each part. */
  lemma DeleteSplits(l: Ledger, n: nat, key: string)
    requires n <= |l|
    ensures DeleteExpense(l, key) == DeleteExpense(l[..n], key) + DeleteExpense(l[n..], key)
  {
    assert l == l[..n] + l[n..];
    RemoveConcat(l[..n], l[n..], DateOrCategoryIs(key));
  }

  /** Each copy of a row survives exactly when neither its date nor its
      category is the key. */
  lemma RowFate(l: Ledger, key: string, row: Row)
    ensures multiset(DeleteExpense(l, key))[row]
            == if row[0] == key || row[1] == key then 0 else multiset(l)[row]
  {
    RemoveMultiplicity(l, DateOrCategoryIs(key), row);
  }

  /** `show_expenses_by_category`: no early return, so a file with no
      expenses gives an empty table; a category starts at 0 on first sight. */
  method ShowExpensesByCategory(store: Option<Ledger>, parse: AmountParser) returns (r: Report<Totals>)
    ensures store.None? ==> r == NoFile
    ensures store == Some([]) ==> r == Unreadable
    ensures store.Some? && |store.value| == 1 ==> r == Ready(Totals([], map[]))
    ensures store.Some? && |store.value| >= 1 ==>
              (r.Ready? <==> AllParse(store.value[1..], parse))
              && (r.Ready? ==> r.value == TotalsOf(store.value[1..], parse))
              && (!r.Ready? ==> r == Unreadable)
  {
    if store.None? {
      return NoFile;
    }
    if store.value == [] {
      return Unreadable;
    }
    var t := SumByCategory(store.value[1..], parse);
    r := if t.Some? then Ready(t.value) else Unreadable;
  }
}

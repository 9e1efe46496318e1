/** GISLAIN/Expense.py: a delete that sets the header aside and drops every
    data row matching the date or the category (a blank key takes no part),
    and category totals without an early return. Rows are added verbatim
    (`Expenses.AddExpense`). */
module Gislain {
  import opened Wrappers
  import opened Expenses

  /** `(date and row[0] == date) or (category and row[1] == category)`:
      an empty string is false in Python, so a blank key selects nothing. */
  function Matches(date: string, category: string): Row -> bool
  {
    (row: Row) => (date != "" && row[0] == date) || (category != "" && row[1] == category)
  }

  /** How `delete_expense` ends: `next(reader)` raises on an empty file
      before anything is written, or the file is rewritten and `deleted`
      says whether any row was dropped. */
  datatype Deletion = NoHeader | Rewritten(rows: Ledger, deleted: bool)

  /** `delete_expense`: the header is written back first, then each data row
      is either dropped (setting `deleted`) or kept and written after it. */
  method DeleteExpense(l: Ledger, date: string, category: string) returns (d: Deletion)
    ensures l == [] ==> d == NoHeader
    ensures l != [] ==> d.Rewritten?
                        && d.rows == [l[0]] + Remove(l[1..], Matches(date, category))
                        && (d.deleted <==> exists row :: row in l[1..] && Matches(date, category)(row))
                        && (d.deleted <==> |d.rows| < |l|)
  {
    if l == [] {
      return NoHeader;
    }
    var header, expenses := l[0], l[1..];
    var matches := Matches(date, category);
    var kept: seq<Row> := [];
    var deleted := false;
    var i := 0;
    while i < |expenses|
      invariant 0 <= i <= |expenses|
      invariant kept == Remove(expenses[..i], matches)
      invariant deleted <==> |kept| < i
    {
      var row := expenses[i];
      assert expenses[..i + 1] == expenses[..i] + [row];
      RemoveStep(expenses[..i], row, matches);
      if matches(row) {
        deleted := true;
      } else {
        kept := kept + [row];
      }
      i := i + 1;
    }
    assert expenses[..i] == expenses;
    RemoveShortens(expenses, matches);
    var written := [header] + kept;
    return Rewritten(written, deleted);
  }

  /** With both keys blank nothing matches, so the rewritten file equals the
      old one. */
  lemma BlankKeysKeepEverything(l: Ledger)
    requires l != []
    ensures [l[0]] + Remove(l[1..], Matches("", "")) == l
  {
    RemoveNothing(l[1..], Matches("", ""));
  }

  /** Each data row is dropped exactly when its date equals a non-blank date
      key or its category equals a non-blank category key; every copy of a
      kept row survives. */
  lemma DataRowFate(l: Ledger, date: string, category: string, row: Row)
    requires l != []
    ensures var kept := Remove(l[1..], Matches(date, category));
            multiset(kept)[row]
            == if (date != "" && row[0] == date) || (category != "" && row[1] == category)
               then 0 else multiset(l[1..])[row]
  {
    RemoveMultiplicity(l[1..], Matches(date, category), row);
  }

  /** `show_total_expenses_by_category`: there is no early return, so a file
      with no expenses gives an empty table. */
  method ShowTotalExpensesByCategory(store: Option<Ledger>, parse: AmountParser) returns (r: Report<Totals>)
    ensures store.None? ==> r == NoFile
    ensures store == Some([]) ==> r == Unreadable
    ensures store.Some? && |store.value| == 1 ==> r == Ready(Totals([], map[]))
    ensures store.Some? && |store.value| >= 1 ==>
              (r.Ready? <==> AllParse(store.value[1..], parse))
              && (r.Ready? ==> r.value == TotalsOf(store.value[1..], parse))
              && (!r.Ready? ==> r == Unreadable)
  {
    var contents := Read(store);
    if contents.Missing? {
      return NoFile;
    } else if contents.Headerless? {
      return Unreadable;
    }
    var t := SumByCategory(contents.rows, parse);
    r := if t.Some? then Ready(t.value) else Unreadable;
  }
}

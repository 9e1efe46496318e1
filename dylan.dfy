/** Dylan/expense.py: delete by the position shown in the listing, the most
    expensive expense, and category totals. Rows are added verbatim
    (`Expenses.AddExpense`). */
module Dylan {
  import opened Wrappers
  import opened Expenses

  /** `delete_expense`. `selection` is the number typed, `None` when `int()`
      rejects it. Position n (counted from 1 over the data rows) is file row
      n, so the header at row 0 is never the one removed; a position outside
      1..(number of data rows) changes nothing. */
  function DeleteExpense(l: Ledger, selection: Option<int>): (r: Ledger)
    ensures selection.Some? && 1 <= selection.value < |l| ==>
              var n := selection.value;
              |r| == |l| - 1
              && r[0] == l[0]
              && (forall i :: 0 <= i < n ==> r[i] == l[i])
              && (forall i :: n <= i < |r| ==> r[i] == l[i + 1])
    ensures !(selection.Some? && 1 <= selection.value < |l|) ==> r == l
  {
    match selection
    case None => l
    case Some(number) =>
      var index := number - 1;
      if 0 <= index < |l| - 1 then l[..index + 1] + l[index + 2..] else l
  }

  /** A valid delete removes exactly one copy of the selected row and
      nothing else. */
  lemma DeleteRemovesOne(l: Ledger, n: int)
    requires 1 <= n < |l|
    ensures multiset(DeleteExpense(l, Some(n))) == multiset(l) - multiset{l[n]}
  {
    assert l == l[..n] + [l[n]] + l[n + 1..];
  }

  /** The position of the first row whose amount is the largest: what
      `max(expenses, key=lambda x: float(x[2]))` returns, since `max` only
      moves on to a later row whose amount is strictly larger. */
  function FirstMaxIndex(rows: seq<Row>, parse: AmountParser): (k: nat)
    requires rows != []
    ensures k < |rows|
    ensures forall j :: 0 <= j < |rows| ==> AmountOf(rows[j], parse) <= AmountOf(rows[k], parse)
    ensures forall j :: 0 <= j < k ==> AmountOf(rows[j], parse) < AmountOf(rows[k], parse)
  {
    if |rows| == 1 then 0
    else
      var init := rows[..|rows| - 1];
      var k := FirstMaxIndex(init, parse);
      assert forall j :: 0 <= j < |init| ==> init[j] == rows[j];
      if AmountOf(rows[|rows| - 1], parse) > AmountOf(rows[k], parse) then |rows| - 1 else k
  }

  /** The two properties above pin the position down: no other position has
      them. */
  lemma FirstMaxUnique(rows: seq<Row>, parse: AmountParser, k: nat)
    requires k < |rows|
    requires forall j :: 0 <= j < |rows| ==> AmountOf(rows[j], parse) <= AmountOf(rows[k], parse)
    requires forall j :: 0 <= j < k ==> AmountOf(rows[j], parse) < AmountOf(rows[k], parse)
    ensures k == FirstMaxIndex(rows, parse)
  {
    var m := FirstMaxIndex(rows, parse);
    assert AmountOf(rows[m], parse) == AmountOf(rows[k], parse);
  }

  /** `show_most_expensive`: no expenses is reported; a bad amount anywhere
      makes `max` raise; otherwise the first row with the largest amount. */
  function ShowMostExpensive(store: Option<Ledger>, parse: AmountParser): (r: Report<Row>)
    ensures store.None? ==> r == NoFile
    ensures store == Some([]) ==> r == Unreadable
    ensures store.Some? && |store.value| == 1 ==> r == NoExpenses
    ensures store.Some? && |store.value| > 1 ==>
              var rows := store.value[1..];
              (r.Ready? <==> AllParse(rows, parse))
              && (!r.Ready? ==> r == Unreadable)
              && (r.Ready? ==>
                    exists k :: 0 <= k < |rows| && rows[k] == r.value
                      && (forall j :: 0 <= j < |rows| ==> AmountOf(rows[j], parse) <= AmountOf(r.value, parse))
                      && (forall j :: 0 <= j < k ==> AmountOf(rows[j], parse) < AmountOf(r.value, parse)))
  {
    match Read(store)
    case Missing => NoFile
    case Headerless => Unreadable
    case Data(rows) =>
      if rows == [] then NoExpenses
      else if !AllParse(rows, parse) then Unreadable
      else
        var k := FirstMaxIndex(rows, parse);
        Ready(rows[k])
  }

  /** `show_total_by_category`: the header is skipped, an empty list is
      reported, and otherwise the categories appear in first-seen order with
      their sums. */
  method ShowTotalByCategory(store: Option<Ledger>, parse: AmountParser) returns (r: Report<Totals>)
    ensures store.None? ==> r == NoFile
    ensures store == Some([]) ==> r == Unreadable
    ensures store.Some? && |store.value| == 1 ==> r == NoExpenses
    ensures store.Some? && |store.value| > 1 ==>
              (r.Ready? <==> AllParse(store.value[1..], parse))
              && (r.Ready? ==> r.value == TotalsOf(store.value[1..], parse))
              && (!r.Ready? ==> r == Unreadable)
  {
    if store.None? {
      return NoFile;
    }
    var l := store.value;
    if l == [] {
      return Unreadable;
    }
    var expenses := l[1..];
    if expenses == [] {
      return NoExpenses;
    }
    var t := SumByCategory(expenses, parse);
    r := if t.Some? then Ready(t.value) else Unreadable;
  }
}

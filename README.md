# Expense tracker ledger, modelled in Dafny

The repository holds five near-duplicate command-line expense trackers
(`placide/proj.py`, `kenny/track.py`, `Dylan/expense.py`,
`GISLAIN/Expense.py`, `expense-tracker.py`). Each keeps a CSV ledger whose
first row is the header `Date,Category,Amount` and whose other rows are
expenses `[date, category, amount]`, and offers add, delete and
per-category totals behind a text menu.

This project models the ledger logic under the prompts:

- `Expenses` (expenses.dfy) holds what all five scripts share:
  - the row and ledger types, and the start-up step that creates a
    header-only file when none exists;
  - verbatim appending;
  - the read step (`next(reader)` skips one row, the rest are listed);
  - the row filter `Remove` that every delete is built on, with its laws;
  - the per-category accumulation loop `SumByCategory`, proved against the
    first-seen-order specification `TotalsOf`.
- `Text` (text.dfy) holds `str.lower()`, `str.capitalize()` on ASCII letters,
  and `str.strip()`.
- `Placide`, `Kenny`, `Dylan`, `Gislain` and `Tracker` (one file per script;
  `Tracker` is `expense-tracker.py`) model each script's own add, delete,
  totals and, in Dylan's script, most-expensive operation.

Some code is the same in every script, so it is modelled once:
- The start-up step is at placide/proj.py:10-13, kenny/track.py:8-11,
  Dylan/expense.py:7-10, GISLAIN/Expense.py:8-11 and expense-tracker.py:6-9.
- Verbatim add is at Dylan/expense.py:12-19, GISLAIN/Expense.py:13-23 and
  expense-tracker.py:13-20.
- The accumulation loop appears in every totals function.

The file is an in-memory `seq<Row>`, with a missing file modelled as `None`.
A `Row` is a sequence of at least three strings. Amounts are abstracted by a
parameter `parse: string -> Option<int>` (say, cents). `None` stands where
Python's `float()` raises.

Three of the scripts send the header row through their delete filter:
placide, kenny and expense-tracker.py. The lemmas `HeaderDeletedBy...`
state when this deletes the header:
- placide: the key `Date`, or `category` in any case;
- kenny: the key `Date`, or `category` in any case;
- expense-tracker.py: the key `Date` or `Category`.

`Placide.DeletingHeaderHidesFirstExpense` shows what follows: every later
read skips the first expense.

The GISLAIN and Dylan deletes always keep the header.

## Model

| member | source | states |
|---|---|---|
| Expenses.Initialize | placide/proj.py:10-13 | an absent file becomes the header-only ledger; an existing file is returned untouched |
| Expenses.InitializeIdempotent | placide/proj.py:10-13 | running start-up on the file it produced changes nothing |
| Expenses.Append | placide/proj.py:46-48 | append mode adds exactly one row after all existing rows, which are unchanged |
| Expenses.AddExpense | Dylan/expense.py:12-19 | the three answers become one new last row, verbatim and unchecked; earlier rows unchanged (also expense-tracker.py:13-20, GISLAIN/Expense.py:13-21) |
| Expenses.Read | placide/proj.py:105-108 | opening a missing file, an empty file (no row for `next` to skip) and any non-empty file are three distinct outcomes; the listed rows are everything after row 0, whatever row 0 holds |
| Expenses.AddToMissingFile | placide/proj.py:46-48 | adding to a missing file creates it with that row and no header, so every later read lists only the rows added after it |
| Expenses.AppendThenRead | placide/proj.py:46-57 | a row appended and then read back appears after the previously listed rows, which are unchanged |
| Expenses.Remove | placide/proj.py:92 | a list comprehension keeps exactly the rows the predicate does not select: a row is in the result iff it is in the input and unselected; never longer |
| Expenses.RemoveConcat | expense-tracker.py:53 | filtering is done row by row in order: filtering a concatenation is concatenating the filtered parts, so survivors keep their relative order |
| Expenses.RemoveMultiplicity | placide/proj.py:92 | every copy of an unselected row survives, no copy of a selected row does |
| Expenses.RemoveStep | GISLAIN/Expense.py:63-68 | one more row at the end is written after the kept rows unless it is selected |
| Expenses.RemoveShortens | GISLAIN/Expense.py:63-71 | the filter drops something iff some row is selected |
| Expenses.RemovedCount | kenny/track.py:103 | the drop in length equals the number of selected rows |
| Expenses.RemoveNothing | GISLAIN/Expense.py:63-68 | when no row is selected the filter returns its input unchanged |
| Expenses.RemoveIdempotent | expense-tracker.py:53 | filtering again with the same predicate changes nothing |
| Expenses.Categories | placide/proj.py:114-116 | the dictionary's keys in insertion order: no category is listed twice |
| Expenses.CategoriesMembers | placide/proj.py:114-116 | a string is a key iff some row has it as its category |
| Expenses.CategoriesStep | kenny/track.py:121-124 | one more row adds its category at the end of the key order iff it was not yet a key |
| Expenses.CategorySumStep | kenny/track.py:124 | one more row adds its amount to its own category's total and to no other |
| Expenses.CategoriesPrefix | kenny/track.py:120-124 | the key order of the rows read so far is a prefix of the final order: keys stay in first-seen order |
| Expenses.CategorySumAbsent | kenny/track.py:124 | a category no row carries totals 0 (the `get(category, 0)` default) |
| Expenses.TotalsStep | kenny/track.py:121-124 | one row adds its amount to its category's total, inserting the category at the end with that amount when first seen, and leaves other categories alone |
| Expenses.TotalsStepKeys | kenny/track.py:121-124 | after one row, the key order and key set are those the row's update leaves |
| Expenses.TotalsStepAt | kenny/track.py:121-124 | after one row, each key's total is what that row's update leaves there |
| Expenses.TotalsAddUp | placide/proj.py:114-121 | the category totals add up to the sum of all amounts: nothing lost, nothing counted twice |
| Expenses.SumByCategory | placide/proj.py:114-116 | the accumulation loop yields a result iff every amount parses, and then exactly the first-seen-order dictionary of per-category sums |
| Text.Lower | kenny/track.py:94 | `lower()` keeps the length and lower-cases each ASCII letter in place |
| Text.LowerIdempotent | kenny/track.py:94 | lower-casing twice is lower-casing once |
| Text.Capitalize | placide/proj.py:37 | `capitalize()` keeps the length, upper-cases the first character and lower-cases the rest |
| Text.CapitalizeHead | placide/proj.py:37 | a capitalised string never starts with a lower-case letter |
| Text.CapitalizeIdempotent | placide/proj.py:94 | capitalising an already capitalised key changes nothing |
| Text.LowerCapitalize | placide/proj.py:37 | capitalising loses nothing but case |
| Text.CapitalizeEqIffLowerEq | placide/proj.py:94-95 | two keys capitalise equally iff they are equal ignoring case |
| Text.LowerKeepsNonUpper | kenny/track.py:94 | a string without upper-case letters is its own lower case |
| Text.CapitalizeLowerWord | placide/proj.py:37 | capitalising a word with no upper-case letters changes only its first letter |
| Text.CapitalizeCategoryWord | placide/proj.py:94 | the key `category` capitalises to the header word `Category` |
| Text.LowerCategoryWord | kenny/track.py:94 | the word `category` is its own lower case |
| Text.SkipForward | kenny/track.py:35 | scanning forward from an index stops at the first non-whitespace character, having passed only whitespace |
| Text.SkipBackward | kenny/track.py:35 | scanning backward to a lower bound stops after the last non-whitespace character, having passed only whitespace |
| Text.TextStart | kenny/track.py:35 | everything before this index is whitespace and the character at it is not |
| Text.TextEnd | kenny/track.py:35 | everything from this index on is whitespace, the character before it is not, and it is not before the start |
| Text.Strip | kenny/track.py:35-36 | `strip()` returns the slice between the leading and the trailing whitespace, with no whitespace left at either end, and is empty iff the input is all whitespace |
| Text.StripIdempotent | kenny/track.py:35 | stripping twice is stripping once |
| Text.SameUpperIffSameLower | placide/proj.py:94 | two characters agree in upper case iff they agree in lower case |
| Placide.ValidateAmount | placide/proj.py:22-27 | accepted iff the text parses and the value is above 0; a parse failure is a rejection |
| Placide.AddExpense | placide/proj.py:29-48 | one row `[date, capitalize(category), amount]` appended after the unchanged rows; its amount parses to a positive value and its category equals the input ignoring case and does not start with a lower-case letter |
| Placide.DeleteExpense | placide/proj.py:74-99 | any choice but "1"/"2" leaves the ledger unchanged; "1" keeps exactly the rows whose date differs from the key, "2" exactly those whose category differs from the capitalised key, header included |
| Placide.DeleteByCategoryIgnoresKeyCase | placide/proj.py:94-95 | keys equal ignoring case delete the same rows |
| Placide.LowerCaseCategorySurvives | placide/proj.py:94-95 | a stored category starting with a lower-case letter is never deleted by category |
| Placide.HeaderDeletedByDate | placide/proj.py:85-92 | the header survives delete-by-date iff the key is not "Date" |
| Placide.HeaderDeletedByCategory | placide/proj.py:85-95 | the header survives delete-by-category iff the key is not "category" in some case |
| Placide.DeletingHeaderHidesFirstExpense | placide/proj.py:92-108 | if no expense is dated "Date", deleting "Date" removes only the header, and the next read skips the first expense |
| Placide.DeleteSplits | placide/proj.py:92-95 | either delete on a split ledger is that delete on each part: kept rows keep their relative order |
| Placide.DeleteRowFate | placide/proj.py:92-95 | every copy of a row survives unless the chosen filter selects it (its date is the key, or its category is the capitalised key), and then none does |
| Placide.ShowCategoryTotals | placide/proj.py:103-125 | missing file, empty file and header-only file are reported; otherwise a table iff all amounts parse, and it is the first-seen-order per-category sums of the rows after the header |
| Kenny.CategoryOrDefault | kenny/track.py:35-37 | the stored category is never blank and has no surrounding whitespace: "Uncategorized" iff the answer was all whitespace, otherwise the stripped answer |
| Kenny.AddExpense | kenny/track.py:27-48 | one row of stripped date, defaulted category and the re-rendered parsed amount appended after the unchanged rows |
| Kenny.DeleteExpense | kenny/track.py:76-107 | a missing file is caught and reported; at most one row: nothing to delete; otherwise an invalid choice changes nothing; "1" keeps exactly the rows with another date, "2" those whose category differs ignoring case, header included; the count is the number of selected rows and the drop in length |
| Kenny.HeaderDeletedByDate | kenny/track.py:89-91 | the header survives delete-by-date iff the key is not "Date" |
| Kenny.HeaderDeletedByCategory | kenny/track.py:92-94 | the header survives delete-by-category iff the key is not "category" in some case |
| Kenny.DeleteByCategoryIgnoresKeyCase | kenny/track.py:94 | keys equal ignoring case give the same file and count |
| Kenny.DeleteRowFate | kenny/track.py:89-94 | every copy of a row survives unless the chosen filter selects it (its date is the key, or its category equals the key ignoring case), and then none does |
| Kenny.DeleteSplits | kenny/track.py:89-94 | the kept rows are the rows kept from each part of any split, in order: survivors keep their relative order |
| Kenny.TotalByCategory | kenny/track.py:109-133 | a missing file, an empty file and a bad amount all reach the one `except` handler (`Unreadable`); a header-only file is reported as no expenses; otherwise the first-seen-order per-category sums of the rows after the header |
| Dylan.DeleteExpense | Dylan/expense.py:42-58 | position n in 1..(data rows) removes exactly file row n: one row shorter, header kept, rows before n unchanged, rows after n shifted down by one; any other or unparsable selection changes nothing |
| Dylan.DeleteRemovesOne | Dylan/expense.py:49-50 | a valid delete removes one copy of the selected row and nothing else |
| Dylan.FirstMaxIndex | Dylan/expense.py:71 | the position of a row whose amount is at least every row's, with every earlier row strictly cheaper: the first maximum |
| Dylan.FirstMaxUnique | Dylan/expense.py:71 | those two properties determine the position |
| Dylan.ShowMostExpensive | Dylan/expense.py:60-74 | no expenses is reported; otherwise a result iff every amount parses, and it is a data row whose amount is at least every other's, preceded only by strictly cheaper rows |
| Dylan.ShowTotalByCategory | Dylan/expense.py:76-97 | as Placide.ShowCategoryTotals |
| Gislain.DeleteExpense | GISLAIN/Expense.py:46-71 | an empty file raises before writing; otherwise the header is written back first, followed by exactly the data rows the OR predicate does not select; `deleted` holds iff some data row was selected, iff the file got shorter |
| Gislain.BlankKeysKeepEverything | GISLAIN/Expense.py:64-68 | with both keys blank the rewritten file equals the old one |
| Gislain.DataRowFate | GISLAIN/Expense.py:63-68 | a data row is removed iff (date key non-blank and equal to its date) or (category key non-blank and equal to its category); otherwise every copy survives |
| Gislain.ShowTotalExpensesByCategory | GISLAIN/Expense.py:73-94 | no early return: a header-only file gives an empty table; otherwise as Placide.ShowCategoryTotals |
| Tracker.DeleteExpense | expense-tracker.py:46-58 | keeps exactly the rows whose date and category both differ from the key, header included |
| Tracker.HeaderDeleted | expense-tracker.py:53 | the header is removed iff the key is "Date" or "Category" |
| Tracker.DeleteIdempotent | expense-tracker.py:53 | deleting the same key twice gives the same ledger as once |
| Tracker.DeleteSplits | expense-tracker.py:53 | kept rows keep their relative order |
| Tracker.RowFate | expense-tracker.py:53 | every copy of a row survives iff neither its date nor its category is the key |
| Tracker.ShowExpensesByCategory | expense-tracker.py:63-81 | no early return: a header-only file gives an empty table; otherwise a table iff all amounts parse, first-seen-order per-category sums |

## Left out

- Menus, prompts and the re-prompting loops in `main` and `add_expense` are interface only. The add functions take the answers the loops accepted, and printed messages are not modelled. GISLAIN's menu shows "3" for the totals entry that "4" selects (GISLAIN/Expense.py:103 and 114); this is not modelled.
- `validate_date` (placide/proj.py:15-20, kenny/track.py:13-18) is left out. It calls `datetime.strptime`, whose accepted formats are not visible here, so dates are taken as typed.
- File I/O and the CSV module's quoting are not modelled. A missing file is `None` in the totals and most-expensive reports and in kenny's delete, which catches the error (kenny/track.py:106-107).
- Every add opens the file in append mode, which creates a missing file. The adds take the file's rows, and a missing file is the empty ledger: `Append([], row)` is a file with that row and no header, which `Expenses.AddToMissingFile` follows through later reads.
- Placide.DeleteExpense, Dylan.DeleteExpense, Gislain.DeleteExpense, Tracker.DeleteExpense: take an existing file. On a missing file these crash with `FileNotFoundError`, which is not modelled.
- Tracker.ShowExpensesByCategory: expense-tracker.py has no `try`, so a missing file, an empty file (`next(reader)`, expense-tracker.py:68) and a bad amount (`float(row[2])`, expense-tracker.py:71) all crash. The model reports them as `NoFile` and `Unreadable`.
- Placide.ShowCategoryTotals, Dylan.ShowTotalByCategory, Dylan.ShowMostExpensive and Gislain.ShowTotalExpensesByCategory: a bad amount or an empty file crashes these, where kenny reports it. Both are `Unreadable`.
- Python `float` parsing, rounding, NaN and the `:,.2f` formatting are not modelled. Amounts are whole numbers from an abstract `parse`.
- Kenny.AddExpense: the text that `str(float(amount))` writes is an abstract `render` parameter.
- Text.Lower, Text.Capitalize: only ASCII letters change case. Python's Unicode case mapping of other letters is not modelled.
- The `Row` type limits the model to rows of three or more fields. A shorter row, including the `[]` that `csv.reader` returns for a blank line, is handled differently by each operation:
  - Dylan's delete (Dylan/expense.py:45-53) never reads a field itself. It first calls `view_expenses`, which prints all three fields of every data row (Dylan/expense.py:37), so a short data row crashes it before the prompt. A short header row is skipped by the listing and is never the row deleted.
  - The date filters (placide/proj.py:92, kenny/track.py:91) read only `row[0]`, and expense-tracker.py:53 reads only `row[0]` and `row[1]`. They work on rows with enough fields for that.
  - The category filters, the totals and the most-expensive search read `row[1]` or `row[2]`, so a shorter row raises `IndexError`. kenny catches and reports it (kenny/track.py:106, 132); placide, Dylan and expense-tracker.py crash.
  - Gislain.DeleteExpense: with both keys blank, the test at GISLAIN/Expense.py:64 short-circuits, so a short row is written back with no error. With a non-blank key, `row[0]` or `row[1]` (GISLAIN/Expense.py:64), or `row[2]` in the message for a matched two-field row (GISLAIN/Expense.py:66), raises. This happens after the file was reopened for writing (GISLAIN/Expense.py:59), so the file keeps the header and the rows written so far, and every later row is lost. The model has no such partial write.
- Dylan.DeleteExpense: `del reader[index + 1]` on the row list is modelled as a function returning the new list. `int()` parsing of the typed number is the `Option<int>` parameter. The `view_expenses()` call before the prompt (Dylan/expense.py:43) lists the rows. It is outside the `try`, so on an empty file its `next(reader)` (Dylan/expense.py:27) raises `StopIteration` and the script crashes before the prompt. The model instead returns the empty ledger unchanged. The file is the same either way, but the crash is not modelled.
- `view_expenses` in every script is display only. The rows it prints are `Expenses.Read`.
- `plot_expenses` (placide/proj.py:127-155) draws a chart with matplotlib and is not modelled.
- The print at module level in expense-tracker.py:11 is output only and is not modelled.

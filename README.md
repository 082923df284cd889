# Spending Tracker ledger store, modelled in Dafny

The Spending Tracker is a desktop personal-finance ledger. All of its data
handling lives in one small class, `DB`, in `spend_tracker_pyqt_final.py`. The
class keeps an SQLite table `entries` of dated income and expense lines and
offers these operations:

- `add`, `update` and `delete` change the table;
- `fetch` gives a filtered listing, most recent first;
- `totals` gives the income, the expense and the balance of that listing;
- `by_category` gives one sum per category over a date range.

The chart tab turns the `by_category` rows into pie slices for the expense
categories.

This project models that store as a state machine over a finite map from id to
entry. The SQL text of each statement fixes what the operation does:

- `ledger_types.dfy` (module `LedgerTypes`) holds dates, entries and rows. It
  also holds two orders. `LexLess` is SQLite's BINARY text order: code points
  compared one by one, and a proper prefix sorts first. `Precedes` is the
  `ORDER BY date(dt) DESC, ifnull(tm,'00:00') DESC, id DESC` key of `fetch`.
  The module proves that `Precedes` is a strict total order on rows with
  distinct ids.
- `ledger_query.dfy` (module `LedgerQuery`) models `fetch`, `totals` and
  `by_category` as functions of the map. It proves:
  - filter soundness and completeness;
  - the order of the listing, and that this order makes the listing unique;
  - the sign split of the totals;
  - the group-by and its sum identities with `totals`.
- `ledger_store.dfy` (module `LedgerStore`) holds the class `DB`. Its field
  `entries` is the table and its field `lastId` is the AUTOINCREMENT sequence.
  `Add` changes both fields; `Update` and `Delete` change only `entries`. After the class
  come lemmas on how each mutation moves the listing and the balance.
- `expense_chart.dfy` (module `ExpenseChart`) models the slice-selection loop
  of `update_chart` as a method with a loop invariant. The method is proved
  against the function `ExpenseSlices`.
- `ledger_examples.dfy` (module `LedgerExamples`) holds concrete examples:
  - the listing order within one date;
  - a row without a time against a row stamped midnight;
  - the totals after a paycheck and a rent payment.

Modelling choices:

- A date is a `(year, month, day)` triple, compared lexicographically. For
  valid ISO dates this is what `date(dt)` comparison does.
- A time is an optional string, compared in BINARY order after
  `ifnull(tm, '00:00')`, exactly as the SQL does.
- Amounts are exact `real`s, so every sum identity is exact.
- An absent date bound stands for both `None` and the empty string, which the
  source treats alike (`if dt_from:`).
- A category argument of `None`, `""` or `"All"` means no category filter
  (`RestrictsCategory`).
- Ids follow AUTOINCREMENT. A new id is one more than the largest id ever
  issued (`lastId`), so ids are never reused after a delete. Once id 2^63-1
  has been issued, SQLite refuses further inserts with SQLITE_FULL, and `Add`
  then returns `Full`.

Two behaviours of the code worth knowing:

- **Rows without a time.** A row without a time sorts as if stamped
  `'00:00'`. Against a `'00:00'` row of the same date, the larger id therefore
  comes first, whichever row has the time (`UntimedSortsAsMidnight`).
- **No input checks in `DB`.** `DB` checks no input. The form parses the
  amount (`_parse_amount`, lines 373-377) before it calls `DB`, and an empty
  date or category is stored as given.

## Model

| member | source | states |
|---|---|---|
| `LedgerTypes.PrecedesAsymmetric` | spend_tracker_pyqt_final.py:115 | if row a is listed before row b under the ORDER BY key, b is not listed before a |
| `LedgerTypes.PrecedesTransitive` | spend_tracker_pyqt_final.py:115 | the ORDER BY key is transitive |
| `LedgerTypes.PrecedesTotal` | spend_tracker_pyqt_final.py:115 | of two rows with different ids, one is listed before the other: ids make the order total |
| `LedgerQuery.Listing` | spend_tracker_pyqt_final.py:115 | listing a set of stored ids yields one row per id, exactly the stored rows with those ids, each listed before every later one |
| `LedgerQuery.ListedUnique` | spend_tracker_pyqt_final.py:115 | two strictly ordered sequences of the same rows are equal, so a listing is fully determined (repeated reads agree) |
| `LedgerQuery.Fetch` | spend_tracker_pyqt_final.py:103-118 | a row is listed iff it is stored and its date is on or after `dt_from` (when given), on or before `dt_to` (when given), and its category equals `category` unless that is absent, empty or "All"; the listing is strictly ordered by date desc, time desc (NULL as '00:00'), id desc; its length is the number of matching rows |
| `LedgerQuery.FetchDistinctIds` | spend_tracker_pyqt_final.py:103-118 | no id is listed twice by `fetch` |
| `LedgerQuery.IncomeSum` | spend_tracker_pyqt_final.py:122 | the sum of the amounts >= 0 is never negative, and positive iff some amount is positive |
| `LedgerQuery.ExpenseSum` | spend_tracker_pyqt_final.py:123 | the sum of the amounts < 0 is never positive, and negative iff some amount is negative |
| `LedgerQuery.IncomePlusExpense` | spend_tracker_pyqt_final.py:122-124 | income plus expense equals the plain sum of all amounts |
| `LedgerQuery.Totals` | spend_tracker_pyqt_final.py:120-124 | over the rows `fetch` lists for the same arguments: income >= 0, expense <= 0, balance = income + expense = sum of the listed amounts; income > 0 iff a matching entry has a positive amount, expense < 0 iff one has a negative amount; all three are 0 when nothing matches |
| `LedgerQuery.SignSums` | spend_tracker_pyqt_final.py:122-123 | the income sum is the plain sum of the rows with amount >= 0, and the expense sum that of the rows with amount < 0 |
| `LedgerQuery.SignPartFetch` | spend_tracker_pyqt_final.py:103-118 | listing only the entries on one side of the sign split gives the full listing restricted to that side, in the same order |
| `LedgerQuery.TotalsSplitBySign` | spend_tracker_pyqt_final.py:120-124 | the income `totals` reports is the balance of the matching entries with amount >= 0, and the expense the balance of those with amount < 0 |
| `LedgerQuery.Ascending` | spend_tracker_pyqt_final.py:136 | a set of categories is listed once each, in strictly ascending BINARY order |
| `LedgerQuery.ByCategory` | spend_tracker_pyqt_final.py:126-139 | ignoring the category argument, the rows name exactly the categories of the entries within the date bounds, one row per category, in strictly ascending order |
| `LedgerQuery.ByCategoryRowSum` | spend_tracker_pyqt_final.py:128-136 | every row's sum, whatever its category (`""` and "All" included), is the balance `totals` gives over the same dates for a store holding only the entries of that category |
| `LedgerQuery.CategoryPartFetch` | spend_tracker_pyqt_final.py:106-115 | listing only the entries of one category within the dates gives the date-only listing restricted to that category, in the same order |
| `LedgerQuery.FetchOfCategory` | spend_tracker_pyqt_final.py:106-115 | filtering by a category lists exactly the date-only listing restricted to that category, in the same order |
| `LedgerQuery.ByCategoryRowIsBalance` | spend_tracker_pyqt_final.py:120-139 | each `by_category` row's sum equals the balance `totals` reports for that row's category over the same dates, for every category other than `""` and "All" |
| `LedgerQuery.GroupsSumIsAmountSum` | spend_tracker_pyqt_final.py:128-136 | grouping by a duplicate-free list of categories that covers every row neither loses nor repeats an amount |
| `LedgerQuery.ByCategoryAddsUpToBalance` | spend_tracker_pyqt_final.py:120-139 | the `by_category` sums add up to the balance `totals` reports for the same dates with category "All" |
| `LedgerQuery.ListingSumInsert` | spend_tracker_pyqt_final.py:115-124 | listing one more row adds exactly its amount to the sum of the listed amounts, wherever it lands in the order |
| `LedgerStore.DB.constructor` | spend_tracker_pyqt_final.py:67-73 | a new store is empty and has issued no id |
| `LedgerStore.DB.Add` | spend_tracker_pyqt_final.py:83-90 | the new id is one more than the largest id ever issued, so it is held by no entry and exceeds all of them; the table is the old one plus exactly the new entry with the given fields; when id 2^63-1 was already issued nothing changes and `Full` is reported |
| `LedgerStore.DB.Update` | spend_tracker_pyqt_final.py:92-97 | the entry with that id gets all five new fields and keeps its id; every other entry is unchanged; an unknown id leaves the table unchanged |
| `LedgerStore.DB.Delete` | spend_tracker_pyqt_final.py:99-101 | exactly the entry with that id is removed, all others are untouched; an unknown id is a no-op; the id counter is not rewound |
| `LedgerStore.FetchAfterInsert` | spend_tracker_pyqt_final.py:83-90 | after `add`, `fetch` lists the rows it listed before plus the new row, if that row passes the filter |
| `LedgerStore.FetchAfterRemove` | spend_tracker_pyqt_final.py:99-101 | after `delete`, `fetch` lists what it listed before except the deleted row |
| `LedgerStore.BalanceAfterInsert` | spend_tracker_pyqt_final.py:83-90 | `add` moves every `totals` balance by the new amount if the new entry passes the filter, and leaves it unchanged otherwise |
| `LedgerStore.BalanceAfterRemove` | spend_tracker_pyqt_final.py:99-101 | `delete` moves every balance back by the removed amount if that entry passed the filter |
| `LedgerStore.BalanceAfterReplace` | spend_tracker_pyqt_final.py:92-97 | `update` trades the old entry's contribution to every balance for the new entry's |
| `ExpenseChart.ExpenseSlices` | spend_tracker_pyqt_final.py:510-516 | as many slices as rows with a negative sum; a slice is shown iff some row with a negative sum has its category and minus that sum as value; every value is positive |
| `ExpenseChart.ExpenseSlicesAppend` | spend_tracker_pyqt_final.py:511-515 | the slices of two runs of rows are those of the first followed by those of the second, so slices keep the rows' order and multiplicity |
| `ExpenseChart.ExpenseSlicesOfRow` | spend_tracker_pyqt_final.py:512-515 | a single row gives exactly one slice (its category, minus its sum) when its sum is negative, and none otherwise |
| `ExpenseChart.SliceTotal` | spend_tracker_pyqt_final.py:516 | the total of positive slice values is never negative, and non-zero exactly when there is a slice |
| `ExpenseChart.ExpenseSlicesKeepOrder` | spend_tracker_pyqt_final.py:511-515 | slices keep the order of the rows: ascending categories stay ascending |
| `ExpenseChart.SelectExpenseSlices` | spend_tracker_pyqt_final.py:510-516 | the loop yields exactly `ExpenseSlices(data)` and a total equal to their sum, never negative, and non-zero exactly when some slice is shown |
| `ExpenseChart.ChartOfByCategory` | spend_tracker_pyqt_final.py:506-516 | fed the `by_category` rows, the chart shows each overspent category once, in ascending order |
| `LedgerExamples.MostRecentFirst` | spend_tracker_pyqt_final.py:115 | rows at 2024-01-02 12:00, 2024-01-01 08:00 and 2024-01-01 with no time are listed in that order |
| `LedgerExamples.UntimedSortsAsMidnight` | spend_tracker_pyqt_final.py:115 | a row without a time ties with a midnight row of the same date, and the larger id is listed first |
| `LedgerExamples.PaycheckThenRent` | spend_tracker_pyqt_final.py:120-124 | after adding +2000.00 and -1200.00 to an empty store, totals are (2000.00, -1200.00, 800.00) |

## Left out

- The SQLite connection, WAL journal mode and commits (lines 68-72) are not modelled. Each operation takes effect at once and alone.
- Opening a database file that already holds rows is not modelled. The constructor models a store created empty.
- The time-column migration in `_maybe_add_time_column` (lines 75-81) is not modelled. Rows written before the migration are covered, because an entry's time is optional.
- Only valid calendar dates are modelled. SQLite's `date()` maps malformed strings to NULL and rolls a day past the month's end into the next month (`2024-02-30` becomes `2024-03-01`). On triples that are not calendar dates, the model orders the triple as written and so differs.
- Floating-point behaviour is not modelled: `REAL` storage, rounding in `sum`/`SUM`, the `float()` parsing in `_parse_amount` and the `,.2f` formatting. Amounts are exact reals.
- NOT NULL violations are not modelled: passing `None` for `dt`, `category` or `amount` makes SQLite raise an integrity error. The types here have no absent value for those fields.
- Storage faults (I/O error, disk full, lock timeout) are not modelled. The one table-full case that the id counter itself causes is modelled, as `Full`.
- The user interface is not modelled: widgets, theming, table filling, selection, message boxes, the CSV export, chart drawing and labels, the `DB_PATH` location, `main` and the Windows DPI call. None of it changes the store's meaning.
- `LedgerQuery.ByCategoryRowIsBalance`: stated only for categories other than `""` and `"All"`, because `fetch` cannot filter by those two names. `ByCategoryRowSum` states the row sum for every category, those two included.

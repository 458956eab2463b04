# pmd-pylibrary core, modelled in Dafny

This project models three pieces of the pmd-pylibrary Python library.

- **`DataExplorerChain`** (`data_explorer_chain.dfy`, `pivot_table.dfy`, `currency.dfy`) is a fluent object holding one table in `df`.
  - `load` picks a reader by the lower-cased file extension. On an Excel `TypeError` it falls back to a second reader that skips `header_row` rows. It then projects on the requested columns.
  - `pivot_format` works step by step on a pivot table: it fills nulls, adds a "Grand Total" column of row sums, adds a "Grand Total" row of column sums, and rewrites integer columns as currency text (`{:,.Nf}`).
  - `select_columns`, `pivot` and `filter` replace `df`.
  - `get` returns `df`.
- **`get_week_of_month_iso`** (`week_of_month.dfy`) numbers each date's week within its month. Weeks run Monday to Sunday, and the 1st is always in week 1. When a month starts on a weekend, week 1 is anchored at that Saturday.
- **`DatabaseManager`** (`sqlite_queries.dfy`) builds the query text and parameter tuples for `create_table`, `add`, `delete` and `select`.

`wrappers.dfy` holds the `Option`, `Result` and `Outcome` types. These stand for Python's `None` and for raised exceptions.

How the model is built:

- **The chain** is a class. Only its field `df: Option<Table>` changes.
  - Each method replaces `df` and returns the exception it raised, if any, as an `Outcome`.
  - `Load` and `PivotFormat` are stated against the functions `LoadFrom` and `PivotFormatSteps`. The properties are lemmas about those functions.
  - The currency loop over the schema rewrites one column per turn. Its invariant is that formatting the remaining columns yields the fully formatted table.
- **A table** (`PivotTable.Frame`) is the name of its first (index) column, its value columns with a type (`Int64` or `Utf8`), and rows. Each row has a text key and one cell per value column; a cell is null, an integer or text.
  - `Table` is the subset of frames where every cell fits its column's type and all column names are distinct.
- **A date** is a day number whose weekday is `n % 7`, with Monday = 0, plus its day of the month.
- **A Python dict** is a sequence of key/value pairs in insertion order.

Assumptions about the table library used by `pivot_format`:

- An integer `fill_null` value fills integer columns only.
- Sums skip nulls, so a null counts as 0.
- `with_columns` under an existing name replaces that column where it stands, otherwise it appends.
- Summing over a text column fails (`InvalidOperation`). The model checks this before adding the totals.

Where the code and its stated intent differ, the model follows the code:

- `pivot_format` checks only that a table is present, not that `pivot` was called.
- A failing step does not always leave `df` as it was. In `load`, a failed projection leaves the read table, unprojected (data_explorer_chain.py:41-76). In `pivot_format`, a failed total step leaves the filled table (data_explorer_chain.py:135-157).
- The docstring of `get_week_of_month_iso` says a weekend-started week 1 runs "up to the next Saturday". The code keeps week 1 through the Sunday after the first Monday: the 9th when the 1st is a Saturday, the 8th when it is a Sunday (`WeekendStartAnchorsWeekOne`).
- `{:,.Nf}` converts an integer to a double before printing it, so above 2^53 in magnitude the printed digits are those of the nearest double, not of the integer (`Currency.ToDouble`).

## Model

| member | source | states |
|---|---|---|
| WeekOfMonth.WeekStart | pmdlib/utils/get_week_of_month_iso.py:28 | the start of the current week is a Monday at most six days before the date |
| WeekOfMonth.FirstWeekStart | pmdlib/utils/get_week_of_month_iso.py:17-26 | week 1 starts at the Monday of the 1st's week, or, when the 1st is a Saturday or Sunday, at that Saturday; never after the 1st |
| WeekOfMonth.WeekOfMonth | pmdlib/utils/get_week_of_month_iso.py:17-30 | every week number is at least 1, and equals the unclamped number whenever that is at least 1 |
| WeekOfMonth.WeekOfMonthClosedForm | pmdlib/utils/get_week_of_month_iso.py:17-30 | an independent closed form from the weekday of the 1st and the day of the month: `(d-1+wd)/7+1` when the month starts Monday to Friday, `max((d-1+wd)/7, 1)` when it starts on a weekend |
| WeekOfMonth.FirstIsWeekOne | pmdlib/utils/get_week_of_month_iso.py:17-30 | the 1st of every month is in week 1, whatever its weekday |
| WeekOfMonth.SameWeekSameNumber | pmdlib/utils/get_week_of_month_iso.py:28-29 | two dates of one month in the same Monday-started week get the same number |
| WeekOfMonth.SameWeekIffSameNumber | pmdlib/utils/get_week_of_month_iso.py:28-29 | where the clamp does not apply, two dates of one month share a number exactly when they share a Monday-started week |
| WeekOfMonth.AdvanceOneWeek | pmdlib/utils/get_week_of_month_iso.py:28-30 | seven days later in the same month the number is exactly one higher, where the clamp does not apply |
| WeekOfMonth.Monotone | pmdlib/utils/get_week_of_month_iso.py:28-30 | within one month the number never decreases as the date advances |
| WeekOfMonth.WeekendStartAnchorsWeekOne | pmdlib/utils/get_week_of_month_iso.py:23-30 | when the 1st is a weekend day, every date up to the Sunday after the next Monday is week 1, and the following seven days are week 2 |
| WeekOfMonth.GetWeekOfMonthIso | pmdlib/utils/get_week_of_month_iso.py:16-33 | one result per input date, in order, with the input's index, each the week of that date |
| SqliteQueries.CreateTable | pmdlib/db/sqlite_dbmanager.py:17-29 | a table creation binds no parameters |
| SqliteQueries.CreateTableColumns | pmdlib/db/sqlite_dbmanager.py:18-27 | the statement is the table head, the column list and the closing text; when no name or type holds a comma and no name a space, splitting the column list on `", "` gives one definition per dict entry, in order, and each splits at its first space back into that entry's name and type |
| SqliteQueries.CreateTableHasNoMarks | pmdlib/db/sqlite_dbmanager.py:24-29 | with names free of `?`, the statement has no placeholder, matching its empty parameters |
| SqliteQueries.Add | pmdlib/db/sqlite_dbmanager.py:31-43 | the parameters are the dict's values in key order |
| SqliteQueries.AddBindsByPosition | pmdlib/db/sqlite_dbmanager.py:33-43 | column names and values come from the same dict in the same order; pairing them again gives the dict back, so the i-th value binds to the i-th column |
| SqliteQueries.AddMarksMatchParams | pmdlib/db/sqlite_dbmanager.py:32-43 | the placeholder list holds one `?` per entry, and the statement holds exactly as many `?` as parameters |
| SqliteQueries.Delete | pmdlib/db/sqlite_dbmanager.py:45-55 | the parameters are the criteria values in key order |
| SqliteQueries.DeleteConditions | pmdlib/db/sqlite_dbmanager.py:46-55 | the WHERE clause is `"col = ?"` per key joined by `" AND "`, the i-th parameter is the i-th criterion's value, and the marks match the parameters |
| SqliteQueries.Select | pmdlib/db/sqlite_dbmanager.py:57-73 | the query always starts with `SELECT * FROM table`; with no criteria (None or empty) there is no WHERE and no parameter, otherwise the WHERE clause lists the conditions and the values are bound in order; ORDER BY comes last, only when `order_by` is truthy; with names free of `?`, marks equal parameters |
| Currency.DigitsValue | analytics-data-explorer/data_explorer_chain.py:168 | the decimal digits of an integer read back to the integer |
| Currency.UngroupGroup | analytics-data-explorer/data_explorer_chain.py:161 | taking the thousands separators out of grouped digits gives the digits back |
| Currency.GroupLength | analytics-data-explorer/data_explorer_chain.py:161 | grouping adds one comma per full group of three digits beyond the first |
| Currency.GroupLayout | analytics-data-explorer/data_explorer_chain.py:161 | counted from the end of the grouped digits, every fourth character is a comma and no other character is |
| Currency.ToDouble | analytics-data-explorer/data_explorer_chain.py:161-168 | `float(x)` keeps the sign of x |
| Currency.ToDoubleNearest | analytics-data-explorer/data_explorer_chain.py:161-168 | `float(x)` is a multiple of the spacing of doubles at x's binary length (a tie going to the even one), at most half a spacing from x, and x itself up to 2^53 in magnitude |
| Currency.FormatCurrency | analytics-data-explorer/data_explorer_chain.py:161-168 | with 0 decimals there is no point; otherwise the text ends in a point and exactly `decimals` zeros |
| Currency.FormatCurrencyRoundTrip | analytics-data-explorer/data_explorer_chain.py:161-168 | reading the currency text back gives `float(x)` for every integer and number of decimals, and so x itself whenever its magnitude is at most 2^53 |
| Currency.FormatCurrencyRoundsAboveExact | analytics-data-explorer/data_explorer_chain.py:161-168 | every odd integer between 2^53 and 2^54 is printed as its neighbour n - 1 or n + 1, so reading the text back does not give it (2^53 + 1 prints as 2^53) |
| Currency.FormatCurrencyExamples | analytics-data-explorer/data_explorer_chain.py:161-168 | 1234567 with 2 decimals is `1,234,567.00`; -1000 with none is `-1,000` |
| PivotTable.ColumnNames | analytics-data-explorer/data_explorer_chain.py:132 | the first column is the index column, followed by the value columns in schema order |
| PivotTable.FillNull | analytics-data-explorer/data_explorer_chain.py:135-136 | the fill keeps the columns, the row keys and the row order, and touches only null cells of integer columns |
| PivotTable.FillNullLeavesNoNull | analytics-data-explorer/data_explorer_chain.py:135-136 | after the fill no integer cell is null, and every non-null cell keeps its value |
| PivotTable.FillNullIdempotent | analytics-data-explorer/data_explorer_chain.py:135-136 | filling a second time with the same value changes nothing |
| PivotTable.AddTotalColumn | analytics-data-explorer/data_explorer_chain.py:139-144 | "Grand Total" holds each row's sum over all value columns; it is appended last as an integer column, or written in place when a column of that name already exists |
| PivotTable.AddTotalRow | analytics-data-explorer/data_explorer_chain.py:146-157 | exactly one row, keyed "Grand Total", is appended at the bottom, and the columns are unchanged |
| PivotTable.TotalCells | analytics-data-explorer/data_explorer_chain.py:147-156 | the total row holds, for every value column, that column's sum over the rows above |
| PivotTable.SumsInterchange | analytics-data-explorer/data_explorer_chain.py:142-157 | totalling the column sums gives the same number as totalling the row sums |
| PivotTable.GrandTotalsShape | analytics-data-explorer/data_explorer_chain.py:138-157 | with `grand_total`, the column count and the row count each grow by one; the last column is "Grand Total" with each row's sum after the fill; the last row is keyed "Grand Total" and holds each column's sum over all prior rows, including the total column |
| PivotTable.GrandTotalCorner | analytics-data-explorer/data_explorer_chain.py:142-157 | the "Grand Total" column stands last when it was appended, or where it already stood; the total row's cell in it equals the sum of every value cell after the fill, computed either over row sums or over column sums |
| PivotTable.GrandTotalCornerOriginal | analytics-data-explorer/data_explorer_chain.py:134-157 | with no fill or a fill of 0, the corner cell equals the sum of every original value cell, also when a "Grand Total" column already existed |
| PivotTable.GrandTotalCornerCurrency | analytics-data-explorer/data_explorer_chain.py:110-172 | with the defaults (currency, totals, fill 0) the corner cell is the currency text of the sum of every value cell, after the fill and, with a fill of 0 or none, of the original cells |
| PivotTable.FormatColumn | analytics-data-explorer/data_explorer_chain.py:162-172 | one integer column becomes a text column of currency strings; nulls stay null, and every other column and every row key is unchanged |
| PivotTable.FormatStepEffect | analytics-data-explorer/data_explorer_chain.py:162-172 | one turn of the loop turns column j into a text column with its integer cells rendered, and leaves every other column as it was |
| PivotTable.FormatFromEffect | analytics-data-explorer/data_explorer_chain.py:162-172 | the loop over the schema from a column on keeps the columns before it and turns the others into text, rendering each integer cell |
| PivotTable.CurrencyFormattedEffect | analytics-data-explorer/data_explorer_chain.py:160-172 | after formatting, no cell is an integer, every column is text, names, keys and the index are untouched, and only integer cells changed |
| PivotTable.NoFormatKeepsTypes | analytics-data-explorer/data_explorer_chain.py:134-172 | without "currency", the result is the filled table plus any totals, and every original value cell keeps its filled value and type |
| PivotTable.CurrencyFormatEffect | analytics-data-explorer/data_explorer_chain.py:159-172 | "currency" raises the same errors as any other format; on success it is the unformatted result with every integer cell rendered with `decimals` places and every column text |
| PivotTable.CurrencyReapplied | analytics-data-explorer/data_explorer_chain.py:134-172 | a second currency `pivot_format` without totals, using the same fill, changes nothing |
| PivotTable.SalesExample | analytics-data-explorer/data_explorer_chain.py:132-157 | sales of regions E and W in 2023 and 2024, with W's 2024 sale missing, filled with 0 and totalled, give row totals 30 and 5, column totals 15 and 20, and 35 in the corner |
| DataExplorer.ReadOptionsFor | analytics-data-explorer/data_explorer_chain.py:34 | `header_row` is present, equal to `skip_rows`, exactly when `skip_rows` is not 0; otherwise the options are empty; reading it back with default 0 gives `skip_rows` in both cases |
| DataExplorer.ExcelFallback | analytics-data-explorer/data_explorer_chain.py:44-66 | when the first Excel reader raises TypeError, the second is called with the same path and sheet, skipping exactly the rows given to the chain |
| DataExplorer.SuffixSpec | analytics-data-explorer/data_explorer_chain.py:39 | the name is the stem followed by the extension; the extension is non-empty exactly when the name has a dot after its first character and does not end with a dot, and then it is a dot followed by characters that hold no dot |
| DataExplorer.Lower | analytics-data-explorer/data_explorer_chain.py:39 | lowering keeps the length and maps each ASCII capital letter to its small letter |
| DataExplorer.LoadIgnoresCase | analytics-data-explorer/data_explorer_chain.py:39-44 | two paths whose file names differ only in letter case have the same extension, so `load` picks the same reader |
| DataExplorer.ReadFile | analytics-data-explorer/data_explorer_chain.py:41-73 | `.csv` and `.parquet` use their readers; `.xls` and `.xlsx` use the Excel reader, with the fallback on TypeError; any other extension makes no read |
| DataExplorer.LoadUnsupported | analytics-data-explorer/data_explorer_chain.py:39-73 | `load` raises ValueError exactly when the lower-cased extension is not `.csv`, `.xls`, `.xlsx` or `.parquet`; the message names the extension and `df` is unchanged |
| DataExplorer.FilterRows | analytics-data-explorer/data_explorer_chain.py:176-179 | the kept rows all satisfy the predicate and come from the table |
| DataExplorer.FilterKeepsMatches | analytics-data-explorer/data_explorer_chain.py:176-179 | every row satisfying the predicate is kept, and filtering twice is filtering once |
| DataExplorer.FilterTable | analytics-data-explorer/data_explorer_chain.py:176-179 | filtering keeps the index and the columns and keeps only the matching rows |
| DataExplorer.DataExplorerChain.constructor | analytics-data-explorer/data_explorer_chain.py:16-35 | the chain keeps its path, columns and sheet, translates `skip_rows` into the reader options, and holds no table |
| DataExplorer.DataExplorerChain.Load | analytics-data-explorer/data_explorer_chain.py:37-78 | the raised error and the new `df` are those of `LoadFrom` |
| DataExplorer.DataExplorerChain.SelectColumns | analytics-data-explorer/data_explorer_chain.py:90-98 | with no table the call fails with AttributeError; otherwise `df` becomes the projection, or stays as it was when the projection fails |
| DataExplorer.DataExplorerChain.Pivot | analytics-data-explorer/data_explorer_chain.py:100-108 | with no table the call fails with AttributeError; otherwise `df` becomes the pivot, or stays as it was when the pivot fails |
| DataExplorer.DataExplorerChain.PivotFormat | analytics-data-explorer/data_explorer_chain.py:110-174 | with no table it raises RuntimeError "Call .pivot() before .pivot_format()" and changes nothing; otherwise `df` and the error are those of `PivotFormatSteps`, with the table kept as it was at the step that failed |
| DataExplorer.DataExplorerChain.Filter | analytics-data-explorer/data_explorer_chain.py:176-179 | with no table the call fails with AttributeError; otherwise `df` keeps exactly the matching rows, in order |
| DataExplorer.DataExplorerChain.Get | analytics-data-explorer/data_explorer_chain.py:181-183 | returns the held table |

## Left out

- The file readers are parameters of `Load`. These are `pl.read_csv`, `pl.read_excel`, `pd.read_excel` with `pl.from_pandas`, and `pl.read_parquet`. The model does not decode file formats, and it takes whatever table a reader returns.
- `select_columns` and `pivot` apply the library's projection and pivot as given functions. The model covers only how the chain replaces `df` with their results.
- `Filter` evaluates its expression as a row predicate that always succeeds. Errors raised while evaluating an expression (an unknown column, nulls) are not modelled.
- `explore`, `to_pandas`, `__del__` with `gc.collect`, and the `print` diagnostics in `load` are left out. They are console output, conversion to another library and memory management.
- Float cells are left out. A cell is an integer (the library's `Int64`, with values kept unbounded), text or null; only integer cells are formatted.
- Currency.ToDouble: an integer beyond the largest double (about 1.8 × 10^308), for which `float()` raises OverflowError, is rounded like any other. Cells of 64-bit columns never reach that range.
- A negative or non-integer `decimals` is left out. The source's format specification would raise ValueError for it; `decimals` is a `nat` in the model.
- Non-integer `fill_null` values are left out.
- 64-bit overflow of sums is not modelled. Integers are unbounded.
- `PivotTable.Frame`: the index column always holds text keys. An integer index column, which the currency loop would also format, is not modelled.
- PivotTable.PivotFormatSteps: when the index column itself is named "Grand Total", the source overwrites it with the row sums before the stacking fails with a schema error. The model reports the schema error (`SchemaMismatch`) but keeps the fill-only table.
- PivotTable.AddTotalColumn: a table with no value columns gets a total column of zeros. The library's behaviour for a horizontal sum over no columns is not modelled.
- PivotTable.FillNullLeavesNoNull: only integer cells are free of nulls after the fill, because an integer fill value does not fill text columns.
- PivotTable.GrandTotalCornerOriginal: with a fill value other than 0, the corner equals the sum after the fill (`GrandTotalCorner`), not the sum of the original cells.
- DataExplorer.Lower: only ASCII letters are lowered; Python's Unicode case mapping is not modelled.
- DataExplorer.Name: `Path` normalisation is reduced to dropping trailing separators and taking the text after the last `/`. Other normalisation (`.` components, Windows separators) is left out.
- The `TypeError` fallback is modelled as the first Excel reader returning a TypeError failure; other exceptions propagate unchanged.
- `pd.to_datetime` parsing and real calendar month lengths are left out. A date is a day number and a day of the month, and the model assumes the two are consistent.
- `DatabaseManager.__init__`, `__del__` and `_execute`, and everything sqlite3 does with a statement, are database I/O. The model stops at the statement text and parameter tuple.
- `utils/check_file_in_directory.py` (directory listing and printing) and `pmdlib/analytics/__init__.py` (import checks and a re-export) hold no logic to model.

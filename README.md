# Turnover master table: a verified model of `build_group`

The cron job `turnover_master_cron.py` builds one long turnover table per
category. For each category it fetches a list of wide CSV tables. Column 0 of
each table is the date axis, and every other column holds the turnover of one
instrument under its raw label. Then, for each file:

- it unpivots the table into `(date, ticker, turnover)` rows (`melt_wide`);
- it attaches a canonical label `ticker_norm` (`normalise_ticker`);
- it coerces the turnover to a number and drops the rows where that fails;
- it parses the dates.

Finally it concatenates the cleaned frames of all files and groups them by
`(date, ticker, ticker_norm)`, summing the turnover.

This project models that core in Dafny and proves what it promises. The
modules are:

- `Wrappers`: `Option` and `Result`.
- `Frames`: the tables passed between steps. A wide table is a list of
  labels plus rows of a raw date and cells. A cell is `Option<real>`: `None`
  is a cell that `pd.to_numeric(errors="coerce")` turns into NaN. A raw date
  is `Parsed(day)`, `Blank` (an empty cell, which becomes NaT) or `Garbled`
  (text that makes `pd.to_datetime` raise).
- `Ticker`: `normalise_ticker`. `Normalise` is a reference definition:
  uppercase, cut before the earliest separator, keep alphanumerics. The
  method `NormaliseTicker` follows the source's loop over the five
  separators and is proved equal to it.
- `Melt`: `melt_wide`, column by column, each column in row order, as
  `DataFrame.melt` lists them.
- `Clean`: lines 104-107 for one file: label, coerce, drop, parse dates.
- `CellTotals`: what one file contributes, read off the wide table itself. For
  every key it is the sum of the numeric cells with a parsed date under that
  key, each cell counted once. The cleaning is proved to deliver exactly that.
- `Aggregate`: the group-by sum as a fold of single rows into a table with
  distinct keys, together with the facts about key totals.
- `KeyOrder` and `Sorting`: the ascending key order in which the group-by
  lists its groups. Strings compare by code point, as Python compares them.
- `Build`: the loop of lines 96-110 as a method, proved equal to the
  specification function `BuildGroupSpec`. It also holds the whole-pipeline
  lemmas and a streaming variant. The streaming variant is an extension,
  not source behaviour, and is proved to give the same result.
- `Scenario`: worked examples with the labels `AAPL` and `AAPL-US`.

Failure is modelled, not excluded:

- A file without any column has no `df.columns[0]`, so it fails with
  `NoDateColumn`.
- A garbled date on a row that survives `dropna` makes `pd.to_datetime`
  raise, so the whole file fails with `UnparseableDate`.
- An empty file list makes `pd.concat` raise, so the result is `NoFrames`.
- The first failing file aborts the category. `FileFailed` records its
  position and reason.

Turnover is `real`, so sums are exact.

## Model

| member | source | states |
|---|---|---|
| Ticker.UpperChar | turnover_master_cron.py:86 | `str.upper` on one ASCII character: a lowercase letter becomes its own capital (same place in the alphabet), any other character is left alone, and the result is never lowercase and alphanumeric exactly when the input is |
| Ticker.Upper | turnover_master_cron.py:86 | `str.upper` keeps the length and uppercases each character in place |
| Ticker.PrefixBefore | turnover_master_cron.py:87-88 | cutting at a set of separators gives the longest prefix free of them: it is a prefix, holds no separator, and is followed by a separator or the end |
| Ticker.KeepAlnum | turnover_master_cron.py:89 | the join keeps exactly the alphanumeric characters: every kept character is alphanumeric and was in the input, every alphanumeric input character is kept, and an all-alphanumeric input is kept whole |
| Ticker.KeepAlnumOne | turnover_master_cron.py:89 | the join keeps one alphanumeric character and drops any other |
| Ticker.KeepAlnumAppend | turnover_master_cron.py:89 | the join works piece by piece, so the kept characters keep their order and their repeats |
| Ticker.NormaliseTicker | turnover_master_cron.py:85-89 | splitting on each of the five separators in turn, keeping the first piece, equals cutting before the earliest separator; the loop's result is the reference `Normalise` |
| Ticker.PrefixBeforeTwice | turnover_master_cron.py:87-88 | two successive cuts, at one set of separators and then another, are one cut at their union (the invariant of the separator loop) |
| Ticker.NormaliseAlphabet | turnover_master_cron.py:86-89 | the canonical label holds only uppercase letters and digits |
| Ticker.NormaliseNoLonger | turnover_master_cron.py:85-89 | the canonical label is never longer than the raw label (and may be empty) |
| Ticker.NormaliseFixed | turnover_master_cron.py:85-89 | a label of uppercase letters and digits is its own canonical form |
| Ticker.NormaliseIdempotent | turnover_master_cron.py:85-89 | normalising twice is normalising once |
| Ticker.UpperConcat | turnover_master_cron.py:86 | uppercasing commutes with concatenation |
| Ticker.PrefixBeforeStop | turnover_master_cron.py:88 | nothing after a separator survives the cut |
| Ticker.NormaliseCutsAtSeparator | turnover_master_cron.py:86-89 | whatever follows a separator never reaches the canonical label |
| Ticker.NormaliseAlnumPrefix | turnover_master_cron.py:86-89 | an alphanumeric ticker followed by a separator and any suffix normalises to the uppercased ticker (so `aapl-us`, `aapl us` and `aapl.us` all give `AAPL`) |
| Melt.MeltColumn | turnover_master_cron.py:78-82 | one value column melts into one row per table row, carrying that row's date, the column's label and the cell |
| Melt.MeltColumns | turnover_master_cron.py:78-82 | melting the value columns from j onwards yields one block of table rows per column |
| Melt.MeltWide | turnover_master_cron.py:76-82 | `melt_wide` fails exactly when the table has no column; otherwise it yields exactly rows × (columns − 1) rows |
| Melt.BlocksIsProduct | turnover_master_cron.py:78-82 | d blocks of n rows make d·n rows |
| Melt.MeltColumnsAt | turnover_master_cron.py:78-82 | the cell of row i and value column c sits in block c − j, at offset i, of the columns melted from j |
| Melt.MeltWideAt | turnover_master_cron.py:77-82 | the cell of row i and value column c lands at index c·rows + i, with the row's column-0 value as date, the column's label as ticker and the cell, blank or not, as turnover |
| Melt.BlockOf | turnover_master_cron.py:78-82 | every index of the melted table splits into a column block and a row offset |
| Melt.MeltWideOrigin | turnover_master_cron.py:77-82 | every melted row is one cell of the wide table under its own column's label and with its own row's date |
| Clean.AttachNorm | turnover_master_cron.py:104 | `ticker_norm` is attached to every row as `normalise_ticker(ticker)`, and nothing else changes |
| Clean.DropNa | turnover_master_cron.py:105-106 | `dropna` keeps exactly the rows whose turnover coerced to a number: every kept row was an input row with a number, every such input row is kept, and the table never grows |
| Clean.ParseDates | turnover_master_cron.py:107 | parsing fails exactly when some surviving row's date is garbled; otherwise every row with a parsed date is kept, every kept row comes from the input, and the table never grows |
| Clean.AttachNormAppend | turnover_master_cron.py:104 | labelling works row by row |
| Clean.DropNaOne | turnover_master_cron.py:105-106 | `dropna` keeps one row with a number and drops one with NaN |
| Clean.DropNaAppend | turnover_master_cron.py:106 | `dropna` works row by row, so surviving rows keep their order and their repeats |
| Clean.ParseDatesOne | turnover_master_cron.py:107 | one row's date: a garbled date raises, a blank one (NaT) drops the row, a day keeps it |
| Clean.ParseDatesAppend | turnover_master_cron.py:107 | parsing fails exactly where one of two parts fails, and otherwise keeps the rows in order and with their repeats |
| Clean.SurvivorOfCell | turnover_master_cron.py:102-106 | a cell that coerces to a number survives `dropna` under its column's label |
| Clean.CellOfSurvivor | turnover_master_cron.py:102-106 | every row surviving `dropna` is a cell that coerced to a number |
| Clean.CleanFileKeeps | turnover_master_cron.py:102-107 | in a file that cleans, no numeric cell has a garbled date, and each numeric cell with a parsed date is a cleaned row |
| Clean.CleanFileOrigin | turnover_master_cron.py:102-107 | every cleaned row is a numeric cell with a parsed date |
| Clean.CleanFileFails | turnover_master_cron.py:102-107 | a file fails exactly when it has no column (`NoDateColumn`) or a numeric cell's date is garbled (`UnparseableDate`) |
| Clean.CleanFileNoLonger | turnover_master_cron.py:102-106 | cleaning yields at most as many rows as the melt did |
| Clean.CleanFileNormalised | turnover_master_cron.py:104 | every cleaned row carries the canonical form of its own raw label |
| CellTotals.CleanRowsAppend | turnover_master_cron.py:104-107 | the per-file cleaning works row by row: it fails where one part fails, and otherwise concatenates the parts' rows |
| CellTotals.CleanRowsOne | turnover_master_cron.py:104-107 | one melted cell fails the file only when it is a number with a garbled date, and otherwise adds its value to its own key alone, if its date parses |
| CellTotals.CleanColumn | turnover_master_cron.py:78-107 | one melted and cleaned column holds, for every key, that key's total over the column's cells |
| CellTotals.CleanColumns | turnover_master_cron.py:78-107 | the melted and cleaned value columns hold, for every key, that key's total over their cells |
| CellTotals.CleanFileTotals | turnover_master_cron.py:102-107 | a file that cleans holds, for every key, exactly the sum of the wide table's numeric cells with a parsed date under that key, each cell counted once, repeats included |
| Aggregate.SumForConcat | turnover_master_cron.py:112-118 | key totals distribute over concatenation |
| Aggregate.SumForAbsent | turnover_master_cron.py:115-118 | a key that does not occur has total zero |
| Aggregate.SumForDistinct | turnover_master_cron.py:115-118 | in a table with distinct keys, each row's turnover is its key's total |
| Aggregate.AddRow | turnover_master_cron.py:115-118 | folding one row into an aggregate adds its key and adds its turnover to that key's total, keeps keys distinct, and appends a new key at the end |
| Aggregate.MergeIntoHead | turnover_master_cron.py:115-118 | folding a row into a table that starts with its key adds the turnover to that first row |
| Aggregate.PassHead | turnover_master_cron.py:115-118 | folding a row with another key passes the first row by |
| Aggregate.GroupSum | turnover_master_cron.py:115-118 | the group-by yields distinct keys, exactly the input's keys, the input's total for every key, and never more rows than its input |
| Aggregate.GroupSumMeaning | turnover_master_cron.py:115-118 | at most one row per key; no output key absent from the input; every input key present; each row's turnover is the sum over all input rows sharing its key; the key-to-total map is the input's |
| Aggregate.GroupSumOfDistinct | turnover_master_cron.py:115-118 | a table whose keys are already distinct is its own aggregate |
| Aggregate.GroupSumIdempotent | turnover_master_cron.py:115-118 | re-aggregating an aggregated table by the same key leaves it unchanged |
| Aggregate.GroupSumSnoc | turnover_master_cron.py:115-118 | aggregating one more row is folding it into the aggregate |
| Aggregate.GroupSumThenMore | turnover_master_cron.py:112-118 | aggregating, then adding rows and aggregating again, is aggregating everything at once |
| Aggregate.SumForPermutation | turnover_master_cron.py:112-118 | the same rows in any order have the same key totals |
| Aggregate.KeySetPermutation | turnover_master_cron.py:112-118 | the same rows in any order have the same keys |
| Aggregate.GroupSumOrderIrrelevant | turnover_master_cron.py:112-118 | the aggregate does not depend on row order: the same map, and the same rows up to their order |
| Aggregate.SameTotalsConcat | turnover_master_cron.py:112 | concatenating tables with the same totals gives tables with the same totals |
| Aggregate.SameTotalsSameRows | turnover_master_cron.py:115-118 | two tables with distinct keys and the same totals hold the same rows |
| Aggregate.MergeAggregates | turnover_master_cron.py:112-118 | re-aggregating the union of two aggregates gives the aggregate of all their rows |
| KeyOrder.StrLessTransitive | turnover_master_cron.py:116 | Python's string order is transitive |
| KeyOrder.StrLessTotal | turnover_master_cron.py:116 | any two different strings are ordered one way or the other |
| KeyOrder.KeyLessTransitive | turnover_master_cron.py:116 | the order on (date, ticker, ticker_norm) keys is transitive |
| KeyOrder.KeyLessTotal | turnover_master_cron.py:116 | any two different keys are ordered one way or the other |
| Sorting.Insert | turnover_master_cron.py:115-118 | inserting a row adds it to the rows and keeps a table with distinct keys sorted |
| Sorting.SortByKey | turnover_master_cron.py:115-118 | the group-by's ordering keeps the rows and, when the keys are distinct, puts them in strictly ascending key order |
| Sorting.SortedUnique | turnover_master_cron.py:115-118 | two tables in ascending key order with the same rows are the same table |
| Sorting.SortByKeyOfSorted | turnover_master_cron.py:115-118 | sorting a table already in key order leaves it unchanged |
| Sorting.SortedAggregate | turnover_master_cron.py:115-118 | the group-by's output is in ascending key order, has one row per input key, holds each key's total, and equals the input as a key-to-total map |
| Build.Outcomes | turnover_master_cron.py:98-107 | one cleaning outcome per file |
| Build.FirstFailure | turnover_master_cron.py:96-110 | the frames are every file's cleaned rows in list order exactly when every file cleans; otherwise the first failing file is reported, with its position and reason |
| Build.FirstFailureAt | turnover_master_cron.py:98-110 | the first file to fail is the one reported |
| Build.CleanFileSteps | turnover_master_cron.py:102-107 | the per-file steps give the cleaned rows, each with its canonical label, and at most rows × (columns − 1) of them |
| Build.BuildGroup | turnover_master_cron.py:96-118 | the loop over the files, then concat and group-by, computes exactly `BuildGroupSpec` |
| Build.ConcatAppend | turnover_master_cron.py:112 | concatenating two lists of frames is concatenating their concatenations |
| Build.ConcatMember | turnover_master_cron.py:112 | every concatenated row comes from one of the frames |
| Build.BuildGroupFails | turnover_master_cron.py:96-112 | `build_group` raises exactly when the file list is empty or one of its files fails |
| Build.BuildGroupTotals | turnover_master_cron.py:96-118 | the result is in ascending key order, has one row per key of all files' cleaned rows, each holding that key's total turnover across all files, and equals those rows as a key-to-total map |
| Build.ConcatTotals | turnover_master_cron.py:98-112 | the concatenated frames hold, for every key, its total over all files' cells |
| Build.BuildGroupCellTotals | turnover_master_cron.py:96-118 | each output row holds its key's total over every file's numeric cells with a parsed date, repeats included, and every key missing from the output totals zero |
| Build.CleanAllAt | turnover_master_cron.py:98-110 | frame i is file i's cleaned rows |
| Build.BuildGroupNormalised | turnover_master_cron.py:104-118 | every output row carries the canonical form of its own raw label |
| Build.BuildGroupKeyedByRawLabel | turnover_master_cron.py:104-116 | because `ticker_norm` is a function of `ticker`, no two output rows share a date and raw label, so raw labels that normalise alike stay apart |
| Build.BuildGroupStreaming | turnover_master_cron.py:96-118 | extension: a per-file fold that re-aggregates the running aggregate with each file's aggregate returns exactly what `build_group` returns |
| Build.MapSeqPermutation | turnover_master_cron.py:98 | cleaning a reordered file list gives the same frames in a reordered list |
| Build.ConcatPermutation | turnover_master_cron.py:112 | concatenating the same frames in any order gives the same rows in some order |
| Build.CleanAllFrames | turnover_master_cron.py:98-110 | when every file cleans, the frames are the files' rows |
| Build.BuildGroupFileOrder | turnover_master_cron.py:96-118 | the result does not depend on the order of the file list |
| Scenario.PlainLabel | turnover_master_cron.py:85-89 | `AAPL` is its own canonical label |
| Scenario.SuffixedLabel | turnover_master_cron.py:85-89 | `AAPL-US` normalises to `AAPL` |
| Scenario.SameLabelSummed | turnover_master_cron.py:115-118 | two readings of `AAPL` on the same day become one row of 150 |
| Scenario.SpellingsKeptApart | turnover_master_cron.py:104-118 | `AAPL` and `AAPL-US` on the same day stay two rows, though both normalise to `AAPL` |

## Left out

- Fetching and storing (`load_from_s3`, `save_parquet` and the boto3 client, lines 63, 70-73 and 129-146) are S3 network I/O and Parquet serialisation. The fetched tables are the input of `Build.BuildGroup`, and its result is not stored anywhere.
- Logging, `time.time()` timings, `del big` and the `__main__` wrapper are observability and memory management only.
- `main`'s loop over the categories only wires `build_group` to the sink, one category at a time.
- `pd.read_csv`, `pd.to_numeric` and `pd.to_datetime` are libraries the model cannot see. Their outcomes are the input: `Option<real>` per cell, and a three-way `RawDate` per date. The date cell is parsed from the raw first column, as line 107 does with `df.iloc[:, 0]`.
- Turnover is `real`, not a 64-bit float, so floating-point rounding in the sum is not modelled.
- `str.upper` and `str.isalnum` are modelled on ASCII. Other characters keep their case and count as non-alphanumeric.
- Clean.ParseDates: a blank date (NaT) is dropped when the dates are parsed. In pandas the row stays in the file's frame and is dropped by the group-by, which drops NaN keys by default. The final table is the same, but the per-file frame modelled here lacks those rows.
- Clean.ParseDates: a date is parsed only on rows that survive `dropna`, since line 107 runs after line 106. So a garbled date on a row with no numeric cell does not fail the file.
- Duplicate column labels, which `read_csv` renames, are not modelled: labels are taken as distinct strings.
- The header of column 0 is not looked at, so three error paths that depend on it are not modelled:
  - a column 0 headed `ticker` leaves two `ticker` columns after the melt, and the assignment of line 104 raises;
  - a column 0 headed `ticker_norm` has its dates overwritten at line 104 before line 107 parses them;
  - any column labelled `turnover` makes `DataFrame.melt` raise, because its `value_name` may not match a column.
- How pandas sorts the groups is not modelled. An insertion sort gives the group-by's output order instead; a strict order on distinct keys admits only one sorted arrangement, so the result is the same.
- The per-file fold of `Build.BuildGroupStreaming` is not in the source. It is a possible lower-memory variant, proved equal to the monolithic form; no memory bound is stated.
- Independence of the order of rows within a file is stated on the aggregate (`Aggregate.GroupSumOrderIrrelevant`), not on whole file lists.

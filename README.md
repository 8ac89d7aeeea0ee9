# Plant and customer dashboard: table cleaning and metrics

This project models the data core of a Streamlit dashboard over an Excel
workbook of solar plants ("Usinas") and customers ("Clientes"), all in
`app.py`:

- the sheet loader `carregar_planilhas`, which keys every sheet by its
  stripped name, so a later sheet overwrites an earlier one with the same key;
- the header normaliser `df_com_cabecalho`, which takes one row as the column
  labels, drops unnamed columns and drops the rows left with no value;
- the general summary `calcular_resumo_geral`: plant count and total
  installed power, each taken from the FIRST column whose label matches a
  substring (the plant count falls back to the row count), and the customer
  count, the row count of the customer sheet;
- the plant metrics `calcular_metricas_usinas`: AC power, peak power and
  mean tariff, each taken from the LAST matching column, because every match
  overwrites the previous one;
- the summary-board cleaner `calcular_metricas_quadro_resumo` and the sheet
  lookup of the "Quadro Resumo" page.

A cell is `Missing` (NaN), a number or a text. A frame is a list of labels
and rectangular rows. `df.empty` is "no rows or no columns". Python's
`str.strip()` is modelled with the full `str.isspace()` character set.
`p in s` for strings is a recursive substring test, proved equal to "some
window equals `p`". The loops of the source are methods with loop
invariants: `LoadSheets`, `FindFirst` (a search that stops at the first
hit) and `PlantMetrics` (a loop whose matches overwrite). `GeneralSummary`
is a method that runs its two column searches through `FindFirst`. Each
method is proved against a specification function, and the lemmas state
what the source promises about those functions.

`calcular_metricas_usinas` has no `break`, so the last matching column wins
(app.py:116-122), and `fillna(0)` makes a missing cell count as 0 in the
tariff mean (app.py:122).

Files: `wrappers.dfy` (Option), `strings.dfy` (strip, substring test,
decimal digits), `frames.dfy` (cells, frames, the normaliser and the board
cleaner), `metrics.dfy` (column search, sums, the two metric functions),
`workbook.dfy` (the loader and the page lookup).

## Model

| member | source | states |
|---|---|---|
| Strings.Strip | app.py:30 | `strip()` is never longer than its input and leaves no whitespace at either end |
| Strings.StripShape | app.py:30 | `strip()` returns a contiguous piece of the name, cut only at whitespace, with no whitespace at either end |
| Strings.StripEmptyIff | app.py:54 | a label strips to "" exactly when it is whitespace only |
| Strings.StripIdempotent | app.py:30 | stripping a stripped name changes nothing |
| Strings.ContainsBounds | app.py:78 | `p in s`: the empty pattern is in every string, and a pattern found is no longer than the string |
| Strings.ContainsIff | app.py:78 | the substring test holds exactly when some window of the label equals the pattern |
| Strings.ContainsLongerPattern | app.py:117 | a label containing a longer pattern contains its prefix |
| Strings.NatToString | app.py:136 | `str(i)` in `f"Col_{i}"` is a non-empty string of decimal digits with no leading zero |
| Strings.ParseNatToString | app.py:136 | the decimal digits of `i` read back as `i` |
| Strings.NatToStringInjective | app.py:136 | different numbers have different decimal digits |
| Frames.RawSheet | app.py:29 | a sheet read with `header=None` is rectangular, has the rows unchanged, and labels column `j` with the number `j` |
| Frames.Display | app.py:78 | `str(c)` of a numeric label holds only digits and `-` (weaker: the integer part only, see "Left out") |
| Frames.NamedIff | app.py:53-54 | a label survives both column filters exactly when it is not null and is not whitespace only |
| Frames.HasValue | app.py:56 | `dropna(how="all")` keeps a row exactly when some cell of it is present; a row without cells is dropped |
| Frames.Clamp | app.py:46 | `min(max(h, 0), len - 1)`: a valid index is kept, a negative one becomes 0, one at or past the end becomes the last row |
| Frames.Normalize | app.py:34-58 | an empty frame is returned unchanged; otherwise the result is rectangular, has no more columns and strictly fewer rows (the header row is consumed) |
| Frames.NormalizeClampsHeader | app.py:45-46 | a header index below 0 acts as 0 and one past the end acts as the last row: never an error |
| Frames.NormalizeLabels | app.py:48-54 | the labels are exactly the header cells, NaN filled with "", that are not null and do not strip to "", in order |
| Frames.NormalizeRowsFromSource | app.py:49-53 | every output row is a source row after the header, cut to the kept columns, and source order is kept |
| Frames.NormalizeDropsEmptyRows | app.py:55-56 | a row after the header is dropped exactly when every kept cell is missing; an empty text counts as a value |
| Frames.NormalizeRowsHaveValue | app.py:56 | every output row of a non-empty frame holds a value |
| Frames.NormalizeCleanTable | app.py:34-58 | a table with named labels and no empty row is reproduced when its labels are used as the header row |
| Frames.NormalizeIdempotent | app.py:34-58 | normalising the result again, with its labels as header row, gives the same table |
| Frames.SelectWhereIsFilter | app.py:53-56 | keeping the positions a boolean mask selects is the order-preserving filter by that predicate |
| Frames.CleanSummaryBoard | app.py:127-137 | the cleaned board is rectangular, keeps the column count, has no more rows than the input, and every row holds a value |
| Frames.SummaryBoardLabels | app.py:136 | the cleaned board keeps the column count; its labels are `Col_0 .. Col_{n-1}`, named and pairwise distinct |
| Frames.SummaryBoardRows | app.py:134-135 | the cleaned board's rows are the input rows holding a value, in input order; a row is kept exactly when it holds a value |
| Metrics.FirstIndex | app.py:76-80 | the found column matches and no earlier one does; none found means no column matches |
| Metrics.FindFirst | app.py:76-80 | the loop with `break` returns the first matching column position |
| Metrics.LastIndex | app.py:116-122 | the found column matches and no later one does; none found means no column matches |
| Metrics.FirstAndLastDiffer | app.py:77-80 | with two matching columns, the first-match rule picks an earlier column than the last-match rule |
| Metrics.IsPlantLabel | app.py:78 | the label, as `str()` shows it, matches exactly when some window of it reads `"Usina"` |
| Metrics.IsCapacityLabel | app.py:87 | the label matches exactly when some window reads `"Capacidade"` and some window reads `"MW"` or `"kW"` |
| Metrics.IsAcPowerLabel | app.py:117 | the label matches exactly when some window reads `"Capacidade (MW CA"` or `"Capacidade (MW CA)"` |
| Metrics.IsPeakPowerLabel | app.py:119 | the label matches exactly when some window reads `"Capacidade (MWp"` or `"Capacidade (MWp)"` |
| Metrics.IsTariffLabel | app.py:121 | the label matches exactly when some window reads `"Tarifa Gerador"` |
| Metrics.PowerPatternsRedundant | app.py:117-120 | the second pattern of each power test adds nothing: the test is the shorter pattern alone |
| Metrics.Truthy | app.py:91 | a label is falsy exactly when it is the number 0 or the empty string; NaN is truthy |
| Metrics.MatchedLabelTruthy | app.py:82 | a label matching a pattern that starts with a capital letter is text and truthy, so `if col_usina` means "a column was found" |
| Metrics.Sum | app.py:92 | `fillna(0).sum()` is 0 when every cell is missing and never negative when no number is |
| Metrics.Mean | app.py:122 | `fillna(0).mean()` times the number of cells, missing ones included, is the `fillna(0).sum()`; never negative when no number is |
| Metrics.SumMissingAsZero | app.py:92 | a missing cell adds exactly what a zero adds to the `fillna(0).sum()` |
| Metrics.DistinctCount | app.py:82 | `nunique()` never exceeds the number of cells |
| Metrics.DistinctCountBound | app.py:82 | `nunique()` is at most the row count and is 0 exactly when every cell is missing |
| Metrics.PlantCount | app.py:82 | the plant count never exceeds the number of plant rows |
| Metrics.TotalPower | app.py:84-92 | the total power is present exactly when some label is a capacity label; by its body, it is the sum of the first such column |
| Metrics.GeneralSummary | app.py:61-103 | each figure is present exactly when its sheet is (total power only when a capacity column is found); plant count and total power come from the first matching column of the plant sheet normalised at row 1; the customer count is the row count of the customer sheet normalised at row 0 |
| Metrics.SumOfLastStep | app.py:116-120 | scanning one more column: a match replaces the sum found so far, otherwise it stays |
| Metrics.MeanOfLastStep | app.py:121-122 | scanning one more column: a match replaces the mean found so far, otherwise it stays |
| Metrics.PlantMetrics | app.py:106-124 | an empty frame gives no metrics; otherwise each metric is present exactly when some label matches, with the sum (or mean) of the last matching column |
| Workbook.LoadSheets | app.py:27-31 | the loop reads each sheet with `header=None` and builds the map that stores it, in order, under its stripped name; every stored frame is rectangular and labelled 0, 1, 2, ... |
| Workbook.SheetMap | app.py:27-31 | every value of the sheet map is one of the sheets read |
| Workbook.StoreKeys | app.py:28-30 | the stored keys are exactly the keys written |
| Workbook.StoreLastWins | app.py:28-30 | a sheet is stored under its key unless a later sheet has the same key |
| Workbook.SheetMapKeys | app.py:30 | the map's keys are exactly the stripped sheet names |
| Workbook.SheetMapLastWins | app.py:30 | a sheet is found under its stripped name unless a later sheet strips to the same name |
| Workbook.SheetKeysStripped | app.py:30 | no key begins or ends with whitespace |
| Workbook.SummaryBoardPageAsWritten | app.py:251-257 | the page shows a board exactly when the key "Quadro Resumo " (trailing space) is in the map |
| Workbook.SummaryBoardNeverFound | app.py:251-252 | as written, the page never finds its sheet in a map built by the loader |
| Workbook.SummaryBoardPage | app.py:251-257 | the stripped lookup shows a board exactly when "Quadro Resumo" is a key, and shows that sheet cleaned |
| Workbook.SummaryBoardFound | app.py:251-257 | a workbook with a sheet named "Quadro Resumo " gets some board shown by the stripped lookup |
| Workbook.SummaryBoardFoundSheet | app.py:251-257 | when no later sheet strips to "Quadro Resumo", the board shown is that sheet, cleaned |

## Left out

- The Streamlit pages, widgets, charts, `st.cache_data` and `st.stop`: user interface, not data logic.
- Reading the Excel file: the loader takes the sheet names and each sheet's cells and width as parameters.
- The dashboard pages' `select_dtypes` column picks and the formatting of numbers for display.
- Frames.Display: a numeric label is shown by its integer part. Python's `str` of a float also prints a fraction, and can print an exponent (`1e+16`) or `inf`. None of these can contain a label pattern, since every pattern starts with a capital letter or with "kW"; the model only relies on that, and on a number never being blank.
- Metrics.GeneralSummary: a column is selected by position. pandas selects by label, so duplicate labels select several columns at once.
- Metrics.PlantMetrics: a column is selected by position, as in GeneralSummary.
- Metrics.GeneralSummary: a text cell in the summed capacity column is excluded by a precondition. pandas would concatenate the text or raise an error.
- Metrics.PlantMetrics: text cells in the summed or averaged columns are excluded by a precondition, for the same reason.
- Metrics.Sum: sums are exact real numbers, not IEEE floats, so rounding is not modelled.
- Cells holding booleans or dates: cells are missing, numbers or text only.

## Findings

| source | as written | input that shows it | evidently intended | confidence | as-written member | corrected member |
|---|---|---|---|---|---|---|
| app.py:251-252 | the page looks up the sheet `"Quadro Resumo "`, with a trailing space, but the loader strips every key (app.py:30) | a workbook with a sheet named `"Quadro Resumo "`: its key is `"Quadro Resumo"`, so the page always reports the sheet missing | look up the stripped name `"Quadro Resumo"` | high, not executed | Workbook.SummaryBoardNeverFound | Workbook.SummaryBoardFound |

# Excel/CSV combiner — a verified model of the extract-and-merge pipeline

The repository holds four small Python tools that combine many spreadsheet
files into one table:

- `Excel_CSVCombinerApp_v4_8.py` is the full GUI application. It reads every
  `.xlsx`, `.xlsm` and `.csv` file of a folder, and `.txt` files when asked.
  It takes a header row and a first data row from each file and makes the
  header labels unique (`SKU`, `SKU.1`, …), unless a label already looks like
  `name.k`. It keeps the requested columns
  and tags each row with its file's base name. It concatenates the tables,
  can left-join a lookup file onto the result, and saves it as CSV or XLSX.
- `combine_app.py` and its English twin `combine_app_en.py` are the earlier
  GUI applications. They look for `.xlsm` files, or `.xlsx` files when there
  is no `.xlsm`. They read one named sheet, keep the header labels as they
  are, and write a CSV.
- `combine_excel.py` is the stand-alone script. It has fixed settings, reads
  `.xlsm` files only, and uses its row constants as 0-based positions.

The model is organised by the pipeline's stages:

| module | stage |
|---|---|
| `Common` | `Option`, `NoDuplicates`, `IndexOf` |
| `Tables` | cells, grids, tables; pandas' `iloc` row indexing and slicing; column positions of a label; projection |
| `Strings` | `str.strip`, `str.split(',')`, the column-list parser, decimal rendering |
| `Header` | `_make_columns_unique` (a loop with a `seen` dictionary) |
| `Reader` | choosing a parser by suffix, the Latin-1 retry, the lookup reader |
| `Normalizer` | the row guard, the header row, the data slice |
| `Selector` | existing and missing columns, projection on the requested names |
| `Combiner` | one file's extraction with its exception handler; the accumulator loop |
| `Concat` | `pd.concat(..., ignore_index=True)` |
| `Assembly` | the common tail: no data, concatenation |
| `Discovery` | the glob patterns and their order |
| `Enricher` | the v4.8 merge block: `astype(str)`, the lookup subset, `pd.merge(how='left')`, the key drop |
| `CombinerApp` | v4.8 `run_processing` and `process_files`, with the output path and writer |
| `ExcelApp` | `run_processing` / `process_excel_files` of `combine_app.py` and `combine_app_en.py` |
| `ExcelScript` | `process_excel_files` of `combine_excel.py` on its constants |

The file system and the libraries are parameters. An `Env` record holds
total functions for `glob.glob`, the pandas readers, `os.path.basename`,
`os.path.join` and the `unicode_escape` decoding of a delimiter (`None`
when the decoding raises). A reader returns a grid, "undecodable" for a
`UnicodeDecodeError`, or an error. Everything downstream is then a pure
function of the settings and of the `Env`.

The loops of the source become methods proved against those functions:
- `Header.MakeColumnsUnique` keeps a `seen` map;
- `Discovery.DiscoverFiles` extends a list;
- `Combiner.CollectFrames` appends to `all_data_frames`;
- `CombinerApp.RequiredFields` builds the required list.

A cell is text, an integer, or empty. `str()` of an empty cell is `"nan"`.

Where the code and its documentation differ, the model follows the code:
- A merge that raises does not end the v4.8 run. The error is reported and
  the table as it stood is still saved (`CombinerApp.FailedMergeStillSaves`).
  At that point the source key column may already have been turned into
  text.
- `pd.concat` of tables with different columns orders the result's columns
  by first appearance across the tables. Missing cells are empty.
- The input `.txt` delimiter is unescaped on every v4.8 run, even when
  `.txt` processing is off. A delimiter that cannot be decoded therefore
  raises before any file is looked at.
- A required setting is "missing" when its `str()` is empty or all
  whitespace, as `str.strip()` sees it.
- `combine_excel.py` passes `HEADER_ROW = 3` and `DATA_START_ROW = 6` to
  `iloc` unchanged. The header is therefore the fourth row of the sheet and
  the data starts at the seventh, whatever the comments next to the
  constants say.
- The row guard compares the row count with the 0-based data index. A sheet
  whose data index equals its length passes with no data rows. A header
  index of `-1` (a header row setting of 0) takes the last row, as `iloc`
  does.

## Model

| member | source | states |
|---|---|---|
| Tables.RowAt | Excel_CSVCombinerApp_v4_8.py:116 | `iloc[i]` exists exactly for `-n <= i < n`; a negative index counts from the end |
| Tables.RowsFrom | Excel_CSVCombinerApp_v4_8.py:118 | `iloc[i:]` is a suffix of the rows, starting at `i` clamped to the Python slice rules |
| Tables.Positions | Excel_CSVCombinerApp_v4_8.py:132 | the positions listed are exactly those holding the label |
| Tables.PositionsAscending | Excel_CSVCombinerApp_v4_8.py:132 | selecting a label returns its columns in table order |
| Tables.PositionsUnique | Excel_CSVCombinerApp_v4_8.py:132 | in a table with unique labels a present label selects exactly one column, its first occurrence |
| Tables.ColumnsFor | Excel_CSVCombinerApp_v4_8.py:132 | `df[names]` picks exactly the columns whose text label is requested: no other column, and every such column |
| Tables.ColumnsForUnique | Excel_CSVCombinerApp_v4_8.py:132 | when each requested name labels exactly one column, `df[names]` has that column for each name, in request order |
| Tables.PositionsSole | Excel_CSVCombinerApp_v4_8.py:132 | a label held by exactly one column is present, and that column is its first occurrence |
| Tables.Project | Excel_CSVCombinerApp_v4_8.py:132 | a projection keeps every row and takes each chosen column's label and cells |
| Strings.StripLeft | Excel_CSVCombinerApp_v4_8.py:72 | the result is a suffix of the input; only whitespace was removed, and it starts with no whitespace |
| Strings.StripRight | Excel_CSVCombinerApp_v4_8.py:72 | the result is a prefix of the input; only whitespace was removed, and it ends with no whitespace |
| Strings.Strip | Excel_CSVCombinerApp_v4_8.py:72 | the result is empty or trimmed at both ends, and holds only characters of the input |
| Strings.StripTrims | Excel_CSVCombinerApp_v4_8.py:72 | the result is the input with a whitespace prefix and a whitespace suffix cut off, and nothing else |
| Strings.StripPadded | Excel_CSVCombinerApp_v4_8.py:72 | stripping a trimmed word between whitespace paddings gives the word back |
| Strings.StripBlankIffAllSpace | Excel_CSVCombinerApp_v4_8.py:460 | `strip()` gives the empty string exactly when the text is all whitespace |
| Strings.Split | Excel_CSVCombinerApp_v4_8.py:72 | `split(',')` gives at least one piece, and no piece holds a comma |
| Strings.JoinSplit | Excel_CSVCombinerApp_v4_8.py:72 | joining the pieces of `split(',')` with commas restores the text |
| Strings.SplitJoinPadded | Excel_CSVCombinerApp_v4_8.py:72 | splitting names joined by comma plus padding gives the padded names back |
| Strings.StrippedNonBlank | Excel_CSVCombinerApp_v4_8.py:72 | the comprehension keeps at most one name per piece |
| Strings.StrippedNonBlankOne | Excel_CSVCombinerApp_v4_8.py:72 | one piece gives nothing when it is all whitespace, otherwise its stripped text |
| Strings.StrippedNonBlankAppend | Excel_CSVCombinerApp_v4_8.py:72 | the comprehension works piece by piece, in order: two runs of pieces give their names one after the other |
| Strings.StrippedNonBlankClean | Excel_CSVCombinerApp_v4_8.py:72 | every name the comprehension keeps is non-empty, trimmed and comma-free |
| Strings.ParseColumnList | Excel_CSVCombinerApp_v4_8.py:72 | every parsed column name is non-empty, trimmed and comma-free |
| Strings.SplitAfter | Excel_CSVCombinerApp_v4_8.py:72 | `split(',')` of a comma-free text, a comma and a rest is that text, then the pieces of the rest |
| Strings.SplitTrailingComma | Excel_CSVCombinerApp_v4_8.py:72 | a trailing comma adds one empty piece at the end |
| Strings.ParseDropsBlankPiece | Excel_CSVCombinerApp_v4_8.py:72 | a whitespace-only piece between commas contributes no name |
| Strings.ParseDropsTrailingComma | Excel_CSVCombinerApp_v4_8.py:72 | a trailing comma changes nothing in the parsed names |
| Strings.ParseSkipsBlankPieces | Excel_CSVCombinerApp_v4_8.py:72 | `"SKU, ,Price,"` parses to `SKU`, `Price` |
| Strings.StrippedNonBlankExact | Excel_CSVCombinerApp_v4_8.py:72 | pieces that strip to non-empty names yield exactly those names |
| Strings.ParseJoined | Excel_CSVCombinerApp_v4_8.py:72 | parsing clean names joined by `,` plus whitespace gives the names back (round trip) |
| Strings.ParseDefaultColumns | Excel_CSVCombinerApp_v4_8.py:27 | the default `"SKU, Price, Quantity"` parses to the three names |
| Strings.Decimal | Excel_CSVCombinerApp_v4_8.py:57 | the decimal rendering of a count is made of digits only |
| Strings.DecimalInjective | Excel_CSVCombinerApp_v4_8.py:57 | different counts render differently |
| Strings.IntTextNotBlank | Excel_CSVCombinerApp_v4_8.py:460 | a numeric row setting is never blank |
| Header.Deduplicate | Excel_CSVCombinerApp_v4_8.py:49-61 | the renamed header has one label per input label |
| Header.DeduplicateAt | Excel_CSVCombinerApp_v4_8.py:53-60 | label `i` is kept if unseen before, else gets `.k`, `k` its number of earlier occurrences |
| Header.DeduplicateSnoc | Excel_CSVCombinerApp_v4_8.py:53-60 | one more loop step appends the renamed label and counts one more occurrence |
| Header.MakeColumnsUnique | Excel_CSVCombinerApp_v4_8.py:49-61 | the loop with the `seen` dictionary computes exactly `Deduplicate` of the labels' `str()` |
| Header.DeduplicateExample | Excel_CSVCombinerApp_v4_8.py:49-61 | `SKU, Price, SKU, SKU` becomes `SKU, Price, SKU.1, SKU.2` |
| Header.DeduplicateCanRepeat | Excel_CSVCombinerApp_v4_8.py:49-61 | `A, A, A.1` becomes `A, A.1, A.1`: the result is not always unique |
| Header.DeduplicateDistinct | Excel_CSVCombinerApp_v4_8.py:49-61 | when no renamed label collides with an original, the result has no duplicates |
| Reader.ReadDelimited | Excel_CSVCombinerApp_v4_8.py:100-110 | a delimited read always yields a frame or a read error; a UTF-8 success is taken as is; a frame comes from UTF-8 or, after a decode failure, from Latin-1 |
| Reader.LoadInput | Excel_CSVCombinerApp_v4_8.py:96-110 | no frame exactly for a suffix other than workbook, `.csv` or `.txt` in the v4.8 reader; a workbook loads exactly when its named sheet reads |
| Reader.LoadInputSource | Excel_CSVCombinerApp_v4_8.py:96-110 | a loaded input came from the parser its suffix selects, in UTF-8 or, after a decode failure, in Latin-1; other suffixes give no frame |
| Reader.LoadLookup | Excel_CSVCombinerApp_v4_8.py:161-176 | no frame only for a workbook lookup that fails to decode; an undecodable `.txt` delimiter raises |
| Normalizer.HeaderLabels | Excel_CSVCombinerApp_v4_8.py:116-119 | with de-duplication the labels are the renamed `str()` of the header row, otherwise the raw header cells |
| Normalizer.Frame | Excel_CSVCombinerApp_v4_8.py:116-120 | framing fails exactly when the header index is outside the rows; the data are `iloc[data:]` |
| Normalizer.Normalize | Excel_CSVCombinerApp_v4_8.py:112-120 | too few rows exactly when the row count is below the data index; otherwise the frame or an indexing error |
| Normalizer.NormalizeShape | Excel_CSVCombinerApp_v4_8.py:112-120 | for in-range indices the table has the header row's labels and the rows from the data index on |
| Normalizer.GuardAdmitsEmptyData | Excel_CSVCombinerApp_v4_8.py:112 | a data index equal to the row count passes the guard with no data rows |
| Normalizer.HeaderZeroTakesLastRow | Excel_CSVCombinerApp_v4_8.py:70 | a header row setting of 0 takes the last row as header |
| Selector.PresentNames | Excel_CSVCombinerApp_v4_8.py:124 | `existing_cols` holds exactly the requested names that label a column |
| Selector.MissingNames | Excel_CSVCombinerApp_v4_8.py:125 | `missing_cols` holds exactly the requested names that label no column |
| Selector.PresentMissingPartition | Excel_CSVCombinerApp_v4_8.py:124-125 | existing and missing names together are the request, as a multiset |
| Selector.PresentNamesAppend | Excel_CSVCombinerApp_v4_8.py:124 | the comprehension works name by name, in request order |
| Selector.Select | Excel_CSVCombinerApp_v4_8.py:122-132 | an empty request keeps the table; otherwise the file is skipped exactly when no name is present, and the kept table has only present names' columns and all rows (every such column is kept: `SelectKeepsEveryColumn`) |
| Selector.SelectKeepsEveryColumn | Excel_CSVCombinerApp_v4_8.py:132 | every column whose label is requested reappears in the kept table with all its cells |
| Selector.SelectedPositions | Excel_CSVCombinerApp_v4_8.py:122-132 | every column for an empty request; otherwise exactly the columns whose text label is requested |
| Selector.SelectColumns | Excel_CSVCombinerApp_v4_8.py:132 | a kept table is the table's selected columns, labels and cells, with all rows |
| Selector.SelectUniqueLabels | Excel_CSVCombinerApp_v4_8.py:132 | when each present name labels exactly one column, the kept columns are exactly the present names, in request order, with their cells |
| Selector.SelectBesideBlankLabels | combine_app.py:76-84 | a requested label beside blank header cells selects just its column |
| Combiner.Tag | Excel_CSVCombinerApp_v4_8.py:134 | every `source_file` cell holds the file name; other cells are unchanged; the column is appended when absent |
| Combiner.ExtractFile | Excel_CSVCombinerApp_v4_8.py:95-139 | a file is taken exactly when it loads, is framed and keeps some column; the taken table is the selection tagged with the base name; read errors, a missing header row and short files are skipped |
| Combiner.ExtractFileSelection | Excel_CSVCombinerApp_v4_8.py:129-131 | a framed file is skipped exactly when the request is non-empty and names no column |
| Combiner.TagSelectColumns | Excel_CSVCombinerApp_v4_8.py:132-134 | apart from `source_file`, a tagged selection holds each selected column with its label and cells |
| Combiner.ExtractFileColumns | Excel_CSVCombinerApp_v4_8.py:116-134 | apart from `source_file`, a taken table holds the selected columns of the framed table, label and cells |
| Combiner.TagSelectGrid | Excel_CSVCombinerApp_v4_8.py:118-134 | a tagged selection of a grid's rows from the data row on holds those columns of the grid |
| Combiner.ExtractFileRaw | combine_app.py:65-84 | without de-duplication a taken table holds the selected columns of the sheet, labelled by the raw header cells, from the data row on |
| Combiner.TakenFiles | Excel_CSVCombinerApp_v4_8.py:93-139 | the contributing files are exactly the files whose extraction succeeds |
| Combiner.Accumulated | Excel_CSVCombinerApp_v4_8.py:91-139 | at most one table per file; which tables, and in which order, is stated by `AccumulatedFromTaken` and `AccumulatedAppend` |
| Combiner.AccumulatedFromTaken | Excel_CSVCombinerApp_v4_8.py:135 | the k-th collected table is what the k-th contributing file yields |
| Combiner.AccumulatedAppend | Excel_CSVCombinerApp_v4_8.py:93-139 | the loop over two file lists collects the first list's tables, then the second's |
| Combiner.TakenFilesAppend | Excel_CSVCombinerApp_v4_8.py:93-139 | the contributing files of two lists follow each other in order |
| Combiner.CollectFrames | Excel_CSVCombinerApp_v4_8.py:91-139 | the accumulator loop leaves `all_data_frames` equal to the collected tables |
| Combiner.AccumulatedTagged | Excel_CSVCombinerApp_v4_8.py:134-135 | every collected table is well formed and tagged with the base name of a file of the list |
| Concat.AddNewSpec | Excel_CSVCombinerApp_v4_8.py:146 | adding labels keeps the earlier ones in front, adds exactly the missing ones, and keeps labels unique |
| Concat.AddNewFresh | Excel_CSVCombinerApp_v4_8.py:146 | labels all new are appended as they are |
| Concat.AddNewHas | Excel_CSVCombinerApp_v4_8.py:146 | a label is in the result exactly when it was there already or is added |
| Concat.AddNewUnique | Excel_CSVCombinerApp_v4_8.py:146 | adding labels to unique labels keeps them unique |
| Concat.UnionLabels | Excel_CSVCombinerApp_v4_8.py:146 | the column labels of `pd.concat` never repeat |
| Concat.UnionLabelsMembers | Excel_CSVCombinerApp_v4_8.py:146 | a label is in the result exactly when some table has it |
| Concat.UnionLabelsSpec | Excel_CSVCombinerApp_v4_8.py:146 | the concatenated labels are unique and are exactly the labels of some table |
| Concat.UnionLabelsStart | Excel_CSVCombinerApp_v4_8.py:146 | the first table's labels come first, in their order |
| Concat.Aligned | Excel_CSVCombinerApp_v4_8.py:146 | a table's rows laid out under the union labels: its own cell under its labels, empty elsewhere |
| Concat.ConcatTables | Excel_CSVCombinerApp_v4_8.py:146 | concatenation raises exactly on an empty list, or on clashing labels that differ between tables; the result has every row |
| Concat.UnionRowsAt | Excel_CSVCombinerApp_v4_8.py:146 | row `i` of table `j` lands after all rows of the tables before `j` |
| Concat.TotalRowsGrows | Excel_CSVCombinerApp_v4_8.py:146 | the rows before table `j` and `j`'s rows fit in the total |
| Concat.ConcatRowAt | Excel_CSVCombinerApp_v4_8.py:146 | under unique labels, every cell of every input row reappears under its label in the result |
| Concat.StackRowsAt | Excel_CSVCombinerApp_v4_8.py:146 | tables with identical labels are stacked row for row |
| Concat.UnionLabelsExample | Excel_CSVCombinerApp_v4_8.py:146 | `A,B,source_file` then `A,C,source_file` gives `A,B,source_file,C` |
| Concat.ConcatLabelsExample | Excel_CSVCombinerApp_v4_8.py:146 | the same two tables concatenate, with those labels |
| Assembly.AccumulatedValid | Excel_CSVCombinerApp_v4_8.py:135 | every collected table is well formed |
| Assembly.Combine | Excel_CSVCombinerApp_v4_8.py:141-146 | no data exactly when nothing was collected; a raising concatenation needs clashing labels; a result has every collected row |
| Assembly.CombineFiles | Excel_CSVCombinerApp_v4_8.py:91-146 | the loop, the emptiness test and `pd.concat` compute `Combine` |
| Assembly.TotalRowsExtracted | Excel_CSVCombinerApp_v4_8.py:146 | the collected tables hold exactly the rows the files contributed |
| Assembly.CombineRowCount | Excel_CSVCombinerApp_v4_8.py:146-147 | with unique labels the concatenation succeeds, with one row per contributed row |
| Assembly.NothingTakenNoData | Excel_CSVCombinerApp_v4_8.py:141-143 | when every file is skipped the run reports that no data was extracted |
| Discovery.Patterns | Excel_CSVCombinerApp_v4_8.py:77-79 | `*.xlsx`, `*.xlsm`, `*.csv`, then `*.txt` only when enabled |
| Discovery.GlobAllMembers | Excel_CSVCombinerApp_v4_8.py:82-84 | a file is found exactly when some pattern matches it |
| Discovery.DiscoverFiles | Excel_CSVCombinerApp_v4_8.py:82-84 | the loop extends the list pattern by pattern |
| Discovery.DiscoveryOrder | Excel_CSVCombinerApp_v4_8.py:77-84 | all `.xlsx` matches come first, then `.xlsm`, then `.csv`, then `.txt` |
| Discovery.NoTextWithoutTxt | Excel_CSVCombinerApp_v4_8.py:78-79 | without `.txt` processing every file found is a workbook or a CSV match |
| Discovery.XlsmElseXlsx | combine_app.py:51-53 | the `.xlsm` matches when there are any, else the `.xlsx` matches; empty only when both are |
| Enricher.CoerceColumn | Excel_CSVCombinerApp_v4_8.py:184-185 | the key column's cells become their `str()`, every other cell stays |
| Enricher.Without | Excel_CSVCombinerApp_v4_8.py:189 | the names other than the key, and only those |
| Enricher.WithoutOne | Excel_CSVCombinerApp_v4_8.py:189 | one name is dropped when it is the key and kept otherwise |
| Enricher.WithoutAppend | Excel_CSVCombinerApp_v4_8.py:189 | the filter works name by name, so the kept names stay in request order |
| Enricher.SubsetNames | Excel_CSVCombinerApp_v4_8.py:189 | the lookup key first, then exactly the requested names other than the key, in request order (`WithoutAppend`) |
| Enricher.SubsetNamesExample | Excel_CSVCombinerApp_v4_8.py:189 | key `SKU` with `Desc, SKU, ASIN` requested gives `SKU, Desc, ASIN` |
| Enricher.JoinRow | Excel_CSVCombinerApp_v4_8.py:192 | a left row yields its fan-out of rows, each as wide as the left row plus the added columns |
| Enricher.JoinRowMatches | Excel_CSVCombinerApp_v4_8.py:192 | a left row is paired with every lookup row of equal key, in lookup order, or padded with empty cells when none matches |
| Enricher.Fanout | Excel_CSVCombinerApp_v4_8.py:192 | a left row yields at least one joined row |
| Enricher.JoinRows | Excel_CSVCombinerApp_v4_8.py:192 | every joined row is as wide as a left row plus the added columns |
| Enricher.JoinRowsCount | Excel_CSVCombinerApp_v4_8.py:192 | the join has exactly the summed fan-out of the left rows |
| Enricher.JoinRowsAppend | Excel_CSVCombinerApp_v4_8.py:192 | the join keeps left order: joining two row lists is joining each in turn |
| Enricher.JoinRowsSplit | Excel_CSVCombinerApp_v4_8.py:192 | the join is the rows before `i`, then row `i`'s block, then the rows after |
| Enricher.JoinRowsBlock | Excel_CSVCombinerApp_v4_8.py:192 | left row `i`'s joined rows sit right after the joined rows of the rows before it |
| Enricher.JoinedCountAtLeast | Excel_CSVCombinerApp_v4_8.py:192 | a left join never has fewer rows than its left table |
| Enricher.Disambiguate | Excel_CSVCombinerApp_v4_8.py:192 | a label shared with the other side gets pandas' `_x` / `_y` suffix; the others are kept |
| Enricher.KeptPositions | Excel_CSVCombinerApp_v4_8.py:192 | with one key name the lookup key column is not added again; otherwise all lookup columns are |
| Enricher.LeftJoin | Excel_CSVCombinerApp_v4_8.py:192 | the merged labels are the left labels then the added ones, each suffixed on a clash; the rows are the join rows |
| Enricher.LeftJoinRowCount | Excel_CSVCombinerApp_v4_8.py:192 | the merged table has the summed fan-out of rows, at least as many as the left table |
| Enricher.OtherPositions | Excel_CSVCombinerApp_v4_8.py:197 | exactly the positions not labelled by the dropped name |
| Enricher.OtherPositionsAscending | Excel_CSVCombinerApp_v4_8.py:197 | those positions are in table order, without repeats |
| Enricher.DropColumn | Excel_CSVCombinerApp_v4_8.py:197 | every column of that label goes, every other column stays with its cells, in table order, and no row is lost |
| Enricher.LookupTable | Excel_CSVCombinerApp_v4_8.py:161-182 | a table exactly when the lookup file loads and its header row exists; then its labels are the de-duplicated header row and its rows run from the data row on |
| Enricher.LookupSubset | Excel_CSVCombinerApp_v4_8.py:185-190 | `lookup_df[columns_for_subset]` fails exactly when some subset name labels no column |
| Enricher.SolePosition | Excel_CSVCombinerApp_v4_8.py:192 | a key is usable exactly when it labels one column, and then that column's position is returned |
| Enricher.Prepare | Excel_CSVCombinerApp_v4_8.py:153-190 | a missing lookup table or source key leaves the table unchanged; any later failure leaves it with the source key coerced; ready exactly when the lookup loads, both keys are present, every subset name exists and each key labels one column; then the left table is coerced and the subset is `lookup_df[columns_for_subset]` |
| Enricher.Enrich | Excel_CSVCombinerApp_v4_8.py:150-203 | a preparation that raises keeps the table as it stood; a ready one merges: the join, minus the lookup key column when the drop rule fires; a drop of an absent column raises and keeps the joined table; a successful merge had exactly one source key column |
| Enricher.KeysMatchAsText | Excel_CSVCombinerApp_v4_8.py:184-185 | after coercion two key cells match exactly when their `str()` renderings are equal |
| Enricher.EnrichMerged | Excel_CSVCombinerApp_v4_8.py:192-197 | a successful merge is the join, followed by the key drop exactly when the drop rule fires |
| Enricher.SameKeyKept | Excel_CSVCombinerApp_v4_8.py:192 | with one key name the key column keeps its label after the join |
| Enricher.OtherKeyAdded | Excel_CSVCombinerApp_v4_8.py:192 | with two key names the lookup key column is added under its own label |
| Enricher.DropsLookupKey | Excel_CSVCombinerApp_v4_8.py:196 | the drop rule fires only for two different key names, never when the lookup key was asked for |
| Enricher.LookupKeyKeptIff | Excel_CSVCombinerApp_v4_8.py:194-197 | the lookup key column survives exactly when the keys share a name or it was asked for |
| Enricher.EnrichRowCount | Excel_CSVCombinerApp_v4_8.py:192 | a successful merge has the join's row count, never fewer rows than the combined table |
| CombinerApp.Required | Excel_CSVCombinerApp_v4_8.py:452-458 | the six base fields first; the delimiter and merge fields exactly when their switches are on |
| CombinerApp.RequiredFields | Excel_CSVCombinerApp_v4_8.py:452-458 | the list built by appends equals `Required` |
| CombinerApp.InputPipeline | Excel_CSVCombinerApp_v4_8.py:69-73 | the row settings become 0-based indices; de-duplication is on; any input format with the sheet and `.txt` delimiter; the request is the parsed column list |
| CombinerApp.MissingFields | Excel_CSVCombinerApp_v4_8.py:460 | at most one report per field; which ones is stated by `MissingFieldsMembers` |
| CombinerApp.MissingFieldsMembers | Excel_CSVCombinerApp_v4_8.py:460 | a field is reported exactly when it is required and blank |
| CombinerApp.MissingFieldsAppend | Excel_CSVCombinerApp_v4_8.py:460 | the comprehension reports field by field, in required order |
| CombinerApp.MissingFieldsInOrder | Excel_CSVCombinerApp_v4_8.py:452-460 | the base fields are reported before the optional ones |
| CombinerApp.RowFieldBlank | Excel_CSVCombinerApp_v4_8.py:460 | a row setting is blank exactly when it was saved empty |
| CombinerApp.CompleteSettingsHaveRows | Excel_CSVCombinerApp_v4_8.py:460-468 | past the check, the row settings the run needs are numbers |
| CombinerApp.BlankReported | Excel_CSVCombinerApp_v4_8.py:460-466 | an empty required field always stops the run with a report |
| CombinerApp.OutputName | Excel_CSVCombinerApp_v4_8.py:209 | the file name is the configured name followed by `.` and the format |
| CombinerApp.LookupSettings | Excel_CSVCombinerApp_v4_8.py:152-157 | the lookup rows become 0-based positions, the names to add are the parsed list, the file, keys and delimiter are the settings |
| CombinerApp.MergeStep | Excel_CSVCombinerApp_v4_8.py:149-203 | without merging the table is kept; a blank lookup row setting fails the merge with the table unchanged; otherwise the step is the merge block on the settings |
| CombinerApp.ProcessOutcome | Excel_CSVCombinerApp_v4_8.py:65-222 | blank input rows or an undecodable delimiter crash; a saved result goes to `<folder>/<name>.<format>`, as a workbook exactly for `xlsx` |
| CombinerApp.Finish | Excel_CSVCombinerApp_v4_8.py:141-215 | no data or a raising concatenation save nothing; otherwise the merge step's table is saved, flagged when the merge failed |
| CombinerApp.ProcessFiles | Excel_CSVCombinerApp_v4_8.py:65-222 | the procedure computes `ProcessOutcome` |
| CombinerApp.RunOutcome | Excel_CSVCombinerApp_v4_8.py:448-471 | the run stops with the missing fields exactly when some required field is blank; otherwise it processes |
| CombinerApp.RunProcessing | Excel_CSVCombinerApp_v4_8.py:448-471 | the procedure computes `RunOutcome` |
| CombinerApp.CheckedRunReachesDiscovery | Excel_CSVCombinerApp_v4_8.py:86-88 | a checked run with a decodable delimiter reports no files exactly when discovery finds none |
| CombinerApp.ProcessReachesFinish | Excel_CSVCombinerApp_v4_8.py:141-222 | with files found, the outcome is the merge-and-save of the combined files |
| CombinerApp.SavedRowsWithoutMerge | Excel_CSVCombinerApp_v4_8.py:146-218 | without merging, a run over uniquely-labelled tables saves exactly the contributed rows, with no merge failure |
| CombinerApp.FailedMergeStillSaves | Excel_CSVCombinerApp_v4_8.py:201-215 | a merge that raises still saves the table as it stood, flagged as a failed merge |
| CombinerApp.DefaultRequest | Excel_CSVCombinerApp_v4_8.py:25-27 | the default settings request `SKU`, `Price`, `Quantity` from the fifth row's header, data from the seventh row |
| ExcelApp.AppPipeline | combine_app.py:41-45 | the header and data rows become 0-based positions; one named sheet; no de-duplication |
| ExcelApp.ProcessOutcome | combine_app.py:37-103 | no workbook is reported; a written table goes to the output file with every collected row |
| ExcelApp.ProcessExcelFiles | combine_app.py:37-103 | the procedure computes `ProcessOutcome` |
| ExcelApp.RunOutcome | combine_app.py:214-223 | an empty folder path stops the run, otherwise it processes |
| ExcelApp.RunProcessing | combine_app_en.py:203-211 | the procedure computes `RunOutcome` |
| ExcelApp.TakenFileRows | combine_app.py:65-84 | a taken file contributes its rows from the data row on; apart from `source_file`, each kept column has its raw header cell as label and that column of the sheet as cells |
| ExcelApp.WrittenRows | combine_app.py:97-99 | with unique labels a written run holds exactly the contributed rows |
| ExcelScript.ScriptPipeline | combine_excel.py:10-42 | the constants used as they are: header 3, data 6, sheet `Template`, 17 columns |
| ExcelScript.ProcessOutcome | combine_excel.py:46-110 | no `.xlsm` is reported; a written table goes to `combined_data.csv` with every collected row |
| ExcelScript.ProcessExcelFiles | combine_excel.py:46-110 | the procedure computes `ProcessOutcome` |
| ExcelScript.HeaderIsFourthRow | combine_excel.py:13-16 | the header is the fourth row and the data start at the seventh |
| ExcelScript.ShortSheetSkipped | combine_excel.py:68-70 | a sheet of fewer than six rows is skipped |
| ExcelScript.WrittenRows | combine_excel.py:105-107 | with unique labels a written run holds exactly the contributed rows |

## Left out

- The Tk GUI, the settings dialog, threading, message boxes and log text are
  not modelled. Neither is reading or writing the settings JSON; a missing
  key in the settings file is not modelled either. The settings are a
  record.
- The parsers themselves are not modelled. `pd.read_excel` and
  `pd.read_csv` (including `on_bad_lines='skip'`) are `Env` functions that
  give a grid or an error. The model does not describe how a byte stream
  becomes rows.
- `to_csv` / `to_excel` are not modelled. The outcome names the path, the
  writer (workbook or CSV) and the table. Write failures and the
  `utf-8-sig` encoding are not modelled.
- Floating-point cells and pandas dtypes are not modelled. A number is an
  integer, and `str()` of a number is its decimal rendering.
- The `print` messages of `combine_excel.py` and the `if __name__` entry
  points are not modelled.
- pandas' `MergeError` is not modelled. pandas raises it when the `_x`/`_y`
  suffixes would themselves create duplicate labels.
- Enricher.LookupKeyKeptIff: stated only when the combined table has no
  other column named like the lookup key. Otherwise pandas suffixes the
  label, and this simple statement does not hold.
- CombinerApp.SavedRowsWithoutMerge: the row count is stated only when
  every collected table has unique labels. With duplicate labels pandas
  may refuse to concatenate.
- ExcelApp.WrittenRows: as above, it requires unique labels in every
  collected table.
- ExcelScript.WrittenRows: as above, it requires unique labels in every
  collected table.
- Header.DeduplicateDistinct: uniqueness is proved only when no generated
  `name.k` equals an original label. `Header.DeduplicateCanRepeat` shows
  that the result can repeat otherwise.
- Concat.ConcatTables: the model says only which lists raise. It does not
  model pandas' exact exception, or the column order pandas uses for
  labels that repeat within a table.

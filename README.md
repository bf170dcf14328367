# NDFD historical forecasts: a Dafny model of the pipeline core

The pipeline in `code/` works on archived National Digital Forecast Database
(NDFD) forecasts. It downloads the gridded forecasts, keeps the cells of the
2.5 km CONUS grid that a set of trails crosses, and collapses the many
issuances of each forecast into one time series per cell. It then bins those
series into half-months. This project models the logic under the pandas,
rasterio and HTTP glue, and proves what that logic promises:

| file | module | models |
|---|---|---|
| `wrappers.dfy` | `Wrappers` | `Option` and `Result` |
| `observations.dfy` | `Observations` | one extracted row: cell `x`, `y`, value `vals`, `fcst_time`, `valid_time` (POSIX seconds) |
| `reference_grid.dfy` | `ReferenceGrid` | the projection and affine transform of `code/constants.py`; the raster size from `create_grid`; rasterio's `index` and `xy` on that raster |
| `get_grid.dfy` | `GetGrid` | `intersect_with_grid` and the vertex flattening and argument checks of `main` in `code/get_grid.py` |
| `lexing.dfy` | `Lexing` | digits, whitespace and capitals as the two regular expressions use them; `int` of a digit string |
| `tar_import.dfy` | `TarImport` | `import_tarfile` and the order-number check of `main` in `code/import.py` |
| `calendar.dfy` | `Calendar` | the proleptic Gregorian calendar behind `utcfromtimestamp`, `days_in_month` and `to_datetime` |
| `coalesce.dfy` | `Coalesce` | `load_files` of `code/coalesce.py`: drop 9999, stable sort, keep the last row per (x, y, valid_time) |
| `coalesce_files.dfy` | `CoalesceFiles` | `create_file_names_df` and the loops over forecast types and months in `main` of `code/coalesce.py` |
| `summarize.dfy` | `Summarize` | the half-month bin and the (x, y, month_half) grouping of `code/summarize.py` |

Modelling choices:

- World coordinates are exact reals. The grid constants are the exact decimals of the source.
- rasterio's `index` is modelled as the floor of the inverse affine.
- rasterio's `xy(..., 'll'/'ur')` is modelled as the forward affine at a cell corner. Both stand in for rasterio's behaviour on a north-up raster.
- Following the source, a cell's `x` is its raster row and `y` is its column.
- Timestamps are whole POSIX seconds.
- A file-name date is assembled as `pd.to_datetime` does on separate columns: midnight of year-month-day, plus the hours and minutes, which may exceed 23 and 59 and roll over. Midnight and the sum must both lie in the nanosecond timestamp range, taken to the whole minute.
- A raster band is a sequence of rows, and its tags are a map.
- A file's contents come from a `read` function from path to rows.
- Every write becomes a returned value: a written parquet file becomes a returned (name, rows) pair.
- `get_extract_urls` is a parameter (`listing`).

Ties in `load_files`. When two rows share (x, y, valid_time, fcst_time), the source does not say which survives. The model states its rule:

- pandas' multi-column `sort_values` is stable, so equal rows keep their input order.
- `keep='last'` then keeps the one that came LAST in the input.
- `Coalesce.Winner` is the reference definition of this rule, written without sorting.

## Model

| member | source | states |
|---|---|---|
| ReferenceGrid.NdfdProjection | code/constants.py:4-8 | the projection is Lambert conformal conic with lat_0 = lat_1 = lat_2 = 25, lon_0 = 265, zero false easting and northing, sphere radius 6371200, units m |
| ReferenceGrid.NdfdTransform | code/constants.py:10-16 | `aff` has no rotation or shear (b = d = 0), square cells a = 2539.70 with e = -a (north-up), and origin (c, f) = (-2764474.35, 3232111.71) |
| ReferenceGrid.CellBoxBounds | code/get_grid.py:130-132 | the box of cell (row r, col k) spans x in [c + k·a, c + (k+1)·a] and y in [f - (r+1)·a, f - r·a]: a square of side a |
| ReferenceGrid.IndexedPointInCellBox | code/get_grid.py:123-132 | every point lies in the box of the cell `index` gives it (index then box is a containment round trip) |
| ReferenceGrid.IndexOfBoxInterior | code/get_grid.py:123-132 | conversely every point of a cell's box off its south and east edges indexes back to that cell |
| ReferenceGrid.GridExtent | code/get_grid.py:167-178 | the 1377 × 2145 raster under `aff` spans the linspace end points x from -2764474.35 to 2683182.15 and y from 3232111.71 to -265055.19 |
| ReferenceGrid.Index | code/get_grid.py:123 | `src.index(x, y)`: the row is the floor of the northing offset from the origin in cells, the column the floor of the easting offset |
| ReferenceGrid.CornerXY | code/get_grid.py:132 | `src.xy(row, col, 'll')` is the south-west corner (col·a east, (row+1)·a south of the origin) and `'ur'` the north-east corner (col+1, row) |
| ReferenceGrid.CellBox | code/get_grid.py:132 | the box spanned by the two corners is a square whose sides are one cell size long |
| ReferenceGrid.IndexInGrid | code/get_grid.py:120-123 | `index` makes no bounds check: its result is a grid cell exactly when the point is inside the grid's extent |
| GetGrid.Planar | code/get_grid.py:67-68 | each vertex contributes its first two components, in order |
| GetGrid.AllCoords | code/get_grid.py:63-68 | the only error flattening raises is the LineString assertion |
| GetGrid.AllCoordsInOrder | code/get_grid.py:63-68 | flattening succeeds iff every geometry is a LineString; then it has one point per vertex and vertex j of line i sits at position (vertices before line i) + j |
| GetGrid.FlattenCoords | code/get_grid.py:62-68 | the nested append loops compute exactly `AllCoords`, failing at the first non-LineString |
| GetGrid.PrefixFailurePersists | code/get_grid.py:64-66 | once a geometry fails the assertion, later geometries do not change the outcome |
| GetGrid.IntersectedCells | code/get_grid.py:121-123 | the cell set holds the cell of every point, and each cell in it is the cell of some point |
| GetGrid.FillCells | code/get_grid.py:125-126 | the `fill_cells` stub (body `pass`) always returns None |
| GetGrid.IntersectedCellsBound | code/get_grid.py:121-123 | there are never more intersected cells than coordinates |
| GetGrid.IntersectWithGrid | code/get_grid.py:105-136 | without `fill`: one row per distinct cell of the points, no cell twice, each row carrying its own cell's box; with `fill`: the stub's None makes it fail |
| GetGrid.CellBoxes | code/get_grid.py:128-132 | the loop over the cell set emits one row per cell, no cell twice, each with its own cell's box |
| GetGrid.PointsCovered | code/get_grid.py:121-132 | every input point lies in the box of an output row for its own cell, and every output row is the cell of some input point |
| GetGrid.ArgumentCheck | code/get_grid.py:41-49 | the intended checks: files alone are read; neither input, both inputs, or a bbox alone each raise their own error; no case falls through |
| GetGrid.ArgumentCheckAsWritten | code/get_grid.py:33-49 | the checks as written: the "neither" error and the bbox error are never raised; "both given" is raised iff a bbox is given; files are read iff there is no bbox and at least one file; nothing runs iff neither is given |
| GetGrid.ArgumentCheckDivergence | code/get_grid.py:33-49 | with `nargs=-1` `file` is never None: with no arguments no branch runs, and a bbox alone is rejected as "both given" |
| GetGrid.ArgumentChecksAgreeOnReads | code/get_grid.py:41-57 | the written and the intended checks read files on exactly the same inputs |
| GetGrid.RunMain | code/get_grid.py:40-70 | `main` with the argument checks corrected as in "## Findings": it fails with the argument error or the LineString error, and otherwise returns one row per cell of the flattened vertices of all files |
| Lexing.NatToDigits | code/import.py:152-154 | the decimal rendering of a number is a non-empty digit string |
| Lexing.NatToDigitsRoundTrip | code/import.py:152-154 | `int` of the decimal rendering of n is n |
| Lexing.PadDigits | code/coalesce.py:117-132 | a zero-padded field has exactly its width, all digits |
| Lexing.PadDigitsRoundTrip | code/coalesce.py:117-132 | a number that fits its width reads back from its zero-padded field |
| Lexing.DigitsValuePadded | code/coalesce.py:117-132 | a digit string's value fits its width, and padding that value gives the string back |
| Lexing.Pow10 | code/coalesce.py:117-132 | the width bounds 10^k are positive |
| Lexing.DigitsEnd | code/import.py:152 | greedy `\d*` from a position: a run of digits followed by a non-digit or the end |
| Lexing.SpacesEnd | code/import.py:152 | greedy `\s*` from a position: a run of whitespace followed by a non-space or the end |
| Lexing.DigitsEndExactly | code/import.py:152 | a digit run ending at a non-digit is exactly what greedy `\d*` consumes |
| Lexing.SpacesEndExactly | code/import.py:152 | a whitespace run ending at a non-space is exactly what greedy `\s*` consumes |
| TarImport.IsZ98Exactly | code/import.py:112 | `x[3:6] == 'Z98'` holds iff the name has at least six characters and characters 3..5 are `Z98` |
| TarImport.Z98Members | code/import.py:112 | the kept members are exactly the `Z98` members, drawn from the tarball, never more of them than members (order: `Z98MembersAppend`; counts: `Z98MembersCounts`) |
| TarImport.Z98MembersAppend | code/import.py:112 | the comprehension keeps member order: filtering a concatenation filters each part in turn |
| TarImport.Z98MembersAppendStep | code/import.py:112 | the inductive step of `Z98MembersAppend`: one more member at the end |
| TarImport.Z98MembersSnoc | code/import.py:112 | a trailing member is kept iff it is a `Z98` member |
| TarImport.Z98MembersCounts | code/import.py:112 | each `Z98` member is kept exactly as many times as it occurs, any other member never |
| TarImport.MinX | code/import.py:114-115 | `grid['x'].min()`: at most every target's row and attained by one |
| TarImport.MaxX | code/import.py:114-115 | `grid['x'].max()`: at least every target's row and attained by one |
| TarImport.MinY | code/import.py:114-115 | `grid['y'].min()`: at most every target's column and attained by one |
| TarImport.MaxY | code/import.py:114-115 | `grid['y'].max()`: at least every target's column and attained by one |
| TarImport.TargetWindow | code/import.py:114-116 | `Window.from_slices((minx, maxx + 1), (miny, maxy + 1))` exists iff there are targets, and then covers every target |
| TarImport.TargetWindowCovers | code/import.py:114-121 | the window exists iff there are targets; it covers rows minx..maxx and columns miny..maxy inclusive; every adj_x, adj_y lies inside it |
| TarImport.TargetWindowTight | code/import.py:114-116 | a target lies on each of the window's four edges (it is the smallest covering window) |
| TarImport.ReadWindow | code/import.py:139 | the windowed read has height × width values, entry (i, j) being band entry (rowOff + i, colOff + j) |
| TarImport.ParseTimeTag | code/import.py:152-154 | whatever the tag parser accepts has the pattern's shape: digits with the returned value, optional whitespace, `sec`, optional whitespace, `UTC`, at most a final newline |
| TarImport.TimeTagExactly | code/import.py:152-159 | the tag parser returns n iff the tag is digits with value n, optional whitespace, `sec`, optional whitespace, `UTC`, and at most a final newline |
| TarImport.TimeTagComplete | code/import.py:152-159 | every string of the pattern's shape is accepted with its number |
| TarImport.TimeTagRoundTrip | code/import.py:152-154 | `"<n> sec UTC"` parses back to n |
| TarImport.TagTimestamp | code/import.py:153-160 | a band time succeeds iff the tag is present, well formed, and within `utcfromtimestamp`'s range |
| TarImport.Gather | code/import.py:143-145 | the gather yields one value per target (the asserted count) |
| TarImport.GatherFromWindow | code/import.py:139-143 | gathering at window-relative indices from the windowed read gives the full band's value at every target, and every target lies in the band |
| TarImport.StampRows | code/import.py:147-163 | stamping succeeds iff both tag times do, reports the issuance-time error first, and then gives one row per target with its cell, its value and the two times |
| TarImport.StampRowsShape | code/import.py:147-163 | stamped rows keep the targets' order, cells and values, and all carry the two parsed tag times |
| TarImport.MemberRows | code/import.py:114-163 | an imported member yields one row per target in order, with the full band's value at that cell and the member's issuance and valid times |
| TarImport.MemberOutcome | code/import.py:114-163 | a member imports iff there are targets, the window lies inside the band, and both tag times parse; with no targets it fails on the window; success gives one row per target |
| TarImport.TargetGrid.AddWindowColumns | code/import.py:120-121 | `adj_x = x - minx` and `adj_y = y - miny` are added row by row; `x` and `y` are unchanged |
| TarImport.Outcomes | code/import.py:123-163 | each kept member is imported independently, in member order |
| TarImport.WriteLoop | code/import.py:123-166 | the member loop never writes more members than there are, and writes every member when none fails |
| TarImport.WriteLoopStep | code/import.py:123-166 | after a clean prefix a member that imports is written next |
| TarImport.WriteLoopStop | code/import.py:123-166 | after a clean prefix a member that raises ends the loop with its error |
| TarImport.WriteLoopWritten | code/import.py:123-166 | the member loop writes a prefix of the members, each with its own rows, and stops at the first failing member with its error; it writes all iff none fails |
| TarImport.WriteFailurePersists | code/import.py:123-166 | a failing member ends the loop: later members change nothing |
| TarImport.WriteMembers | code/import.py:123-166 | the loop over the kept members computes `WriteLoop` of their names and outcomes |
| TarImport.ImportTarfile | code/import.py:81-166 | `import_tarfile` adds the window-relative columns to `grid` in place and writes the members' rows as the loop specification says |
| TarImport.OrderPageUrl | code/import.py:55-59 | an argument is accepted iff it starts with `HAS`, and then becomes the HAS base URL followed by the argument |
| TarImport.TarUrls | code/import.py:53-61 | collecting the tarball URLs succeeds iff every argument starts with `HAS` |
| TarImport.TarUrlsFailure | code/import.py:53-61 | collection fails iff some argument lacks `HAS`, naming the first such argument |
| TarImport.CollectTarUrls | code/import.py:53-61 | the `extend` loop of `main` computes `TarUrls` |
| TarImport.TarUrlsFailurePersists | code/import.py:53-61 | after a rejected argument the later ones change nothing |
| Calendar.DaysInYear | code/import.py:155 | a year has 365 or 366 days |
| Calendar.DaysInMonth | code/summarize.py:25 | `days_in_month` lies in 28..31 and is 29 exactly for February of a leap year |
| Calendar.DaysBeforeNextMonth | code/import.py:155 | consecutive month starts differ by the month's length; the year is the 12 months |
| Calendar.DaysBeforeNextYear | code/import.py:155 | consecutive year starts differ by the year's length, on both sides of 1970 |
| Calendar.YearUp | code/import.py:155 | the year holding a day on or after 1970 |
| Calendar.YearDown | code/import.py:155 | the year holding a day before 1970 |
| Calendar.MonthOfDay | code/import.py:155 | the month holding a day of the year |
| Calendar.CivilFromDays | code/import.py:155 | the date of a day number is a valid date whose day number is that number |
| Calendar.CivilRoundTrip | code/import.py:155-160 | every valid date is the date of its own day number (dates and day numbers are in one-to-one correspondence) |
| Calendar.YearOfDayUnique | code/import.py:155 | a day number lies in one year only |
| Calendar.MonthOfDayUnique | code/import.py:155 | a day of the year lies in one month only |
| Calendar.DaysBeforeYearMonotone | code/import.py:155 | later years start later |
| Calendar.DaysBeforeMonthMonotone | code/import.py:155 | later months start later |
| Calendar.DateOfTimestamp | code/import.py:155-160 | `utcfromtimestamp`'s date is valid and its day contains the timestamp, flooring before 1970 |
| Coalesce.DropMissing | code/coalesce.py:88-91 | the 9999 rows and only those are removed, keeping the other rows, never adding any (order: `DropMissingAppend`; counts: `DropMissingCounts`) |
| Coalesce.DropMissingAppend | code/coalesce.py:88-91 | the mask keeps row order: filtering a concatenation filters each part in turn |
| Coalesce.DropMissingSnoc | code/coalesce.py:88-91 | a trailing row is kept iff its value is not 9999 |
| Coalesce.DropMissingCounts | code/coalesce.py:88-91 | each non-9999 row is kept exactly as many times as it occurs, a 9999 row never |
| Coalesce.InsertRow | code/coalesce.py:93-94 | inserting a row adds exactly one |
| Coalesce.SortRows | code/coalesce.py:93-94 | the sort keeps the number of rows (order and contents: `SortRowsSorted`) |
| Coalesce.InsertRowPermutes | code/coalesce.py:93-94 | insertion adds the row to the multiset and changes nothing else |
| Coalesce.InsertRowSorted | code/coalesce.py:93-94 | insertion keeps the rows sorted by (x, y, valid_time, fcst_time) |
| Coalesce.PrependSorted | code/coalesce.py:93-94 | a row at most every row of a sorted list may head it |
| Coalesce.HeadBelowInsert | code/coalesce.py:93-94 | the head of a sorted list stays below the insertion into its tail |
| Coalesce.SortRowsSorted | code/coalesce.py:93-94 | `sort_values` yields a sorted permutation of its input |
| Coalesce.DropDuplicatesKeepLast | code/coalesce.py:95-97 | dropping duplicates never adds rows |
| Coalesce.LastWithKey | code/coalesce.py:95-97 | the row `keep='last'` retains for a key is an input row with that key |
| Coalesce.Winner | code/coalesce.py:93-97 | a key's most recent forecast, when there is one, is an input row with that key and a value other than 9999 |
| Coalesce.LastWithKeyPresent | code/coalesce.py:95-97 | a key has a last row iff it occurs, and that row is an input row with the key |
| Coalesce.InsertRowLast | code/coalesce.py:93-97 | after a stable insertion the last row of a key is the later of the old last row and the inserted row |
| Coalesce.SortRowsLast | code/coalesce.py:93-97 | after the stable sort the last row of each key is its most recent forecast, the later input row on a tie |
| Coalesce.DropMissingWinner | code/coalesce.py:88-91 | removing 9999 rows does not change any key's most recent forecast |
| Coalesce.DropDuplicatesLast | code/coalesce.py:95-97 | `keep='last'` keeps every key's last row |
| Coalesce.DropDuplicatesSubsequence | code/coalesce.py:95-97 | kept rows are input rows and stay sorted |
| Coalesce.DropDuplicatesKeysDistinct | code/coalesce.py:95-97 | after `drop_duplicates` no two rows share (x, y, valid_time) |
| Coalesce.KeptKeysOccur | code/coalesce.py:95-97 | every kept key occurs in the input |
| Coalesce.SortedDistinctStrict | code/coalesce.py:93-97 | sorted rows with distinct keys are strictly ordered by key |
| Coalesce.CoalesceMeetsReference | code/coalesce.py:82-97 | the output has at most one row per (x, y, valid_time), in key order; each key's row is its most recent non-9999 forecast; every output row is an unchanged input row without 9999 |
| Coalesce.StrictHead | code/coalesce.py:93-97 | in strictly key-ordered rows the first row is its key's only row |
| Coalesce.KeyedSequencesEqual | code/coalesce.py:93-97 | two strictly key-ordered tables with the same row per key are equal |
| Coalesce.Coalesce | code/coalesce.py:88-97 | `load_files` after the concatenation never adds rows (its meaning: `CoalesceMeetsReference`) |
| Coalesce.LoadFiles | code/coalesce.py:75-99 | `load_files` fails iff it is given no files (`pd.concat([])` raises) |
| Coalesce.WinnerIsMostRecent | code/coalesce.py:93-97 | a key has no winner iff none of its rows has a value; otherwise the winner is a row with the greatest `fcst_time`, later than every tying row |
| Coalesce.LaterAssociative | code/coalesce.py:95-97 | picking the later forecast does not depend on grouping |
| Coalesce.WinnerAppend | code/coalesce.py:85-97 | the most recent forecast of concatenated tables is the later of the two tables' ones |
| Coalesce.LastWithKeyAppend | code/coalesce.py:95-97 | an appended row is the last row of its key |
| Coalesce.WinnerOfDistinct | code/coalesce.py:95-97 | in a table with one non-9999 row per key, that row is the key's most recent forecast |
| Coalesce.CoalesceWinner | code/coalesce.py:88-97 | coalescing keeps every key's most recent forecast |
| Coalesce.CoalesceIdempotent | code/coalesce.py:75-97 | coalescing coalesced rows changes nothing |
| Coalesce.MapCoalesce | code/coalesce.py:52-65 | each month's batch is coalesced on its own |
| Coalesce.MapCoalesceSnoc | code/coalesce.py:52-65 | one more month's batch is coalesced on its own, after the earlier ones |
| Coalesce.WinnerOfCoalescedBatches | code/coalesce.py:52-68 | coalescing batches first keeps the most recent forecast of every key over all batches |
| Coalesce.CoalesceInBatches | code/coalesce.py:52-68 | coalescing month by month and then across months equals coalescing all rows at once |
| CoalesceFiles.ParseFileName | code/coalesce.py:117-121 | a name yields groups iff the pattern matches its first 24 characters |
| CoalesceFiles.StemParts | code/coalesce.py:117 | a stem holds its type at 0..2 and element at 7..10, and matches iff both are capitals |
| CoalesceFiles.StemSound | code/coalesce.py:117 | every matching stem is built from its type and element |
| CoalesceFiles.DateDigitsRoundTrip | code/coalesce.py:117-132 | date fields that fit their widths read back from their 12 digits |
| CoalesceFiles.DateDigitsSound | code/coalesce.py:117-132 | any 12 digits are the padded rendering of the fields read from them |
| CoalesceFiles.JoinFields | code/coalesce.py:117 | the five digit groups concatenate to the twelve digits |
| CoalesceFiles.PrefixJoin | code/coalesce.py:117 | adjacent slices join |
| CoalesceFiles.SplitName | code/coalesce.py:117 | a name splits into stem, digits and the unconstrained rest |
| CoalesceFiles.ParseFormatRoundTrip | code/coalesce.py:117-123 | writing type, element and date fields into a name and parsing it gives the fields back, whatever follows |
| CoalesceFiles.ParseFileNameSound | code/coalesce.py:117-123 | every accepted name is built that way from its own groups |
| CoalesceFiles.MinuteToDateTime | code/coalesce.py:135 | the calendar minute n minutes after the epoch: a valid date, hour 0..23, minute 0..59, at exactly n minutes |
| CoalesceFiles.DayOrder | code/coalesce.py:135 | an earlier date has a smaller day number |
| CoalesceFiles.MinuteOrder | code/coalesce.py:53-54 | for calendar minutes the field-by-field comparison is the comparison in time, and distinct minutes have distinct minute counts |
| CoalesceFiles.AssembledDate | code/coalesce.py:135 | `pd.to_datetime` of the year..minute columns: midnight of the date plus the hours and minutes, as a calendar minute inside the timestamp range |
| CoalesceFiles.AssembledInRange | code/coalesce.py:135 | fields that already name a calendar minute are assembled unchanged |
| CoalesceFiles.AssemblesRollsOver | code/coalesce.py:135 | hour 24..47 on a month's last day rolls over to the next month's first day at hour - 24 (2017-01-31 hour 25 is 2017-02-01 01:00) |
| CoalesceFiles.EarliestDayRejected | code/coalesce.py:135 | no name dated 1677-09-21 assembles, since that midnight precedes the earliest timestamp |
| CoalesceFiles.AssemblesExactly | code/coalesce.py:135 | away from 1677-09-21, fields naming a calendar minute assemble iff that minute is inside the timestamp range |
| CoalesceFiles.CreateFileNames | code/coalesce.py:102-140 | succeeds iff every name matches and `pd.to_datetime` assembles its fields (`Assembles`); then one row per file in order with type, the assembled (rolled-over) date and path; the first non-matching name raises; a date error arises only after all names matched |
| CoalesceFiles.InMonthExactly | code/coalesce.py:53-54 | for a valid date, `start_time <= date <= end_time` of a month holds iff the date is in that year and month |
| CoalesceFiles.FirstIndex | code/coalesce.py:42-44 | the first position of a value |
| CoalesceFiles.Unique | code/coalesce.py:42-44 | `unique` holds exactly the input's values, each once |
| CoalesceFiles.UniqueFirstAppearance | code/coalesce.py:42-44 | `unique` lists values in order of first appearance |
| CoalesceFiles.FirstIndexOfPrefix | code/coalesce.py:42-44 | a value's first position is the same in any extension |
| CoalesceFiles.Prefixes | code/coalesce.py:44 | the prefix column, row by row |
| CoalesceFiles.Periods | code/coalesce.py:42 | the month period of each row's date |
| CoalesceFiles.Types | code/coalesce.py:44 | the forecast types are exactly the files' prefixes, each listed once |
| CoalesceFiles.Months | code/coalesce.py:42 | the months are exactly the files' month periods, each listed once |
| CoalesceFiles.Matching | code/coalesce.py:53-55 | a file is in month M's batch of a type iff its prefix is the type and its date lies in M |
| CoalesceFiles.MatchingAppend | code/coalesce.py:53-55 | the masks keep table order: selecting from a concatenation selects from each part in turn |
| CoalesceFiles.MatchingSnoc | code/coalesce.py:53-55 | a trailing file is selected iff it has the type and lies in the month |
| CoalesceFiles.MatchingCounts | code/coalesce.py:53-55 | a selected file is kept as many times as the table lists it, any other file never |
| CoalesceFiles.FileInOneMonth | code/coalesce.py:42-58 | each file's own month is listed, and the file falls in a month's batch iff that month is its own: the monthly batches partition a type's files |
| CoalesceFiles.Paths | code/coalesce.py:61 | the path column of the matching rows |
| CoalesceFiles.ReadAll | code/coalesce.py:85 | one batch of rows per path, in order |
| CoalesceFiles.MonthBatches | code/coalesce.py:52-61 | a type gets at most one batch per month |
| CoalesceFiles.CoalesceMonths | code/coalesce.py:52-65 | the month loop skips empty months and coalesces each other month's files |
| CoalesceFiles.MonthBatchesNonEmpty | code/coalesce.py:52-68 | a type with a file gets at least one monthly batch, so the final `load_files` never concatenates nothing |
| CoalesceFiles.CoalesceTypes | code/coalesce.py:41-72 | one output per forecast type, named by the lower-cased type, holding the coalescence of all its monthly rows |
| CoalesceFiles.CoalesceType | code/coalesce.py:47-72 | one pass over a type with files: its output is named by the lower-cased type and holds the coalescence of all its monthly rows |
| CoalesceFiles.CoalesceDirectory | code/coalesce.py:34-72 | `main` succeeds iff every file name matches and its fields assemble, and then writes one output per type from the names table with its rolled-over dates |
| Summarize.FirstHalfExactly | code/summarize.py:24-25 | `day / days_in_month <= .5` iff 2·day <= days_in_month |
| Summarize.DivAtMostHalf | code/summarize.py:24-25 | a quotient is at most one half iff twice the numerator is at most the divisor |
| Summarize.MonthHalf | code/summarize.py:23-26 | the bin lies in 1..24; it is 2m - 1 iff the day is in the first half of month m, and 2m iff in the second |
| Summarize.MonthHalfMonotone | code/summarize.py:23-26 | within a year the bin never decreases as the date advances |
| Summarize.BinOf | code/summarize.py:22-26 | each row's bin is the half of its valid time's UTC month, in 1..24 |
| Summarize.AddBins | code/summarize.py:22-26 | adding bin columns keeps one row per row |
| Summarize.ValuesOf | code/summarize.py:30 | a key collects no more values than there are rows |
| Summarize.KeyLessTransitive | code/summarize.py:30 | the groupby key order is transitive |
| Summarize.LookupBelow | code/summarize.py:30-31 | a key below every group's key has no group |
| Summarize.AddToGroupOrdered | code/summarize.py:30-31 | adding a row keeps the groups ordered and non-empty |
| Summarize.AddToGroupLookup | code/summarize.py:30-31 | adding a row appends its value to its own group only |
| Summarize.GroupBy | code/summarize.py:30 | the groups come in (x, y, month_half) order and none is empty |
| Summarize.GroupByCollects | code/summarize.py:28-31 | groups come in (x, y, month_half) order, none is empty, and each key's group holds exactly its rows' values in row order |
| Summarize.LookupAt | code/summarize.py:30-31 | each listed group is found under its key |
| Summarize.LookupMissing | code/summarize.py:30-31 | a key no group carries finds nothing |
| Summarize.ValuesOfPresent | code/summarize.py:30-31 | a key collects values iff some row has that key |
| Summarize.OneGroupPerKey | code/summarize.py:28-31 | there is a group for a key iff some row carries it: one group per (x, y, month_half) present |
| Summarize.SummarizeFiles | code/summarize.py:19-31 | the file loop groups each file's binned rows, with the properties of `GroupByCollects` for every file |

## Left out

- Downloading and archives are not modelled: HTTP downloads, the progress bar, `get_extract_urls`' HTML scraping, tar extraction and `MemoryFile`. They are network and file I/O.
- `get_extract_urls` is a parameter of `TarImport.TarUrls`. Its date filter is not modelled.
- Raster and table I/O are not modelled: GRIB decoding, `rasterio.open`/`read`, parquet reads and writes, GeoJSON reads, and `TemporaryDirectory` handling. A band is given as an array with a tag map, and file contents by `read`.
- `coalesce.py` passes `tempdir.name` on the string that `TemporaryDirectory()` yields (line 64). That raises at run time. The model writes each month's result to a keyed place instead.
- `main()` of `coalesce.py` is called without its two required arguments (line 144). These are I/O-level faults, not pipeline logic.
- The final `load_files` of each type reads the month files through a directory glob, in whatever order the file system lists them. The model passes them in month order (`Months` order).
- A forecast-time tie between two months for the same (x, y, valid_time) could resolve differently under another glob order.
- Reprojection (`to_crs`) is not modelled. Nor are pyproj, GeoTIFF creation in `create_grid`, or rasterio's own `index`/`xy`. Input geometries are taken as already projected. `ReferenceGrid.Index` and `ReferenceGrid.CornerXY` use the affine of `code/constants.py` in place of rasterio.
- The NWS elevation lookups (`code/get_grid.py:76-100`) are not modelled. They call a network API.
- The JSON printing of `main` in `code/get_grid.py` is not modelled. It is output I/O.
- The bounding-box path (`re.split`, `box`, the exterior coordinates) sits after an unconditional `raise`, so it is not modelled.
- Floating-point rounding is not modelled; reals are exact. `np.linspace` matters only for the raster's shape.
- The mean/std statistics and the GeoJSON merge of `code/summarize.py` (lines 30-34) are not modelled. They are floating-point statistics and a library merge. `Summarize.GroupBy` produces the exact values each statistic is taken over.
- Non-ASCII digits and whitespace that Python's `\d` and `\s` also accept are not modelled. Within ASCII, `\s` is modelled in full: tab to carriage return, the separators 0x1c to 0x1f, and space.
- `TarImport.WindowOutOfRange` simplifies rasterio: a window outside the band is an error rather than a partially filled read.
- `Window.from_slices` may reject negative offsets once, before the member loop (`code/import.py:116`). The model builds the window without that check, and a window that does not fit the band fails each member instead (`WindowOutOfRange`).
- With an empty target grid the minima and maxima at `code/import.py:114-116` are NaN. Whether `Window.from_slices` rejects that NaN window once, before the loop, is not modelled. The model reports `WindowUndefined` at each member instead, so the import fails only when at least one `Z98` member exists.
- `TarImport.TagTimestamp` does not model platform limits of `utcfromtimestamp` beyond year 9999.
- The in-place column assignments of `import_tarfile` and `summarize.py` are modelled as new row sequences, except `adj_x`/`adj_y`, which `TarImport.TargetGrid` holds. The assignments are `new_data['vals']`, the time columns, and `month`, `first_half` and `month_half`.
- `create_file_names_df` reads `files`, a directory iterator of unspecified order. The model takes the entries as a sequence.
- The top-level `get_grid.py` is a broken draft and is not part of this model. The top-level `import.py` is an earlier copy of `code/import.py`, which covers its logic.
- The order in which `IntersectWithGrid` emits rows follows set iteration in the source, which is unspecified. The model fixes no order, and its contract says nothing about order.

## Findings

| source | as written | input that shows it | evidently intended | confidence | as-written member | corrected member |
|---|---|---|---|---|---|---|
| code/get_grid.py:41-49 | `file` comes from a click argument with `nargs=-1`, so it is a tuple and never None; the `file is None` and `file is not None` tests therefore never see a missing file | no arguments at all: no check fires, no branch runs, and `print(int_gdf...)` meets an unbound name; a bbox alone raises "Either bbox or file must be provided" instead of NotImplementedError | an empty `file` tuple counts as no file: no input raises ValueError, a bbox alone reaches NotImplementedError | not executed | GetGrid.ArgumentCheckAsWritten (with GetGrid.ArgumentCheckDivergence) | GetGrid.ArgumentCheck |

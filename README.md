# Signum sync-log dashboards, modelled in Dafny

The repository holds four Dash dashboards that read the CSV logs a Signum node writes while it syncs its chain:

- the progress tool: block height against elapsed sync time;
- the measurement tool: the same, plus per-block timings and transaction counts;
- a root progress dashboard and a root measurement report: two smaller copies.

Each tool can load an "original" and a "comparison" log and draw them side by side. It shows a combined summary table of sync statistics, with the better figure of each pair in green and the worse in red. The tools can also edit the metadata preamble of a log, clear a log down to one row per 5000 blocks, and save the result under a cleaned-up, timestamped name.

This project models the logic those four files share: the operations below, and what each promises.

- reading a file: finding the header row and reading the `Property;Value` preamble into a metadata dict;
- writing a file: the preamble writer, and the file names "Save As..." and "Save" choose;
- `format_seconds`;
- the derived columns each dashboard adds (seconds, speed, formatted time, rolling means);
- the clear-data filter, the chunk averaging and the block-range selection;
- `get_stats_dict` of every dashboard, with the `describe()` statistics it relies on;
- the combined summary table, with its colour classification, its deltas and its row order;
- the metadata and clear callbacks acting on the browser-side stores;
- the keyboard cursor and the sort buttons;
- the statistical summary of the root measurement report.

Files, one module each:

| file | module | what it holds |
|---|---|---|
| `wrappers.dfy` | `Wrappers` | `Option` and `Result` |
| `arith.dfy` | `Arith` | real and integer arithmetic facts the proofs use |
| `text.dfy` | `Text` | `str.strip`, `splitlines`, `str(int)`, character search |
| `dicts.dfy` | `Dicts` | an insertion-ordered Python dict of strings |
| `sorting.dfy` | `Sorting` | `sorted()` and `sorted(set())` |
| `frames.dfy` | `Frames` | a column-oriented table; the `DataFrame` class updated in place |
| `stores.dfy` | `Stores` | the `dcc.Store` contents of one dataset |
| `duration.dfy` | `Duration` | `format_seconds` (`str(timedelta(seconds=int(x)))`) and its inverse |
| `preamble.dfy` | `Preamble` | `find_header_row`, `extract_metadata`, the preamble writer |
| `savenames.dfy` | `SaveNames` | suffix stripping, `os.path` helpers, both writers |
| `enrichment.dfy` | `Enrichment` | `process_progress_df` / `process_measurement_df`, rolling means |
| `rowsets.dfy` | `RowSets` | `filter_df_for_clearing`, `average_df_by_chunks`, range selection |
| `statistics.dfy` | `Statistics` | linear quantiles, `describe()`, `skew()` |
| `summary.dfy` | `Summary` | `get_stats_dict` of every dashboard |
| `summary_contracts.dfy` | `SummaryContracts` | what a stats dict holds |
| `comparison.dfy` | `Comparison` | `create_combined_summary_table` |
| `comparison_contracts.dfy` | `ComparisonContracts` | colours, deltas and row order of the table |
| `session.dfy` | `Session` | the metadata and clear callbacks on the `Dashboard` stores |
| `navigation.dfy` | `Navigation` | keyboard cursor, x-values, sort state |
| `report.dfy` | `MeasurementReport` | the root measurement report's summary table |

Paths in the table below are relative to the repository root:

| short name | path |
|---|---|
| progress tool | `sync_progress_analyzis_tool/sync_progress_analyzer.py` |
| measurement tool | `sync_measurement_analyzis_tool/sync_measurement_analyzer.py` |
| root dashboard | `sync_progress_analyzer.py` |
| root report | `sync_measurement_analyzer.py` |

The four files are near-copies. Where two of them share a function, the row cites the copy the member follows, and the member's doc comment names any difference.

Several defects of the source are modelled as written, and lemmas state their consequences:

- The measurement tool's clear button calls `filter_df_for_clearing`, which that file never defines. The click raises, and nothing is cleared.
- Re-saving a saved file without a hostname keeps the date part of the old timestamp in the new name. The sequence-number substitution runs before the timestamp substitution and eats the time part.
- The measurement tool resolves its time column in the opposite order to the progress tool.
- In the measurement tool, the fewer-than-two-rows stats dict has keys different from a populated one.
- The measurement tool's row order shows the speed block's standard deviation and skewness twice, once in place of the transaction figures.

Functions `std` and `skew` (the sample standard deviation and skewness) appear as parameters of the statistics. `describe()`'s guards are modelled explicitly: NaN below two values for `std`, below three for `skew`.

## Model

| member | source | states |
|---|---|---|
| Preamble.FirstHeaderFrom | sync_progress_analyzis_tool/sync_progress_analyzer.py:256-262 | the first header-like line at or after a position, every line between not header-like; none when no later line is one |
| Preamble.FindHeaderRow | sync_progress_analyzis_tool/sync_progress_analyzer.py:256-262 | the header row is the first line naming `Block_height` or `Block_timestamp` with at least two ';', and 0 when no line is |
| Preamble.FindHeaderRowVariantsAgree | sync_measurement_analyzis_tool/sync_measurement_analyzer.py:301-313 | the measurement tool's extra line-0 test never changes the answer: both variants return the same row |
| Preamble.ExtractMetadata | sync_progress_analyzis_tool/sync_progress_analyzer.py:264-281 | the flag-driven scan returns exactly the entries between the first `Property;Value` line and the first line that ends the section, a repeated key keeping its last value |
| Preamble.MetadataWellFormed | sync_progress_analyzis_tool/sync_progress_analyzer.py:264-281 | the metadata read from any file has unique keys and no empty key or value |
| Preamble.PreambleLines | sync_progress_analyzis_tool/sync_progress_analyzer.py:2243-2247 | the writer adds nothing for empty metadata, else the opening line, one line per entry and the `;;` line |
| Preamble.PreambleRoundTrip | sync_progress_analyzis_tool/sync_progress_analyzer.py:2243-2250 | a saved file splits back into its written lines; `extract_metadata` reads the written dict back and `find_header_row` finds the table header right after the preamble |
| Preamble.ReadWithoutPreamble | sync_progress_analyzis_tool/sync_progress_analyzer.py:256-281 | a file saved without metadata reads back with no metadata and the header on line 0 |
| Preamble.ReadWithPreamble | sync_progress_analyzis_tool/sync_progress_analyzer.py:256-281 | a file saved with metadata reads the same dict back and finds the header after the preamble's lines |
| SaveNames.Basename | sync_progress_analyzis_tool/sync_progress_analyzer.py:2257 | `os.path.basename`: the longest ending of the path without a '/' |
| SaveNames.SplitExtContract | sync_progress_analyzis_tool/sync_progress_analyzer.py:2258 | `os.path.splitext`: root plus extension is the name; an extension exists exactly when a dot follows a non-dot character, and it starts at the last dot |
| SaveNames.SanitizeContract | sync_progress_analyzis_tool/sync_progress_analyzer.py:2263-2266 | each file-name character of the hostname is kept, each other one becomes '_', and sanitising again changes nothing |
| SaveNames.StripEnding | sync_progress_analyzis_tool/sync_progress_analyzer.py:2268-2272 | an end-anchored substitution cuts the text at the leftmost position whose rest matches, or keeps it whole when none does |
| SaveNames.StripSeqNumber | sync_progress_analyzis_tool/sync_progress_analyzer.py:2269 | a trailing `_<digits>` is removed, and nothing before it |
| SaveNames.StripOldTimestamp | sync_progress_analyzis_tool/sync_progress_analyzer.py:2270 | a trailing `_<8 digits>_<6 digits>` is removed |
| SaveNames.KeepDate | sync_progress_analyzis_tool/sync_progress_analyzer.py:2270 | a trailing `_<date>` alone is no timestamp and is kept |
| SaveNames.StripHost | sync_progress_analyzis_tool/sync_progress_analyzer.py:2271 | the hostname suffix is removed up to the end when no earlier hostname marker starts before it |
| SaveNames.StripRange | sync_progress_analyzis_tool/sync_progress_analyzer.py:2272 | a trailing `_range_<digits>-<digits>` is removed, and nothing before it |
| SaveNames.CandidateInjective | sync_progress_analyzis_tool/sync_progress_analyzer.py:2278-2282 | distinct counters give distinct candidate paths |
| SaveNames.FreePath | sync_progress_analyzis_tool/sync_progress_analyzer.py:2277-2282 | the counter loop ends and returns the first candidate that is not an existing file, every earlier candidate being one |
| SaveNames.SavedRows | sync_progress_analyzis_tool/sync_progress_analyzer.py:2234-2237 | the rows written are the inclusive height range when the filter applies; a range over a table without heights is the KeyError |
| SaveNames.SaveOverwrite | sync_progress_analyzis_tool/sync_progress_analyzer.py:2291-2339 | "Save" reports a missing store and a store without table text by their messages, and a range over a table without heights as the KeyError; otherwise it writes the store's preamble and the selected rows to the cleaned name, which is clean base plus hostname part without the filter and ends with the timestamp with it |
| SaveNames.SaveAs | sync_progress_analyzis_tool/sync_progress_analyzer.py:2220-2289 | "Save As..." reports the same errors, and otherwise writes the preamble and the selected rows to the first free candidate of the new stem |
| SaveNames.OverwriteWithoutFilter | sync_progress_analyzis_tool/sync_progress_analyzer.py:2304-2339 | without the range filter "Save" writes clean base plus hostname part whatever the time, so saving twice overwrites one file |
| SaveNames.OverwriteWithFilter | sync_progress_analyzis_tool/sync_progress_analyzer.py:2304-2339 | with the range filter the path "Save" writes ends with the timestamp |
| SaveNames.StripTail | sync_progress_analyzis_tool/sync_progress_analyzer.py:2269-2270 | on a numbered stem `h_<timestamp>` the first two substitutions remove counter and timestamp; without a counter they leave `h_<date>` |
| SaveNames.ResaveWithHostname | sync_progress_analyzis_tool/sync_progress_analyzer.py:2261-2275 | a name written with a hostname cleans back to the base it was saved under, for any counter |
| SaveNames.ResaveKeepsCleanBase | sync_progress_analyzis_tool/sync_progress_analyzer.py:2256-2282 | any file written by "Save As..." with a hostname cleans back to the clean base of the file it came from |
| SaveNames.ResaveWithoutHostname | sync_progress_analyzis_tool/sync_progress_analyzer.py:2268-2275 | without a hostname the first-saved name cleans to `base_<date>`: each re-save adds another timestamp (defect as written) |
| SaveNames.ResavedNameKeepsDate | sync_progress_analyzis_tool/sync_progress_analyzer.py:2268-2272 | "run_20240101_120000" cleans to "run_20240101", where the timestamp substitution alone gives "run" |
| Duration.Trunc | sync_progress_analyzis_tool/sync_progress_analyzer.py:330 | `int(x)` truncates toward zero: the result is within one of x, toward zero |
| Duration.FormatSeconds | sync_progress_analyzis_tool/sync_progress_analyzer.py:326-330 | "N/A" exactly for a missing value, otherwise the rendering of the truncated seconds |
| Duration.ParseFormatDuration | sync_progress_analyzis_tool/sync_progress_analyzer.py:330 | every whole-second count, negative ones included, reads back from its rendering |
| Duration.FormatDurationInjective | sync_progress_analyzis_tool/sync_progress_analyzer.py:330 | distinct second counts render differently |
| Duration.FormatWithinDay | sync_progress_analyzis_tool/sync_progress_analyzer.py:330 | below one day the rendering is the bare clock of seven or eight characters |
| Duration.FormatOneDay | sync_progress_analyzis_tool/sync_progress_analyzer.py:330 | 86400 seconds render as "1 day, 0:00:00" |
| Duration.Midnight | sync_progress_analyzis_tool/sync_progress_analyzer.py:330 | 0 seconds render as "0:00:00" |
| Duration.FormatNegative | sync_progress_analyzis_tool/sync_progress_analyzer.py:330 | -5 seconds render as "-1 day, 23:59:55" |
| Duration.FormatTruncates | sync_progress_analyzis_tool/sync_progress_analyzer.py:326-330 | 3661.9 seconds render as "1:01:01": the fraction is dropped |
| Frames.WithColumnContents | sync_measurement_analyzis_tool/sync_measurement_analyzer.py:1310-1313 | after `df[c] = s` the columns are the old ones and `c`; `c` holds `s` and every other column keeps its cells |
| Frames.Coerced | sync_measurement_analyzis_tool/sync_measurement_analyzer.py:1315-1320 | `to_numeric(errors='coerce')` keeps numbers and missing cells and turns text into NaN |
| Frames.DropMissing | sync_measurement_analyzis_tool/sync_measurement_analyzer.py:1315-1320 | `dropna(subset=[c])` keeps exactly the rows whose cell in `c` is present (a number or text), in order, each with all its cells |
| Frames.PresentRowsCoerced | sync_measurement_analyzis_tool/sync_measurement_analyzer.py:1318-1320 | after `to_numeric(errors='coerce')` the rows with a present cell are exactly those whose original cell is a number |
| Frames.DataFrame.Assign | sync_measurement_analyzis_tool/sync_measurement_analyzer.py:1310-1313 | the in-place assignment leaves the table holding the new column and nothing else changed |
| Frames.DataFrame.DropMissingInPlace | sync_measurement_analyzis_tool/sync_measurement_analyzer.py:1315-1320 | the in-place `dropna` leaves the table holding exactly the rows with a present cell |
| Enrichment.DiffContents | sync_progress_analyzis_tool/sync_progress_analyzer.py:739-740 | `diff()` is missing on the first row and the difference to the previous row after it |
| Enrichment.SpeedSeriesValues | sync_progress_analyzis_tool/sync_progress_analyzer.py:739-741 | speed is 0 on the first row and where the time delta is zero or undefined, and height delta over time delta elsewhere |
| Enrichment.SpeedSeriesNonNegative | sync_progress_analyzis_tool/sync_progress_analyzer.py:739-741 | heights and times that never decrease give no negative speed |
| Enrichment.SpeedSeriesExample | sync_progress_analyzis_tool/sync_progress_analyzer.py:739-741 | heights 0,10,20,30,40 at 0,1,3,4,4 s give speeds 0,10,5,10,0 |
| Enrichment.FormattedReadsBack | sync_progress_analyzis_tool/sync_progress_analyzer.py:738 | the formatted time column is "N/A" exactly for a missing time and otherwise reads back as the truncated seconds |
| Enrichment.WithSpeed | sync_progress_analyzis_tool/sync_progress_analyzer.py:738-741 | the formatted-time and speed columns are added from the seconds and height columns; every other column is kept |
| Enrichment.ResolveTimeMeasurement | sync_measurement_analyzis_tool/sync_measurement_analyzer.py:1288-1304 | the measurement tool's seconds column comes from the in-progress ms first, then an existing seconds column, then the total ms; none otherwise |
| Enrichment.ResolveTimeProgress | sync_progress_analyzis_tool/sync_progress_analyzer.py:720-732 | the progress tool uses an existing seconds column first, then the in-progress ms divided by 1000; none otherwise |
| Enrichment.CleanTimestamps | sync_measurement_analyzis_tool/sync_measurement_analyzer.py:1315-1320 | exactly the rows whose timestamp is a number remain, in order, each with all its cells |
| Enrichment.ProcessedMeasurement | sync_measurement_analyzis_tool/sync_measurement_analyzer.py:1276-1326 | the measurement tool's `process_progress_df`: the guards, the resolved time, the derived columns, the timestamp clean-up |
| Enrichment.ProcessedProgress | sync_progress_analyzis_tool/sync_progress_analyzer.py:715-742 | the progress tool's `process_progress_df`: the guards, the resolved time and the derived columns |
| Enrichment.ProcessedMeasurementGuards | sync_measurement_analyzis_tool/sync_measurement_analyzer.py:1278-1308 | an empty table, one without a known time column and one without heights are returned without derived columns |
| Enrichment.MeasurementTimePriority | sync_measurement_analyzis_tool/sync_measurement_analyzer.py:1288-1304 | the in-progress ms win over an existing seconds column, which wins over the total ms |
| Enrichment.ProgressTimePriority | sync_progress_analyzis_tool/sync_progress_analyzer.py:724-732 | the progress tool's order: an existing seconds column wins over the ms column |
| Enrichment.TimePriorityDiffers | sync_measurement_analyzis_tool/sync_measurement_analyzer.py:1288-1304 | with both time columns present the two tools compute their speeds from different columns |
| Enrichment.MeasurementFromMilliseconds | sync_measurement_analyzis_tool/sync_measurement_analyzer.py:1288-1293 | with the in-progress ms present the measurement tool's seconds are those ms divided by 1000 |
| Enrichment.ProgressFromSeconds | sync_progress_analyzis_tool/sync_progress_analyzer.py:724-725 | with a seconds column present the progress tool keeps it as loaded |
| Enrichment.ProcessedMeasurementEnriched | sync_measurement_analyzis_tool/sync_measurement_analyzer.py:1306-1313 | once the guards pass, the table gains the seconds, text and speed columns, and without timestamps it is the resolved table with speed |
| Enrichment.ProcessedMeasurementRows | sync_measurement_analyzis_tool/sync_measurement_analyzer.py:1310-1320 | with timestamps, the result is the rows of the enriched table (time resolved, speed added, both computed over the whole table before the drop) whose loaded timestamp is a number, in order, and has as many rows as there are numeric timestamps |
| Enrichment.ProcessedRootContract | sync_progress_analyzer.py:283-291 | the root dashboard adds the text and speed columns, or fails on the first column it reads that is missing |
| Enrichment.ProcessMeasurementInPlace | sync_measurement_analyzis_tool/sync_measurement_analyzer.py:1276-1326 | updating the table in place leaves it equal to `ProcessedMeasurement` of the old table |
| Enrichment.ProcessProgressInPlace | sync_progress_analyzis_tool/sync_progress_analyzer.py:715-742 | updating the table in place leaves it equal to `ProcessedProgress` of the old table |
| Enrichment.ProcessRootInPlace | sync_progress_analyzer.py:283-291 | in place: the text column is written before heights are read, so a table without heights keeps that column when the KeyError is raised |
| Enrichment.GuardedRatioContract | sync_measurement_analyzer.py:32-34 | a ratio with `.replace([NA, inf], 0)` is 0 for an undefined operand and for a non-negative number over 0, and the quotient otherwise |
| Enrichment.MeasurementRatios | sync_measurement_analyzer.py:30-34 | row by row: 1000/push blocks per second, count/(push/1000) transactions per second, push/count ms per transaction, each 0 where its divisor is 0 or undefined |
| Enrichment.MeasurementColumnsCells | sync_measurement_analyzer.py:26-35 | `process_measurement_df` assigns the five derived columns as whole columns, failing on the first column it reads that is missing |
| Enrichment.ProcessMeasurementDfInPlace | sync_measurement_analyzer.py:26-35 | in place: the table gains the five columns, or the columns assigned before the KeyError |
| Enrichment.RollingMeanBounds | sync_measurement_analyzer.py:169-171 | `rolling(window, min_periods=1).mean()` at each row lies between the least and the greatest number of its window and exists whenever the window holds a number |
| Enrichment.RollingMeanWindowOne | sync_measurement_analyzer.py:169-171 | with a window of one row the rolling mean is the column itself, NaN and text becoming missing |
| Enrichment.WithRollingMeans | sync_measurement_analyzer.py:268-270 | each timing metric gains its `<metric>_ma` column; the first metric that is not a column stops the loop with a KeyError |
| Enrichment.AddRollingMeans | sync_measurement_analyzer.py:264-270 | the loop over the timing metrics, in place, leaves the table equal to `WithRollingMeans` of the old one |
| Enrichment.WithRollingMeansColumns | sync_measurement_analyzer.py:268-270 | the columns afterwards are the old ones plus one trailing-mean column per metric |
| Enrichment.WithRollingMeansAverages | sync_measurement_analyzer.py:268-270 | each `<metric>_ma` column holds the rolling mean of its metric |
| Enrichment.WithRollingMeansKeeps | sync_measurement_analyzer.py:268-270 | every other column keeps its cells |
| RowSets.FilterForClearing | sync_progress_analyzis_tool/sync_progress_analyzer.py:499-510 | the cleared table is rectangular and its rows are rows of the input |
| RowSets.ClearingContract | sync_progress_analyzis_tool/sync_progress_analyzer.py:499-510 | the guard keeps the table; otherwise only input rows remain, every multiple of 5000 that occurs appears once, heights strictly ascending |
| RowSets.ClearingIdempotent | sync_progress_analyzis_tool/sync_progress_analyzer.py:499-510 | clearing a cleared table changes nothing |
| RowSets.AverageByChunks | sync_measurement_analyzis_tool/sync_measurement_analyzer.py:768-814 | the averaged table is rectangular and holds the genesis rows and one row per chunk |
| RowSets.GroupKeyMonotone | sync_measurement_analyzis_tool/sync_measurement_analyzer.py:808 | a higher height never falls into an earlier chunk |
| RowSets.GroupKeyOfHeight | sync_measurement_analyzis_tool/sync_measurement_analyzer.py:808 | heights 1..chunk form group 0, then chunk+1..2*chunk group 1, and so on |
| RowSets.GroupHasRows | sync_measurement_analyzis_tool/sync_measurement_analyzer.py:808-811 | every group the averaging lists holds a row of the table |
| RowSets.AveragedHeight | sync_measurement_analyzis_tool/sync_measurement_analyzer.py:797-811 | the averaged row's height is the last present height of its group |
| RowSets.AverageByChunksShape | sync_measurement_analyzis_tool/sync_measurement_analyzer.py:768-814 | the guard keeps the table; otherwise the genesis rows come first and unchanged, then one row per non-empty chunk |
| RowSets.AverageByChunksHeights | sync_measurement_analyzis_tool/sync_measurement_analyzer.py:768-814 | after the genesis rows each height is positive and lies in its own chunk, so heights strictly ascend |
| RowSets.RowsInRange | sync_progress_analyzis_tool/sync_progress_analyzer.py:1411 | the row indices whose height is a number within the inclusive bounds, in table order |
| RowSets.Ordered | sync_progress_analyzis_tool/sync_progress_analyzer.py:1405-1406 | bounds given in the wrong order are swapped |
| RowSets.SelectRangeContract | sync_progress_analyzis_tool/sync_progress_analyzer.py:1381-1413 | the range is ordered; defaults are min and max height and show every row with a height; otherwise the user's bounds apply |
| RowSets.ComputeRanges | sync_progress_analyzis_tool/sync_progress_analyzer.py:1381-1413 | the loop over the datasets writes each loaded dataset's range into its entry and touches no other entry |
| RowSets.SelectSharedRangeContract | sync_progress_analyzer.py:635-667 | the dropdown lists every height of either dataset once, ascending; the bounds are ordered; both datasets are cut to the same range |
| RowSets.SharedRangeDefaults | sync_progress_analyzer.py:659-660 | on an upload, clear or reset the range spans every height of both datasets |
| Statistics.QuantileBetween | sync_progress_analyzis_tool/sync_progress_analyzer.py:540 | a linear quantile lies between its two neighbouring sample values |
| Statistics.QuantileBounds | sync_progress_analyzis_tool/sync_progress_analyzer.py:540 | every quantile lies between the least and the greatest sample value |
| Statistics.QuantileEnds | sync_progress_analyzis_tool/sync_progress_analyzer.py:540 | the 0-quantile is the least value and the 1-quantile the greatest |
| Statistics.QuantileMonotone | sync_progress_analyzis_tool/sync_progress_analyzer.py:540 | a higher quantile is never smaller |
| Statistics.MedianOdd | sync_progress_analyzis_tool/sync_progress_analyzer.py:540 | the median of an odd-sized sample is its middle value |
| Statistics.MedianEven | sync_progress_analyzis_tool/sync_progress_analyzer.py:540 | the median of an even-sized sample is the mean of the two middle values |
| Statistics.MedianIsHalf | sync_progress_analyzis_tool/sync_progress_analyzer.py:540 | the "50%" figure is the quantile 2/4 |
| Statistics.QuartilesOrdered | sync_progress_analyzis_tool/sync_progress_analyzer.py:540 | least value, Q1, median, Q3 and greatest value come in order |
| Statistics.MeanBetweenEnds | sync_progress_analyzis_tool/sync_progress_analyzer.py:540 | the mean lies between the least and the greatest value |
| Statistics.DescribeContract | sync_progress_analyzis_tool/sync_progress_analyzer.py:540 | `describe()` is NaN everywhere without values, otherwise ordered figures from the sample, the std only from two values |
| Statistics.Skew | sync_progress_analyzis_tool/sync_progress_analyzer.py:541 | `skew()` is NaN below three values |
| Statistics.RawSkew | sync_progress_analyzis_tool/sync_progress_analyzer.py:559 | the raw skewness replaces NaN by 0.0 and keeps any other value |
| Statistics.AllMissingDescribed | sync_progress_analyzis_tool/sync_progress_analyzer.py:536-541 | a column without numbers describes as NaN, unlike the zeros used for an empty series |
| Sorting.SortedDistinct | sync_measurement_analyzis_tool/sync_measurement_analyzer.py:2436 | `sorted(list(set(xs)))` is strictly increasing and holds exactly the values of xs |
| Summary.Span | sync_progress_analyzis_tool/sync_progress_analyzer.py:544-545 | last minus first cell; NaN when either is not a number |
| Summary.AverageSpeed | sync_progress_analyzis_tool/sync_progress_analyzer.py:546 | blocks over seconds when the seconds are positive, 0.0 otherwise |
| Summary.TimeEntry | sync_progress_analyzis_tool/sync_progress_analyzer.py:549 | the elapsed-time entry for a number; `int()` of a NaN span raises |
| Summary.SystemSeries | sync_measurement_analyzis_tool/sync_measurement_analyzer.py:878-884 | all minus user transaction count per row, or the empty series when either column is absent |
| Summary.GetStatsDict | sync_measurement_analyzis_tool/sync_measurement_analyzer.py:828-974 | the measurement tool's dict as it runs equals the specified stats: the literal, then the timing loop |
| Summary.AddTimingStats | sync_measurement_analyzis_tool/sync_measurement_analyzer.py:959-972 | the timing loop adds exactly the header and five figures of every timing column |
| Summary.TimingBlocksAt | sync_measurement_analyzis_tool/sync_measurement_analyzer.py:959-972 | a timing column's figures survive the later passes of the loop |
| Summary.MeasurementShape | sync_measurement_analyzis_tool/sync_measurement_analyzer.py:897-972 | a populated dict is the totals, the four sample blocks and the timing blocks |
| Summary.MeasurementParts | sync_measurement_analyzis_tool/sync_measurement_analyzer.py:897-922 | entry by entry: elapsed time, blocks, average speed, transaction and AT sums, and no 'Total Time' key |
| Summary.TotalsInUnion | sync_measurement_analyzis_tool/sync_measurement_analyzer.py:917-958 | the totals keep their values when the sample and timing blocks join the dict |
| Summary.MeasurementFigures | sync_measurement_analyzis_tool/sync_measurement_analyzer.py:849-972 | every sample and timing figure of a populated dict is that of its series' statistics |
| Summary.BlocksInUnion | sync_measurement_analyzis_tool/sync_measurement_analyzer.py:917-972 | the sample and timing blocks keep their values in the whole dict |
| SummaryContracts.RawFigures | sync_progress_analyzis_tool/sync_progress_analyzer.py:552-559 | each raw figure is the `describe()` field it names, the skewness raw as 0.0 when NaN |
| SummaryContracts.SampleSeriesSource | sync_measurement_analyzis_tool/sync_measurement_analyzer.py:849-884 | with two rows or more a sample series is empty exactly when a column it reads is absent; the speed series drops the first row |
| SummaryContracts.EmptySampleFigures | sync_progress_analyzis_tool/sync_progress_analyzer.py:536-538 | an empty series gives zeros for all eight figures |
| SummaryContracts.NoNumberSampleFigures | sync_progress_analyzis_tool/sync_progress_analyzer.py:539-541 | a series without numbers gives NaN figures and a raw skewness of 0.0 |
| SummaryContracts.SampleFiguresOrdered | sync_progress_analyzis_tool/sync_progress_analyzer.py:540 | the least and greatest figures come from the sample and bound it; quartiles and mean lie between them in order |
| SummaryContracts.SampleFiguresGuards | sync_progress_analyzis_tool/sync_progress_analyzer.py:540-559 | the std needs two values and the skewness three; below that the skewness shows NaN but counts as 0.0 |
| SummaryContracts.TimingFigures | sync_measurement_analyzis_tool/sync_measurement_analyzer.py:959-972 | zeros for an absent timing column, else its `describe()` min, max, mean, median and std |
| SummaryContracts.ShortMeasurementTable | sync_measurement_analyzis_tool/sync_measurement_analyzer.py:831-846 | a table under two rows reads "N/A" everywhere; its keys hold 'Total Time' and lack 'Total ATs Executed' (mismatch as written) |
| SummaryContracts.ShortProgressTable | sync_progress_analyzis_tool/sync_progress_analyzer.py:521-533 | the progress dict reads "N/A" everywhere for a short table or one without the speed column |
| SummaryContracts.MeasurementFailure | sync_measurement_analyzis_tool/sync_measurement_analyzer.py:897-918 | the measurement dict fails exactly when the elapsed-time span is NaN, by `int()` of it |
| SummaryContracts.ProgressMissingColumn | sync_progress_analyzis_tool/sync_progress_analyzer.py:544-545 | the progress dict raises a KeyError for the time column first, then for the height column |
| SummaryContracts.ProgressFailure | sync_progress_analyzis_tool/sync_progress_analyzer.py:544-549 | with both columns present it fails exactly when the time span is NaN |
| SummaryContracts.ProgressParts | sync_progress_analyzis_tool/sync_progress_analyzer.py:544-560 | a populated progress dict holds exactly the three totals and the speed block, with their raw values |
| SummaryContracts.ProgressUnion | sync_progress_analyzis_tool/sync_progress_analyzer.py:548-560 | the totals and the speed block do not overlap |
| Comparison.SummaryRows | sync_progress_analyzis_tool/sync_progress_analyzer.py:600-710 | the loop over the metric names builds exactly one row per metric, in order |
| Comparison.BuildMeasurementOrder | sync_measurement_analyzis_tool/sync_measurement_analyzer.py:983-1004 | the loop builds the head followed by a header and five figures per timing column |
| Comparison.AppendTimingSection | sync_measurement_analyzis_tool/sync_measurement_analyzer.py:1001-1004 | one pass appends a timing column's header, then its five figures |
| Comparison.CreateSummaryTable | sync_measurement_analyzis_tool/sync_measurement_analyzer.py:976-1169 | `create_combined_summary_table` as it runs returns the specified table for every dashboard |
| ComparisonContracts.ClassifyMirror | sync_progress_analyzis_tool/sync_progress_analyzer.py:628-690 | swapping the two figures swaps better and worse and keeps neutral |
| ComparisonContracts.ClassifyRules | sync_progress_analyzis_tool/sync_progress_analyzer.py:666-690 | higher-is-better, lower-is-better and closer-to-zero as orders on the figures; NaN and unpoliced metrics are never coloured |
| ComparisonContracts.EqualMagnitudesNeutral | sync_progress_analyzis_tool/sync_progress_analyzer.py:674-679 | skewnesses of equal magnitude and opposite sign differ yet stay uncoloured |
| ComparisonContracts.TimingStatsLowerIsBetter | sync_measurement_analyzis_tool/sync_measurement_analyzer.py:1018-1043 | every timing statistic is lower-is-better; the progress dashboards have none |
| ComparisonContracts.UnpolicedMetrics | sync_measurement_analyzis_tool/sync_measurement_analyzer.py:1018-1043 | the policy table leaves out the transaction skewness and the user and system transaction blocks |
| ComparisonContracts.AnnotationContract | sync_progress_analyzis_tool/sync_progress_analyzer.py:666-710 | a cell has a note exactly when both raw values exist and the verdict is a colour; the note carries the verdict and the delta |
| ComparisonContracts.NoPolicyNoNote | sync_progress_analyzis_tool/sync_progress_analyzer.py:672-690 | a metric without a policy is never annotated |
| ComparisonContracts.CellsMirror | sync_progress_analyzis_tool/sync_progress_analyzer.py:620-710 | the original cell mirrors the comparison cell: annotated together, opposite verdicts, the delta negated (but for the time) |
| ComparisonContracts.RootOriginalPlain | sync_progress_analyzer.py:221-223 | the root dashboard never annotates the original cell |
| ComparisonContracts.NotAvailableNeverColoured | sync_progress_analyzis_tool/sync_progress_analyzer.py:521-533 | a dataset too short for statistics colours neither cell of any row |
| ComparisonContracts.NoOriginalNoNote | sync_progress_analyzis_tool/sync_progress_analyzer.py:659-666 | without an original dataset the comparison cell is never coloured |
| ComparisonContracts.DeltaFormats | sync_progress_analyzis_tool/sync_progress_analyzer.py:692-699 | blocks with separators in the comparison cell only, the time as a signed duration, two decimals otherwise |
| ComparisonContracts.TimeDeltaReadsBack | sync_progress_analyzis_tool/sync_progress_analyzer.py:695-697 | the duration after the sign reads back as the whole seconds of the delta's magnitude |
| ComparisonContracts.TimingOrderFacts | sync_measurement_analyzis_tool/sync_measurement_analyzer.py:1001-1004 | the timing part of the order has six rows per timing column, each header before its figures |
| ComparisonContracts.TimingSectionFacts | sync_measurement_analyzis_tool/sync_measurement_analyzer.py:1001-1004 | one timing section is its header followed by the five figures in order |
| ComparisonContracts.MeasurementHeadFacts | sync_measurement_analyzis_tool/sync_measurement_analyzer.py:983-994 | the head lists totals and sample figures; the speed std and skewness appear again at indices 21 and 22 (defect as written) |
| ComparisonContracts.MeasurementOrderFacts | sync_measurement_analyzis_tool/sync_measurement_analyzer.py:983-1004 | 83 rows, the speed spread rows twice, and some computed figures never shown |
| ComparisonContracts.ProgressOrderDistinct | sync_progress_analyzis_tool/sync_progress_analyzer.py:569-575 | the progress order's eleven metrics are distinct |
| ComparisonContracts.ProgressOrderFacts | sync_progress_analyzis_tool/sync_progress_analyzer.py:569-575 | the eleven rows are exactly the keys of a progress stats dict, populated or short |
| ComparisonContracts.ProgressKeysAreOrder | sync_progress_analyzer.py:179-182 | whatever `get_stats_dict` returns, its key set is the set of the order's metrics; that `list(keys())` lists them in that order rests on the dict literals' insertion order, which the stats map does not carry |
| ComparisonContracts.SummaryTableOutcome | sync_progress_analyzis_tool/sync_progress_analyzer.py:512-566 | the table fails exactly when a computed stats dict fails, the original's first; the progress tool draws nothing without data |
| ComparisonContracts.SummaryTableRows | sync_progress_analyzis_tool/sync_progress_analyzer.py:600-713 | one row per metric in order; header keys span the table; other rows have one value cell per loaded dataset |
| Dicts.Get | sync_progress_analyzis_tool/sync_progress_analyzer.py:2167 | `d.get(k)` finds the value of k's first entry, none for an absent key |
| Dicts.Put | sync_progress_analyzis_tool/sync_progress_analyzer.py:2145 | `d[k] = v` replaces the value of a present key in place, else appends the entry |
| Dicts.Remove | sync_progress_analyzis_tool/sync_progress_analyzer.py:2647 | `del d[k]` leaves no entry for k and every other entry; a dict without k is unchanged |
| Dicts.RemoveAt | sync_progress_analyzis_tool/sync_progress_analyzer.py:2647 | deleting a key that only the entry at position i has leaves the entries before and after it, in their order |
| Dicts.GetPut | sync_progress_analyzis_tool/sync_progress_analyzer.py:2145 | after `d[k] = v`, k maps to v and every other key to its old value |
| Dicts.GetRemove | sync_progress_analyzis_tool/sync_progress_analyzer.py:2647 | after `del d[k]`, k is absent and every other key keeps its value |
| Session.ClearedStore | sync_progress_analyzis_tool/sync_progress_analyzer.py:1064-1072 | clearing replaces the table by its cleared rows and keeps name and metadata |
| Session.Dashboard.constructor | sync_progress_analyzis_tool/sync_progress_analyzer.py:803-806 | the initial state: no dataset loaded, both unsaved flags false |
| Session.Dashboard.AddMetadata | sync_progress_analyzis_tool/sync_progress_analyzer.py:2140-2149 | applied exactly with a click, a non-empty key, a value and a loaded dataset; then the stripped key maps to the stripped value and the dataset is unsaved |
| Session.Dashboard.UpdateMetadata | sync_progress_analyzis_tool/sync_progress_analyzer.py:2159-2172 | written exactly when the value differs from the stored one; afterwards the key holds the value |
| Session.Dashboard.DeleteMetadata | sync_progress_analyzis_tool/sync_progress_analyzer.py:2636-2656 | applied exactly for a clicked, present key of a loaded dataset; the key is gone, the rest unchanged |
| Session.Dashboard.ClearTool | sync_progress_analyzis_tool/sync_progress_analyzer.py:1052-1093 | prevented without a click, "nothing loaded" without a store, raises without table text; otherwise clears, marks unsaved, reports the counts |
| Session.Dashboard.ClearMeasurementTool | sync_measurement_analyzis_tool/sync_measurement_analyzer.py:1681-1722 | a click on a loaded dataset raises, because the filter it calls is not defined in the file; nothing is ever cleared (defect as written) |
| Session.Dashboard.ClearRoot | sync_progress_analyzer.py:507-540 | with a click every loaded dataset is cleared, the original first, and the counts reported; a store without table text raises and nothing changes |
| Session.Counts | sync_progress_analyzis_tool/sync_progress_analyzer.py:1067-1069 | the row counts before and after clearing |
| Session.RootCounts | sync_progress_analyzer.py:513-535 | one count pair per loaded dataset, the original's first |
| Session.ClearTwice | sync_progress_analyzis_tool/sync_progress_analyzer.py:1052-1093 | a second clear of a cleared store changes nothing |
| MeasurementReport.FirstMissing | sync_measurement_analyzer.py:237 | the first listed metric the table lacks, none when it lacks none |
| MeasurementReport.NumericMetrics | sync_measurement_analyzer.py:237 | `describe()` summarises exactly the numeric metrics, in list order |
| MeasurementReport.SummaryInput | sync_measurement_analyzer.py:225-234 | the uploaded table, an empty one when the upload does not parse, the start-up table without an upload |
| MeasurementReport.SummaryMetricsNames | sync_measurement_analyzer.py:38-50 | the ten metrics are the nine timings and the transaction count, distinct, in the report's order |
| MeasurementReport.SummaryOfEmpty | sync_measurement_analyzer.py:236-241 | the no-data paragraph is shown exactly for an empty table |
| MeasurementReport.SummaryMissingColumn | sync_measurement_analyzer.py:237 | a non-empty table lacking a metric fails with a KeyError on a metric it lacks |
| MeasurementReport.SummaryNoNumeric | sync_measurement_analyzer.py:237 | with every metric present the summary fails exactly when no metric is numeric |
| MeasurementReport.SummaryRowsShape | sync_measurement_analyzer.py:237-238 | each shown row summarises a numeric metric, and every numeric metric has a row |
| MeasurementReport.SummaryAllNumeric | sync_measurement_analyzer.py:237-238 | all metrics numeric: ten rows in the report's order |
| MeasurementReport.RowFigures | sync_measurement_analyzer.py:237-238 | min, median and max from the column, ordered, the mean between them, stddev only from two values |
| MeasurementReport.UnparsableUploadShowsNoData | sync_measurement_analyzer.py:225-241 | an upload that does not parse shows the no-data paragraph whatever was read at start-up |
| Navigation.XValues | sync_measurement_analyzis_tool/sync_measurement_analyzer.py:2431-2436 | the stored x-values are strictly increasing and are exactly the elapsed times of both displayed datasets |
| Navigation.LastBelow | sync_measurement_analyzis_tool/sync_measurement_analyzer.py:2693-2696 | the last stored value below the cursor, none exactly when no value is below it |
| Navigation.FirstAbove | sync_measurement_analyzis_tool/sync_measurement_analyzer.py:2699-2702 | the first stored value above the cursor, none exactly when no value is above it |
| Navigation.LastBelowIsGreatest | sync_measurement_analyzis_tool/sync_measurement_analyzer.py:2691-2696 | over increasing values the last one below the cursor is the greatest below it |
| Navigation.FirstAboveIsLeast | sync_measurement_analyzis_tool/sync_measurement_analyzer.py:2697-2702 | over increasing values the first one above the cursor is the least above it |
| Navigation.MoveCursorContract | sync_measurement_analyzis_tool/sync_measurement_analyzer.py:2679-2708 | ArrowLeft moves to the nearest value below, ArrowRight to the nearest above; otherwise the cursor stays |
| Navigation.RightThenLeft | sync_measurement_analyzis_tool/sync_measurement_analyzer.py:2679-2708 | a step right and then left returns to a stored cursor that has a value to its right |
| Navigation.UpdateSort | sync_measurement_analyzis_tool/sync_measurement_analyzer.py:2619-2633 | a click sorts by the clicked column: the same column flips direction, another starts ascending; no click changes nothing |
| Navigation.SortTwice | sync_measurement_analyzis_tool/sync_measurement_analyzer.py:2629-2633 | two clicks on the sorted column restore the state; on another column they leave it descending |

## Left out

- The Dash layout, the callbacks' wiring, the figures, the KDE and histogram traces, the theme, the modals, the tooltips and the HTML report export: these are presentation, not logic.
- File I/O, `os.makedirs`, `os.path.exists` and `datetime.now()`. The existing files, the save directory and the timestamp text are parameters, and a failing write is not modelled.
- pandas parsing (`read_csv`, `read_json`, `to_json`) and base64 decoding of uploads: a table is a value that is already parsed. The CSV lines `to_csv` writes are a parameter of the round-trip lemma.
- `contents.split(',')` on a malformed upload value, which raises: the report treats an upload as parsed or unparsable.
- IEEE floating point: numbers are reals, NaN is a separate `Missing` cell, and there are no infinities.
- Enrichment.GuardedRatio: a negative number over zero, minus infinity in pandas, is kept as a missing cell, because reals have no infinities.
- Statistics.DescribeContract: the sample standard deviation and skewness are function parameters; only their NaN guards are modelled.
- MeasurementReport.NumericColumn: pandas' dtype inference is reduced to "no text cell", an approximation.
- Two-decimal, `:,` and `round(2)` renderings are kept symbolic (the number and its format). Only the duration texts are rendered to characters.
- The genesis-date column the measurement tool derives with `strftime`: calendar arithmetic.
- RowSets.FilterForClearing: of several rows with the same height it keeps the first in input order. pandas' unstable sort may keep another, and every stated property holds for either choice.
- SaveNames.SeqNumber, SaveNames.OldTimestamp, SaveNames.RangeSuffix: `\d` is read as the ASCII digits '0' to '9'; in a Python `str` pattern it also matches other Unicode decimal digits, so a name ending in such digits is stripped by the source and kept by the model.
- SaveNames.Sanitize: `\w` is read as ASCII letters, digits and the underscore; Python also matches other Unicode word characters.
- SaveNames.StripEnding: `$` is read as the end of the text; Python's `$` also matches before one trailing newline, which file names do not hold.
- SaveNames.SaveAs: `store.get('filename', 'unknown_file.csv')`'s default is not modelled, because a store always holds a filename.
- The save callback's unsaved-changes flag and the `UnboundLocalError` it raises on an unexpected trigger are not modelled.
- Session.Dashboard.AddMetadata: a value input cleared to None by the browser is modelled as absent, like the source's `value is None` check.
- Session.Dashboard.constructor: it starts with nothing loaded. The log the layout may read into the original store at start-up is not modelled.
- Navigation.XValues: NaN elapsed times, which `set()` would keep, are left out of the stored values.
- Duration.FormatSeconds: a text cell passed to `format_seconds` is treated as missing; the source would raise on `int()`.
- Preamble.FindHeaderRowMeasurement: the measurement tool's extra test on line 0 is modelled, and is proved to change nothing.
- Stores.Store: a store dict without a `data` key is not modelled. A `data` of None stands for table text that `read_json` cannot parse, so the clear callbacks raise on it.

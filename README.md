# Per-station temperature aggregation, modelled and verified in Dafny

The repository computes, from a file of `station;temperature` rows, each
station's minimum, mean and maximum temperature, listed in ascending station
order. It does this four times by hand in Python:

- `src/etl_python_chuncking.py` buffers rows into chunks and folds each
  chunk into a `count`/`sum`/`min`/`max` dictionary (`process_chunk`).
- `src/etl_python_pyarrow.py` folds the rows one by one into the same kind
  of dictionary, counts every row read, and guards the mean against a zero
  count.
- `src/etl_python.py` first groups each station's temperatures into a list,
  then takes `min`, `sum / len` and `max` of every list.
- `src/etl_pandas_chuncking.py` lets pandas compute a per-chunk group
  minimum, maximum and mean, merges these into its own dictionary, and
  reports the mean of the chunk means.

The model works on the rows that `csv.reader` yields, as `seq<string>`.
Python's `float` on a field is a parameter `parse: string -> Option<real>`
(`None` where `float` raises `ValueError`). Temperatures are exact reals.
A station's entry is created by its first valid row, with count 1 and
min, max and sum all equal to that row's value. This replaces the `inf`/`-inf`
default that `defaultdict` supplies, and it gives the same entry for every
station that actually occurs. A loop over a dictionary's items is
modelled as visiting its keys in any order, which includes the insertion
order Python uses; the results proved do not depend on that order. `sorted` on station names is
Python's code-point order on strings (`StringOrder.Less`).

Modules:

- `StringOrder`: string order, and the sorted key listing `SortedKeys`.
- `RealSeq`: `min`, `max`, `sum` and mean on lists of reals.
- `Records`: the row filter and the per-station value lists. These lists are
  the reference meaning of every aggregate.
- `Report`: output lines, "lists a dictionary in station order" (`Lists`),
  and the exact report `Expected`.
- `Aggregation`: the `count`/`sum`/`min`/`max` fold shared by the chunked
  and pyarrow scripts, and its invariants.
- `PythonChunked`, `PythonPyarrow`, `PythonLists`, `PandasChunked`: one
  module per script.
- `PandasWeighted`: the chunk-merge script with its mean corrected (see
  Findings).
- `Equivalence`: all variants run on the same input.

Behaviour of the scripts worth noting:

- `src/etl_python_pyarrow.py` writes mean 0 for a zero count rather than
  signalling an error. The guard is modelled as written, and it is proved
  never to fire on the output of `read_and_aggregate`.
- An input with no records makes `src/etl_pandas_chuncking.py` fail in
  `sort_values`, because `df_kpi` then has no `station` column. The
  exception is caught and nothing is written. The model therefore reports
  nothing (`None`) instead of an empty success.
- No script keeps a count of skipped rows. Only the pyarrow script keeps a
  count of the rows it reads (`row_count`), and it counts all of them. The
  other two chunked scripts count the file's lines only for the progress
  bar (see "## Left out").

## Model

| member | source | states |
|---|---|---|
| StringOrder.Less | src/etl_python_chuncking.py:113 | definition of Python's `<` on strings; properties in `LessIrreflexive`, `LessTransitive`, `LessTrichotomy`, `LessAsymmetric` |
| StringOrder.LessIrreflexive | src/etl_python_chuncking.py:113 | no station name sorts before itself |
| StringOrder.LessTransitive | src/etl_python_chuncking.py:113 | the order of station names used by `sorted` is transitive |
| StringOrder.LessTrichotomy | src/etl_python_chuncking.py:113 | any two distinct station names are ordered one way or the other |
| StringOrder.LessAsymmetric | src/etl_python_chuncking.py:113 | two names are never ordered both ways |
| StringOrder.SortedDistinct | src/etl_python_chuncking.py:113 | a strictly ascending listing names no station twice |
| StringOrder.LeastExists | src/etl_python_chuncking.py:113 | every non-empty set of names has a least element |
| StringOrder.LeastUnique | src/etl_python_chuncking.py:113 | that least element is unique |
| StringOrder.LeastFirst | src/etl_python_chuncking.py:113 | the least name followed by the sorted rest is strictly ascending and holds exactly the set |
| StringOrder.SortedKeys | src/etl_python_chuncking.py:113 | the sorted key listing holds exactly the keys, each once, strictly ascending |
| StringOrder.SortedUnique | src/etl_python_pyarrow.py:92 | two strictly ascending listings of the same names are equal, so the sorted order does not depend on the dictionary's order |
| RealSeq.Min | src/etl_python_chuncking.py:56 | `min(a, b)` is one of its arguments and no larger than either |
| RealSeq.Max | src/etl_python_chuncking.py:57 | `max(a, b)` is one of its arguments and no smaller than either |
| RealSeq.Sum | src/etl_python.py:214 | definition of `sum(temperatures)`; properties in `SumAppend`, `SumBounds` |
| RealSeq.Mean | src/etl_python.py:214 | definition of `sum(temperatures) / len(temperatures)`; properties in `MeanBounds` |
| RealSeq.SeqMin | src/etl_python.py:213 | `min(temperatures)` is an element of the list and a lower bound of it |
| RealSeq.SeqMax | src/etl_python.py:215 | `max(temperatures)` is an element of the list and an upper bound of it |
| RealSeq.MinCharacterised | src/etl_python.py:213 | an element that bounds the list from below is its `min` |
| RealSeq.MaxCharacterised | src/etl_python.py:215 | an element that bounds the list from above is its `max` |
| RealSeq.SeqMinAppend | src/etl_pandas_chuncking.py:288 | the minimum of two joined lists is the smaller of their minima |
| RealSeq.SeqMaxAppend | src/etl_pandas_chuncking.py:289 | the maximum of two joined lists is the larger of their maxima |
| RealSeq.SumAppend | src/etl_python.py:214 | the sum of two joined lists is the sum of their sums |
| RealSeq.PartBounds | src/etl_python_chuncking.py:121 | a total between `n * lo` and `n * hi` divided by `n` lies between `lo` and `hi` |
| RealSeq.SumBounds | src/etl_python.py:213-215 | `len * min <= sum <= len * max` for a non-empty list |
| RealSeq.MeanBounds | src/etl_python.py:212-216 | `min <= sum / len <= max` for a non-empty list |
| Records.ParseRow | src/etl_python.py:188-192 | definition of the row filter (two fields, second field parses); properties in `Aggregation.StepEffect`, `Records.ValuesOfLast` |
| Records.ValuesOfLast | src/etl_python_chuncking.py:47-59 | one more row adds its value to its station's list exactly when it has two fields and its value parses |
| Records.FlattenCons | src/etl_pandas_chuncking.py:267-275 | concatenating chunks: a chunk in front comes first |
| Records.ValuesInAppend | src/etl_pandas_chuncking.py:267-275 | a station's values in two consecutive runs of records are its values in the first, then those in the second |
| Records.ValuesInNonEmpty | src/etl_python.py:187-195 | a station has a value exactly when it occurs in some record |
| Records.ValidRecordsAppend | src/etl_python_chuncking.py:47-59 | the filter keeps rows independently: the records of `a + b` are those of `a`, then those of `b` |
| Report.TrueLine | src/etl_python.py:212-216 | the line of a non-empty list of temperatures has `min <= mean <= max` |
| Report.ValuesNonEmpty | src/etl_python.py:192-193 | every station that occurs has a non-empty list of values |
| Report.ListedInKeyOrder | src/etl_python.py:226-234 | the entries of a dictionary in sorted key order list that dictionary |
| Report.SortedListing | src/etl_python.py:226-234 | `dict(sorted(stats.items()))` lists every entry once, in ascending station order, and nothing else |
| Report.StationCarried | src/etl_pandas_chuncking.py:292-304 | a station listed for one dictionary is listed for any other with the same keys |
| Report.SameStations | src/etl_pandas_chuncking.py:292-304 | the listings of two dictionaries with the same keys name the same stations in the same order |
| Report.ListingUnique | src/etl_python_pyarrow.py:92 | any two listings of the same dictionary are equal line by line |
| Aggregation.Apply | src/etl_python_chuncking.py:54-57 | definition of one valid record's update; properties in `StepEffect`, `StepAt` |
| Aggregation.Step | src/etl_python_chuncking.py:47-59 | definition of one row's effect; properties in `StepEffect`, `StepAt`, `StepPreservesWellFormed` |
| Aggregation.Aggregate | src/etl_python_chuncking.py:47-59 | definition of the fold over rows; properties in `AggregateConcat`, `AggregateSummarises`, `AggregateWellFormed`, and `PythonChunked.ProcessChunk` is proved equal to it |
| Aggregation.StepEffect | src/etl_python_chuncking.py:47-59 | a row without two fields or with an unparsable value changes nothing and adds no key; a valid row adds its station if new, raises count by 1 and sum by the value, takes min and max with the value, and leaves every other station as it was |
| Aggregation.StepAt | src/etl_python_chuncking.py:54-57 | one row's effect on one given station's entry |
| Aggregation.StepPreservesWellFormed | src/etl_python_chuncking.py:54-57 | one row keeps every entry at count >= 1, min <= max and `count * min <= sum <= count * max` |
| Aggregation.AggregateWellFormed | src/etl_python_chuncking.py:72-74 | the invariant above holds after any sequence of rows |
| Aggregation.AggregateConcat | src/etl_python_chuncking.py:82-95 | folding `a + b` is folding `a`, then `b`: feeding the dictionary in chunks changes nothing |
| Aggregation.SkipRobust | src/etl_python_chuncking.py:47-59 | inserting a rejected row anywhere in the input changes nothing |
| Aggregation.AggregateFrame | src/etl_python_chuncking.py:54-57 | a station without a valid row keeps its entry or its absence |
| Aggregation.AggregateSummarises | src/etl_python_chuncking.py:42-59 | from an empty dictionary, a station has an entry exactly when it has a valid row, and the entry is the length, sum, minimum and maximum of its list of valid values |
| Aggregation.SummaryStep | src/etl_python_chuncking.py:54-57 | a row that adds a value to a station's list updates its summary to the summary of the longer list |
| Aggregation.AggregateKeys | src/etl_python_chuncking.py:72-74 | the keys of the dictionary are exactly the stations with a valid row |
| Aggregation.FinalLine | src/etl_python_chuncking.py:119-123 | definition of one formatted line, mean = sum / count; properties in `FinalLineIsExpected`, `FinalisedWithinBounds` |
| Aggregation.MeanWithinBounds | src/etl_python_chuncking.py:121 | on a consistent entry, `min <= sum / count <= max` |
| Aggregation.FinalisedWithinBounds | src/etl_python_chuncking.py:119-123 | on a consistent dictionary every count is positive and every finalised line has min <= mean <= max |
| Aggregation.FinalLineIsExpected | src/etl_python_chuncking.py:119-123 | a station's finalised entry is the minimum, mean and maximum of its valid values |
| Aggregation.FinalisedIsExpected | src/etl_python_chuncking.py:109-127 | every count is positive and finalising the whole dictionary gives the exact report |
| PythonChunked.ProcessChunk | src/etl_python_chuncking.py:42-59 | the dictionary after a chunk is the fold of the chunk's rows into the dictionary before it |
| PythonChunked.ReadTemperaturesInChunks | src/etl_python_chuncking.py:65-103 | the result is the one-pass fold of all rows whatever `chunk_size` is; the chunks handed to `process_chunk` are the input in order, each row once, all non-empty, all but the leftover of full size |
| PythonChunked.FlushChunk | src/etl_python_chuncking.py:89-91 | flushing moves the buffer to the processed rows, and the fold of the processed rows follows |
| PythonChunked.ChunkShape | src/etl_python_chuncking.py:94-95 | the leftover is processed only when non-empty, and only it may be short |
| PythonChunked.FormatResults | src/etl_python_chuncking.py:109-127 | one line per key of `stats`, in ascending station order, with mean = sum / count |
| PythonChunked.FinalisedInKeyOrder | src/etl_python_chuncking.py:113-123 | lines built in sorted key order list the finalised dictionary |
| PythonChunked.ProcessTemperatures | src/etl_python_chuncking.py:152-166 | the report lists exactly the stations with a valid row, in ascending order, with the minimum, mean and maximum of their valid values |
| PythonPyarrow.ReadAndAggregate | src/etl_python_pyarrow.py:45-77 | `row_count` is the number of rows read, malformed rows included; the dictionary is the same fold as the chunked script; every entry has count >= 1 and is consistent |
| PythonPyarrow.GuardedLine | src/etl_python_pyarrow.py:86-91 | definition of the count-guarded line; properties in `GuardedIsFinal` |
| PythonPyarrow.GuardedIsFinal | src/etl_python_pyarrow.py:86 | on a dictionary whose counts are positive the zero-count guard never fires and the lines are those of the chunked script |
| PythonPyarrow.FormatResults | src/etl_python_pyarrow.py:83-95 | every key of `stats` once, in ascending order, with the guarded mean |
| PythonPyarrow.ProcessTemperatures | src/etl_python_pyarrow.py:138-144 | the report is the exact report, as for the chunked script |
| PythonLists.ReadTemperatures | src/etl_python.py:179-201 | each station's list is its valid values in input order, a key exists exactly when the list is non-empty, and the lengths add up to the number of valid rows |
| PythonLists.GroupsStep | src/etl_python.py:187-195 | appending a valid row's value to its station's list keeps the grouping; a rejected row contributes nothing |
| PythonLists.GroupLengths | src/etl_python.py:192-193 | the list lengths add up to the number of valid rows |
| PythonLists.CalculateStatistics | src/etl_python.py:204-219 | exactly the keys of the input, each with min, sum / len and max of its list, and min <= mean <= max |
| PythonLists.StatisticsAreExpected | src/etl_python.py:210-216 | the statistics of the grouped lists are the exact report |
| PythonLists.ProcessTemperatures | src/etl_python.py:279-295 | the formatted result is the exact report in ascending station order |
| PandasChunked.Chunks | src/etl_pandas_chuncking.py:267-275 | the chunks are the records in order, each non-empty and of at most `chunksize` records, all but the last of exactly `chunksize` |
| PandasChunked.GroupChunk | src/etl_pandas_chuncking.py:280-283 | definition of one chunk's group min, max and mean per station; properties in `MergeChunkAt` |
| PandasChunked.MergeEntry | src/etl_pandas_chuncking.py:285-290 | definition of merging one group into a station's entry; properties in `EntryStep`, `MergeGroupsAt`, `MergeChunkAt` |
| PandasChunked.MergeGroups | src/etl_pandas_chuncking.py:280-290 | definition of merging one chunk's groups in order; properties in `MergeGroupsAt`, and `MergeChunkGroups` is proved equal to it |
| PandasChunked.MergeChunk | src/etl_pandas_chuncking.py:280-290 | definition of one chunk merged; properties in `MergeChunkAt` |
| PandasChunked.MergeAll | src/etl_pandas_chuncking.py:267-290 | definition of `stats` after all chunks; properties in `MergeAllSummarises` |
| PandasChunked.MergeGroupsAt | src/etl_pandas_chuncking.py:280-290 | merging one chunk's groups touches each station of the chunk once and no other station |
| PandasChunked.ChunkMeansEmpty | src/etl_pandas_chuncking.py:290 | a station has chunk means exactly when it has a record |
| PandasChunked.MergeChunkAt | src/etl_pandas_chuncking.py:280-290 | one chunk merges its group of a station into that station's entry and leaves stations without records in the chunk alone |
| PandasChunked.MergeAllSummarises | src/etl_pandas_chuncking.py:267-290 | after all chunks a station has an entry exactly when it has a record; its min and max are those of all its values and its means are one per chunk that holds it, in order |
| PandasChunked.EntryStep | src/etl_pandas_chuncking.py:285-290 | the merge turns the summary of the earlier values into that of the earlier plus the chunk's values |
| PandasChunked.KpiLine | src/etl_pandas_chuncking.py:294-299 | definition of one `df_kpi` row, mean of the chunk means; properties in `TableEntry` |
| PandasChunked.ChunkedReport | src/etl_pandas_chuncking.py:297 | definition of the report with chunk-mean means; properties in `TableIsReport`, `ChunkedExtremes`, `OneChunkExact`, `MeanOfMeansNotTrueMean` |
| PandasChunked.TableEntry | src/etl_pandas_chuncking.py:292-302 | one station's `df_kpi` row is its true minimum and maximum and the mean of its chunk means |
| PandasChunked.TableKeys | src/etl_pandas_chuncking.py:292-302 | `stats` holds exactly the stations of the input, each with at least one mean |
| PandasChunked.TableIsReport | src/etl_pandas_chuncking.py:292-302 | the `df_kpi` rows of `stats` are the chunked report |
| PandasChunked.NoStations | src/etl_pandas_chuncking.py:304 | `stats` is empty only when the input has no records |
| PandasChunked.MergeChunkGroups | src/etl_pandas_chuncking.py:280-290 | the loop over one chunk's groups computes their merge in the order visited |
| PandasChunked.ProcessWithPandasChunked | src/etl_pandas_chuncking.py:254-322 | nothing is reported exactly when `chunksize < 1` or there are no records; otherwise one row per station in ascending order, with the true min and max and the mean of the chunk means |
| PandasChunked.ChunkedExtremes | src/etl_pandas_chuncking.py:286-289 | the stations, minima and maxima of the report are exact whatever the chunk size |
| PandasChunked.SingleChunkMean | src/etl_pandas_chuncking.py:297 | a station whose records lie in one chunk gets its true mean |
| PandasChunked.OneChunkExact | src/etl_pandas_chuncking.py:297 | with `chunksize` no smaller than the input the report is exact |
| PandasChunked.ExampleChunks | src/etl_pandas_chuncking.py:267-275 | three records with `chunksize=2` give a chunk of two and a chunk of one |
| PandasChunked.ExampleValues | src/etl_pandas_chuncking.py:280-283 | the values of station A in each chunk of the example |
| PandasChunked.ExampleMeans | src/etl_pandas_chuncking.py:283 | the chunk means of the example and the mean of all its values |
| PandasChunked.MeanOfMeansNotTrueMean | src/etl_pandas_chuncking.py:297 | records A=0, A=2, A=4 with `chunksize=2` report mean 2.5 where the mean is 2 |
| PandasWeighted.AggStep | src/etl_pandas_chuncking.py:285-290 | merging count, sum, min and max of a chunk's values gives the summary of the joined values |
| PandasWeighted.AggAppend | src/etl_pandas_chuncking.py:287-290 | the same for two non-empty lists |
| PandasWeighted.AggCombine | src/etl_pandas_chuncking.py:287-290 | a list whose length, sum, minimum and maximum combine those of two others has their merged summary |
| PandasWeighted.MergeSummariesAt | src/etl_pandas_chuncking.py:280-290 | merging one chunk's summaries touches each station of the chunk once and no other |
| PandasWeighted.WeightedChunkAt | src/etl_pandas_chuncking.py:280-290 | one chunk merges its summary of a station into that station's entry |
| PandasWeighted.WeightedSummarises | src/etl_pandas_chuncking.py:267-290 | after all chunks each station's entry is the count, sum, min and max of all its values, however the records were cut |
| PandasWeighted.WeightedEntry | src/etl_pandas_chuncking.py:292-302 | one station's corrected row is its exact line |
| PandasWeighted.WeightedIsExpected | src/etl_pandas_chuncking.py:297 | the corrected report is exact for every chunk size |
| PandasWeighted.MergeSummaryGroups | src/etl_pandas_chuncking.py:280-290 | the corrected loop over one chunk's groups computes their merge |
| PandasWeighted.ProcessWithPandasChunkedWeighted | src/etl_pandas_chuncking.py:254-322 | the same failures as the original, and otherwise the exact report in ascending station order |
| Equivalence.HeaderSkipped | src/etl_pandas_chuncking.py:273 | when the first line is a header that fails the filter (or there is none), skipping it with `skiprows=1` loses no record |
| Equivalence.CompareVariants | src/etl_python_chuncking.py:152-166 | the three csv.reader scripts write the same report line for line, which is the exact report; the chunk-merge script reads the file without its first line (`skiprows=1`), reports nothing exactly when `chunksize < 1` or those lines hold no record, and, when the first line is a header, agrees with the exact report on stations, order, minima and maxima, while its corrected form agrees entirely |
| Equivalence.ExtremesAlign | src/etl_pandas_chuncking.py:292-304 | the chunk-merge listing and the exact listing agree on everything but the mean |

## Left out

- File reading, `csv.reader` splitting and quoting, and `read_csv` parsing: the input is the sequence of split rows (for the pandas script, the typed records).
- PandasChunked.ProcessWithPandasChunked: its records are taken to be the rows that pass the csv.reader filter, among every line but the first (which `skiprows=1` drops). `read_csv(names=..., dtype=...)` at src/etl_pandas_chuncking.py:268-275 does not apply that filter, and the model does not capture where it differs:
  - a line with one field becomes a record whose temperature is NaN. It counts toward `chunksize`, so it moves chunk boundaries. Its station's group `min`, `max` and `mean` skip the NaN, and they are NaN only when that chunk holds no other value for the station;
  - a value `read_csv` cannot convert to `float` makes pandas raise for the whole file, and the script writes nothing. So does a line with more fields than the first line read. If that first line itself has more than two fields, pandas does not raise: with no `index_col=False`, it takes the extra leading field as the row index. Every line is then misread, with `station` and `temperature` shifted one field to the right;
  - an empty station field, or a station spelled like an NA marker (`NA`, `null`, `nan`, ...), becomes NaN, and `groupby` drops that record;
  - a two-field line whose value is empty or an NA marker (`A;`, `A;NA`, `A;null`) fails `float` and is skipped by the csv.reader scripts, but `read_csv` keeps it as a record whose temperature is NaN; it counts toward `chunksize`, so it moves chunk boundaries.
- Equivalence.CompareVariants: its agreement between the pandas runs and the csv.reader scripts holds only for files whose lines after the first all have exactly two fields, a value `float` and `read_csv` both accept, and a station that is not empty and not an NA marker. On other files the csv.reader scripts skip the bad lines, and the pandas script behaves as the line above says.
- `float()` is the `parse` parameter. IEEE arithmetic, rounding, `inf`, `nan` and the `:.2f` formatting are left out. Temperatures are exact reals and the report holds unrounded numbers.
- `log_step`, every `save_results_*` writer, the CSV and Parquet output, `print`, tqdm, the `time.time()` timing, and the `total_lines`/`total_chunks` estimates: I/O and progress display only.
- `PythonChunked.ProcessChunk` takes the dictionary and returns the updated one, instead of mutating the shared `defaultdict` in place. The dictionary has a single owner, so it is never aliased.
- `PythonPyarrow.ReadAndAggregate`: the debug print every 50,000,000 rows is left out.
- `Aggregation.Agg` has no `inf`/`-inf` sentinels. A station's first valid row creates its entry directly, and for every station that occurs the result is the same.
- The pandas group order is whatever `groupby` yields. In the model, `MergeChunkGroups` and `MergeSummaryGroups` take the order as a parameter, and the scripts pass ascending station order. Nothing proved depends on that order, because each chunk's groups belong to distinct stations.
- `df_kpi.sort_values` is not a stable sort over duplicate keys. Station keys are distinct, so the sorted listing is unique.
- src/etl_pandas.py, src/etl_duckDB.py, src/etl_python_polars_paralelizada.py, src/create_station_metrics_mart.py and dashboard/ are not part of this model. There, the aggregation is done inside pandas, DuckDB or Polars, or the code is UI.
- The commented-out earlier versions at the top of src/etl_python.py and src/etl_pandas_chuncking.py are dead code.

## Findings

| source | as written | input that shows it | evidently intended | confidence | as-written member | corrected member |
|---|---|---|---|---|---|---|
| src/etl_pandas_chuncking.py:297 | the reported mean is the unweighted mean of the per-chunk means | records A=0, A=2, A=4 with `chunksize=2`: chunk means 1 and 4 give 2.5, while the mean temperature is 2 | each station's mean over all its records, whatever the chunking, as the other scripts report | not executed | PandasChunked.MeanOfMeansNotTrueMean | PandasWeighted.ProcessWithPandasChunkedWeighted |

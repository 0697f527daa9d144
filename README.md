# OpenTSDB series ↔ wide table

This project models how `Algos/DataFactory` moves OpenTSDB data between two shapes:

- the JSON series of a `/api/query` response: a metric, tags, aggregate tags, and a `dps` dictionary from timestamp keys to values;
- a wide time-indexed table with one column per series.

It also models the return path, which flattens such a table into the point records that `/api/put` takes.

The modules follow the source:

- `TsData`: `TsData` decodes one series (`tsdata.py`). It:
  - sorts the `dps` entries by key, as text;
  - picks the unit from the digit count of the first sorted key: 10 for seconds, 13 for milliseconds, 16 read in pandas unit `'ns'` (see "## Left out" for what this assumes about pandas);
  - turns every key into a nanosecond label and adds the `+8` hour offset;
  - names the single column `metric + "{k=v, k=v}"`.
- `TsDataSet`: `TsDataSet` (`tsdata.py`) does the following.
  - It decodes every series, failing at the first series that fails.
  - It aligns the columns the way `pd.concat(axis=1)` does:
    - an empty list is an error;
    - columns that share one index are kept as they are;
    - otherwise a repeated label is an error (`RepeatedLabel`, a simplification of what pandas does there; see "## Left out");
    - otherwise the rows are the ascending union of all labels, and a series has no value in a row whose label it lacks.
  - It keeps the sets of metrics and rendered tags.
  - It looks up series by substring, raising `KeyError` when nothing matches.
  - It summarises the table, as `info` does.
- `Client`: the write side of `Connection` (`client.py`):
  - `__metric_tags` reads a column name back into a metric and a tag dictionary;
  - `_write_df` runs two nested loops, row by row and within a row column by column. A row label becomes whole seconds, after the `+8` hour offset is taken off. A missing cell is skipped. A name that does not parse, or a label or name that occurs twice, stops the loops with an error;
  - `write_ts` picks the path by the kind of input.
- `Frame`: the pandas table itself (index, named columns of optional floats), plus the summary `data_info` returns.
- `Text`: the Python string operations the code relies on.
- `RoundTrip`: decoding a one-tag series and writing it back gives back its own entries, shifted by the difference of the two hour offsets.

Row labels are integers of nanoseconds since the epoch, and a missing value is `None`. Timestamp keys are digit strings, read with `DigitsValue`. The hour offset is a parameter (`hours`) of both directions, so the two offsets can differ. The constant `Client.Timedelta` is the `+8` both classes use; `RoundTrip.RoundTripAtTimedelta` takes it on both sides, where the written timestamps are the keys themselves.

`_write_df` is a `method` whose two loops update the payload. It is proved equal to the specification function `Client.Flatten`. That function is in turn characterised by lemmas: when it succeeds, which points it emits, and in what order.

Some behaviours of the code, stated as lemmas:

- A name with several tags parses back with every key after the first carrying a leading space (`ParseTwoTags`).
- A series without tags is named `metric{}`, which does not parse back (`ParseEmptyTags`).
- Keys of different lengths sort as text, so the decoded index can run backwards in time (`MixedLengthKeysOutOfTimeOrder`).

## Model

| member | source | states |
|---|---|---|
| TsData.SortItems | Algos/DataFactory/base/tsdata.py:22 | `sorted(dict.items())`: the entries in ascending key order (Python string order), a permutation of the dictionary's entries |
| TsData.Insert | Algos/DataFactory/base/tsdata.py:22 | inserting one entry with a new key into a key-sorted list keeps it sorted and adds exactly that entry |
| TsData.UnitOf | Algos/DataFactory/base/tsdata.py:6 | the unit table has exactly the lengths 10, 13 and 16; a 10-digit key in seconds and a 13-digit key in milliseconds both reach up to 10^19 ns, while a 16-digit key read in `'ns'` stays below 10^16 ns |
| TsData.Label | Algos/DataFactory/base/tsdata.py:27-29 | the key is recovered from its label: the label minus the hour offset is a whole number of units, and that number is the key's value |
| TsData.Decode | Algos/DataFactory/base/tsdata.py:9-31 | an empty `dps` is an error; a decoded series is well formed, has one row per entry, keeps the metric and aggregate tags, and names its column metric + formatted tags |
| TsData.DecodeValue | Algos/DataFactory/base/tsdata.py:22-31 | a decoded series holds the labels of the sorted keys in the unit of the first sorted key, and their values in the same order |
| TsData.SortedFirstIsLeast | Algos/DataFactory/base/tsdata.py:22-24 | the entry whose key precedes all others is the one sorted first, whose length picks the unit |
| TsData.DecodeOutcome | Algos/DataFactory/base/tsdata.py:22-31 | decoding fails with the unknown-unit error exactly when the least key's length is not 10, 13 or 16; otherwise it succeeds exactly when every key is a digit string |
| TsData.DecodeRowsFromEntries | Algos/DataFactory/base/tsdata.py:27-31 | every row of a decoded series comes from some entry: the key's label and that entry's value |
| TsData.DecodeEntriesHaveRows | Algos/DataFactory/base/tsdata.py:27-31 | every entry of the response appears as some row, with its own label and value |
| TsData.LabelMonotone | Algos/DataFactory/base/tsdata.py:28-29 | within one unit, a larger key gives a later label |
| TsData.DecodeIncreasing | Algos/DataFactory/base/tsdata.py:22-29 | when all keys have the same length, the decoded index is strictly ascending |
| TsData.MixedLengthKeysOutOfTimeOrder | Algos/DataFactory/base/tsdata.py:22-29 | keys "2" and "1000000000" decode, in seconds, to an index that runs backwards in time |
| TsData.PairTexts | Algos/DataFactory/base/tsdata.py:34-35 | one `k=v` text per tag, in dictionary order |
| TsData.FormatTags | Algos/DataFactory/base/tsdata.py:33-35 | the rendered tags begin with `{` and end with `}`; what lies between is pinned by `TsData.RenderedTagsShape` and `Client.ParseCanonical` |
| TsData.Series.Dps | Algos/DataFactory/base/tsdata.py:40-43 | the series as a table: well formed, one column named after the series, whose index is the series' own labels and whose cells are its own values in that order |
| TsData.Series.Name | Algos/DataFactory/base/tsdata.py:30 | the column name starts with the metric and continues with the canonical tags |
| TsData.Series.RenderedTags | Algos/DataFactory/base/tsdata.py:50-53 | the `tags` property holds no `=`, and is the canonical tags unchanged when they hold none |
| TsData.Series.DataInfo | Algos/DataFactory/base/tsdata.py:60-76 | `data_info` of a series: present exactly when it has points; one column, one row per point, first and last label, its absent values, and its distinct days, at least one and at most one per row |
| TsData.RenderedTagsShape | Algos/DataFactory/base/tsdata.py:50-53 | the `tags` property reads `{k: v, k: v}` for tags without `=` |
| TsData.ReplacePairs | Algos/DataFactory/base/tsdata.py:53 | replacing `=` by `: ` across the joined `k=v` texts turns each into `k: v` and leaves the separators alone |
| Frame.InfoOf | Algos/DataFactory/base/tsdata.py:60-76 | the summary exists exactly for a non-empty table; it gives the first and last labels, rows and columns, the number of absent cells among all cells (at most rows × columns), and the number of distinct calendar days of the labels (between 1 and rows) |
| Frame.Days | Algos/DataFactory/base/tsdata.py:66 | the set of calendar days is exactly the days of the labels |
| Frame.DaysBounds | Algos/DataFactory/base/tsdata.py:66 | a non-empty index spans at least one and at most as many days as rows |
| Frame.NaNsBound | Algos/DataFactory/base/tsdata.py:68 | the missing cells of a table are at most rows × columns |
| Frame.NaNCount | Algos/DataFactory/base/tsdata.py:68 | `isnull().sum()` of one column: the number of absent cells, as counted by the column's multiset, at most its length |
| Frame.NaNs | Algos/DataFactory/base/tsdata.py:68 | `isnull().sum().sum()`: the number of absent cells among all cells of the table |
| TsDataSet.Collect | Algos/DataFactory/base/tsdata.py:81 | either every decoding succeeded, in order, or the error names the first series that failed and its cause |
| TsDataSet.DecodeAll | Algos/DataFactory/base/tsdata.py:81 | the list comprehension of `TsData(**i)`: all decoded in order, or the first failure with its position |
| TsDataSet.InsertLabel | Algos/DataFactory/base/tsdata.py:82 | adding one label to an ascending repeat-free list keeps it so and adds exactly that label |
| TsDataSet.AddLabels | Algos/DataFactory/base/tsdata.py:82 | adding labels keeps the list ascending and repeat-free; it holds exactly the old and the new labels |
| TsDataSet.UnionLabels | Algos/DataFactory/base/tsdata.py:82 | the row labels of the outer join: ascending, each once, exactly the labels of some series |
| TsDataSet.LookupLabel | Algos/DataFactory/base/tsdata.py:82 | the value at a label is absent when the series lacks the label, and is the series' own value when it has it |
| TsDataSet.Reindexed | Algos/DataFactory/base/tsdata.py:82 | a series reindexed onto the union holds, at each union label, its own value there or nothing |
| TsDataSet.Align | Algos/DataFactory/base/tsdata.py:82 | `pd.concat(axis=1)`: an empty list fails; series with repeat-free indexes always align; the table is well formed with one column per series, named after it, in order |
| TsDataSet.AlignRows | Algos/DataFactory/base/tsdata.py:82 | the aligned rows are exactly the labels of the series; ascending when every index is; repeat-free when every index is |
| TsDataSet.AlignCells | Algos/DataFactory/base/tsdata.py:82 | every aligned cell holds its series' value at that row's label |
| TsDataSet.AlignSameIndex | Algos/DataFactory/base/tsdata.py:82 | when every series has the same index, even one that repeats a label, the alignment keeps that index and each column is its series' own values, unchanged |
| TsDataSet.AlignAbsent | Algos/DataFactory/base/tsdata.py:82 | a cell whose label its series lacks is missing |
| TsDataSet.AlignKeepsPoints | Algos/DataFactory/base/tsdata.py:82 | every point of every series sits in the aligned table, at its label, with its value |
| TsDataSet.KeptPoint | Algos/DataFactory/base/tsdata.py:82 | one point of one series is found in the aligned table at a row with its label and value |
| TsDataSet.AlignDisjoint | Algos/DataFactory/base/tsdata.py:82 | two series with no common label align to as many rows as they have together, and no row holds both |
| TsDataSet.DisjointCount | Algos/DataFactory/base/tsdata.py:82 | the union of two disjoint repeat-free label lists has their combined length |
| TsDataSet.Matching | Algos/DataFactory/base/tsdata.py:91-92 | the series whose `metric + tags` contains the key, in their original order |
| TsDataSet.Matches | Algos/DataFactory/base/tsdata.py:92 | `key in metric + tags`: the key occurs at some position of the metric followed by the rendered tags |
| TsDataSet.MatchingAppend | Algos/DataFactory/base/tsdata.py:91-92 | the filter keeps order: it distributes over concatenation |
| TsDataSet.MatchingAll | Algos/DataFactory/base/tsdata.py:91-92 | when every series matches, the filter keeps them all, in order |
| TsDataSet.MetricList | Algos/DataFactory/base/tsdata.py:83 | the metric of each series, in order |
| TsDataSet.TagList | Algos/DataFactory/base/tsdata.py:84 | the rendered tags of each series, in order |
| TsDataSet.DataSet.Metrics | Algos/DataFactory/base/tsdata.py:83 | the metric set holds exactly the metrics of the series, and no more of them than series |
| TsDataSet.DataSet.Tags | Algos/DataFactory/base/tsdata.py:84 | the tag set holds exactly the rendered tags of the series, and no more of them than series |
| TsDataSet.DataSet.Get | Algos/DataFactory/base/tsdata.py:89-96 | `KeyError` exactly when no series matches; otherwise the outcome is the `pd.concat` alignment of the matching series, in order: one column per matching series, named after it |
| TsDataSet.GetKeepsPoints | Algos/DataFactory/base/tsdata.py:91-94 | a lookup's table holds every point of every matching series, at its label, with its value |
| TsDataSet.MatchingDistinct | Algos/DataFactory/base/tsdata.py:90-91 | filtering series by key keeps each series' labels distinct, so a lookup's inputs satisfy the alignment's precondition |
| TsDataSet.DataSet.Info | Algos/DataFactory/base/tsdata.py:118-134 | the summary of the aligned table: present exactly when it has rows; rows, columns, absent cells and distinct days of that table, and its first and last labels |
| TsDataSet.Build | Algos/DataFactory/base/tsdata.py:80-84 | the constructor: succeeds exactly when every series decodes and the decoded series align; then the records are the decoded series in order and the table their alignment; otherwise the error is the first decoding error, or else the alignment error (an empty list fails with no objects) |
| TsDataSet.GetEmptyKey | Algos/DataFactory/base/tsdata.py:89-96 | looking up the empty key gives the whole table back |
| TsDataSet.BuiltInfo | Algos/DataFactory/base/tsdata.py:118-134 | a built data set has a summary, with one column per series, and its rows are exactly the labels of its series |
| Client.DropLast | Algos/DataFactory/base/client.py:56 | `s[:-1]`: the string without its last character, and empty for the empty string |
| Client.PairOf | Algos/DataFactory/base/client.py:57 | a part becomes a pair exactly when it holds one `=`; the pair joined by `=` is the part |
| Client.PairsOf | Algos/DataFactory/base/client.py:57 | all parts become pairs, in order, or the whole name fails when one does not |
| Client.PairsMapSpec | Algos/DataFactory/base/client.py:57 | `dict(pairs)` holds exactly the keys of the pairs, each bound to the value of its last pair |
| Client.PairsMapKeys | Algos/DataFactory/base/client.py:57 | the keys of `dict(pairs)` are exactly the first halves of the pairs |
| Client.PairsMapLast | Algos/DataFactory/base/client.py:57 | a key bound by no later pair keeps the value of its pair |
| Client.PairsMap | Algos/DataFactory/base/client.py:57 | `dict(pairs)` has at most one key per pair and always binds the key of the last pair to its value |
| Client.MetricTags | Algos/DataFactory/base/client.py:54-58 | a failure names the name; the metric is the brace-free text before the one `{`; no tag key holds `=`, `,` or `{` |
| Client.ParseParts | Algos/DataFactory/base/client.py:55-58 | a name `metric{rest` plus one closing character parses to the metric and the dictionary of the comma-separated parts of `rest` |
| Client.ParseCanonical | Algos/DataFactory/base/client.py:55-58 | a column name rendered from a metric and at least one plain tag parses back to that metric and to the tags, each key after the first carrying a leading space |
| Client.CanonicalItems | Algos/DataFactory/base/client.py:57 | splitting the rendered tag list at `,` gives the `k=v` texts, all but the first with a leading space |
| Client.SpacedItemsParse | Algos/DataFactory/base/client.py:57 | each of those texts parses back to its own key (with the space) and value |
| Client.ParseSingleTag | Algos/DataFactory/base/client.py:55-58 | a one-tag column name parses back to exactly its metric and tag |
| Client.SpacedKeys | Algos/DataFactory/base/client.py:55-58 | from a several-tag name, the first key comes back as it is and every later key only with a leading space, bound to its value unless a later tag repeats it |
| Client.ParseTwoTags | Algos/DataFactory/base/client.py:55-58 | a two-tag name `m{a=1, b=2}` parses to the keys `a` and ` b`, so the key `b` itself is lost |
| Client.ParseEmptyTags | Algos/DataFactory/base/client.py:55-58 | a tagless name `metric{}` fails to parse |
| Client.ParseBraceInMetric | Algos/DataFactory/base/client.py:55-58 | a metric that itself holds `{` makes the name fail to parse |
| Client.Seconds | Algos/DataFactory/base/client.py:81-82 | the timestamp is the largest whole second not after the label minus the hour offset |
| Client.SecondsMonotone | Algos/DataFactory/base/client.py:81-82 | a later label never gives an earlier timestamp |
| Client.SecondsOfLabel | Algos/DataFactory/base/client.py:81-82 | a key read with offset `hd` and written with offset `he` becomes its seconds (10 digits), its milliseconds // 1000 (13) or its nanoseconds // 10^9 (16), plus `(hd - he)` hours |
| Client.ColumnNames | Algos/DataFactory/base/client.py:80 | the names of the columns, in order |
| Client.ParseNamesAt | Algos/DataFactory/base/client.py:83 | entry `j` of the parsed names is `__metric_tags` of column `j`'s name |
| Client.CellOut | Algos/DataFactory/base/client.py:81-91 | one cell succeeds exactly when its column name parses and neither its label nor its name repeats; a successful cell yields a point exactly when it holds a value |
| Client.Upto | Algos/DataFactory/base/client.py:79-91 | the loops emit at most one point per cell visited, and nothing before the first cell or over a table without columns |
| Client.Flatten | Algos/DataFactory/base/client.py:76-92 | `_write_df`'s payload has at most one point per cell, and is empty for a table without rows or columns |
| Client.WriteDf | Algos/DataFactory/base/client.py:76-92 | the loops of `_write_df` build exactly the payload `Flatten` specifies, or stop with its error |
| Client.WriteRow | Algos/DataFactory/base/client.py:80-91 | the inner loop extends the payload by the cells of one row in column order; an error it meets is the error of the whole run |
| Client.ErrorSticks | Algos/DataFactory/base/client.py:79-91 | once a cell fails, the loops end with that error |
| Client.CellFails | Algos/DataFactory/base/client.py:80-91 | a failing cell ends its row, and the loops, with its error |
| Client.RowErrorSticks | Algos/DataFactory/base/client.py:80-91 | once a cell of a row fails, the row ends with that error |
| Client.StepCell | Algos/DataFactory/base/client.py:81-91 | one cell: an unparsable name fails; a repeated label or name fails; a missing value adds nothing; otherwise one point is added |
| Client.UptoOk | Algos/DataFactory/base/client.py:79-91 | the loops get past a cell exactly when every cell visited so far succeeds |
| Client.FlattenSucceeds | Algos/DataFactory/base/client.py:76-92 | `_write_df` runs through exactly when the table has no rows, or no columns, or every name parses and no label and no name repeats |
| Client.FlattenedIsWritable | Algos/DataFactory/base/client.py:76-92 | a non-empty table that flattens has parsable, repeat-free names and a repeat-free index |
| Client.WritableFlattens | Algos/DataFactory/base/client.py:76-92 | a table with parsable, repeat-free names and a repeat-free index always flattens |
| Client.CellOk | Algos/DataFactory/base/client.py:81-91 | a cell whose name parses and whose label and name are unique never fails |
| Client.PresentCells | Algos/DataFactory/base/client.py:79-85 | the cells listed are exactly the present cells visited so far, in row-major order |
| Client.PresentMembers | Algos/DataFactory/base/client.py:79-85 | a cell is listed exactly when it is visited and present |
| Client.PresentOrder | Algos/DataFactory/base/client.py:79-80 | the listed cells come in row-major order |
| Client.UptoPoints | Algos/DataFactory/base/client.py:79-91 | a run that gets this far has emitted exactly the points of the present cells visited |
| Client.EmittedCells | Algos/DataFactory/base/client.py:84-91 | with parsable names, there is one point per listed cell, in the same order, and each is that cell's point |
| Client.NothingEmitted | Algos/DataFactory/base/client.py:79-80 | a table without rows or columns emits nothing |
| Client.FlattenCells | Algos/DataFactory/base/client.py:79-91 | a successful run emits one point per present cell and none for a missing one, row-major. Each point carries its column's parsed metric and tags, the cell's value and the label in seconds |
| Client.FlattenPoints | Algos/DataFactory/base/client.py:79-91 | the emitted points match the present cells one to one |
| Client.FlattenOrder | Algos/DataFactory/base/client.py:79-82 | over an ascending index, the emitted timestamps never decrease |
| Client.WriteTs | Algos/DataFactory/base/client.py:109-119 | a list is sent as it is; a table, and a `TsDataSet` through its aligned table, are flattened; anything else is refused |
| RoundTrip.LeastKey | Algos/DataFactory/base/tsdata.py:22 | a non-empty dictionary has a key that sorts before every other |
| RoundTrip.DecodedRows | Algos/DataFactory/base/tsdata.py:21-31 | a one-tag series with ten-digit keys decodes in seconds, to an ascending index; each row comes from an entry |
| RoundTrip.DecodedEntries | Algos/DataFactory/base/tsdata.py:27-31 | every entry of such a series is a row of the decoded series |
| RoundTrip.DecodedOne | Algos/DataFactory/base/tsdata.py:81 | a one-series response decodes to that series alone |
| RoundTrip.AlignedOne | Algos/DataFactory/base/tsdata.py:82 | one series aligns to its own table |
| RoundTrip.BuiltTable | Algos/DataFactory/base/tsdata.py:80-84 | a one-series data set's table is that series' own table |
| RoundTrip.LabelOrder | Algos/DataFactory/base/tsdata.py:28-29 | in seconds, an earlier label comes from a smaller key |
| RoundTrip.OneColumnFlattens | Algos/DataFactory/base/client.py:76-92 | a one-column table with a parsable name and a repeat-free index flattens |
| RoundTrip.WrittenRows | Algos/DataFactory/base/client.py:79-91 | a one-column table writes one point per present row, in ascending row order, each with the parsed name, the row's value and its label in seconds |
| RoundTrip.RowsOfPoints | Algos/DataFactory/base/client.py:79-91 | each point of a one-column table comes from a present row with its value; the rows ascend and cover every present row |
| RoundTrip.RowsEmit | Algos/DataFactory/base/client.py:81-91 | the point of a present row carries the column's metric and tags and the row's label in seconds |
| RoundTrip.RowsAscend | Algos/DataFactory/base/client.py:79-80 | in one column, row-major order is row order |
| RoundTrip.RowsCover | Algos/DataFactory/base/client.py:84-85 | every present row of a one-column table has its point |
| RoundTrip.WrittenAreEntries | Algos/DataFactory/base/client.py:86-91 | every written point is an entry of the response, with its metric and tag, shifted by the offsets |
| RoundTrip.EntriesAreWritten | Algos/DataFactory/base/client.py:84-91 | every entry of the response that has a value is written |
| RoundTrip.WrittenAscending | Algos/DataFactory/base/client.py:81-82 | the written timestamps strictly ascend |
| RoundTrip.RoundTrip | Algos/DataFactory/base/client.py:76-92 | a one-tag response with ten-digit keys, built as a `TsDataSet` with offset `hd` and written with offset `he`, always flattens. Its points are exactly its entries with a value, with their metric and tag, each timestamp the key plus `hd - he` hours, strictly ascending |
| RoundTrip.RoundTripAtTimedelta | Algos/DataFactory/base/client.py:76-92 | with the `+8` offset on both sides, the written points are exactly the response's entries with a value, each at its own key |
| Text.LessIrreflexive | Algos/DataFactory/base/tsdata.py:22 | no string sorts before itself |
| Text.LessTransitive | Algos/DataFactory/base/tsdata.py:22 | the string order is transitive |
| Text.LessTotal | Algos/DataFactory/base/tsdata.py:22 | of two different strings, one sorts before the other |
| Text.LessAsymmetric | Algos/DataFactory/base/tsdata.py:22 | two strings never sort before each other |
| Text.Less | Algos/DataFactory/base/tsdata.py:22 | Python's string order: a proper prefix sorts first, and no string sorts before itself |
| Text.Replace | Algos/DataFactory/base/tsdata.py:53 | `str.replace` leaves a string without the pattern unchanged, and leaves no pattern behind when the replacement lacks it |
| Text.Split | Algos/DataFactory/base/client.py:56-57 | `str.split` gives one more part than separators, no part holds the separator, and joining the parts gives the string back |
| Text.SplitWithout | Algos/DataFactory/base/client.py:56-57 | a string without the separator splits into itself alone |
| Text.SplitJoin | Algos/DataFactory/base/client.py:56-57 | `sep.join` undone by `split`: splitting a join at a separator no part holds gives the parts back |
| Text.JoinWithout | Algos/DataFactory/base/tsdata.py:34 | a join holds a character only if a part or the separator does |
| Text.DigitsValue | Algos/DataFactory/base/tsdata.py:28 | `int()` of a digit string: a k-digit string is worth less than 10^k |
| Text.Contains | Algos/DataFactory/base/tsdata.py:92 | `key in s` holds exactly when the key occurs at some position of `s` |
| Text.DigitsOrder | Algos/DataFactory/base/tsdata.py:22-29 | for digit strings of one length, text order is numeric order |

## Left out

- Network I/O is not modelled: `ping`, `Connection.__init__`, `_read`, `_write` (the HTTP post and its summary text), `read_ts` and `read_df`. `WriteDf` and `WriteTs` return the payload that would be posted; `Build` takes the decoded response as a parameter.
- Printing is not modelled: `write_ts` and `data_info`/`info` print; `__repr__` only formats.
- `strftime` text is not modelled. The summary gives start and end as labels, and calendar days as `label // (86400·10^9)`, so days are whole UTC days of the label.
- Floating-point results are not modelled: the missing-value percentage and the points-per-day figure of the summary. Their inputs (missing count, rows, days) are modelled.
- Values are abstract, and `pd.isna` is a missing value (`None`). The `dtype='f8'` conversion of values is not modelled.
- Python `int`, not 64-bit `Timestamp` range: labels are unbounded integers, so an out-of-range timestamp is not an error here.
- Keys pandas would parse that are not digit strings (such as `"1e9"` or a sign) are not modelled; any non-digit key is an error (`BadTimestamp`).
- When the least key's length is not in the unit table, the source raises a `TypeError` (it calls the caught exception). Here that case is the error `UnknownUnit` with the length.
- Tag and key dictionaries are given as sequences in their iteration order.
- A missing `metric`, `tags`, `aggregateTags` or `dps` field (a `KeyError`) is outside the model, and so are non-string column names.
- `__format_aggr` is taken as the identity on a list of strings.
- The ambiguous `df.loc[i, j]` lookups of `_write_df` become one error, `AmbiguousCell`. With a repeated label or column name, `df.loc[i, j]` returns a Series (or, when both repeat, a DataFrame) instead of a scalar; `pd.isna` of it is again a Series, and the `if` at client.py:84 raises `ValueError` on its truth value. The model raises this error after the column name is parsed, and only for labels and names that really repeat.
- TsData.Decode: a 16-digit key is assumed to be read by `pd.to_datetime(..., unit='ns')` as an integer count of nanoseconds. The keys are strings, and pandas may instead send unit `'ns'` string input through date-string parsing, which would raise; the model does not capture that failure. (16 digits of present-day epoch time are microseconds, so even read as integers these labels land in early 1970: `TsData.UnitOf`.)
- TsDataSet.Align: a repeated label in series whose indexes differ is the error `RepeatedLabel`. This simplifies pandas, whose index union may instead keep the repeat and produce a table; what pandas then does is not modelled.
- TsData.Decode, TsData.FormatTags: all text is treated as ASCII. Under Python 2 a JSON response holds `unicode`, and `str()` of a non-ASCII metric, tag key or tag value raises `UnicodeEncodeError`; the model accepts every string.
- RoundTrip.RoundTrip: proved only for one plain tag and ten-digit keys. Several tags come back with spaced keys (`Client.ParseTwoTags`). A series with no tags does not parse back (`Client.ParseEmptyTags`). Millisecond and nanosecond keys lose their fraction (`Client.SecondsOfLabel`).
- The `__main__` demonstration and the unit tests of both files are not part of this model.

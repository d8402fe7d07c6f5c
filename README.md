# system-monitor: the fact transformations of `computer_facts`

`computer_facts.py` reads samples of machine facts from a database (CPU
temperature, disk use, queue sizes and so on), one row per minute and fact.
It then turns them into two views: time-series charts and a JSON document
holding the latest value of each fact. This project models, in Dafny, the
three transformations between the query and those views, and proves what
they guarantee:

* `regularize_timeseries`:
  * Every row moves down to its five-minute boundary.
  * For each fact, the rows that share a boundary are averaged.
  * Each fact's boundaries are laid out on a gap-free grid from its first
    boundary to its last. A boundary without rows is absent (NaN).
  * The per-fact series are concatenated in ascending fact-name order.
* The loop of `render_latest_facts`:
  * The rows are sorted by (fact name, timestamp) and grouped by fact name.
  * The last row of each group is stored under the fact's name, with its
    redundant name field removed.
* `make_fact_lines`:
  * The palette whose size is the number of distinct facts is copied into a
    list.
  * The rows are grouped by fact name in name order.
  * Each group becomes one line through its (timestamp, value) points. The
    line is labelled with the fact's name and coloured with the colour
    popped from the end of the list.

Modules:

* `Wrappers`: `Option`, `Result` and `Outcome`, plus the two errors the code
  can raise. `NoSuchColumn` is the pandas `KeyError` on an empty frame.
  `NoSuchPalette` is the `KeyError` of a palette size the table lacks.
* `Ordering`: Python's `str` ordering. It is lexicographic by code point,
  and a proper prefix comes first. The module proves that this ordering is
  a strict total order.
* `Records`: a fact row (`Record`, with timestamps as integer minutes) and
  the grouping machinery, which has four parts:
  * `SortBy`, a stable insertion sort, models Python's `sorted` with a
    `fact_name` key or a `(fact_name, ts)` key.
  * `OfFact` is the rows of one fact in input order.
  * `RunNames` gives the keys `itertools.groupby` yields on a list.
  * `RunEnd` finds where one group ends.

  pandas' `groupby("fact_name")` is modelled the same way: a stable sort by
  name, then a walk over the runs. Its groups keep the input order of their
  rows, and its keys come in ascending order.
* `Resample`: `regularize_timeseries`. `Series` is the per-fact chain and
  `Regularized` its specification. The method is the source's loop.
* `Latest`: the loop of `render_latest_facts`, as a method proved against
  `IsLatest`.
* `FactLines`: `make_fact_lines` over a `Plot` class whose `lines` field
  records every `plot.line` call. `DrawnLines` is the function that says
  which lines are drawn. `Dark2` is the palette table.

Real numbers stand for the floating-point values, and an absent value
(`None`) stands for a NaN produced by gap-filling. Timestamps are whole
minutes; the query truncates them to the minute before this code sees them.

Two behaviours of the code at its edges are kept as they are:

* `regularize_timeseries` on an empty list raises `KeyError`, because
  `pd.DataFrame([])` has no `fact_name` column to group by.
* `make_fact_lines` raises `KeyError` when the data has fewer than three or
  more than eight distinct facts, because `Dark2` has palettes of sizes 3 to
  8 only. That includes an empty list. It also includes a chart of three
  facts where one of them has no rows in the window.

## Model

| member | source | states |
|---|---|---|
| Ordering.StrLt | src/sys_monitor/computer_facts.py:102 | Python's `<` on `str`, the key comparison behind `sorted` and `groupby`; no contract of its own, its properties are StrLtIrreflexive, StrLtTransitive and StrLtTotal |
| Resample.FloorTimestamps | src/sys_monitor/computer_facts.py:66 | the `assign(ts=... .dt.floor(...))` step; no contract of its own, its properties are Floor's and FlooredValues / FlooredTimestamps |
| Resample.GroupMean | src/sys_monitor/computer_facts.py:67-68 | `groupby("ts").mean()`; no contract of its own, its properties are GroupKeysSpec, LookupGroupMeans and MeanOrderIndependent |
| Resample.AsFreq | src/sys_monitor/computer_facts.py:69 | `asfreq`, a reindex onto the grid from the first bucket to the last; no contract of its own, its properties are SeriesGrid and SeriesValues |
| Resample.Series | src/sys_monitor/computer_facts.py:65-73 | the per-fact chain; no contract of its own, its properties are SeriesGrid, SeriesValues, SeriesCovers and SeriesOfFact |
| Resample.Regularized | src/sys_monitor/computer_facts.py:61-77 | the whole output, series concatenated in key order; no contract of its own, its properties are RegularizedPerFact, RegularizedNames and RegularizedNameOrder |
| Latest.WithoutName | src/sys_monitor/computer_facts.py:180 | a row after `del row["fact_name"]`; no contract of its own, used by IsLatest and StoreLastOfRun |
| FactLines.DrawnLines | src/sys_monitor/computer_facts.py:99-106 | the lines `make_fact_lines` draws; no contract of its own, its properties are FactLinesSpec, FactLinesDistinctColours, FactLinesDependOnNames and FactLinesOfRegularized |
| Records.Names | src/sys_monitor/computer_facts.py:100 | the set `{i["fact_name"] for i in data}`; no contract of its own, its properties are NamesConcat, NamesOfRun and OfFactMembers |
| Records.RunNames | src/sys_monitor/computer_facts.py:101-103 | the keys `itertools.groupby` yields, one per run of equal names; no contract of its own, its properties are RunNamesOfSorted, SortedNamesSpec and RunEnd |
| Records.KeyLe | src/sys_monitor/computer_facts.py:102 | the comparison of the sort keys `fact_name` and `(fact_name, ts)`; no contract of its own, its properties are KeyLeTotal and KeyLeTransitive |
| FactLines.Points | src/sys_monitor/computer_facts.py:104 | the `(ts, fact_value)` pairs `zip` hands to `plot.line`, in group order; no contract of its own, used by DrawnLines and FactLinesSpec |
| Resample.Floor | src/sys_monitor/computer_facts.py:66 | the boundary of a minute is a multiple of the step, at or below it and less than one step away; aligned minutes stay put |
| Resample.FloorUnique | src/sys_monitor/computer_facts.py:66 | an aligned boundary less than one step below a minute is its floor, so flooring is idempotent |
| Resample.MeanOrderIndependent | src/sys_monitor/computer_facts.py:67-68 | the mean of a group depends only on the multiset of its values, not on row order |
| Resample.SeriesGrid | src/sys_monitor/computer_facts.py:65-72 | a fact's series is non-empty and its rows are stamped one step apart on aligned boundaries from the lowest floored timestamp of the fact's rows to the highest; every row carries the fact's name |
| Resample.SeriesValues | src/sys_monitor/computer_facts.py:66-69 | the value at each grid point is the mean of the rows that floor to it, or absent when none do |
| Resample.SeriesCovers | src/sys_monitor/computer_facts.py:66-69 | every input row's boundary is a point of its fact's series, so no row is lost |
| Resample.SeriesOfFact | src/sys_monitor/computer_facts.py:72 | a series holds rows of its own fact only |
| Resample.RegularizedPerFact | src/sys_monitor/computer_facts.py:61-77 | the output rows of a fact are exactly that fact's series of its input rows; a fact absent from the input has none |
| Resample.RegularizedNames | src/sys_monitor/computer_facts.py:61-77 | the output has exactly the input's fact names |
| Resample.RegularizedNameOrder | src/sys_monitor/computer_facts.py:64-75 | the output is ordered by fact name: the groups are visited in ascending key order and appended in turn |
| Resample.RegularizeTimeseries | src/sys_monitor/computer_facts.py:61-77 | empty input fails with the missing `fact_name` column; otherwise the loop over groups returns `Regularized(data)` |
| Records.SortBy | src/sys_monitor/computer_facts.py:102 | the sort returns a permutation of its input |
| Records.SortBySorted | src/sys_monitor/computer_facts.py:177-178 | the sort's result is ordered by its key, by name alone or by (name, timestamp) |
| Records.SortByNameStable | src/sys_monitor/computer_facts.py:101-104 | sorting by name keeps each fact's rows in their input order |
| Records.SortedNamesSpec | src/sys_monitor/computer_facts.py:101-103 | the group keys of a grouping by name are strictly ascending, one per distinct fact name |
| Records.RunNamesOfSorted | src/sys_monitor/computer_facts.py:101-103 | on a list ordered by name, groupby's keys are strictly ascending and are the names present |
| Records.RunIsOfFact | src/sys_monitor/computer_facts.py:101-104 | on a list ordered by name, a maximal run of one name is all the rows of that name |
| Records.RunEnd | src/sys_monitor/computer_facts.py:178 | the group starting at `i` ends at the first row of another name; the keys seen so far grow by that group's name |
| Records.OfFactMembers | src/sys_monitor/computer_facts.py:100 | a fact has rows exactly when its name is among the names of the data |
| Ordering.StrLtTotal | src/sys_monitor/computer_facts.py:102 | any two distinct names are ordered one way or the other |
| Ordering.StrLtTransitive | src/sys_monitor/computer_facts.py:102 | the name ordering is transitive |
| Ordering.StrictlyAscendingUnique | src/sys_monitor/computer_facts.py:101-103 | two strictly ascending name lists with the same members are equal, so the group order depends only on the set of names |
| Latest.LatestFacts | src/sys_monitor/computer_facts.py:174-181 | the result has one key per fact present and no other; each holds a row of that fact, without its name, with no later row of the fact in the data |
| Latest.StoreLastOfRun | src/sys_monitor/computer_facts.py:178-180 | one turn of the loop finds the whole run of the current fact, stores its last row without the name under the fact's name, leaves every other key as it was, and keeps the result a record of latest rows |
| Latest.LastOfRunIsLatest | src/sys_monitor/computer_facts.py:177-179 | in a list ordered by (name, timestamp), the last row of a group is the latest row of its fact |
| Latest.SameRowsKeepLatest | src/sys_monitor/computer_facts.py:178 | a map of latest rows of the sorted list is one for the unsorted data as well |
| FactLines.Plot.DrawLine | src/sys_monitor/computer_facts.py:105 | `plot.line` adds one line on top of those already drawn |
| FactLines.MakeFactLines | src/sys_monitor/computer_facts.py:99-106 | a fact count with no palette fails before anything is drawn; otherwise the lines `DrawnLines` describes are appended, in order, to those already on the plot |
| FactLines.DrawNextGroup | src/sys_monitor/computer_facts.py:101-105 | one turn of the loop takes the whole run of the current fact, pops exactly one colour from the end of the list and draws the group with it; the lines drawn so far are those of the keys seen so far |
| FactLines.DrawGroup | src/sys_monitor/computer_facts.py:105 | one line is drawn with the last colour of the list, and the list loses that colour |
| FactLines.NextGroupDrawn | src/sys_monitor/computer_facts.py:101-105 | drawing the next key's line with the colour popped from the list carries the loop's facts one key further: one colour fewer, one line more |
| FactLines.GroupKeysBound | src/sys_monitor/computer_facts.py:100-103 | no prefix of the sorted rows has more group keys than the palette for the number of facts has colours, so `cmap.pop()` never meets an empty list |
| FactLines.GroupIsOfFact | src/sys_monitor/computer_facts.py:101-104 | a whole run of the rows sorted by name is all the rows of its fact, in input order |
| FactLines.LinesForSpec | src/sys_monitor/computer_facts.py:101-105 | the `i`-th group's line is labelled with its key, carries that fact's points and has the `i`-th colour from the end of the palette |
| FactLines.FactLinesSpec | src/sys_monitor/computer_facts.py:99-106 | one line per distinct fact, labels strictly ascending and naming exactly the facts; each line is its fact's rows in input order, at least one point; colours are taken from the end of the palette towards its front |
| FactLines.FactLinesDistinctColours | src/sys_monitor/computer_facts.py:100-105 | with a palette of distinct colours, no two lines share a colour |
| FactLines.FactLinesDependOnNames | src/sys_monitor/computer_facts.py:100-105 | which fact gets which colour depends only on the set of facts, not on row counts or arrival order |
| FactLines.Dark2Palettes | src/sys_monitor/computer_facts.py:17 | the colour map offers palettes of sizes 3 to 8 only, each of its size and without a repeated colour |
| FactLines.Dark2LinesDistinct | src/sys_monitor/computer_facts.py:17-105 | with the colour map in use, three to eight facts are drawn in as many distinct colours |
| FactLines.FactLinesOfRegularized | src/sys_monitor/computer_facts.py:55-56 | plotting regularised data labels one line per fact of the raw rows, each through the points of that fact's regularised series |

## Left out

- The database query, its SQL template, the connection from
  `PSYCOPG_URI`, the clock that sets the lower bound and the time zone
  conversion. They are I/O, and time is modelled as integer minutes.
- `make_timeseries_plot` and the axis, range, legend and toolbar settings
  of `plot_temps`, `plot_percents` and `plot_counts`. These are bokeh
  presentation settings. Each of the three calls `make_fact_lines` once,
  setting the axes before the call and the legend location after it, so
  `MakeFactLines` covers the lines they draw.
- The `line_width` of each line. It is a fixed styling argument.
- The Flask routes, `render_template`, `embed.components`, `get_plots` and
  `json.dumps`. They are rendering and I/O. `wsgi.py`, `app.py` and
  `setup.py` are not part of this model.
- Resample.Series: `.groupby("ts").mean()` runs on a frame that still
  holds the string column `fact_name`. The model takes that column to be
  left out of the mean, as pandas 1.x does by dropping non-numeric columns.
  pandas 2 raises `TypeError` there instead. The pandas version is not
  pinned.
- Floating-point arithmetic. The means are exact real means, and NaN or
  infinite input values are not represented.
- Resample.MeanOrderIndependent: holds for exact reals. With floats the sum
  depends on the order of additions.
- Latest.LatestFacts: when two rows of a fact share the latest timestamp,
  the code keeps the later of them in input order. The contract says only
  that the stored row is one of the latest ones.
- Latest.LatestFacts: the result is a `map`, which has no order. The
  code's dictionary receives its keys in ascending fact-name order, since
  they come from the sorted groupby. `json.dumps` writes them in that order,
  which the model does not capture.
- Latest.LatestFacts: the code's `del` removes the name from the row
  dictionaries themselves, which the grouped list shares. The model builds
  new name-less entries, so that aliasing is not captured.
- FactLines.MakeFactLines: the palette table is a parameter. It is
  required to file `k` colours under size `k`, and `Dark2` gives bokeh's
  table. Bokeh's palettes are not part of the source files. `Dark2` is
  ColorBrewer's Dark2 scheme, which is where bokeh's palettes come from.
- The value a line is given for an absent point: the model keeps `None`,
  where bokeh receives NaN and breaks the line there.

# da: streaming column aggregator

`da` is a terminal dashboard written in Go. It reads delimiter-separated lines from standard
input. The first line fixes the number of columns. Every later line is split into fields, and
field `i` updates column `i`. A column holds three things:

- a count per distinct value;
- a log of the most recent raw values;
- a snapshot of its labels in sorted order, with their counts, which the bar and pie charts show.

Sorting is numeric or by string. A plot shows how many lines arrived in each second.

This project models that core in Dafny and proves properties of it:

- `Strings`: Go's `strings.Split` for a non-empty separator, and `strings.Join`, its inverse.
- `Strconv`: Go's `strconv.Atoi` on a 64-bit platform, and `strconv.Itoa`.
- `KeyOrder`: the two label orders.
  - String mode uses Go's `<` on strings.
  - Numeric mode uses the `sort.Slice` comparator: it compares integers when both labels parse, and strings otherwise.
  - Also here: the facts about these orders, and an in-place insertion sort on an `array` that stands for the library sort.
- `Columns`: one column (Go's `item`) as a class `Column` whose `Observe` method counts one value.
  - `ColState` and `Observed` specify it as values.
  - Lemmas state what a column holds after any run of values.
- `Aggregator`: the application (Go's `app`) as a class `App`.
  - `Setup` creates the columns from the first line.
  - `Update` feeds one line to the columns.
  - `Traffic` appends a throughput sample.
  - The per-column specification `ColumnAfter` covers a whole run of lines.

Go's `float64` counters are natural numbers here. The three command-line flags (delimiter,
ignore-empty, numeric sort) are constant fields of `App`, fixed when it is built.

Behaviour of the code that a reader might not expect. The model follows the code in each case:

- A blank field, when blanks are ignored, ends the whole line (`return` at main.go:147-149),
  not just that field. With blanks ignored, the line `",x,"` counts nothing in any column.
- The guard `len(a.data) < i` (main.go:144) lets index `len(a.data)` through. So a line with
  more fields than there are columns looks up a missing column, unless a blank among its
  first `len(a.data) + 1` fields ends it first while blanks are ignored. With two columns,
  `"x,,y,z"` does not panic. The lookup yields a nil `*item`, and `d.count` panics, so the
  extra fields are not silently dropped. `Update` returns this as `crashed` (`Crashes`,
  `CrashesIff`).
- An empty first line gives one column. It is not an error.
- A column's log starts with 100 empty strings (main.go:108). Each update puts the new value
  in front of the first 100 old entries (main.go:153), so the log is 101 long after the
  first update.
- On a mix of numeric and non-numeric labels, the numeric comparator can fail to be a strict
  weak order. It fails on {"2", "10", "1a"} (`MixedLabelsCycle`) but not on {"10", "2", "9", "x"}
  (`NumericSnapshotExample`). Where it fails, the snapshot is only known to be a permutation.

## Model

| member | source | states |
|---|---|---|
| Strings.IndexFrom | main.go:143 | the first occurrence of the separator at or after a position, or -1 exactly when there is none |
| Strings.Split | main.go:92 | splitting always yields at least one field, and no field contains the separator |
| Strings.JoinSplit | main.go:143 | joining the fields of a split with the separator gives back the original line, so splitting loses nothing |
| Strconv.Atoi | main.go:162-163 | a parsed label is within Go's 64-bit `int` range and starts with a sign or a digit; anything else is an error |
| Strconv.AtoiItoa | main.go:162-163 | every 64-bit `int` written in decimal parses back to itself |
| KeyOrder.LexLess | main.go:165 | Go's `<` on strings: never holds between equal strings, and a proper prefix comes first |
| KeyOrder.LexLessFirstDifference | main.go:170 | at the first position where two strings differ, the smaller character decides the order |
| KeyOrder.Less | main.go:161-170 | the comparator of either mode (the `sort.Slice` closure compares as integers when both labels parse and as strings otherwise; `sort.Strings` compares as strings); it never puts a label before itself |
| KeyOrder.LessAsymmetric | main.go:161-168 | the numeric-mode comparator never says both `x < y` and `y < x` |
| KeyOrder.LexicalModeIsStrictTotal | main.go:170 | string order is a strict weak and total order on every set of labels |
| KeyOrder.NumericModeWhenAllParse | main.go:161-168 | when every label parses, numeric mode orders by integer value, and that order is a strict weak order |
| KeyOrder.SortedNumericAscending | main.go:161-168 | a numerically sorted list of parseable labels has ascending values |
| KeyOrder.MixedLabelsCycle | main.go:161-168 | "2" < "10" < "1a" < "2" under the numeric comparator, so it is not a weak order on the mixed labels {"2", "10", "1a"} |
| KeyOrder.SortedUnique | main.go:160-171 | two sorted arrangements of the same labels are equal when the comparator orders every distinct pair |
| KeyOrder.SortKeys | main.go:160-171 | the sort permutes the labels, and leaves them sorted whenever the comparator is a strict weak order on them |
| Columns.Initial | main.go:107-108 | a new column's state: no counts, and a log of exactly 100 empty strings |
| Columns.Bump | main.go:152 | `count[v] += 1` on a Go map: a missing key counts from 0, `v` becomes a key, and every other count is unchanged |
| Columns.Observed | main.go:152-153 | counting one value leaves a log of exactly 101 entries, long enough for the next `input[:100]` |
| Columns.ObserveAll | main.go:152-153 | the log stays long enough to slice over any run of values |
| Columns.TotalBump | main.go:152 | `count[v] += 1` raises the sum of all counts by exactly one, whether `v` was present or not |
| Columns.Recent | main.go:108 | the log after a run of values holds them newest first, then empty strings; 100 long before any value and 101 after |
| Columns.HistoryLog | main.go:151-153 | after any run of values, a fresh column's log holds those values, newest first |
| Columns.HistoryCounts | main.go:151-152 | after any run, the labels are exactly the values counted, and each count is how often that value occurred |
| Columns.HistoryTotal | main.go:152 | after any run, the counts sum to the number of values counted |
| Columns.History | main.go:151-153 | the three facts above together: the whole state of a column after any run of values |
| Columns.SnapshotIsPermutation | main.go:155-176 | the snapshot lists every label of the counts exactly once, with no duplicate and no label missing |
| Columns.SnapshotUnique | main.go:155-176 | under a strict total comparator, the counts alone determine the snapshot |
| Columns.NumericSnapshotExample | main.go:160-168 | the labels "10", "2", "9", "x" come out in numeric mode as 2, 9, 10, x |
| Columns.ExampleSortedLabels | main.go:160-168 | 2, 9, 10, x is the only numerically sorted arrangement of those four labels |
| Columns.Snapshot | main.go:155-176 | the labels are a permutation of the counted values, each paired with its count, and sorted whenever the comparator is a weak order on them |
| Columns.CollectKeys | main.go:155-158 | every key of the count map appears exactly once |
| Columns.CountsOf | main.go:173-176 | each value is the count of the label at the same position |
| Columns.Column.constructor | main.go:106-112 | a new column has no counts, a log of 100 empty strings and an empty snapshot |
| Columns.Column.Observe | main.go:151-182 | one counted value: the state moves by `Observed`, and the charts' labels and values form a snapshot of the new counts |
| Aggregator.StopFrom | main.go:143-149 | from field `i`, the loop stops at the first blank (when blanks are ignored), at the end of the line, or at the index one past the last column, and nowhere earlier |
| Aggregator.Stop | main.go:143-149 | the number of columns a line updates: no blank before it, and it ends at the line's end, at the column count, or at a blank |
| Aggregator.Crashes | main.go:144-152 | the nil `*item` dereference: only a line with more fields than columns can panic, and only after every column has counted its field |
| Aggregator.ReachedIff | main.go:143-151 | column `k` is updated exactly when the line has field `k`, the column exists and no blank up to `k` stopped the line |
| Aggregator.CrashesIff | main.go:144-152 | a line panics exactly when it has more fields than there are columns and none of its first `arity + 1` fields is a blank that ends it first |
| Aggregator.ShortLinesNeverCrash | main.go:144-146 | a line with no more fields than columns never panics |
| Aggregator.ExampleLines | main.go:143-152 | with three columns, "1,2,3,4" panics after three updates; with blanks ignored, "x,,y" updates one column and ",x," none |
| Aggregator.Counted | main.go:151-153 | one line adds its field to column `k` if the loop got past `k`, and leaves the column untouched otherwise |
| Aggregator.ColumnAfter | main.go:141-153 | column `k` stays well formed over any run of lines |
| Aggregator.ColumnHistory | main.go:141-153 | column `k` after a run of lines is a fresh column that counted exactly the values it received, in order |
| Aggregator.ColumnTotals | main.go:141-153 | per column: the counts sum to the number of lines that reached it, each count is how often the value was received, and the log holds the received values newest first |
| Aggregator.ReceivedOnlyReached | main.go:143-151 | a column receives at most one value per line, and an index past the last column receives nothing |
| Aggregator.Run | main.go:51-61 | `setup` on the first line, then `update` on each later line in order until one panics: the app's history is the split lines applied, it counted that many lines, only the last applied line can have panicked, and without a panic every line was applied |
| Aggregator.NewColumns | main.go:105-118 | `n` fresh, distinct, empty columns numbered `0 .. n-1`, held in a freshly allocated set |
| Aggregator.App.Setup | main.go:90-129 | the app holds the given delimiter and flags, one newly allocated empty column per field of the first line (so `update` may be called next), every chart shows an (empty) snapshot, no lines are counted yet, and the throughput series is `[0, 0]` |
| Aggregator.App.Traffic | main.go:136-139 | the series gains the number of lines counted since the last sample, and that number restarts at 0 |
| Aggregator.App.Update | main.go:141-187 | the line is counted; every column is the column after the lines so far; every column's charts show a snapshot of its counts; the columns the line does not reach keep their charts; and `crashed` holds exactly when the line panics |
| Aggregator.App.Apply | main.go:143-186 | the columns after a run of lines take one more line, their charts still show snapshots, and the unreached columns keep their charts |
| Aggregator.App.Step | main.go:151-185 | one pass of the loop body: column `i` counts field `i` and rebuilds its charts, and no other column changes |
| Aggregator.App.Feed | main.go:143-186 | the loop over one line's fields: the columns before `Stop` count their field and rebuild their charts, the others are untouched, and the panic is reported exactly when `Crashes` |

## Left out

- The terminal UI is not part of this model: widgets, titles, bar width, the grid, the layout heights (`float64` fractions) and `redraw`. They only display state.
- The event loop is not modelled: the `select` over key, resize and timer events, and the timers. `Run` applies the lines in sequence, as the reading goroutine does, but leaves out `ui.Render` and any `traffic` ticks between lines. Concurrent access to `app` by the goroutine and the event loop (which the code does not synchronise) is not modelled.
- Flag parsing, the check that standard input is not a terminal, and the scanner are not modelled. The first line and every later line are parameters.
- Aggregator.App.Setup: requires a non-empty delimiter. `strings.Split` with an empty separator splits into characters, and that case is not modelled.
- Counters are unbounded natural numbers, not `float64`. The loss of precision past 2^53 is not modelled.
- KeyOrder.SortKeys: an insertion sort stands in for `sort.Slice` (pdqsort) and `sort.Strings`. It has the same contract: a permutation, sorted when the comparator is a strict weak order. On a comparator that is not a weak order, the model does not fix which permutation results, and the library's order may differ.
- Columns.CollectKeys: Go's map iteration order is unspecified. The model picks keys in an unspecified order too, and states only the multiset.
- Strconv.Atoi: its syntax error and range error are both `None`, because the caller only tests `err != nil`.
- Setting `log.Text` to the log joined by newlines (main.go:116, 178) is widget text and is not modelled. The log itself is `input`.
- Columns.Column.Observe: the pie chart's data and label formatter (main.go:182-185) are the same snapshot as the bar chart's. They are not kept as separate fields.
- Aggregator.App.Update: the panic is a `crashed` result. The state is the one at the moment of the panic. What happens to the process after the panic is not modelled.
- Aggregator.App.Feed: the `return` inside the loop is a `break`. Nothing follows the loop, so the behaviour is the same.
- Strings are sequences of Unicode characters, not Go's byte strings. On valid UTF-8 the split points and the string order are the same, because UTF-8 byte order is code-point order. A line that is not valid UTF-8 cannot be represented.

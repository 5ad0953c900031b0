# event-plot data pipeline in Dafny

This project models the data pipeline of `plot.py` in the event-plot
repository, and proves properties of it. The pipeline reads a diary of
events from a text file made of day blocks. Each block has:

- a `YYMMDD` date line;
- an optional `#` comment line;
- a line of `HHMM` times separated by spaces;
- a blank separator line.

From the decoded timestamps the pipeline derives:

- the deltas between consecutive events;
- the events per day, in the order each date is first seen;
- a "today" count that is popped off before the statistics;
- the average, median, midrange and variance of the per-day counts;
- the counts normalised so that the median sits at 0.5;
- a seven-day trailing moving average;
- the smallest, largest and average delta.

Modules, one concept each:

- `Results` (`results.dfy`): a `Result` type used for the error paths. The errors are:
  - `MalformedTimestamp`: `strptime` rejects a date and time;
  - `PopFromEmptyList`: `pop` from an empty list;
  - `IndexOutOfRange`: indexing an empty list, as the median, the midrange and the min/max lookups do;
  - `DivisionByZero`;
  - `EmptyArgument`: `min` or `max` of an empty list.
- `Sequences` (`sequences.dfy`): `Sum`, `Reverse` and `Flatten`, with their algebra.
- `Calendar` (`calendar.dfy`):
  - dates and timestamps at minute resolution;
  - Python's proleptic Gregorian day ordinal, with minutes measured from it;
  - a strict decoder for `%y%m%d%H%M`, with Python's two-digit-year pivot, and its inverse.
- `LogParser` (`parser.dfy`): the read loop. It comes in two forms. `ParseLog` is a specification function over a sequence of lines. `ReadLog` is the imperative loop, proved equal to it.
- `LogFormat` (`parser.dfy`): what the parsed log means. It covers the order of events and comments, and a renderer whose output the parser reads back.
- `DayGrouping` (`grouping.dfy`):
  - `collections.Counter` over the event dates, in insertion order;
  - the class `DaySeries`, which holds the three lists that the "today" trim pops in place.
- `Statistics` (`statistics.dfy`):
  - deltas;
  - `sorted` (as insertion sort, proved to be the unique sorted permutation);
  - average, median, midrange and variance;
  - normalisation;
  - the nested-loop moving average as a method;
  - the delta extremes, including Python's `timedelta / int` rounding.
- `Pipeline` (`pipeline.dfy`):
  - `Analyze`, the whole pipeline as a function;
  - `Run`, the script's statement order as a method, with `ensures r == Analyze(lines)`;
  - the lemmas that characterise when the script succeeds and what it reports.

The file is a `seq<string>` of lines, each with its trailing `"\n"`. A line
read past the end of the sequence is `""`, which is what `readline` returns
at end of file. Events are compared and subtracted as whole minutes from the
day ordinal (`Calendar.Minutes`). This is exact, because the format has no
seconds.

Two consequences of the code are worth stating plainly:

- **Median.** At plot.py:117 the median is the element at index ⌊n/2⌋ of the sorted counts. For an even count this is the *upper* of the two middle elements: the counts 4, 2 have median 4 (`Statistics.MedianOfEven`).
- **Order of events.** Times are reversed on their line (plot.py:67), and then the whole event list is reversed (plot.py:79). So the final events are the blocks in reverse file order, with each block's times in the order they are written (`LogFormat.ParseLogOrder`). The events come out oldest first only when the file lists the newest block first, which is what the comment at plot.py:78 assumes.

## Model

| member | source | states |
|---|---|---|
| Calendar.OrdinalOrder | plot.py:83 | for valid dates, calendar order is exactly the order of the day ordinals, and equal dates are exactly equal ordinals |
| Calendar.MinutesOrder | plot.py:83 | one timestamp is before another iff its minute count is smaller; equal timestamps iff equal counts, so subtracting minutes is datetime subtraction |
| Calendar.DecodeTimestamp | plot.py:72 | a decode error carries the offending text; a success implies ten digits and a year in Python's `%y` window 1969–2068 |
| Calendar.DecodeFormatted | plot.py:72 | decoding the `%y%m%d%H%M` rendering of any timestamp in the window gives that timestamp back |
| Calendar.FormatDecoded | plot.py:72 | a string that decodes is exactly the rendering of what it decodes to |
| LogParser.Take | plot.py:49 | `readline()[:6]` is the prefix of the line of length six, or the whole line when it is shorter |
| LogParser.SplitJoin | plot.py:67 | splitting the space-joined tokens, none containing a space, gives the tokens back |
| LogParser.JoinSplit | plot.py:67 | joining the pieces of `split(' ')` with spaces gives the line back |
| LogParser.StripLine | plot.py:56 | `strip('\n')` of a newline-free line followed by its newline is that line |
| LogParser.ReadBlock | plot.py:49-75 | one iteration consumes four lines exactly when the stripped line after the date starts with `#`, and three otherwise; the date is the first six characters of the first line; the comment is that `#` line from its third character on, or `''` when there is none |
| LogParser.DecodeTimesMeaning | plot.py:71-72 | the times of a block decode iff every date+token decodes; on success each event is the decode of its token, in order; on failure the error names one date+token whose predecessors all decode |
| LogParser.AppendTimes | plot.py:71-72 | the `strptime` loop appends the decoded times to the events, keeping the earlier events as a prefix, or stops with the first token's error |
| LogParser.ReadBlocks | plot.py:46-75 | the `while True` loop's accumulated events and comments are the blocks' decodes, appended in file order, or the first error |
| LogParser.ReadLog | plot.py:44-80 | the read loop followed by the two reversals computes `ParseLog` |
| LogFormat.DecodeReversed | plot.py:67-72 | reversing a block's tokens does not change whether they decode, and reverses the decoded events |
| LogFormat.DecodeBlocksMeaning | plot.py:46-75 | the loop succeeds iff every block decodes; then there is one comment per block (`hours[2:]` or `''`), and the events are the blocks in file order, each block's times in reverse of their written order |
| LogFormat.ParseLogOrder | plot.py:67-80 | the final events are the blocks in reverse file order, each block's times in written order; the comments are in reverse block order |
| LogFormat.EventsNeedBlocks | plot.py:46-80 | a log with no comments has no events: every block contributes a comment |
| LogFormat.RenderRoundTrip | plot.py:46-75 | the loop cuts a rendered file back into exactly the blocks it was rendered from |
| LogFormat.ParseRendered | plot.py:44-80 | parsing a rendered file yields the decoded blocks in reverse order, each in its own order, and the comments reversed |
| DayGrouping.CounterOf | plot.py:101-104 | `Counter(event_dates)` pairs each key with one count: as many `values()` as `keys()` |
| DayGrouping.CounterKeys | plot.py:87-104 | `Counter(...).keys()` are distinct and are exactly the values that occur |
| DayGrouping.CounterCounts | plot.py:101 | the i-th count is the number of occurrences of the i-th key, and at least 1 |
| DayGrouping.CounterOrder | plot.py:104 | keys are listed in order of first occurrence |
| DayGrouping.CounterSum | plot.py:101 | the counts sum to the length of the input |
| DayGrouping.EventDates | plot.py:87 | one date per event |
| DayGrouping.DistinctDatesBound | plot.py:87-104 | there are no more distinct dates than events |
| DayGrouping.DaySeries.constructor | plot.py:101-104 | the series holds the Counter's values and keys of the event dates, and the comments |
| DayGrouping.DaySeries.PopToday | plot.py:108-110 | pops the last count (returned as today), the last date and the last comment, leaving the others unchanged; raises on an empty list; today plus the remaining counts equals the old sum |
| Statistics.Deltas | plot.py:83 | one delta fewer than events, none for no events |
| Statistics.DeltasNonNegative | plot.py:83 | every delta is non-negative iff the events are chronological |
| Statistics.DeltasExtended | plot.py:83 | appending an event appends its distance from the previous last event |
| Statistics.DeltasTelescope | plot.py:83 | the deltas sum to the time from the first event to the last |
| Statistics.Sort | plot.py:113 | `sorted` returns an ascending permutation of its input |
| Statistics.SortedUnique | plot.py:113 | two ascending sequences with the same elements are equal, so any correct sort gives `Sort`'s result |
| Statistics.SortedEnds | plot.py:113-118 | `sorted[0]` and `sorted[-1]` are elements of the input, and every element lies between them |
| Statistics.Average | plot.py:116 | the average exists iff the list is nonempty, and times the length it is the sum |
| Statistics.AverageOfSorted | plot.py:116 | averaging the sorted list equals averaging the list |
| Statistics.Median | plot.py:117 | the median exists iff the list is nonempty |
| Statistics.MedianMeaning | plot.py:117 | the median is an element of the list, at least every sorted element up to index n/2 and at most every one from n/2 on |
| Statistics.MedianOfArrangement | plot.py:117 | any ascending arrangement of the list has the median at index n/2 |
| Statistics.MedianOfOdd | plot.py:117 | the counts 9, 3, 1, 5, 3 have median 3 |
| Statistics.MedianOfEven | plot.py:117 | the counts 4, 2 have median 4, the upper middle element |
| Statistics.MedianPositive | plot.py:117-123 | counts of at least 1 have a median of at least 1, so `median * 2` is nonzero |
| Statistics.Midrange | plot.py:118 | the midrange exists iff the list is nonempty |
| Statistics.MidrangeMeaning | plot.py:118 | the midrange is half the sum of an element that is at most all others and one that is at least all others |
| Statistics.Variance | plot.py:119 | the variance (the square of the standard deviation) exists iff the list is nonempty, and is never negative |
| Statistics.VarianceOfConstant | plot.py:119 | a list of one repeated value has variance 0 |
| Statistics.Normalize | plot.py:123 | normalising raises iff the median is 0 and there is a value to divide; otherwise the length is kept and each value times `2 * median` is the input value |
| Statistics.NormalizedMedianIsHalf | plot.py:123 | an entry equal to the median normalises to exactly 0.5 |
| Statistics.WindowLengthIsTermCount | plot.py:136-140 | the divisor `min(P, i+1)` equals the number of terms summed in `range(max(0, i+1-P), i+1)`, and is positive |
| Statistics.TrailingMeanFirst | plot.py:128-140 | the first moving-average entry is the first count |
| Statistics.TrailingMeanFull | plot.py:128-140 | from index P-1 on, an entry is the mean of exactly the last P counts |
| Statistics.TrailingMeanBounds | plot.py:128-140 | an entry lies between any lower and upper bound of the counts in its window |
| Statistics.MovingAverage | plot.py:128-140 | the nested loop produces one entry per day, each the window sum divided by the window length |
| Statistics.FirstMinIndex | plot.py:149 | `deltas.index(min(deltas))`: an index holding the minimum, with every earlier delta strictly larger |
| Statistics.FirstMaxIndex | plot.py:150 | `deltas.index(max(deltas))`: an index holding the maximum, with every earlier delta strictly smaller |
| Statistics.DivideAndRound | plot.py:151 | `timedelta / int` divides to the nearest microsecond, rounding ties to even |
| Statistics.SummarizeDeltas | plot.py:149-151 | it succeeds iff there are at least two events; the min and max deltas are reported with the earlier event of the first pair attaining them; the average is the first-to-last time in microseconds divided by the number of deltas, rounded |
| Pipeline.PrintedMinMax | plot.py:156-157 | the printed "Min/Max events per day" are values from the list, present iff it is nonempty |
| Pipeline.MinMaxPerDay | plot.py:169-171 | the ends of the sorted counts are present iff the list is nonempty, and are its minimum and maximum |
| Pipeline.PrintedMinMaxAgrees | plot.py:156-157 | the printed values are the true minimum and maximum iff the first day has the fewest events and the last day the most |
| Pipeline.PrintedMinMaxCounterexample | plot.py:156-157 | for the counts 3, 1, 2 the script prints 3 and 2, while the minimum and maximum are 1 and 3 |
| Pipeline.DescribeDaysOutcome | plot.py:113-144 | no counts divides by zero; nonempty positive counts always give statistics |
| Pipeline.NormalizedCounts | plot.py:123 | each normalised count times `2 * median` is the count |
| Pipeline.DayStatsNormalized | plot.py:123 | in the statistics, each normalised count times twice the reported median is that day's count |
| Pipeline.TrailingMeans | plot.py:128-140 | one moving-average entry per day |
| Pipeline.DayStatsFacts | plot.py:113-144 | for positive counts, 1 ≤ min ≤ median ≤ max, the median is one of the counts, and every moving average lies between min and max |
| Pipeline.CounterFacts | plot.py:87-104 | there are no more days than events, and every day's count is at least 1 |
| Pipeline.TallyFails | plot.py:101-118 | no events makes `pop` fail; events without comments make `pop` fail; a single day makes the average divide by zero |
| Pipeline.TallyOk | plot.py:101-151 | with at least two distinct dates and a comment, nothing from the Counter to the delta average raises |
| Pipeline.TallySucceeds | plot.py:101-151 | the statistics succeed iff there are at least two distinct dates and a comment |
| Pipeline.AnalyzeOutcome | plot.py:44-151 | a parse error propagates; no events fails in `pop`; one day divides by zero; the script succeeds iff the parsed file has at least two distinct dates |
| Pipeline.TallyCounts | plot.py:101-110 | the remaining counts plus today equal the number of events; the remaining counts are nonempty and positive |
| Pipeline.DayStatsBounds | plot.py:113-171 | the reported median is the median of the counts, and the reported least and greatest counts bound every count |
| Pipeline.TallyReports | plot.py:79-151 | a report that raises nothing holds the parsed events, their delta summary (first-index extremes with the earlier event, rounded average), the median of the remaining counts, and least and greatest counts that bound every remaining day |
| Pipeline.CounterTrim | plot.py:101-108 | the counts without the last one, plus the last one, add up to the number of events, and every count is at least 1 |
| Pipeline.TallyDates | plot.py:87-110 | the remaining dates are distinct, as many as the counts, and each count is the number of events on its date |
| Pipeline.ComputeDayStats | plot.py:113-144 | the statement sequence from `sorted` to the normalised moving average computes `DescribeDays` |
| Pipeline.Run | plot.py:44-151 | the whole script, statement by statement, computes `Analyze` |

## Left out

- Opening and reading `data.txt` (plot.py:44). The file is a parameter: a sequence of lines, where `""` means end of file.
- `datetime.strptime` leniency (plot.py:72). Python's parser also accepts inputs the model rejects. A numeric field may be written with fewer digits than its width. A field may start with a space followed by one digit, so `1809 70622` decodes to 2018-09-07 06:22. Non-ASCII decimal digits, such as Arabic-Indic ones, count as digits. The model decodes exactly ten digits, with Python's range checks and its `%y` pivot (00–68 is 20xx, 69–99 is 19xx). Any other text is a `MalformedTimestamp` error.
- Floating point. Averages, the midrange, normalised values and moving averages are exact `real` values, not IEEE doubles.
- Statistics.Variance: the script takes `sqrt` of it (plot.py:119). The model stops at the variance, because `sqrt` has no exact `real` counterpart here.
- `event_times` (plot.py:95): `mdates.date2num` is matplotlib's float conversion, which is not part of this model.
- String formatting and `print` (plot.py:149-164). The model reports the numbers, not the text: the deltas are integers in minutes, and the average delta is an integer in microseconds.
- Plotting (plot.py:166 onward): matplotlib drawing is not part of this model.
- Statistics.Sort: Python's `sorted` is Timsort. The model uses insertion sort. `Statistics.SortedUnique` shows that every correct sort returns the same list.
- Statistics.Average: the script averages the sorted list but computes the variance from the unsorted one. The model averages the unsorted list; `Statistics.AverageOfSorted` proves the two are equal.
- Statistics.Deltas: the contract states only the length. The element-wise meaning is carried by `Statistics.DeltasExtended` and `Statistics.DeltasTelescope`.

## Findings

| source | as written | input that shows it | evidently intended | confidence | as-written member | corrected member |
|---|---|---|---|---|---|---|
| plot.py:156-157 | "Min events per day" and "Max events per day" print `events_per_day[0]` and `events_per_day[-1]`, the counts of the first and last days | per-day counts 3, 1, 2 are printed as min 3 and max 2 | the ends of the sorted list, `events_per_day_sorted[0]` and `[-1]`, as the plot itself uses at plot.py:169-171 | not executed | Pipeline.PrintedMinMax, shown by Pipeline.PrintedMinMaxCounterexample | Pipeline.MinMaxPerDay, whose results are the report's `minPerDay` and `maxPerDay` |

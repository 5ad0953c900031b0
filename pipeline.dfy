/** The script of plot.py from the data file to the printed statistics: read
    the log, count the events per day, set today's count aside, and compute
    the per-day statistics, the normalised series, the moving average and
    the delta extremes. */
module Pipeline {
  import opened Results
  import opened Sequences
  import opened Calendar
  import opened LogParser
  import opened LogFormat
  import opened DayGrouping
  import opened Statistics

  /** AVERAGE_PERIOD: the moving average spans the last seven days. */
  const AveragePeriod := 7

  /** The statistics over the per-day counts. */
  datatype DayStats = DayStats(
    average: real,
    median: int,
    midrange: real,
    variance: real,                      // standard_dev squared
    minPerDay: int,                      // events_per_day_sorted[0], drawn at plot.py:171
    maxPerDay: int,                      // events_per_day_sorted[-1], drawn at plot.py:169;
                                         // the printed "Min/Max events per day" are PrintedMinMax(perDay)
    normalized: seq<real>,               // events_per_day_normalized
    movingAverage: seq<real>,            // average_over_period
    movingAverageNormalized: seq<real>)  // average_over_period_normalized

  /** Everything the script derives before it prints and plots. */
  datatype Report = Report(
    events: seq<Timestamp>,              // events, oldest first
    deltas: seq<int>,                    // minutes between consecutive events
    dates: seq<Date>,                    // unique_dates without today
    perDay: seq<nat>,                    // events_per_day without today
    comments: seq<string>,               // comments without today's
    today: nat,                          // the count set aside for today
    stats: DayStats,
    summary: DeltaSummary)               // delta_min, delta_max, delta_average

  // ---- Min and max events per day (plot.py:156-157).

  /** What the script prints as "Min events per day" and "Max events per
      day": the first and the last entry of the unsorted list. */
  function PrintedMinMax(perDay: seq<int>): (r: Result<(int, int)>)
    ensures r.Ok? <==> perDay != []
    ensures r.Ok? ==> r.value.0 in perDay && r.value.1 in perDay
  {
    if perDay == [] then Err(IndexOutOfRange) else Ok((perDay[0], perDay[|perDay| - 1]))
  }

  /** The least and the greatest entry: the ends of the sorted list, which
      the script itself draws as the max line (plot.py:169). */
  function MinMaxPerDay(perDay: seq<int>): (r: Result<(int, int)>)
    ensures r.Ok? <==> perDay != []
    ensures r.Ok? ==> r.value.0 in perDay && r.value.1 in perDay
    ensures r.Ok? ==> forall i :: 0 <= i < |perDay| ==> r.value.0 <= perDay[i] <= r.value.1
  {
    if perDay == [] then Err(IndexOutOfRange)
    else
      SortedEnds(perDay);
      Ok((Sort(perDay)[0], Sort(perDay)[|perDay| - 1]))
  }

  /** The printed values are the least and the greatest count exactly when
      the first day has the fewest events and the last day the most. */
  lemma PrintedMinMaxAgrees(perDay: seq<int>)
    requires perDay != []
    ensures PrintedMinMax(perDay) == MinMaxPerDay(perDay)
        <==> (forall i :: 0 <= i < |perDay| ==> perDay[0] <= perDay[i] <= perDay[|perDay| - 1])
  {
    var first, last := perDay[0], perDay[|perDay| - 1];
    var m := MinMaxPerDay(perDay).value;
    assert PrintedMinMax(perDay) == Ok((first, last));
    if forall i :: 0 <= i < |perDay| ==> first <= perDay[i] <= last {
      var k :| 0 <= k < |perDay| && perDay[k] == m.0;
      var l :| 0 <= l < |perDay| && perDay[l] == m.1;
      assert first <= perDay[k] && perDay[l] <= last;
      assert m.0 <= perDay[0] && perDay[|perDay| - 1] <= m.1;
      assert m.0 == first && m.1 == last;
    }
  }

  /** Three days with 3, 1 and 2 events: the script prints 3 as the
      minimum and 2 as the maximum, where they are 1 and 3. */
  lemma PrintedMinMaxCounterexample(perDay: seq<int>)
    requires |perDay| == 3 && perDay[0] == 3 && perDay[1] == 1 && perDay[2] == 2
    ensures PrintedMinMax(perDay) == Ok((3, 2))
    ensures MinMaxPerDay(perDay) == Ok((1, 3))
  {
    var m := MinMaxPerDay(perDay).value;
    assert m.0 <= perDay[1] && perDay[0] <= m.1;
    var k :| 0 <= k < 3 && perDay[k] == m.0;
    var l :| 0 <= l < 3 && perDay[l] == m.1;
  }

  // ---- The whole script.

  /** The trailing mean of every day: average_over_period. */
  function TrailingMeans(perDay: seq<int>): (r: seq<real>)
    ensures |r| == |perDay|
  {
    seq(|perDay|, i requires 0 <= i < |perDay| => TrailingMean(perDay, i, AveragePeriod))
  }

  /** The per-day statistics of plot.py:113-144, or the first exception.
      Once the average exists the list is nonempty, so the median, the
      midrange, the variance and the sorted ends exist too, and once the
      counts are normalised so are the moving averages. */
  function DescribeDays(perDay: seq<int>): Result<DayStats>
  {
    var average :- Average(perDay);
    var median := Median(perDay).value;
    var normalized :- Normalize(AsReals(perDay), median);
    var moving := TrailingMeans(perDay);
    var minMax := MinMaxPerDay(perDay).value;
    Ok(DayStats(average, median, Midrange(perDay).value, Variance(perDay).value, minMax.0, minMax.1,
                normalized, moving, Normalize(moving, median).value))
  }

  /** From the parsed log on: the Counter, the pops, the statistics and
      the delta extremes, or the first exception. */
  function Tally(log: Log): Result<Report>
  {
    var counter := CounterOf(EventDates(log.events));
    if counter.counts == [] || log.comments == [] then Err(PopFromEmptyList)
    else
      var n := |counter.counts| - 1;
      var stats :- DescribeDays(counter.counts[..n]);
      var summary :- SummarizeDeltas(log.events);
      Ok(Report(log.events, Deltas(log.events), counter.keys[..n], counter.counts[..n],
                log.comments[..|log.comments| - 1], counter.counts[n], stats, summary))
  }

  /** What the script computes from the lines of the data file, or the
      first exception it raises. */
  function Analyze(lines: seq<string>): Result<Report>
  {
    var log :- ParseLog(lines);
    Tally(log)
  }

  /** Without counts the average divides by zero; with positive counts,
      as the Counter gives, nothing raises. */
  lemma DescribeDaysOutcome(perDay: seq<int>)
    ensures perDay == [] ==> DescribeDays(perDay) == Err(DivisionByZero)
    ensures perDay != [] && (forall i :: 0 <= i < |perDay| ==> perDay[i] >= 1) ==> DescribeDays(perDay).Ok?
  {
    if perDay != [] && (forall i :: 0 <= i < |perDay| ==> perDay[i] >= 1) {
      MedianPositive(perDay);
    }
  }

  lemma NormalizedCounts(perDay: seq<int>, median: int)
    requires median != 0
    ensures forall i :: 0 <= i < |perDay| ==>
      Scaled(perDay[i] as real, median, Normalize(AsReals(perDay), median).value[i])
  {
    var xs := AsReals(perDay);
    forall i | 0 <= i < |perDay|
      ensures Scaled(perDay[i] as real, median, Normalize(xs, median).value[i])
    {
      assert xs[i] == perDay[i] as real;
    }
  }

  /** Each normalised count, times twice the median, is the count. */
  lemma DayStatsNormalized(perDay: seq<int>)
    requires DescribeDays(perDay).Ok?
    ensures var d := DescribeDays(perDay).value;
      forall i :: 0 <= i < |perDay| ==> Scaled(perDay[i] as real, d.median, d.normalized[i])
  {
    var d := DescribeDays(perDay).value;
    assert d.normalized == Normalize(AsReals(perDay), d.median).value;
    NormalizedCounts(perDay, d.median);
  }

  /** For positive counts: the median is one of the counts, between the
      least and the greatest, the normalised counts are one per day, and
      each moving average lies between the least and
      the greatest count. */
  lemma DayStatsFacts(perDay: seq<int>)
    requires perDay != [] && forall i :: 0 <= i < |perDay| ==> perDay[i] >= 1
    ensures DescribeDays(perDay).Ok?
    ensures var d := DescribeDays(perDay).value;
      && 1 <= d.minPerDay <= d.median <= d.maxPerDay && d.median in perDay
      && |d.normalized| == |perDay|
      && |d.movingAverage| == |perDay|
      && (forall i :: 0 <= i < |perDay| ==> d.minPerDay as real <= d.movingAverage[i] <= d.maxPerDay as real)
  {
    DescribeDaysOutcome(perDay);
    var d := DescribeDays(perDay).value;
    MedianMeaning(perDay);
    assert d.median == Median(perDay).value;
    assert (d.minPerDay, d.maxPerDay) == MinMaxPerDay(perDay).value;
    forall i | 0 <= i < |perDay|
      ensures d.minPerDay as real <= d.movingAverage[i] <= d.maxPerDay as real
    {
      TrailingMeanBounds(perDay, i, AveragePeriod, d.minPerDay, d.maxPerDay);
    }
  }

  /** The per-day counts of the Counter are at least one each, and there
      are no more days than events. */
  lemma CounterFacts(events: seq<Timestamp>)
    ensures var c := CounterOf(EventDates(events));
      && |c.keys| <= |events|
      && (forall i :: 0 <= i < |c.counts| ==> c.counts[i] >= 1)
  {
    CounterCounts(EventDates(events));
    DistinctDatesBound(events);
  }

  /** Where the script stops after parsing: without events the first pop
      raises, and so does the pop of the comments when there are none;
      with a single date the average divides by zero. */
  lemma TallyFails(log: Log)
    ensures var days := |CounterOf(EventDates(log.events)).keys|;
      && (days == 0 ==> Tally(log) == Err(PopFromEmptyList))
      && (days >= 1 && log.comments == [] ==> Tally(log) == Err(PopFromEmptyList))
      && (days == 1 && log.comments != [] ==> Tally(log) == Err(DivisionByZero))
  {
    var c := CounterOf(EventDates(log.events));
    if |c.keys| == 1 && log.comments != [] {
      assert c.counts[..0] == [];
      DescribeDaysOutcome([]);
    }
  }

  /** With two dates or more and a comment, nothing raises. */
  lemma TallyOk(log: Log)
    requires |CounterOf(EventDates(log.events)).keys| >= 2 && log.comments != []
    ensures Tally(log).Ok?
  {
    var c := CounterOf(EventDates(log.events));
    CounterFacts(log.events);
    var perDay := c.counts[..|c.counts| - 1];
    assert forall i :: 0 <= i < |perDay| ==> perDay[i] >= 1;
    DescribeDaysOutcome(perDay);
    assert |log.events| >= 2;
  }

  /** With two dates or more and a comment nothing raises, and only then. */
  lemma TallySucceeds(log: Log)
    ensures Tally(log).Ok? <==> |CounterOf(EventDates(log.events)).keys| >= 2 && log.comments != []
  {
    var c := CounterOf(EventDates(log.events));
    TallyFails(log);
    if |c.keys| >= 2 && log.comments != [] {
      TallyOk(log);
    } else {
      assert |c.keys| <= 1 || log.comments == [];
    }
  }

  /** Where the script stops: a parse error is passed on; without events
      the first pop raises; with a single date the average divides by
      zero; with two dates or more nothing raises. */
  lemma AnalyzeOutcome(lines: seq<string>)
    ensures ParseLog(lines).Err? ==> Analyze(lines) == Err(ParseLog(lines).error)
    ensures ParseLog(lines).Ok? ==>
      var days := |CounterOf(EventDates(ParseLog(lines).value.events)).keys|;
      && (days == 0 ==> Analyze(lines) == Err(PopFromEmptyList))
      && (days == 1 ==> Analyze(lines) == Err(DivisionByZero))
      && (Analyze(lines).Ok? <==> days >= 2)
  {
    if ParseLog(lines).Ok? {
      var log := ParseLog(lines).value;
      CounterFacts(log.events);
      EventsNeedBlocks(lines);
      TallyFails(log);
      TallySucceeds(log);
    }
  }

  /** The report of a run that raises nothing keeps the parsed events in
      order, today's count and the positive per-day counts account for
      every one of them. */
  lemma TallyCounts(log: Log)
    requires Tally(log).Ok?
    ensures var r := Tally(log).value;
      && Sum(r.perDay) + r.today == |log.events|
      && r.perDay != [] && (forall i :: 0 <= i < |r.perDay| ==> r.perDay[i] >= 1)
  {
    var c := CounterOf(EventDates(log.events));
    TallyShape(log);
    CounterTrim(log.events);
  }

  /** Where the lists of a successful report come from: the Counter's
      lists without their last entries, and that last count as today. */
  lemma TallyShape(log: Log)
    requires Tally(log).Ok?
    ensures var c, r := CounterOf(EventDates(log.events)), Tally(log).value;
      && c.counts != [] && |c.keys| == |c.counts|
      && r.perDay == c.counts[..|c.counts| - 1] && r.today == c.counts[|c.counts| - 1]
      && r.dates == c.keys[..|c.counts| - 1]
  {
  }

  /** Setting the last day's count aside keeps every event counted once. */
  lemma CounterTrim(events: seq<Timestamp>)
    requires CounterOf(EventDates(events)).counts != []
    ensures var c := CounterOf(EventDates(events));
      && Sum(c.counts[..|c.counts| - 1]) + c.counts[|c.counts| - 1] == |events|
      && (forall i :: 0 <= i < |c.counts| ==> c.counts[i] >= 1)
  {
    var c := CounterOf(EventDates(events));
    CounterFacts(events);
    CounterSum(EventDates(events));
  }

  /** The report keeps the parsed events and their deltas, and its
      statistics and delta summary are those of its counts and events. */
  lemma TallyKeeps(log: Log)
    requires Tally(log).Ok?
    ensures var r := Tally(log).value;
      && r.events == log.events && r.deltas == Deltas(log.events)
      && r.stats == DescribeDays(r.perDay).value
      && r.summary == SummarizeDeltas(log.events).value
  {
  }

  /** The reported median is the median of the counts, and the reported
      least and greatest counts bound every count. */
  lemma DayStatsBounds(perDay: seq<int>)
    requires DescribeDays(perDay).Ok?
    ensures var d := DescribeDays(perDay).value;
      && d.median == Median(perDay).value
      && (forall i :: 0 <= i < |perDay| ==> d.minPerDay <= perDay[i] <= d.maxPerDay)
  {
    var d := DescribeDays(perDay).value;
    assert (d.minPerDay, d.maxPerDay) == MinMaxPerDay(perDay).value;
  }

  /** What a report that raises nothing says: the parsed events, the delta
      summary of those events, the median of the remaining counts, and
      least and greatest counts that bound every remaining day. */
  lemma TallyReports(log: Log)
    requires Tally(log).Ok?
    ensures var r := Tally(log).value;
      && r.events == log.events
      && Summarizes(r.events, r.summary)
      && r.stats.median == Median(r.perDay).value
      && (forall i :: 0 <= i < |r.perDay| ==> r.stats.minPerDay <= r.perDay[i] <= r.stats.maxPerDay)
  {
    var r := Tally(log).value;
    TallyKeeps(log);
    DayStatsBounds(r.perDay);
  }

  /** The dates of the report are distinct, each beside the number of
      events on it. */
  lemma TallyDates(log: Log)
    requires Tally(log).Ok?
    ensures var r := Tally(log).value;
      && |r.dates| == |r.perDay| && Distinct(r.dates)
      && (forall i :: 0 <= i < |r.dates| ==> r.perDay[i] == multiset(EventDates(log.events))[r.dates[i]])
  {
    var c := CounterOf(EventDates(log.events));
    var n := |c.counts| - 1;
    var r := Tally(log).value;
    assert r.dates == c.keys[..n] && r.perDay == c.counts[..n];
    CounterKeys(EventDates(log.events));
    CounterCounts(EventDates(log.events));
    forall i | 0 <= i < n
      ensures r.perDay[i] == multiset(EventDates(log.events))[r.dates[i]]
    {
      assert r.perDay[i] == c.counts[i] && r.dates[i] == c.keys[i];
    }
    forall i, j | 0 <= i < j < n ensures r.dates[i] != r.dates[j] {
      assert r.dates[i] == c.keys[i] && r.dates[j] == c.keys[j];
    }
  }

  /** The statistics step by step, with the loop of the moving average.
      Past the average nothing can raise except a zero median. */
  method ComputeDayStats(perDay: seq<int>) returns (r: Result<DayStats>)
    ensures r == DescribeDays(perDay)
  {
    var average :- Average(perDay);
    var median := Median(perDay).value;
    var midrange := Midrange(perDay).value;
    var variance := Variance(perDay).value;
    var normalized :- Normalize(AsReals(perDay), median);
    var moving := MovingAverage(perDay, AveragePeriod);
    assert moving == TrailingMeans(perDay);
    var movingNormalized := Normalize(moving, median).value;
    var minMax := MinMaxPerDay(perDay).value;
    r := Ok(DayStats(average, median, midrange, variance, minMax.0, minMax.1,
                     normalized, moving, movingNormalized));
  }

  /** The script step by step: the read loop, then the Counter lists
      trimmed in place. */
  method Run(lines: seq<string>) returns (r: Result<Report>)
    ensures r == Analyze(lines)
  {
    var log :- ReadLog(lines);
    var events := log.events;
    var deltas := Deltas(events);
    var series := new DaySeries(events, log.comments);
    var today :- series.PopToday();
    var stats :- ComputeDayStats(series.perDay);
    CounterFacts(events);
    var summary := SummarizeDeltas(events).value;
    r := Ok(Report(events, deltas, series.dates, series.perDay, series.comments, today, stats, summary));
  }
}

/** The statistics plot.py derives from the parsed events (lines 83-151):
    deltas, the sorted per-day statistics, normalisation, the trailing
    moving average and the delta extremes. Python floats are modelled as
    exact reals. */
module Statistics {
  import opened Results
  import opened Sequences
  import opened Calendar

  // ---- Deltas between consecutive events (plot.py:83), in minutes.

  /** The difference between each event and the one before it. */
  function Deltas(events: seq<Timestamp>): (d: seq<int>)
    ensures |d| == if events == [] then 0 else |events| - 1
  {
    seq(if events == [] then 0 else |events| - 1,
        i requires 0 <= i < |events| - 1 => Minutes(events[i + 1]) - Minutes(events[i]))
  }

  /** Python's datetime order never puts an event before its predecessor. */
  predicate Chronological(events: seq<Event>)
  {
    forall i :: 0 <= i < |events| - 1 ==> !EventBefore(events[i + 1], events[i])
  }

  /** Every delta is non-negative exactly when the events are in
      chronological order. */
  lemma DeltasNonNegative(events: seq<Timestamp>)
    ensures (forall i :: 0 <= i < |Deltas(events)| ==> Deltas(events)[i] >= 0) <==> Chronological(events)
  {
    var d := Deltas(events);
    forall i | 0 <= i < |events| - 1
      ensures d[i] >= 0 <==> !EventBefore(events[i + 1], events[i])
    {
      MinutesOrder(events[i + 1], events[i]);
    }
  }

  lemma DeltasExtended(events: seq<Timestamp>, x: Timestamp)
    requires events != []
    ensures Deltas(events + [x]) == Deltas(events) + [Minutes(x) - Minutes(events[|events| - 1])]
  {
  }

  /** The deltas add up to the time from the first event to the last. */
  lemma {:induction false} DeltasTelescope(events: seq<Timestamp>)
    requires events != []
    ensures Sum(Deltas(events)) == Minutes(events[|events| - 1]) - Minutes(events[0])
  {
    if |events| > 1 {
      var p := events[..|events| - 1];
      assert events == p + [events[|events| - 1]];
      DeltasExtended(p, events[|events| - 1]);
      DeltasTelescope(p);
      assert Deltas(events)[..|Deltas(events)| - 1] == Deltas(p);
    }
  }

  // ---- sorted() and the statistics over the sorted counts (plot.py:113-119).

  predicate SortedAsc(s: seq<int>)
  {
    forall i, j :: 0 <= i < j < |s| ==> s[i] <= s[j]
  }

  /** Order between neighbours is enough for an ascending list. */
  lemma {:induction false} AdjacentSorted(s: seq<int>)
    requires forall i :: 0 <= i < |s| - 1 ==> s[i] <= s[i + 1]
    ensures SortedAsc(s)
  {
    if |s| > 1 {
      AdjacentSorted(s[1..]);
      SortedCons(s[0], s[1..]);
      assert s == [s[0]] + s[1..];
    }
  }

  lemma SortedCons(h: int, t: seq<int>)
    requires SortedAsc(t) && (t == [] || h <= t[0])
    ensures SortedAsc([h] + t)
  {
    forall i, j | 0 <= i < j < |t| + 1 ensures ([h] + t)[i] <= ([h] + t)[j] {
      if i > 0 {
        assert ([h] + t)[i] == t[i - 1];
      } else {
        assert ([h] + t)[j] == t[j - 1];
        assert j == 1 || t[0] <= t[j - 1];
      }
    }
  }

  function Insert(x: int, s: seq<int>): (r: seq<int>)
    requires SortedAsc(s)
    ensures |r| == |s| + 1
    ensures SortedAsc(r)
    ensures multiset(r) == multiset{x} + multiset(s)
    ensures r[0] == x || (s != [] && r[0] == s[0])
  {
    if s == [] || x <= s[0] then
      SortedCons(x, s);
      [x] + s
    else
      var t := Insert(x, s[1..]);
      assert s == [s[0]] + s[1..];
      SortedCons(s[0], t);
      [s[0]] + t
  }

  /** sorted(s), ascending. */
  function Sort(s: seq<int>): (r: seq<int>)
    ensures |r| == |s|
    ensures SortedAsc(r)
    ensures multiset(r) == multiset(s)
  {
    if s == [] then []
    else
      assert s == [s[0]] + s[1..];
      Insert(s[0], Sort(s[1..]))
  }

  /** The head of an ascending list is no larger than any of its elements. */
  lemma SortedHead(a: seq<int>, x: int)
    requires SortedAsc(a) && x in multiset(a)
    ensures a[0] <= x
  {
    var k :| 0 <= k < |a| && a[k] == x;
    assert k == 0 || a[0] <= a[k];
  }

  lemma SortedTail(a: seq<int>)
    requires SortedAsc(a) && a != []
    ensures SortedAsc(a[1..])
  {
    forall i, j | 0 <= i < j < |a| - 1 ensures a[1..][i] <= a[1..][j] {
      assert a[1..][i] == a[i + 1] && a[1..][j] == a[j + 1];
    }
  }

  /** There is only one ascending arrangement of a list, so Sort is
      sorted() whatever algorithm computes it. */
  lemma {:induction false} SortedUnique(a: seq<int>, b: seq<int>)
    requires SortedAsc(a) && SortedAsc(b) && multiset(a) == multiset(b)
    ensures a == b
  {
    if a == [] {
      assert |b| == |multiset(b)| == 0;
    } else {
      assert |b| == |multiset(b)| == |a|;
      assert a[0] in multiset(a) && b[0] in multiset(b);
      SortedHead(a, b[0]);
      SortedHead(b, a[0]);
      assert a == [a[0]] + a[1..] && b == [b[0]] + b[1..];
      assert multiset(a) == multiset{a[0]} + multiset(a[1..]);
      assert multiset(b) == multiset{b[0]} + multiset(b[1..]);
      assert a[0] == b[0];
      assert multiset(a[1..]) == multiset(a) - multiset{a[0]};
      assert multiset(b[1..]) == multiset(b) - multiset{b[0]};
      SortedTail(a);
      SortedTail(b);
      SortedUnique(a[1..], b[1..]);
    }
  }

  /** The first element of the sorted list is the least element and the
      last the greatest. */
  lemma SortedEnds(s: seq<int>)
    requires s != []
    ensures Sort(s)[0] in s && Sort(s)[|s| - 1] in s
    ensures forall i :: 0 <= i < |s| ==> Sort(s)[0] <= s[i] <= Sort(s)[|s| - 1]
  {
    var t, last := Sort(s), |s| - 1;
    assert t[0] in multiset(t) && t[last] in multiset(t);
    forall i | 0 <= i < |s| ensures t[0] <= s[i] <= t[last] {
      assert s[i] in multiset(s);
      var k :| 0 <= k < |t| && t[k] == s[i];
      assert k == 0 || t[0] <= t[k];
      assert k == last || t[k] <= t[last];
    }
  }

  lemma {:induction false} SumInsert(x: int, s: seq<int>)
    requires SortedAsc(s)
    ensures Sum(Insert(x, s)) == x + Sum(s)
  {
    if s == [] || x <= s[0] {
      SumConcat([x], s);
      assert Sum([x]) == Sum([]) + x;
    } else {
      assert s == [s[0]] + s[1..];
      SumInsert(x, s[1..]);
      SumConcat([s[0]], Insert(x, s[1..]));
      SumConcat([s[0]], s[1..]);
      assert Sum([s[0]]) == Sum([]) + s[0];
    }
  }

  /** Sorting does not change the sum. */
  lemma {:induction false} SumSort(s: seq<int>)
    ensures Sum(Sort(s)) == Sum(s)
  {
    if s != [] {
      assert s == [s[0]] + s[1..];
      SumSort(s[1..]);
      SumInsert(s[0], Sort(s[1..]));
      SumConcat([s[0]], s[1..]);
      assert Sum([s[0]]) == Sum([]) + s[0];
    }
  }

  /** The arithmetic mean; an empty list divides by zero. */
  function Average(s: seq<int>): (r: Result<real>)
    ensures r.Ok? <==> s != []
    ensures r.Ok? ==> r.value * (|s| as real) == Sum(s) as real
  {
    if s == [] then Err(DivisionByZero) else Ok(Sum(s) as real / |s| as real)
  }

  /** The average of the sorted list, which is what plot.py computes, is
      the average of the list itself. */
  lemma AverageOfSorted(s: seq<int>)
    ensures Average(Sort(s)) == Average(s)
  {
    SumSort(s);
  }

  /** The element at index n / 2 of the sorted list: for an even length,
      the upper of the two middle elements. */
  function Median(s: seq<int>): (r: Result<int>)
    ensures r.Ok? <==> s != []
  {
    if s == [] then Err(IndexOutOfRange) else Ok(Sort(s)[|s| / 2])
  }

  /** The median is an element of the list, no smaller than the lower half
      of the sorted list and no larger than the upper half. */
  lemma MedianMeaning(s: seq<int>)
    requires s != []
    ensures Median(s).value in s
    ensures forall i :: 0 <= i <= |s| / 2 ==> Sort(s)[i] <= Median(s).value
    ensures forall i :: |s| / 2 <= i < |s| ==> Median(s).value <= Sort(s)[i]
  {
    var t, k := Sort(s), |s| / 2;
    assert Median(s).value == t[k];
    assert t[k] in multiset(t);
    forall i | 0 <= i <= k ensures t[i] <= t[k] {
      assert i == k || t[i] <= t[k];
    }
    forall i | k <= i < |s| ensures t[k] <= t[i] {
      assert i == k || t[k] <= t[i];
    }
  }

  /** Counts of at least one give a median of at least one, so the
      normalisation divisor median * 2 is never zero. */
  lemma MedianPositive(s: seq<int>)
    requires s != []
    requires forall i :: 0 <= i < |s| ==> s[i] >= 1
    ensures Median(s).value >= 1
  {
    MedianMeaning(s);
  }

  /** The median can be read off any ascending arrangement of the list. */
  lemma MedianOfArrangement(s: seq<int>, sorted: seq<int>)
    requires s != [] && multiset(s) == multiset(sorted)
    requires forall i :: 0 <= i < |sorted| - 1 ==> sorted[i] <= sorted[i + 1]
    ensures |sorted| == |s| && Median(s) == Ok(sorted[|s| / 2])
  {
    assert |sorted| == |multiset(sorted)| == |s|;
    AdjacentSorted(sorted);
    SortedUnique(Sort(s), sorted);
  }

  /** An odd count picks the middle element of the sorted list. */
  lemma MedianOfOdd(s: seq<int>)
    requires |s| == 5 && s[0] == 9 && s[1] == 3 && s[2] == 1 && s[3] == 5 && s[4] == 3
    ensures Median(s) == Ok(3)
  {
    var sorted := [1, 3, 3, 5, 9];
    assert s == [s[0], s[1], s[2], s[3], s[4]];
    assert multiset(s) == multiset(sorted);
    MedianOfArrangement(s, sorted);
  }

  /** An even count picks the upper of the two middle elements. */
  lemma MedianOfEven(s: seq<int>)
    requires |s| == 2 && s[0] == 4 && s[1] == 2
    ensures Median(s) == Ok(4)
  {
    var sorted := [2, 4];
    assert s == [s[0], s[1]];
    assert multiset(s) == multiset(sorted);
    MedianOfArrangement(s, sorted);
  }

  /** Half the sum of the first and the last element of the sorted list. */
  function Midrange(s: seq<int>): (r: Result<real>)
    ensures r.Ok? <==> s != []
  {
    if s == [] then Err(IndexOutOfRange) else Ok((Sort(s)[0] + Sort(s)[|s| - 1]) as real / 2.0)
  }

  /** The midrange is halfway between the least and the greatest element,
      so it lies between them. */
  lemma MidrangeMeaning(s: seq<int>)
    requires s != []
    ensures exists lo, hi ::
              && lo in s && hi in s
              && (forall i :: 0 <= i < |s| ==> lo <= s[i] <= hi)
              && Midrange(s).value * 2.0 == (lo + hi) as real
  {
    SortedEnds(s);
    var lo, hi := Sort(s)[0], Sort(s)[|s| - 1];
    assert lo in s && hi in s;
  }

  function SquaredDeviations(s: seq<int>, mean: real): (r: real)
    ensures r >= 0.0
  {
    if s == [] then 0.0
    else
      var x := s[|s| - 1] as real - mean;
      SquaredDeviations(s[..|s| - 1], mean) + x * x
  }

  /** The mean squared deviation from the average: the square of the
      population standard deviation. */
  function Variance(s: seq<int>): (r: Result<real>)
    ensures r.Ok? <==> s != []
    ensures r.Ok? ==> r.value >= 0.0
  {
    if s == [] then Err(DivisionByZero) else Ok(SquaredDeviations(s, Average(s).value) / |s| as real)
  }

  lemma {:induction false} SquaredDeviationsOfConstant(s: seq<int>, c: int)
    requires forall i :: 0 <= i < |s| ==> s[i] == c
    ensures SquaredDeviations(s, c as real) == 0.0
  {
    if s != [] {
      SquaredDeviationsOfConstant(s[..|s| - 1], c);
    }
  }

  /** A list whose elements are all equal has variance zero. */
  lemma VarianceOfConstant(s: seq<int>, c: int)
    requires s != []
    requires forall i :: 0 <= i < |s| ==> s[i] == c
    ensures Variance(s) == Ok(0.0)
  {
    SumLower(s, c);
    SumUpper(s, c);
    var n := |s| as real;
    assert Average(s).value * n == c as real * n;
    assert Average(s).value == c as real;
    SquaredDeviationsOfConstant(s, c);
  }

  // ---- Normalisation (plot.py:123, 144).

  /** y drawn on the scale where the median sits at 0.5. */
  predicate Scaled(y: real, median: int, x: real)
  {
    x * (2 * median) as real == y
  }

  /** Every value divided by twice the median, so the median maps to 0.5.
      The comprehension divides only when there is a value to divide. */
  function Normalize(xs: seq<real>, median: int): (r: Result<seq<real>>)
    ensures r.Ok? <==> median != 0 || xs == []
    ensures r.Ok? ==> |r.value| == |xs|
    ensures r.Ok? ==> forall i :: 0 <= i < |xs| ==> Scaled(xs[i], median, r.value[i])
  {
    if median == 0 && xs != [] then Err(DivisionByZero)
    else Ok(seq(|xs|, i requires 0 <= i < |xs| => xs[i] / (2 * median) as real))
  }

  /** A value equal to the median is drawn at 0.5. */
  lemma NormalizedMedianIsHalf(xs: seq<real>, median: int, i: nat)
    requires median != 0 && i < |xs| && xs[i] == median as real
    ensures Normalize(xs, median).value[i] == 0.5
  {
    var m := median as real;
    assert Normalize(xs, median).value[i] == m / (2.0 * m);
    HalfOf(m);
  }

  lemma HalfOf(m: real)
    requires m != 0.0
    ensures m / (2.0 * m) == 0.5
  {
    assert 0.5 * (2.0 * m) == m;
  }

  function AsReals(s: seq<int>): (r: seq<real>)
    ensures |r| == |s| && forall i :: 0 <= i < |s| ==> r[i] == s[i] as real
  {
    seq(|s|, i requires 0 <= i < |s| => s[i] as real)
  }

  // ---- The trailing moving average (plot.py:128-140).

  /** The first index of the window ending at i, clamped at zero. */
  function WindowStart(i: nat, period: nat): nat
  {
    if i + 1 >= period then i + 1 - period else 0
  }

  /** The divisor of the window ending at i: the period, or i + 1 near the start. */
  function WindowLength(i: nat, period: nat): nat
  {
    if period < i + 1 then period else i + 1
  }

  /** The divisor is the number of terms summed, never zero. */
  lemma WindowLengthIsTermCount(i: nat, period: nat)
    requires period > 0
    ensures i + 1 - WindowStart(i, period) == WindowLength(i, period) > 0
  {
  }

  /** The mean of the window of at most `period` values ending at i. */
  function TrailingMean(s: seq<int>, i: nat, period: nat): real
    requires i < |s| && period > 0
  {
    Sum(s[WindowStart(i, period)..i + 1]) as real / WindowLength(i, period) as real
  }

  /** The first entry is the first value itself. */
  lemma TrailingMeanFirst(s: seq<int>, period: nat)
    requires s != [] && period > 0
    ensures TrailingMean(s, 0, period) == s[0] as real
  {
    assert s[0..1] == [s[0]];
    assert Sum([s[0]]) == Sum([]) + s[0];
  }

  /** From index period - 1 on, an entry is the mean of exactly `period`
      values. */
  lemma TrailingMeanFull(s: seq<int>, i: nat, period: nat)
    requires period > 0 && period - 1 <= i < |s|
    ensures TrailingMean(s, i, period) * period as real == Sum(s[i + 1 - period..i + 1]) as real
  {
  }

  /** An entry lies between the least and the greatest value of its
      window. */
  lemma TrailingMeanBounds(s: seq<int>, i: nat, period: nat, lo: int, hi: int)
    requires i < |s| && period > 0
    requires forall j :: WindowStart(i, period) <= j <= i ==> lo <= s[j] <= hi
    ensures lo as real <= TrailingMean(s, i, period) <= hi as real
  {
    var w := s[WindowStart(i, period)..i + 1];
    var n := WindowLength(i, period);
    assert |w| == n;
    assert forall j :: 0 <= j < |w| ==> lo <= w[j] <= hi by {
      forall j | 0 <= j < |w| ensures lo <= w[j] <= hi {
        assert w[j] == s[WindowStart(i, period) + j];
      }
    }
    SumLower(w, lo);
    SumUpper(w, hi);
    MeanBounds(Sum(w), n, lo, hi);
  }

  /** A quotient of a sum bounded by n * lo and n * hi lies in [lo, hi]. */
  lemma MeanBounds(sum: int, n: int, lo: int, hi: int)
    requires n > 0 && lo * n <= sum <= hi * n
    ensures lo as real <= sum as real / n as real <= hi as real
  {
    var q := sum as real / n as real;
    assert q * n as real == sum as real;
  }

  /** The nested loop of plot.py: for each day, `total` sums the window
      ending at that day, and the average divides it by the window's
      length. */
  method MovingAverage(perDay: seq<int>, period: nat) returns (average: seq<real>)
    requires period > 0
    ensures |average| == |perDay|
    ensures forall i :: 0 <= i < |perDay| ==> average[i] == TrailingMean(perDay, i, period)
  {
    average := [];
    for index := 0 to |perDay|
      invariant |average| == index
      invariant forall i :: 0 <= i < index ==> average[i] == TrailingMean(perDay, i, period)
    {
      var start := if index + 1 >= period then index + 1 - period else 0;
      var total := 0;
      for j := start to index + 1
        invariant total == Sum(perDay[start..j])
      {
        assert perDay[start..j + 1][..j - start] == perDay[start..j];
        total := total + perDay[j];
      }
      average := average + [total as real / (if period < index + 1 then period else index + 1) as real];
    }
  }

  // ---- min, max and average of the deltas (plot.py:149-151).

  /** The first index holding the least value, as list.index of min() gives. */
  function FirstMinIndex(d: seq<int>): (k: nat)
    requires d != []
    ensures k < |d|
    ensures forall j :: 0 <= j < |d| ==> d[k] <= d[j]
    ensures forall j :: 0 <= j < k ==> d[j] > d[k]
  {
    if |d| == 1 then 0
    else
      var k := FirstMinIndex(d[..|d| - 1]);
      if d[|d| - 1] < d[k] then |d| - 1 else k
  }

  /** The first index holding the greatest value, as list.index of max() gives. */
  function FirstMaxIndex(d: seq<int>): (k: nat)
    requires d != []
    ensures k < |d|
    ensures forall j :: 0 <= j < |d| ==> d[j] <= d[k]
    ensures forall j :: 0 <= j < k ==> d[j] < d[k]
  {
    if |d| == 1 then 0
    else
      var k := FirstMaxIndex(d[..|d| - 1]);
      if d[|d| - 1] > d[k] then |d| - 1 else k
  }

  /** Integer division rounded to the nearest integer, ties to even: how
      Python divides a timedelta by an int, in microseconds. */
  function DivideAndRound(a: int, b: int): (q: int)
    requires b > 0
    ensures 2 * (a - q * b) <= b && -b <= 2 * (a - q * b)
    ensures (2 * (a - q * b) == b || 2 * (a - q * b) == -b) ==> q % 2 == 0
  {
    var q, r := a / b, a % b;
    assert a == q * b + r && 0 <= r < b;
    if 2 * r > b || (2 * r == b && q % 2 == 1) then
      assert a - (q + 1) * b == r - b;
      q + 1
    else
      assert a - q * b == r;
      q
  }

  const MicrosecondsPerMinute := 60_000_000

  datatype DeltaSummary = DeltaSummary(
    minDelta: int, minIndex: nat, minAt: Timestamp,
    maxDelta: int, maxIndex: nat, maxAt: Timestamp,
    averageMicroseconds: int)

  /** `s` reports the min and max delta, each with the event at the first
      index where it occurs (the earlier event of that pair), and
      sum(deltas) / len(deltas) in microseconds. */
  predicate Summarizes(events: seq<Timestamp>, s: DeltaSummary)
  {
    var d := Deltas(events);
    && |events| >= 2
    && s.minIndex < |d| && s.minAt == events[s.minIndex] && s.minDelta == d[s.minIndex]
    && (forall j :: 0 <= j < |d| ==> s.minDelta <= d[j])
    && (forall j :: 0 <= j < s.minIndex ==> s.minDelta < d[j])
    && s.maxIndex < |d| && s.maxAt == events[s.maxIndex] && s.maxDelta == d[s.maxIndex]
    && (forall j :: 0 <= j < |d| ==> d[j] <= s.maxDelta)
    && (forall j :: 0 <= j < s.maxIndex ==> d[j] < s.maxDelta)
    && s.averageMicroseconds
       == DivideAndRound(MicrosecondsPerMinute * (Minutes(events[|d|]) - Minutes(events[0])), |d|)
  }

  /** The delta extremes and average; with fewer than two events min() of
      the empty deltas raises. */
  function SummarizeDeltas(events: seq<Timestamp>): (r: Result<DeltaSummary>)
    ensures r.Ok? <==> |events| >= 2
    ensures r.Ok? ==> Summarizes(events, r.value)
  {
    var d := Deltas(events);
    if d == [] then Err(EmptyArgument)
    else
      var lo, hi := FirstMinIndex(d), FirstMaxIndex(d);
      DeltasTelescope(events);
      Ok(DeltaSummary(d[lo], lo, events[lo], d[hi], hi, events[hi],
                      DivideAndRound(MicrosecondsPerMinute * Sum(d), |d|)))
  }
}

/** Grouping events by date: a collections.Counter over the dates, read
    through keys() and values(), and the in-place trim of the last
    ("today") day. */
module DayGrouping {
  import opened Results
  import opened Sequences
  import opened Calendar

  /** A collections.Counter read through keys() and values(): the keys in
      the order they were first inserted, each count beside its key. */
  datatype Counter<T> = Counter(keys: seq<T>, counts: seq<nat>)

  /** list.index(x): the first position of x. */
  function IndexOf<T(==)>(s: seq<T>, x: T): (k: nat)
    requires x in s
    ensures k < |s| && s[k] == x
    ensures forall j :: 0 <= j < k ==> s[j] != x
  {
    if s[0] == x then 0 else 1 + IndexOf(s[1..], x)
  }

  /** Counter(s): each element in turn adds 1 to its key's count, inserting
      the key (at the end) the first time it is seen. */
  function CounterOf<T(==)>(s: seq<T>): (c: Counter<T>)
    ensures |c.keys| == |c.counts|
  {
    if s == [] then Counter([], [])
    else
      var c := CounterOf(s[..|s| - 1]);
      var x := s[|s| - 1];
      if x in c.keys then
        var k := IndexOf(c.keys, x);
        Counter(c.keys, c.counts[k := c.counts[k] + 1])
      else
        Counter(c.keys + [x], c.counts + [1])
  }

  predicate Distinct<T(==)>(s: seq<T>)
  {
    forall i, j :: 0 <= i < j < |s| ==> s[i] != s[j]
  }

  lemma IndexOfExtended<T>(p: seq<T>, x: T, y: T)
    requires y in p
    ensures IndexOf(p + [x], y) == IndexOf(p, y)
  {
    var k := IndexOf(p, y);
    assert (p + [x])[k] == y;
  }

  lemma IndexOfNew<T>(p: seq<T>, x: T)
    requires x !in p
    ensures IndexOf(p + [x], x) == |p|
  {
    assert (p + [x])[|p|] == x;
  }

  /** The keys are the distinct elements of the list. */
  lemma {:induction false} CounterKeys<T>(s: seq<T>)
    ensures Distinct(CounterOf(s).keys)
    ensures forall x :: x in CounterOf(s).keys <==> x in s
  {
    if s != [] {
      var p := s[..|s| - 1];
      assert s == p + [s[|s| - 1]];
      CounterKeys(p);
    }
  }

  /** Each count is the number of occurrences of its key. */
  lemma {:induction false} CounterCounts<T>(s: seq<T>)
    ensures forall i :: 0 <= i < |CounterOf(s).keys| ==>
      CounterOf(s).counts[i] == multiset(s)[CounterOf(s).keys[i]] >= 1
  {
    if s != [] {
      var p, x := s[..|s| - 1], s[|s| - 1];
      assert s == p + [x];
      CounterKeys(p);
      CounterKeys(s);
      CounterCounts(p);
    }
  }

  /** The keys come in the order of their first occurrence in the list. */
  lemma {:induction false} CounterOrder<T>(s: seq<T>)
    ensures forall x :: x in CounterOf(s).keys ==> x in s
    ensures forall i, j :: 0 <= i < j < |CounterOf(s).keys| ==>
      IndexOf(s, CounterOf(s).keys[i]) < IndexOf(s, CounterOf(s).keys[j])
  {
    CounterKeys(s);
    if s != [] {
      var p, x := s[..|s| - 1], s[|s| - 1];
      assert s == p + [x];
      CounterKeys(p);
      CounterOrder(p);
      forall y | y in p ensures IndexOf(s, y) == IndexOf(p, y) {
        IndexOfExtended(p, x, y);
      }
      if x !in p {
        IndexOfNew(p, x);
      }
    }
  }

  /** The counts add up to the length of the list. */
  lemma {:induction false} CounterSum<T>(s: seq<T>)
    ensures Sum(CounterOf(s).counts) == |s|
  {
    if s != [] {
      var p, x := s[..|s| - 1], s[|s| - 1];
      CounterSum(p);
      var c := CounterOf(p);
      if x in c.keys {
        SumIncrement(c.counts, IndexOf(c.keys, x));
      } else {
        SumConcat(c.counts, [1]);
        assert Sum([1]) == 1;
      }
    }
  }

  /** The calendar date of every event. */
  function EventDates(events: seq<Timestamp>): (r: seq<Date>)
    ensures |r| == |events|
  {
    seq(|events|, i requires 0 <= i < |events| => events[i].date)
  }

  /** There are no more distinct dates than events. */
  lemma DistinctDatesBound(events: seq<Timestamp>)
    ensures |CounterOf(EventDates(events)).keys| <= |events|
  {
    var c := CounterOf(EventDates(events));
    CounterCounts(EventDates(events));
    CounterSum(EventDates(events));
    SumLower(c.counts, 1);
  }

  /** The per-day lists of the script, which it trims in place. */
  class DaySeries {
    var perDay: seq<nat>        // events_per_day
    var dates: seq<Date>        // unique_dates
    var comments: seq<string>   // comments

    ghost predicate Valid()
      reads this
    {
      |perDay| == |dates|
    }

    /** events_per_day and unique_dates from one Counter over the event
        dates, beside the parsed comments. */
    constructor (events: seq<Timestamp>, comments: seq<string>)
      ensures Valid()
      ensures perDay == CounterOf(EventDates(events)).counts
      ensures dates == CounterOf(EventDates(events)).keys
      ensures this.comments == comments
    {
      var counter := CounterOf(EventDates(events));
      perDay := counter.counts;
      dates := counter.keys;
      this.comments := comments;
    }

    /** The three pops that set today aside, in the script's order:
        each pop removes the last element; popping an empty list raises
        IndexError after the earlier pops have happened. */
    method PopToday() returns (today: Result<nat>)
      requires Valid()
      modifies this
      ensures Valid()
      ensures old(perDay) == [] ==>
        today == Err(PopFromEmptyList) && perDay == old(perDay) && dates == old(dates) && comments == old(comments)
      ensures old(perDay) != [] ==>
        perDay == old(perDay)[..|old(perDay)| - 1] && dates == old(dates)[..|old(dates)| - 1]
      ensures old(perDay) != [] && old(comments) == [] ==>
        today == Err(PopFromEmptyList) && comments == old(comments)
      ensures old(perDay) != [] && old(comments) != [] ==>
        today == Ok(old(perDay)[|old(perDay)| - 1]) && comments == old(comments)[..|old(comments)| - 1]
      ensures today.Ok? ==> Sum(perDay) + today.value == Sum(old(perDay))
    {
      if perDay == [] {
        return Err(PopFromEmptyList);
      }
      var last := perDay[|perDay| - 1];
      perDay := perDay[..|perDay| - 1];
      dates := dates[..|dates| - 1];
      if comments == [] {
        return Err(PopFromEmptyList);
      }
      comments := comments[..|comments| - 1];
      return Ok(last);
    }
  }
}

// The in-process metrics registry. Values are reals and counts are naturals: rounding and 64-bit
// wrap-around are not modelled.

module Metrics {
  import opened Basics
  import opened Ordering

  datatype Kind = Counter | Gauge | Histogram

  datatype Metric = Metric(name: string, kind: Kind, help: string, buckets: seq<real>)

  type Label = (string, string)

  /** What a measurement is counted under: a metric name and its labels. */
  datatype Series = Series(name: string, labels: seq<Label>)

  datatype Held =
    | Amount(current: real)
    | Distribution(counts: seq<nat>, count: nat, sum: real)

  datatype Reading =
    | Single(value: real)
    | Buckets(buckets: seq<(real, nat)>, count: nat, sum: real)

  datatype Sample = Sample(metric: Metric, labels: seq<Label>, reading: Reading)

  /** A floating-point argument: a number, or an infinity or NaN. */
  datatype Measurement = Finite(value: real) | NotFinite

  const SERIES_CEILING: nat := 10_000

  // --- One series ------------------------------------------------------------------------------

  function Empty(metric: Metric): Held {
    if metric.kind.Histogram? then Distribution(seq(|metric.buckets|, _ => 0), 0, 0.0) else Amount(0.0)
  }

  /** Each slot whose boundary the value does not exceed, one more. */
  function Bumped(buckets: seq<real>, counts: seq<nat>, value: real): (r: seq<nat>)
    ensures |r| == |counts|
  {
    seq(|counts|, i requires 0 <= i < |counts| =>
      if i < |buckets| && value <= buckets[i] then counts[i] + 1 else counts[i])
  }

  function Applied(metric: Metric, held: Held, value: real): Held {
    match (metric.kind, held)
    case (Counter, Amount(current)) => if value >= 0.0 then Amount(current + value) else held
    case (Gauge, Amount(_)) => Amount(value)
    case (Histogram, Distribution(counts, count, sum)) =>
      Distribution(Bumped(metric.buckets, counts, value), count + 1, sum + value)
    case _ => held
  }

  method Apply(metric: Metric, held: Held, value: real) returns (r: Held)
    ensures r == Applied(metric, held, value)
  {
    r := held;
    if metric.kind.Counter? && held.Amount? {
      if value >= 0.0 { r := Amount(held.current + value); }
    } else if metric.kind.Gauge? && held.Amount? {
      r := Amount(value);
    } else if metric.kind.Histogram? && held.Distribution? {
      var counts := held.counts;
      for index := 0 to |metric.buckets|
        invariant |counts| == |held.counts|
        invariant forall i :: 0 <= i < |counts| ==>
          counts[i] == if i < index && value <= metric.buckets[i] then held.counts[i] + 1 else held.counts[i]
      {
        if value <= metric.buckets[index] && index < |counts| {
          counts := counts[index := counts[index] + 1];
        }
      }
      assert counts == Bumped(metric.buckets, held.counts, value);
      r := Distribution(counts, held.count + 1, held.sum + value);
    }
  }

  function Read(metric: Metric, held: Held): Reading {
    match held
    case Amount(v) => Single(v)
    case Distribution(counts, count, sum) =>
      var n := if |counts| < |metric.buckets| then |counts| else |metric.buckets|;
      Buckets(seq(n, i requires 0 <= i < n => (metric.buckets[i], counts[i])), count, sum)
  }

  // --- Series keys -----------------------------------------------------------------------------

  function Keyed(labels: seq<Label>): seq<Label> {
    SortBy(PairLe, labels)
  }

  function KeyOf(metric: Metric, labels: seq<Label>): Series {
    Series(metric.name, Keyed(labels))
  }

  /** Two label lists name one series exactly when they hold the same pairs the same number of times. */
  lemma KeyedOrderFree(a: seq<Label>, b: seq<Label>)
    ensures Keyed(a) == Keyed(b) <==> multiset(a) == multiset(b)
  {
    PairsOrdered();
    SortByCanonical(PairLe, a, b);
  }

  // --- The registry ----------------------------------------------------------------------------

  datatype Event = Event(metric: Metric, labels: seq<Label>, measured: Measurement)

  type Table = map<Series, (Metric, Held)>

  function Recorded(series: Table, e: Event): Table {
    if e.measured.NotFinite? then series
    else
      var key := KeyOf(e.metric, e.labels);
      if key in series then
        series[key := (series[key].0, Applied(e.metric, series[key].1, e.measured.value))]
      else if |series| >= SERIES_CEILING then series
      else series[key := (e.metric, Applied(e.metric, Empty(e.metric), e.measured.value))]
  }

  function AllRecorded(history: seq<Event>): Table {
    if history == [] then map[] else Recorded(AllRecorded(history[..|history| - 1]), history[|history| - 1])
  }

  predicate SeriesLe(a: Series, b: Series) {
    if a.name != b.name then StringLe(a.name, b.name) else LabelsLe(a.labels, b.labels)
  }

  lemma SeriesOrdered()
    ensures TotalOrder(SeriesLe)
  {
    StringsOrdered();
    LabelsOrdered();
  }

  function SampleOf(series: Table, key: Series): Sample
    requires key in series
  {
    Sample(series[key].0, key.labels, Read(series[key].0, series[key].1))
  }

  /** The registry behind its lock. `history` is every call ever made. */
  class Registry {
    var series: Table
    var overflowed: bool
    ghost var history: seq<Event>

    ghost predicate Valid()
      reads this
    {
      series == AllRecorded(history)
    }

    constructor ()
      ensures Valid() && history == [] && !overflowed
    {
      series, overflowed, history := map[], false, [];
    }

    method Record(metric: Metric, labels: seq<Label>, measured: Measurement)
      requires Valid()
      modifies this
      ensures Valid() && history == old(history) + [Event(metric, labels, measured)]
      ensures overflowed <==>
        || old(overflowed)
        || (measured.Finite? && KeyOf(metric, labels) !in old(series) && |old(series)| >= SERIES_CEILING)
    {
      history := history + [Event(metric, labels, measured)];
      assert history[..|history| - 1] == old(history);
      if measured.NotFinite? { return; }
      var key := Series(metric.name, Keyed(labels));
      if key in series {
        var held := Apply(metric, series[key].1, measured.value);
        series := series[key := (series[key].0, held)];
      } else {
        if |series| >= SERIES_CEILING {
          overflowed := true;
          return;
        }
        var started := Apply(metric, Empty(metric), measured.value);
        series := series[key := (metric, started)];
      }
    }

    /** One sample per series, in the one order the format wants. */
    method Snapshot() returns (samples: seq<Sample>)
      ensures exists keys :: SamplesOf(series, keys, samples)
    {
      var held := KeysOf(series);
      var sorted := SortBy(SeriesLe, held);
      SortedListing(series, held);
      var table := series;
      samples := seq(|sorted|, i requires 0 <= i < |sorted| => SampleOf(table, sorted[i]));
      assert SamplesOf(series, sorted, samples);
    }
  }

  /** The samples are those of the series in `keys`, which names every series once and in order. */
  ghost predicate SamplesOf(series: Table, keys: seq<Series>, samples: seq<Sample>) {
    && ListsSeries(series, keys) && Sorted(SeriesLe, keys) && |samples| == |keys|
    && forall i :: 0 <= i < |keys| ==> samples[i] == SampleOf(series, keys[i])
  }

  /** `keys` names every series once. */
  ghost predicate ListsSeries(series: Table, keys: seq<Series>) {
    Distinct(keys) && (forall i :: 0 <= i < |keys| ==> keys[i] in series) && |keys| == |series|
  }

  /** The keys of a hash map, in whatever order it likes. */
  method KeysOf(series: Table) returns (keys: seq<Series>)
    ensures ListsSeries(series, keys)
  {
    keys := [];
    var left := series.Keys;
    while left != {}
      invariant left <= series.Keys && |keys| + |left| == |series|
      invariant Distinct(keys)
      invariant forall i :: 0 <= i < |keys| ==> keys[i] in series && keys[i] !in left
      decreases |left|
    {
      var k :| k in left;
      keys := keys + [k];
      left := left - {k};
    }
  }

  lemma SortedListing(series: Table, keys: seq<Series>)
    requires ListsSeries(series, keys)
    ensures ListsSeries(series, SortBy(SeriesLe, keys)) && Sorted(SeriesLe, SortBy(SeriesLe, keys))
  {
    var sorted := SortBy(SeriesLe, keys);
    SeriesOrdered();
    SortBySorted(SeriesLe, keys);
    SortKeepsDistinct(keys, sorted);
    assert |multiset(keys)| == |multiset(sorted)|;
    assert forall i :: 0 <= i < |sorted| ==> sorted[i] in sorted;
  }

  lemma SortKeepsDistinct(a: seq<Series>, b: seq<Series>)
    requires Distinct(a) && multiset(a) == multiset(b)
    ensures Distinct(b) && forall k :: k in a <==> k in b
  {
    forall i, j | 0 <= i < j < |b| ensures b[i] != b[j] {
      OnlyOnce(a, b[i]);
      if b[i] == b[j] { TwicePresent(b, i, j); }
    }
    assert forall k :: k in a <==> k in multiset(a);
    assert forall k :: k in b <==> k in multiset(b);
  }

  // --- Every series is the fold of its own history ---------------------------------------------

  /** The finite measurements of one series, in order. */
  function Own(history: seq<Event>, key: Series): seq<Event> {
    if history == [] then []
    else
      var last := history[|history| - 1];
      Own(history[..|history| - 1], key)
      + if last.measured.Finite? && KeyOf(last.metric, last.labels) == key then [last] else []
  }

  ghost predicate AllFinite(events: seq<Event>) {
    forall i :: 0 <= i < |events| ==> events[i].measured.Finite?
  }

  /** What one series holds after its own events alone. */
  function Fold(events: seq<Event>): Held
    requires events != [] && AllFinite(events)
  {
    var last := events[|events| - 1];
    var before := if |events| == 1 then Empty(last.metric) else Fold(events[..|events| - 1]);
    Applied(last.metric, before, last.measured.value)
  }

  /** After any history: the ceiling is never passed; a held series holds the fold of its whole own
      history, as if it were alone; and only a full registry leaves out a series that was recorded. */
  lemma {:induction false} Ledger(history: seq<Event>)
    ensures |AllRecorded(history)| <= SERIES_CEILING
    ensures forall k :: k in AllRecorded(history) ==>
      Own(history, k) != [] && AllFinite(Own(history, k))
      && AllRecorded(history)[k] == (Own(history, k)[0].metric, Fold(Own(history, k)))
    ensures forall k :: k !in AllRecorded(history) && Own(history, k) != [] ==> |AllRecorded(history)| == SERIES_CEILING
  {
    if history != [] {
      var before, e := history[..|history| - 1], history[|history| - 1];
      Ledger(before);
      var was, now := AllRecorded(before), AllRecorded(history);
      LedgerGrows(was, e);
      assert now == Recorded(was, e);
      forall k | k in now
        ensures Own(history, k) != [] && AllFinite(Own(history, k))
        ensures now[k] == (Own(history, k)[0].metric, Fold(Own(history, k)))
      {
        LedgerStep(history, k);
      }
    }
  }

  /** One measurement adds at most its own series, and only below the ceiling. */
  lemma LedgerGrows(was: Table, e: Event)
    ensures was.Keys <= Recorded(was, e).Keys <= was.Keys + {KeyOf(e.metric, e.labels)}
    ensures |Recorded(was, e)| == |was| || (|was| < SERIES_CEILING && |Recorded(was, e)| == |was| + 1)
    ensures KeyOf(e.metric, e.labels) !in Recorded(was, e) ==> !e.measured.Finite? || |was| >= SERIES_CEILING
  {
    hide Applied, Empty, Keyed;
    var now, key := Recorded(was, e), KeyOf(e.metric, e.labels);
    assert |now| == |now.Keys| && |was| == |was.Keys|;
    if key in was {
      assert now.Keys == was.Keys;
    } else if key in now {
      assert now.Keys == was.Keys + {key};
    }
  }

  lemma LedgerStep(history: seq<Event>, k: Series)
    requires history != []
    requires var before := history[..|history| - 1];
      && |AllRecorded(before)| <= SERIES_CEILING
      && (k in AllRecorded(before) ==>
          Own(before, k) != [] && AllFinite(Own(before, k))
          && AllRecorded(before)[k] == (Own(before, k)[0].metric, Fold(Own(before, k))))
      && (k !in AllRecorded(before) && Own(before, k) != [] ==> |AllRecorded(before)| == SERIES_CEILING)
    requires k in AllRecorded(history)
    ensures Own(history, k) != [] && AllFinite(Own(history, k))
    ensures AllRecorded(history)[k] == (Own(history, k)[0].metric, Fold(Own(history, k)))
  {
    hide Applied, Empty, Keyed;
    var before, e := history[..|history| - 1], history[|history| - 1];
    var own := Own(before, k);
    if e.measured.Finite? && KeyOf(e.metric, e.labels) == k {
      assert Own(history, k) == own + [e];
      assert (own + [e])[..|own|] == own;
      if k !in AllRecorded(before) {
        assert own == [];
      }
    } else {
      assert Own(history, k) == own + [] == own;
    }
  }

  /** A series refused once is refused for good: once full, the set of held series never changes. */
  lemma FullStaysFull(history: seq<Event>, e: Event)
    requires |AllRecorded(history)| == SERIES_CEILING
    ensures AllRecorded(history + [e]).Keys == AllRecorded(history).Keys
  {
    assert (history + [e])[..|history|] == history;
  }

  // --- What the fold reads as ------------------------------------------------------------------

  ghost predicate Declared(metric: Metric, events: seq<Event>) {
    AllFinite(events) && forall i :: 0 <= i < |events| ==> events[i].metric == metric
  }

  function SumNonNegative(events: seq<Event>): real
    requires AllFinite(events)
  {
    if events == [] then 0.0
    else
      var v := events[|events| - 1].measured.value;
      SumNonNegative(events[..|events| - 1]) + if v >= 0.0 then v else 0.0
  }

  function Sum(events: seq<Event>): real
    requires AllFinite(events)
  {
    if events == [] then 0.0 else Sum(events[..|events| - 1]) + events[|events| - 1].measured.value
  }

  /** How many measurements do not exceed a boundary. */
  function CountUpTo(events: seq<Event>, boundary: real): nat
    requires AllFinite(events)
  {
    if events == [] then 0
    else CountUpTo(events[..|events| - 1], boundary) + if events[|events| - 1].measured.value <= boundary then 1 else 0
  }

  lemma {:induction false} CounterReads(metric: Metric, events: seq<Event>)
    requires metric.kind.Counter? && Declared(metric, events) && events != []
    ensures Fold(events) == Amount(SumNonNegative(events))
  {
    if |events| > 1 {
      CounterReads(metric, events[..|events| - 1]);
    } else {
      assert SumNonNegative(events[..0]) == 0.0;
    }
  }

  lemma {:induction false} GaugeReads(metric: Metric, events: seq<Event>)
    requires metric.kind.Gauge? && Declared(metric, events) && events != []
    ensures Fold(events) == Amount(events[|events| - 1].measured.value)
  {
    if |events| > 1 {
      GaugeReads(metric, events[..|events| - 1]);
    }
  }

  lemma {:induction false} HistogramReads(metric: Metric, events: seq<Event>)
    requires metric.kind.Histogram? && Declared(metric, events) && events != []
    ensures Fold(events).Distribution? && |Fold(events).counts| == |metric.buckets|
    ensures Fold(events).count == |events| && Fold(events).sum == Sum(events)
    ensures forall i :: 0 <= i < |metric.buckets| ==> Fold(events).counts[i] == CountUpTo(events, metric.buckets[i])
  {
    var before := events[..|events| - 1];
    if |events| > 1 {
      HistogramReads(metric, before);
    } else {
      assert before == [];
    }
  }

  /** Bucket counts are cumulative: a wider boundary counts at least as much, never over the total. */
  lemma {:induction false} CountsCumulative(events: seq<Event>, lower: real, upper: real)
    requires AllFinite(events) && lower <= upper
    ensures CountUpTo(events, lower) <= CountUpTo(events, upper) <= |events|
  {
    if events != [] {
      CountsCumulative(events[..|events| - 1], lower, upper);
    }
  }

  /** What a scrape reads of a histogram series after any history: every bucket is the number of its
      own measurements up to the boundary, cumulative and at most the total. */
  lemma HistogramSeries(history: seq<Event>, key: Series, metric: Metric)
    requires key in AllRecorded(history) && metric.kind.Histogram?
    requires Declared(metric, Own(history, key))
    ensures var own := Own(history, key);
      var reading := SampleOf(AllRecorded(history), key).reading;
      && reading.Buckets? && |reading.buckets| == |metric.buckets|
      && reading.count == |own| && reading.sum == Sum(own)
      && (forall i :: 0 <= i < |metric.buckets| ==>
            && reading.buckets[i] == (metric.buckets[i], CountUpTo(own, metric.buckets[i]))
            && reading.buckets[i].1 <= reading.count)
      && (forall i, j :: 0 <= i < |metric.buckets| && 0 <= j < |metric.buckets| ==>
            metric.buckets[i] <= metric.buckets[j] ==> reading.buckets[i].1 <= reading.buckets[j].1)
  {
    Ledger(history);
    var own := Own(history, key);
    HistogramReads(metric, own);
    forall i, j | 0 <= i < |metric.buckets| && 0 <= j < |metric.buckets| && metric.buckets[i] <= metric.buckets[j]
      ensures CountUpTo(own, metric.buckets[i]) <= CountUpTo(own, metric.buckets[j]) <= |own|
    {
      CountsCumulative(own, metric.buckets[i], metric.buckets[j]);
    }
  }

  /** Two measurements are of one series exactly when metric name and labels agree, in any order. */
  lemma KeyOfExactly(metric: Metric, labels: seq<Label>, metric': Metric, labels': seq<Label>)
    ensures KeyOf(metric, labels) == KeyOf(metric', labels') <==>
      metric.name == metric'.name && multiset(labels) == multiset(labels')
  {
    hide Keyed;
    KeyedOrderFree(labels, labels');
  }

  /** A scraped counter or gauge of any history: the sum of its own non-negative measurements, or the last
      of its own measurements, under the metric and the labels they were recorded with. */
  lemma SingleSeries(history: seq<Event>, key: Series, metric: Metric)
    requires key in AllRecorded(history) && !metric.kind.Histogram? && Declared(metric, Own(history, key))
    ensures Own(history, key) != []
    ensures var own, sample := Own(history, key), SampleOf(AllRecorded(history), key);
      && sample.metric == metric && sample.labels == key.labels
      && (metric.kind.Counter? ==> sample.reading == Single(SumNonNegative(own)))
      && (metric.kind.Gauge? ==> sample.reading == Single(own[|own| - 1].measured.value))
  {
    hide AllRecorded, Fold;
    Ledger(history);
    if metric.kind.Counter? {
      CounterReads(metric, Own(history, key));
    } else {
      GaugeReads(metric, Own(history, key));
    }
  }

  /** The registry holds at most ten thousand series. */
  lemma AtMostTenThousand(history: seq<Event>)
    ensures |AllRecorded(history)| <= 10_000
  {
    Ledger(history);
  }
}

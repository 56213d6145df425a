/** The log dashboard's aggregation (buildLogSummary in server/utils/logParser.js): counts by
    level and category, and a time series of buckets with the worst one singled out. */
module LogSummary {
  import opened Common

  /** A parsed event; timestamps are milliseconds, absent or zero when the line had none. */
  datatype Event = Event(timestamp: Option<int>, level: string, category: string)

  datatype Bucket = Bucket(timestamp: int, total: nat, errors: nat, warnings: nat, byCategory: map<string, nat>)

  datatype Summary = Summary(total: nat, byLevel: map<string, nat>, byCategory: map<string, nat>,
                             peakErrorBucket: Option<Bucket>, series: seq<Bucket>)

  const LEVELS := {"ERROR", "WARN", "INFO", "DEBUG"}

  function BucketSize(bucketMinutes: int): (size: int)
    ensures size > 0
    ensures size == if bucketMinutes >= 1 then bucketMinutes * 60_000 else 60_000
  {
    (if bucketMinutes >= 1 then bucketMinutes else 1) * 60 * 1000
  }

  predicate Timestamped(e: Event) {
    e.timestamp.Some? && e.timestamp.value != 0
  }

  /** The start of the bucket an event falls in; division rounds towards minus infinity. */
  function BucketOf(e: Event, size: int): int
    requires Timestamped(e) && size > 0
  {
    e.timestamp.value / size * size
  }

  function Times(k: int, size: int): int {
    k * size
  }

  /** It is the multiple of the size that the event's time has reached and the next one has not. */
  lemma BucketIs(e: Event, size: int)
    requires Timestamped(e) && size > 0
    ensures BucketOf(e, size) <= e.timestamp.value < BucketOf(e, size) + size
    ensures exists k :: BucketOf(e, size) == Times(k, size)
  {
    var t := e.timestamp.value;
    assert t == t / size * size + t % size;
    assert BucketOf(e, size) == Times(t / size, size);
  }

  // ---------- what the counts mean ----------

  datatype When = AnyTime | AtSomeTime | In(bucket: int)

  /** A class of events: when they happened, and optionally their level and category. */
  datatype Query = Query(at: When, level: Option<string>, category: Option<string>)

  ghost predicate Matches(e: Event, q: Query, size: int)
    requires size > 0
  {
    && (q.at.AnyTime? || (Timestamped(e) && (q.at.AtSomeTime? || BucketOf(e, size) == q.at.bucket)))
    && (q.level.Some? ==> e.level == q.level.value)
    && (q.category.Some? ==> e.category == q.category.value)
  }

  /** How many events of the input match a query. Missing entries never match. */
  ghost function Count(events: seq<Option<Event>>, q: Query, size: int): nat
    requires size > 0
  {
    if events == [] then 0
    else
      var e := events[|events| - 1];
      Count(events[..|events| - 1], q, size) + (if e.Some? && Matches(e.value, q, size) then 1 else 0)
  }

  /** Every field of a bucket counts the matching events of its time slot, and there is one. */
  ghost predicate CountsIts(b: Bucket, events: seq<Option<Event>>, size: int)
    requires size > 0
  {
    && b.total == Count(events, Query(In(b.timestamp), None, None), size) > 0
    && b.errors == Count(events, Query(In(b.timestamp), Some("ERROR"), None), size)
    && b.warnings == Count(events, Query(In(b.timestamp), Some("WARN"), None), size)
    && (forall c :: CategoryCount(b, c) == Count(events, Query(In(b.timestamp), None, Some(c)), size))
  }

  function CategoryCount(b: Bucket, category: string): nat {
    if category in b.byCategory then b.byCategory[category] else 0
  }

  ghost predicate Ascending(series: seq<Bucket>) {
    forall i, j :: 0 <= i < j < |series| ==> series[i].timestamp < series[j].timestamp
  }

  ghost predicate HasBucket(series: seq<Bucket>, timestamp: int) {
    exists i :: 0 <= i < |series| && series[i].timestamp == timestamp
  }

  /** The earliest bucket with the most errors, or nothing when no bucket has an error. */
  ghost predicate IsPeak(peak: Option<Bucket>, series: seq<Bucket>) {
    if peak.None? then forall i :: 0 <= i < |series| ==> series[i].errors == 0
    else (exists p :: 0 <= p < |series| && series[p] == peak.value && FirstWorst(series, p))
  }

  ghost predicate FirstWorst(series: seq<Bucket>, p: nat)
    requires p < |series|
  {
    && series[p].errors > 0
    && (forall i :: 0 <= i < |series| ==> series[i].errors <= series[p].errors)
    && (forall i :: 0 <= i < p ==> series[i].errors < series[p].errors)
  }

  /** Every known level, and no other, is counted over the whole input. */
  ghost predicate LevelsCounted(byLevel: map<string, nat>, events: seq<Option<Event>>, size: int)
    requires size > 0
  {
    && byLevel.Keys == LEVELS
    && (forall l :: l in LEVELS ==> byLevel[l] == Count(events, Query(AnyTime, Some(l), None), size))
  }

  /** Every requested category, and no other, is counted over the whole input. */
  ghost predicate CategoriesCounted(byCategory: map<string, nat>, events: seq<Option<Event>>, categories: seq<string>,
                                    size: int)
    requires size > 0
  {
    && byCategory.Keys == (set c | c in categories)
    && (forall c :: c in byCategory ==> byCategory[c] == Count(events, Query(AnyTime, None, Some(c)), size))
  }

  /** What the summary promises about its input. */
  ghost predicate Summarizes(s: Summary, events: seq<Option<Event>>, categories: seq<string>, size: int)
    requires size > 0
  {
    && s.total == |events|
    && LevelsCounted(s.byLevel, events, size)
    && CategoriesCounted(s.byCategory, events, categories, size)
    && Ascending(s.series)
    && (forall i :: 0 <= i < |s.series| ==> CountsIts(s.series[i], events, size))
    && (forall i :: 0 <= i < |events| && events[i].Some? && Timestamped(events[i].value) ==>
          HasBucket(s.series, BucketOf(events[i].value, size)))
    && IsPeak(s.peakErrorBucket, s.series)
  }

  // ---------- the loop ----------

  function ZeroCounts(categories: seq<string>): map<string, nat> {
    map c | c in categories :: 0
  }

  function AddEvent(b: Bucket, e: Event): Bucket {
    b.(total := b.total + 1,
       errors := if e.level == "ERROR" then b.errors + 1 else b.errors,
       warnings := if e.level == "WARN" then b.warnings + 1 else b.warnings,
       byCategory := b.byCategory[e.category := CategoryCount(b, e.category) + 1])
  }

  /** A fresh bucket counts the events of an interval that has had none. */
  ghost predicate Unseen(events: seq<Option<Event>>, timestamp: int, size: int)
    requires size > 0
  {
    forall q: Query :: q.at == In(timestamp) ==> Count(events, q, size) == 0
  }

  /** Counting one more event keeps a bucket's counts right: its own by adding, others unchanged. */
  lemma CountsOneMore(b: Bucket, events: seq<Option<Event>>, e: Event, size: int)
    requires size > 0 && Timestamped(e)
    requires CountsIts(b, events, size) || (b.total == b.errors == b.warnings == 0
               && (forall c :: CategoryCount(b, c) == 0) && Unseen(events, b.timestamp, size))
    ensures b.timestamp == BucketOf(e, size) ==> CountsIts(AddEvent(b, e), events + [Some(e)], size)
    ensures b.timestamp != BucketOf(e, size) && b.total > 0 ==> CountsIts(b, events + [Some(e)], size)
  {
    assert (events + [Some(e)])[..|events|] == events;
    var one := AddEvent(b, e);
    if b.timestamp == BucketOf(e, size) {
      forall c
        ensures CategoryCount(one, c) == Count(events + [Some(e)], Query(In(b.timestamp), None, Some(c)), size)
      {
        assert Query(In(b.timestamp), None, Some(c)).at == In(b.timestamp);
      }
    }
  }

  /** Events that are missing or carry no time leave every bucket as it is. */
  lemma CountsWithout(b: Bucket, events: seq<Option<Event>>, e: Option<Event>, size: int)
    requires size > 0 && (e.Some? ==> !Timestamped(e.value))
    requires CountsIts(b, events, size)
    ensures CountsIts(b, events + [e], size)
  {
    assert (events + [e])[..|events|] == events;
  }

  /** An interval that no event falls in counts nothing, whatever is asked of it. */
  lemma {:induction false} UncoveredCountsZero(events: seq<Option<Event>>, timestamp: int, size: int)
    requires size > 0
    requires forall i :: 0 <= i < |events| && events[i].Some? && Timestamped(events[i].value) ==>
               BucketOf(events[i].value, size) != timestamp
    ensures Unseen(events, timestamp, size)
  {
    if events == [] {
    } else {
      UncoveredCountsZero(events[..|events| - 1], timestamp, size);
      forall q: Query | q.at == In(timestamp) ensures Count(events, q, size) == 0 {
        assert Count(events[..|events| - 1], q, size) == 0;
      }
    }
  }

  function InsertBucket(b: Bucket, sorted: seq<Bucket>): (r: seq<Bucket>)
    ensures forall x :: x in r <==> x == b || x in sorted
  {
    if sorted == [] || b.timestamp < sorted[0].timestamp then [b] + sorted
    else
      assert sorted == [sorted[0]] + sorted[1..];
      [sorted[0]] + InsertBucket(b, sorted[1..])
  }

  /** Array.from(values).sort by timestamp; no two buckets of a table share one. */
  function SortBuckets(buckets: seq<Bucket>): (r: seq<Bucket>)
    ensures forall x :: x in r <==> x in buckets
  {
    if buckets == [] then []
    else
      assert buckets == [buckets[0]] + buckets[1..];
      InsertBucket(buckets[0], SortBuckets(buckets[1..]))
  }

  lemma {:induction false} InsertKeepsAscending(b: Bucket, sorted: seq<Bucket>)
    requires Ascending(sorted) && forall x :: x in sorted ==> x.timestamp != b.timestamp
    ensures Ascending(InsertBucket(b, sorted))
  {
    if sorted == [] || b.timestamp < sorted[0].timestamp {
    } else {
      var rest := InsertBucket(b, sorted[1..]);
      InsertKeepsAscending(b, sorted[1..]);
      forall j | 0 <= j < |rest| ensures sorted[0].timestamp < rest[j].timestamp {
        assert rest[j] in rest;
        if rest[j] != b {
          var k :| 0 <= k < |sorted[1..]| && sorted[1..][k] == rest[j];
          assert sorted[1..][k] == sorted[k + 1];
        }
      }
    }
  }

  lemma {:induction false} SortIsAscending(buckets: seq<Bucket>)
    requires forall i, j :: 0 <= i < j < |buckets| ==> buckets[i].timestamp != buckets[j].timestamp
    ensures Ascending(SortBuckets(buckets))
  {
    if buckets == [] {
    } else {
      SortIsAscending(buckets[1..]);
      InsertKeepsAscending(buckets[0], SortBuckets(buckets[1..]));
    }
  }

  /** The bucket table after some events: insertion order, one entry a slot, every count right. */
  ghost predicate Table(order: seq<int>, buckets: map<int, Bucket>, events: seq<Option<Event>>, size: int)
    requires size > 0
  {
    && (forall i, j :: 0 <= i < j < |order| ==> order[i] != order[j])
    && (forall t :: t in buckets <==> t in order)
    && (forall t :: t in buckets ==> buckets[t].timestamp == t && CountsIts(buckets[t], events, size))
    && (forall i :: 0 <= i < |events| && events[i].Some? && Timestamped(events[i].value) ==>
          BucketOf(events[i].value, size) in buckets)
  }

  lemma TableSkips(order: seq<int>, buckets: map<int, Bucket>, events: seq<Option<Event>>, e: Option<Event>, size: int)
    requires size > 0 && (e.Some? ==> !Timestamped(e.value))
    requires Table(order, buckets, events, size)
    ensures Table(order, buckets, events + [e], size)
  {
    forall t | t in buckets ensures CountsIts(buckets[t], events + [e], size) {
      CountsWithout(buckets[t], events, e, size);
    }
  }

  /** One timestamped event goes to its bucket, made on first use. */
  lemma TableGrows(order: seq<int>, buckets: map<int, Bucket>, events: seq<Option<Event>>, e: Event, fresh_: Bucket,
                   size: int)
    requires size > 0 && Timestamped(e) && Table(order, buckets, events, size)
    requires fresh_.timestamp == BucketOf(e, size) && fresh_.total == fresh_.errors == fresh_.warnings == 0
    requires forall c :: CategoryCount(fresh_, c) == 0
    ensures var t := BucketOf(e, size);
            Table(if t in buckets then order else order + [t],
                  buckets[t := AddEvent(if t in buckets then buckets[t] else fresh_, e)], events + [Some(e)], size)
  {
    var t := BucketOf(e, size);
    if t !in buckets {
      UncoveredCountsZero(events, t, size);
    }
    CountsOneMore(if t in buckets then buckets[t] else fresh_, events, e, size);
    forall u | u in buckets && u != t ensures CountsIts(buckets[u], events + [Some(e)], size) {
      CountsOneMore(buckets[u], events, e, size);
    }
  }

  function Bumped(counts: map<string, nat>, k: string): map<string, nat> {
    if k in counts then counts[k := counts[k] + 1] else counts
  }

  lemma CountersStart(categories: seq<string>, size: int)
    requires size > 0
    ensures LevelsCounted(map l | l in LEVELS :: 0, [], size)
    ensures CategoriesCounted(ZeroCounts(categories), [], categories, size)
    ensures Table([], map[], [], size)
  {
  }

  lemma CountersOneMore(byLevel: map<string, nat>, byCategory: map<string, nat>, events: seq<Option<Event>>,
                        categories: seq<string>, e: Option<Event>, size: int)
    requires size > 0
    requires LevelsCounted(byLevel, events, size) && CategoriesCounted(byCategory, events, categories, size)
    ensures LevelsCounted(if e.Some? then Bumped(byLevel, e.value.level) else byLevel, events + [e], size)
    ensures CategoriesCounted(if e.Some? then Bumped(byCategory, e.value.category) else byCategory, events + [e],
                              categories, size)
  {
    assert (events + [e])[..|events|] == events;
  }

  /** buildLogSummary */
  method BuildLogSummary(events: seq<Option<Event>>, categories: seq<string>, bucketMinutes: int) returns (s: Summary)
    ensures Summarizes(s, events, categories, BucketSize(bucketMinutes))
  {
    hide Table, LevelsCounted, CategoriesCounted, Count, BucketSize;
    var byLevel: map<string, nat> := map l | l in LEVELS :: 0;
    var byCategory: map<string, nat> := ZeroCounts(categories);
    var size := BucketSize(bucketMinutes);
    var order: seq<int>, buckets: map<int, Bucket> := [], map[];
    CountersStart(categories, size);
    assert events[..0] == [];
    for i := 0 to |events|
      invariant LevelsCounted(byLevel, events[..i], size)
      invariant CategoriesCounted(byCategory, events[..i], categories, size)
      invariant Table(order, buckets, events[..i], size)
    {
      assert events[..i + 1] == events[..i] + [events[i]];
      CountersOneMore(byLevel, byCategory, events[..i], categories, events[i], size);
      if events[i].None? {
        TableSkips(order, buckets, events[..i], events[i], size);
        continue;
      }
      var event := events[i].value;
      if event.level in byLevel {
        byLevel := byLevel[event.level := byLevel[event.level] + 1];
      }
      if event.category in byCategory {
        byCategory := byCategory[event.category := byCategory[event.category] + 1];
      }
      if event.timestamp.None? || event.timestamp.value == 0 {
        TableSkips(order, buckets, events[..i], events[i], size);
        continue;
      }
      var bucketTs := event.timestamp.value / size * size;
      var empty := Bucket(bucketTs, 0, 0, 0, ZeroCounts(categories));
      TableGrows(order, buckets, events[..i], event, empty, size);
      var bucket := if bucketTs in buckets then buckets[bucketTs] else empty;
      order := if bucketTs in buckets then order else order + [bucketTs];
      buckets := buckets[bucketTs := AddEvent(bucket, event)];
    }
    assert events[..|events|] == events;
    var series := SortedSeries(order, buckets, events, size);
    var peak := PeakErrors(series);
    s := Summary(|events|, byLevel, byCategory, peak, series);
  }

  /** Array.from(buckets.values()).sort(..) */
  method SortedSeries(order: seq<int>, buckets: map<int, Bucket>, ghost events: seq<Option<Event>>, ghost size: int)
    returns (series: seq<Bucket>)
    requires size > 0 && Table(order, buckets, events, size)
    ensures Ascending(series)
    ensures forall b :: b in series <==> exists t :: t in buckets && buckets[t] == b
    ensures forall i :: 0 <= i < |series| ==> CountsIts(series[i], events, size)
    ensures forall i :: 0 <= i < |events| && events[i].Some? && Timestamped(events[i].value) ==>
              HasBucket(series, BucketOf(events[i].value, size))
  {
    forall i | 0 <= i < |order| ensures order[i] in buckets {
      assert order[i] in order;
    }
    var values := seq(|order|, i requires 0 <= i < |order| && order[i] in buckets => buckets[order[i]]);
    series := SortBuckets(values);
    SortIsAscending(values);
    SeriesOfTable(order, buckets, events, size, values);
    forall t | t in buckets ensures buckets[t] in series {
      var k :| 0 <= k < |order| && order[k] == t;
      assert values[k] in series;
    }
    forall b | b in series ensures exists t :: t in buckets && buckets[t] == b {
      assert b in values;
      var k :| 0 <= k < |values| && values[k] == b;
      assert order[k] in buckets && buckets[order[k]] == b;
    }
  }

  /** The sorted values of a table are the series the summary promises. */
  lemma SeriesOfTable(order: seq<int>, buckets: map<int, Bucket>, events: seq<Option<Event>>, size: int,
                      values: seq<Bucket>)
    requires size > 0 && Table(order, buckets, events, size)
    requires |values| == |order| && forall i :: 0 <= i < |order| ==>
               order[i] in buckets && values[i] == buckets[order[i]]
    ensures forall b :: b in SortBuckets(values) ==> CountsIts(b, events, size)
    ensures forall i :: 0 <= i < |events| && events[i].Some? && Timestamped(events[i].value) ==>
              HasBucket(SortBuckets(values), BucketOf(events[i].value, size))
  {
    forall i | 0 <= i < |events| && events[i].Some? && Timestamped(events[i].value)
      ensures HasBucket(SortBuckets(values), BucketOf(events[i].value, size))
    {
      var t := BucketOf(events[i].value, size);
      var k :| 0 <= k < |order| && order[k] == t;
      assert values[k] in SortBuckets(values);
    }
  }

  /** The reduce that looks for the worst bucket, replacing it only by a strictly worse one. */
  method PeakErrors(series: seq<Bucket>) returns (best: Option<Bucket>)
    ensures IsPeak(best, series)
  {
    best := None;
    for i := 0 to |series|
      invariant IsPeak(best, series[..i])
    {
      assert series[..i + 1] == series[..i] + [series[i]];
      if series[i].errors > (if best.Some? then best.value.errors else 0) {
        best := Some(series[i]);
        assert FirstWorst(series[..i + 1], i);
      } else if best.Some? {
        ghost var p :| 0 <= p < |series[..i]| && series[..i][p] == best.value && FirstWorst(series[..i], p);
        assert FirstWorst(series[..i + 1], p);
      }
    }
    assert series[..|series|] == series;
  }

  // ---------- totals ----------

  /** The counts of one query summed over the buckets of a series. */
  ghost function SumOverSeries(series: seq<Bucket>, events: seq<Option<Event>>, q: Query, size: int): nat
    requires size > 0
  {
    if series == [] then 0
    else Count(events, q.(at := In(series[0].timestamp)), size) + SumOverSeries(series[1..], events, q, size)
  }

  /** One more event raises the sum by one exactly when it matches and its bucket is in the series. */
  lemma {:induction false} SumOneMore(series: seq<Bucket>, events: seq<Option<Event>>, q: Query, size: int)
    requires size > 0 && events != [] && Ascending(series)
    ensures var last := events[|events| - 1];
            SumOverSeries(series, events, q, size) == SumOverSeries(series, events[..|events| - 1], q, size) +
              (if last.Some? && Matches(last.value, q.(at := AtSomeTime), size) &&
               HasBucket(series, BucketOf(last.value, size))
               then 1 else 0)
  {
    if series == [] {
    } else {
      SumOneMore(series[1..], events, q, size);
      var last := events[|events| - 1];
      if last.Some? && Timestamped(last.value) {
        var t := BucketOf(last.value, size);
        if HasBucket(series[1..], t) {
          var k :| 0 <= k < |series[1..]| && series[1..][k].timestamp == t;
          assert series[k + 1].timestamp == t;
        }
        if HasBucket(series, t) && series[0].timestamp != t {
          var k :| 0 <= k < |series| && series[k].timestamp == t;
          assert series[1..][k - 1].timestamp == t;
        }
      }
    }
  }

  lemma {:induction false} SumIsCount(series: seq<Bucket>, events: seq<Option<Event>>, q: Query, size: int)
    requires size > 0 && Ascending(series)
    requires forall i :: 0 <= i < |events| && events[i].Some? && Timestamped(events[i].value) ==>
               HasBucket(series, BucketOf(events[i].value, size))
    ensures SumOverSeries(series, events, q, size) == Count(events, q.(at := AtSomeTime), size)
  {
    if events == [] {
      SumOfNothing(series, q, size);
    } else {
      SumOneMore(series, events, q, size);
      SumIsCount(series, events[..|events| - 1], q, size);
    }
  }

  lemma {:induction false} SumOfNothing(series: seq<Bucket>, q: Query, size: int)
    requires size > 0
    ensures SumOverSeries(series, [], q, size) == 0
  {
    if series == [] {
    } else {
      SumOfNothing(series[1..], q, size);
    }
  }

  ghost function SumTotals(series: seq<Bucket>): nat {
    if series == [] then 0 else series[0].total + SumTotals(series[1..])
  }

  ghost function SumErrors(series: seq<Bucket>): nat {
    if series == [] then 0 else series[0].errors + SumErrors(series[1..])
  }

  lemma {:induction false} SumsOfCounts(series: seq<Bucket>, events: seq<Option<Event>>, size: int)
    requires size > 0 && forall i :: 0 <= i < |series| ==> CountsIts(series[i], events, size)
    ensures SumTotals(series) == SumOverSeries(series, events, Query(AtSomeTime, None, None), size)
    ensures SumErrors(series) == SumOverSeries(series, events, Query(AtSomeTime, Some("ERROR"), None), size)
  {
    if series == [] {
    } else {
      assert CountsIts(series[0], events, size);
      SumsOfCounts(series[1..], events, size);
    }
  }

  /** The events that carry a time, which zero is not. */
  function Timed(events: seq<Option<Event>>): set<nat> {
    set i: nat | i < |events| && events[i].Some? &&
                 events[i].value.timestamp.Some? && events[i].value.timestamp.value != 0
  }

  lemma {:induction false} TimedAreCounted(events: seq<Option<Event>>, size: int)
    requires size > 0
    ensures Count(events, Query(AtSomeTime, None, None), size) == |Timed(events)|
  {
    if events == [] {
    } else {
      var rest, n := events[..|events| - 1], |events| - 1;
      TimedAreCounted(rest, size);
      assert Timed(events) == Timed(rest) + if n in Timed(events) then {n} else {};
    }
  }

  /** Nothing is lost or counted twice: the buckets add up to the events that carry a time, and
      their errors to the errors that do. */
  lemma BucketsPartitionEvents(s: Summary, events: seq<Option<Event>>, categories: seq<string>, bucketMinutes: int)
    requires Summarizes(s, events, categories, BucketSize(bucketMinutes))
    ensures var size := BucketSize(bucketMinutes);
            && SumTotals(s.series) == Count(events, Query(AtSomeTime, None, None), size) == |Timed(events)|
            && SumErrors(s.series) == Count(events, Query(AtSomeTime, Some("ERROR"), None), size)
  {
    var size := BucketSize(bucketMinutes);
    TimedAreCounted(events, size);
    SumsOfCounts(s.series, events, size);
    SumIsCount(s.series, events, Query(AtSomeTime, None, None), size);
    SumIsCount(s.series, events, Query(AtSomeTime, Some("ERROR"), None), size);
  }
}

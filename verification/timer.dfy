/**
 * The timer adapter (m_timer.go): sixteen points per snapshot, the
 * histogram's twelve followed by the four rates, and TimeThis, which hands
 * out a stop function that records the elapsed time.
 */
module TimerMetric {
  import opened Points
  import opened Base
  import opened Snapshots
  import HistogramMetric

  /** The timer's buckets, in the order its points are emitted. */
  const Buckets: seq<string> :=
    [Count, Max, Mean, Min, P50, P75, P95, P99, P999, P9999, StdDev, Variance, M1, M5, M15, MeanRate]

  /**
   * getValue: the statistic each timer bucket reports. The four rate buckets
   * are read here; every other name is read exactly as the histogram reads
   * it, so a name outside both lists reports 0.
   */
  function GetValue(bucket: string, s: Snapshot, pct: seq<real>): Value
    requires PercentileIndex(bucket).Some? ==> PercentileIndex(bucket).value < |pct|
  {
    if bucket == M1 then FloatValue(s.rate1)
    else if bucket == M5 then FloatValue(s.rate5)
    else if bucket == M15 then FloatValue(s.rate15)
    else if bucket == MeanRate then FloatValue(s.rateMean)
    else HistogramMetric.BucketValue(bucket, s, pct)
  }

  /** The readings a timer reports for one snapshot: the histogram's, then the four rates. */
  function Readings(s: Snapshot): seq<real>
  {
    HistogramMetric.Readings(s) + [s.rate1, s.rate5, s.rate15, s.rateMean]
  }

  /** The timer's buckets start with the histogram's and it reads them the same way. */
  lemma AgreesWithHistogram(s: Snapshot, pct: seq<real>, bucket: string)
    requires |pct| == |PercentileLevels|
    requires bucket in HistogramMetric.Buckets
    ensures Buckets[..12] == HistogramMetric.Buckets
    ensures GetValue(bucket, s, pct) == HistogramMetric.BucketValue(bucket, s, pct)
  {
  }

  /** Each of the timer's buckets reads the statistic of its own name. */
  lemma GetValueReadsItsStatistic(s: Snapshot, i: nat)
    requires i < |Buckets|
    ensures GetValue(Buckets[i], s, Percentiles(s, PercentileLevels)) == FloatValue(Readings(s)[i])
  {
    var pct := Percentiles(s, PercentileLevels);
    if i < 12 {
      AgreesWithHistogram(s, pct, Buckets[i]);
      HistogramMetric.BucketValueReadsItsStatistic(s, i);
    }
  }

  /** The stop function TimeThis returns: it remembers the timer and the start time. */
  datatype StopFunc = StopFunc(timer: Timer, start: int)

  class Timer {
    const base: BaseMetric
    const stat: ForeignValue
    const fieldName: string := base.name + base.suffix
    const percentiles: seq<real> := PercentileLevels
    const buckets: seq<string>
    const bucketTags: map<string, Tags>
    /** The per-bucket field maps; only the value under `fieldName` ever changes. */
    var bucketVals: map<string, Fields>
    /** The durations handed to the wrapped timer's UpdateSince, oldest first. */
    var recorded: seq<int>

    ghost predicate Valid()
      reads this
    {
      && bucketTags == BuildBucketTags(buckets, base.tags)
      && ShellsFor(bucketVals, buckets, fieldName)
    }

    constructor (base: BaseMetric, stat: ForeignValue)
      ensures Valid() && this.base == base && this.stat == stat && buckets == Buckets
      ensures recorded == []
    {
      this.base := base;
      this.stat := stat;
      buckets := Buckets;
      bucketTags := BuildBucketTags(Buckets, base.tags);
      bucketVals := BuildBucketVals(Buckets, base.name + base.suffix);
      recorded := [];
    }

    /** The tags of a bucket's point; Go's lookup of a missing key gives nil. */
    function TagsOf(bucket: string): Tags
    {
      if bucket in bucketTags then bucketTags[bucket] else NilTags
    }

    /** The points one call of AddPoints appends for snapshot `s`, in bucket order. */
    function PointsFor(s: Snapshot): (r: seq<Point>)
      ensures |r| == |buckets|
    {
      var pct := Percentiles(s, percentiles);
      seq(|buckets|, i requires 0 <= i < |buckets| =>
        GetPoint(base.measurement, map[fieldName := GetValue(buckets[i], s, pct)], TagsOf(buckets[i])))
    }

    /**
     * AddPoints: appends one point per bucket after the input; each bucket's
     * field map is overwritten under `fieldName` with that bucket's value,
     * and the bucket maps keep their keys.
     */
    method AddPoints(pts: seq<Point>, s: Snapshot) returns (r: seq<Point>)
      requires Valid()
      modifies this`bucketVals
      ensures Valid()
      ensures r == pts + PointsFor(s)
      ensures bucketVals.Keys == old(bucketVals.Keys)
      ensures forall b :: b in bucketVals ==>
        bucketVals[b] == map[fieldName := GetValue(b, s, Percentiles(s, percentiles))]
    {
      var pct := Percentiles(s, percentiles);
      r := pts;
      ghost var done: set<string> := {};
      for i := 0 to |buckets|
        invariant Valid()
        invariant r == pts + PointsFor(s)[..i]
        invariant done == set j | 0 <= j < i :: buckets[j]
        invariant forall b :: b in done ==> bucketVals[b] == map[fieldName := GetValue(b, s, pct)]
      {
        var bucket := buckets[i];
        var val := GetValue(bucket, s, pct);
        var fields := bucketVals[bucket];
        OverwriteShell(bucketVals, buckets, fieldName, bucket, val);
        fields := fields[fieldName := val];
        bucketVals := bucketVals[bucket := fields];
        assert PointsFor(s)[i] == GetPoint(base.measurement, fields, TagsOf(bucket));
        AppendStep(pts, PointsFor(s), r, i);
        r := r + [GetPoint(base.measurement, fields, TagsOf(bucket))];
        PrefixElementsStep(buckets, i);
        done := done + {bucket};
      }
      assert PointsFor(s)[..|buckets|] == PointsFor(s);
    }
  }

  /**
   * TimeThis: captures the clock once, at the call, and hands out a stop
   * function bound to this timer and that instant.
   */
  method TimeThis(t: Timer, now: int) returns (f: StopFunc)
    ensures f.timer == t && f.start == now
  {
    f := StopFunc(t, now);
  }

  /** Calling a stop function records the time elapsed since its start on its timer. */
  method Stop(f: StopFunc, now: int)
    modifies f.timer
    ensures f.timer.recorded == old(f.timer.recorded) + [now - f.start]
    ensures f.timer.bucketVals == old(f.timer.bucketVals)
  {
    f.timer.recorded := f.timer.recorded + [now - f.start];
  }

  /**
   * The instant is taken when TimeThis is called, not when the stop
   * function runs: calling one stop function twice records both durations
   * from that same start.
   */
  method StopsMeasureFromOneStart(t: Timer, start: int, first: int, second: int)
    modifies t
    ensures t.recorded == old(t.recorded) + [first - start, second - start]
  {
    var f := TimeThis(t, start);
    Stop(f, first);
    Stop(f, second);
  }

  /**
   * The points of any timer with this measurement, field name and metric
   * tags: one per bucket, in bucket order, tagged with the bucket.
   */
  function BucketPoints(measurement: string, field: string, tags: Tags, s: Snapshot): (r: seq<Point>)
    ensures |r| == 16
  {
    var pct := Percentiles(s, PercentileLevels);
    seq(|Buckets|, i requires 0 <= i < |Buckets| =>
      GetPoint(measurement, map[field := GetValue(Buckets[i], s, pct)], BucketTags(Buckets[i], tags)))
  }

  /** What a timer object appends is the point list of its base fields. */
  lemma PointsForIsPoints(t: Timer, s: Snapshot)
    requires t.Valid() && t.buckets == Buckets
    ensures t.PointsFor(s) == BucketPoints(t.base.measurement, t.fieldName, t.base.tags, s)
  {
    forall i | 0 <= i < |Buckets|
      ensures t.PointsFor(s)[i] == BucketPoints(t.base.measurement, t.fieldName, t.base.tags, s)[i]
    {
      assert Buckets[i] in Buckets;
    }
  }

  /**
   * Point `i` of a timer named `name` carries its measurement, its tags plus
   * `bucket`, and the single field `name + ".timer"` holding bucket `i`'s
   * reading; without a `bucket` tag of its own it has one tag more than the metric.
   */
  lemma PointShape(measurement: string, name: string, tags: Tags, s: Snapshot, i: nat)
    requires i < 16
    ensures BucketPoints(measurement, name + SuffixTimer, tags, s)[i]
      == GetPoint(measurement, map[name + ".timer" := FloatValue(Readings(s)[i])], BucketTags(Buckets[i], tags))
    ensures BucketKey !in tags.Entries() ==>
      |BucketPoints(measurement, name + SuffixTimer, tags, s)[i].tags.m| == |tags.Entries()| + 1
  {
    GetValueReadsItsStatistic(s, i);
    if BucketKey !in tags.Entries() {
      BucketTagsCount(Buckets[i], tags);
    }
  }
}

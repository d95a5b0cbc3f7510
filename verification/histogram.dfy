/**
 * The histogram adapter (m_histogram.go): twelve points per snapshot, one
 * per bucket, from field maps built once and overwritten on every call.
 */
module HistogramMetric {
  import opened Wrappers
  import opened Points
  import opened Base
  import opened Snapshots

  /** The histogram's buckets, in the order its points are emitted. */
  const Buckets: seq<string> := [Count, Max, Mean, Min, P50, P75, P95, P99, P999, P9999, StdDev, Variance]

  /** The statistic each bucket reports; a name outside the list reports 0. */
  function BucketValue(bucket: string, s: Snapshot, pct: seq<real>): Value
    requires PercentileIndex(bucket).Some? ==> PercentileIndex(bucket).value < |pct|
  {
    if bucket == Count then FloatValue(s.count as real)
    else if bucket == Max then FloatValue(s.max as real)
    else if bucket == Mean then FloatValue(s.mean)
    else if bucket == Min then FloatValue(s.min as real)
    else if bucket == StdDev then FloatValue(s.stdDev)
    else if bucket == Variance then FloatValue(s.variance)
    else if PercentileIndex(bucket).Some? then FloatValue(pct[PercentileIndex(bucket).value])
    else FloatValue(0.0)
  }

  class Histogram {
    const base: BaseMetric
    const stat: ForeignValue
    const fieldName: string := base.name + base.suffix
    const percentiles: seq<real> := PercentileLevels
    const buckets: seq<string>
    const bucketTags: map<string, Tags>
    /** The per-bucket field maps; only the value under `fieldName` ever changes. */
    var bucketVals: map<string, Fields>

    ghost predicate Valid()
      reads this
    {
      && bucketTags == BuildBucketTags(buckets, base.tags)
      && ShellsFor(bucketVals, buckets, fieldName)
    }

    constructor (base: BaseMetric, stat: ForeignValue)
      ensures Valid() && this.base == base && this.stat == stat && buckets == Buckets
    {
      this.base := base;
      this.stat := stat;
      buckets := Buckets;
      bucketTags := BuildBucketTags(Buckets, base.tags);
      bucketVals := BuildBucketVals(Buckets, base.name + base.suffix);
    }

    /** The tags of a bucket's point; Go's lookup of a missing key gives nil. */
    function TagsOf(bucket: string): Tags
    {
      if bucket in bucketTags then bucketTags[bucket] else NilTags
    }

    /** The points one call of AddPoints appends for snapshot `s`, in bucket order. */
    function PointsFor(s: Snapshot): (r: seq<Point>)
      ensures |r| == |buckets|
    {
      var pct := Percentiles(s, percentiles);
      seq(|buckets|, i requires 0 <= i < |buckets| =>
        GetPoint(base.measurement, map[fieldName := BucketValue(buckets[i], s, pct)], TagsOf(buckets[i])))
    }

    /**
     * AddPoints: appends one point per bucket after the input; each bucket's
     * field map is overwritten under `fieldName` with that bucket's value,
     * and the bucket maps keep their keys.
     */
    method AddPoints(pts: seq<Point>, s: Snapshot) returns (r: seq<Point>)
      requires Valid()
      modifies this`bucketVals
      ensures Valid()
      ensures r == pts + PointsFor(s)
      ensures bucketVals.Keys == old(bucketVals.Keys)
      ensures forall b :: b in bucketVals ==>
        bucketVals[b] == map[fieldName := BucketValue(b, s, Percentiles(s, percentiles))]
    {
      var pct := Percentiles(s, percentiles);
      r := pts;
      ghost var done: set<string> := {};
      for i := 0 to |buckets|
        invariant Valid()
        invariant r == pts + PointsFor(s)[..i]
        invariant done == set j | 0 <= j < i :: buckets[j]
        invariant forall b :: b in done ==> bucketVals[b] == map[fieldName := BucketValue(b, s, pct)]
      {
        var bucket := buckets[i];
        var val := BucketValue(bucket, s, pct);
        var fields := bucketVals[bucket];
        OverwriteShell(bucketVals, buckets, fieldName, bucket, val);
        fields := fields[fieldName := val];
        bucketVals := bucketVals[bucket := fields];
        assert PointsFor(s)[i] == GetPoint(base.measurement, fields, TagsOf(bucket));
        AppendStep(pts, PointsFor(s), r, i);
        r := r + [GetPoint(base.measurement, fields, TagsOf(bucket))];
        PrefixElementsStep(buckets, i);
        done := done + {bucket};
      }
      assert PointsFor(s)[..|buckets|] == PointsFor(s);
    }
  }

  /**
   * The readings a histogram reports for one snapshot, in bucket order:
   * count, max, mean, min, the six percentiles, standard deviation, variance.
   */
  function Readings(s: Snapshot): seq<real>
  {
    [s.count as real, s.max as real, s.mean, s.min as real,
     s.quantile(0.5), s.quantile(0.75), s.quantile(0.95), s.quantile(0.99), s.quantile(0.999), s.quantile(0.9999),
     s.stdDev, s.variance]
  }

  /** Each of the histogram's buckets reads the statistic of its own name. */
  lemma BucketValueReadsItsStatistic(s: Snapshot, i: nat)
    requires i < |Buckets|
    ensures BucketValue(Buckets[i], s, Percentiles(s, PercentileLevels)) == FloatValue(Readings(s)[i])
  {
    PercentileBucketsReadTheirLevels(s);
  }

  /**
   * The points of any histogram with this measurement, field name and metric
   * tags: one per bucket, in bucket order, tagged with the bucket.
   */
  function BucketPoints(measurement: string, field: string, tags: Tags, s: Snapshot): (r: seq<Point>)
    ensures |r| == 12
  {
    var pct := Percentiles(s, PercentileLevels);
    seq(|Buckets|, i requires 0 <= i < |Buckets| =>
      GetPoint(measurement, map[field := BucketValue(Buckets[i], s, pct)], BucketTags(Buckets[i], tags)))
  }

  /** What a histogram object appends is the point list of its base fields. */
  lemma PointsForIsPoints(h: Histogram, s: Snapshot)
    requires h.Valid() && h.buckets == Buckets
    ensures h.PointsFor(s) == BucketPoints(h.base.measurement, h.fieldName, h.base.tags, s)
  {
    forall i | 0 <= i < |Buckets|
      ensures h.PointsFor(s)[i] == BucketPoints(h.base.measurement, h.fieldName, h.base.tags, s)[i]
    {
      assert Buckets[i] in Buckets;
    }
  }

  /**
   * Point `i` of a histogram named `name` carries its measurement, its tags plus
   * `bucket`, and the single field `name + ".histogram"` holding bucket `i`'s
   * reading; without a `bucket` tag of its own it has one tag more than the metric.
   */
  lemma PointShape(measurement: string, name: string, tags: Tags, s: Snapshot, i: nat)
    requires i < 12
    ensures BucketPoints(measurement, name + SuffixHistogram, tags, s)[i]
      == GetPoint(measurement, map[name + ".histogram" := FloatValue(Readings(s)[i])], BucketTags(Buckets[i], tags))
    ensures BucketKey !in tags.Entries() ==>
      |BucketPoints(measurement, name + SuffixHistogram, tags, s)[i].tags.m| == |tags.Entries()| + 1
  {
    BucketValueReadsItsStatistic(s, i);
    if BucketKey !in tags.Entries() {
      BucketTagsCount(Buckets[i], tags);
    }
  }
}

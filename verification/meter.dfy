/**
 * The meter adapter (m_meter.go): five points per snapshot, one per rate
 * bucket, from field maps built once and overwritten on every call.
 */
module MeterMetric {
  import opened Points
  import opened Base
  import opened Snapshots

  /** The meter's buckets, in the order its points are emitted. */
  const Buckets: seq<string> := [Count, M1, M5, M15, Mean]

  /**
   * The statistic each meter bucket reports. The `mean` bucket of a meter
   * is the mean rate; a name outside the list reports 0.
   */
  function BucketValue(bucket: string, s: Snapshot): Value
  {
    if bucket == Count then FloatValue(s.count as real)
    else if bucket == M1 then FloatValue(s.rate1)
    else if bucket == M5 then FloatValue(s.rate5)
    else if bucket == M15 then FloatValue(s.rate15)
    else if bucket == Mean then FloatValue(s.rateMean)
    else FloatValue(0.0)
  }

  /** The readings a meter reports for one snapshot, in bucket order. */
  function Readings(s: Snapshot): seq<real>
  {
    [s.count as real, s.rate1, s.rate5, s.rate15, s.rateMean]
  }

  /** Each of the meter's buckets reads the rate of its own name. */
  lemma BucketValueReadsItsStatistic(s: Snapshot, i: nat)
    requires i < |Buckets|
    ensures BucketValue(Buckets[i], s) == FloatValue(Readings(s)[i])
  {
  }

  class Meter {
    const base: BaseMetric
    const stat: ForeignValue
    const fieldName: string := base.name + base.suffix
    const buckets: seq<string>
    const bucketTags: map<string, Tags>
    /** The per-bucket field maps; only the value under `fieldName` ever changes. */
    var bucketVals: map<string, Fields>

    ghost predicate Valid()
      reads this
    {
      && bucketTags == BuildBucketTags(buckets, base.tags)
      && ShellsFor(bucketVals, buckets, fieldName)
    }

    constructor (base: BaseMetric, stat: ForeignValue)
      ensures Valid() && this.base == base && this.stat == stat && buckets == Buckets
    {
      this.base := base;
      this.stat := stat;
      buckets := Buckets;
      bucketTags := BuildBucketTags(Buckets, base.tags);
      bucketVals := BuildBucketVals(Buckets, base.name + base.suffix);
    }

    /** The tags of a bucket's point; Go's lookup of a missing key gives nil. */
    function TagsOf(bucket: string): Tags
    {
      if bucket in bucketTags then bucketTags[bucket] else NilTags
    }

    /** The points one call of AddPoints appends for snapshot `s`, in bucket order. */
    function PointsFor(s: Snapshot): (r: seq<Point>)
      ensures |r| == |buckets|
    {
      seq(|buckets|, i requires 0 <= i < |buckets| =>
        GetPoint(base.measurement, map[fieldName := BucketValue(buckets[i], s)], TagsOf(buckets[i])))
    }

    /**
     * AddPoints: appends one point per bucket after the input; each bucket's
     * field map is overwritten under `fieldName` with that bucket's rate,
     * and the bucket maps keep their keys.
     */
    method AddPoints(pts: seq<Point>, s: Snapshot) returns (r: seq<Point>)
      requires Valid()
      modifies this`bucketVals
      ensures Valid()
      ensures r == pts + PointsFor(s)
      ensures bucketVals.Keys == old(bucketVals.Keys)
      ensures forall b :: b in bucketVals ==> bucketVals[b] == map[fieldName := BucketValue(b, s)]
    {
      r := pts;
      ghost var done: set<string> := {};
      for i := 0 to |buckets|
        invariant Valid()
        invariant r == pts + PointsFor(s)[..i]
        invariant done == set j | 0 <= j < i :: buckets[j]
        invariant forall b :: b in done ==> bucketVals[b] == map[fieldName := BucketValue(b, s)]
      {
        var bucket := buckets[i];
        var val := BucketValue(bucket, s);
        var fields := bucketVals[bucket];
        OverwriteShell(bucketVals, buckets, fieldName, bucket, val);
        fields := fields[fieldName := val];
        bucketVals := bucketVals[bucket := fields];
        assert PointsFor(s)[i] == GetPoint(base.measurement, fields, TagsOf(bucket));
        AppendStep(pts, PointsFor(s), r, i);
        r := r + [GetPoint(base.measurement, fields, TagsOf(bucket))];
        PrefixElementsStep(buckets, i);
        done := done + {bucket};
      }
      assert PointsFor(s)[..|buckets|] == PointsFor(s);
    }
  }

  /**
   * The points of any meter with this measurement, field name and metric
   * tags: one per bucket, in bucket order, tagged with the bucket.
   */
  function BucketPoints(measurement: string, field: string, tags: Tags, s: Snapshot): (r: seq<Point>)
    ensures |r| == 5
  {
    seq(|Buckets|, i requires 0 <= i < |Buckets| =>
      GetPoint(measurement, map[field := BucketValue(Buckets[i], s)], BucketTags(Buckets[i], tags)))
  }

  /** What a meter object appends is the point list of its base fields. */
  lemma PointsForIsPoints(m: Meter, s: Snapshot)
    requires m.Valid() && m.buckets == Buckets
    ensures m.PointsFor(s) == BucketPoints(m.base.measurement, m.fieldName, m.base.tags, s)
  {
    forall i | 0 <= i < |Buckets|
      ensures m.PointsFor(s)[i] == BucketPoints(m.base.measurement, m.fieldName, m.base.tags, s)[i]
    {
      assert Buckets[i] in Buckets;
    }
  }

  /**
   * Point `i` of a meter named `name` carries its measurement, its tags plus
   * `bucket`, and the single field `name + ".meter"` holding bucket `i`'s
   * reading; without a `bucket` tag of its own it has one tag more than the metric.
   */
  lemma PointShape(measurement: string, name: string, tags: Tags, s: Snapshot, i: nat)
    requires i < 5
    ensures BucketPoints(measurement, name + SuffixMeter, tags, s)[i]
      == GetPoint(measurement, map[name + ".meter" := FloatValue(Readings(s)[i])], BucketTags(Buckets[i], tags))
    ensures BucketKey !in tags.Entries() ==>
      |BucketPoints(measurement, name + SuffixMeter, tags, s)[i].tags.m| == |tags.Entries()| + 1
  {
    BucketValueReadsItsStatistic(s, i);
    if BucketKey !in tags.Entries() {
      BucketTagsCount(Buckets[i], tags);
    }
  }
}

/**
 * Tag and point builders (funcs.go): small map constructors that never
 * modify their arguments.
 */
module Points {

  /** The entries of a Go `map[string]string`. */
  type TagMap = map<string, string>

  /**
   * A Go tag map value. A nil map is kept apart from an empty one: the
   * library returns its input unchanged in some cases, and its tests
   * compare nil and non-nil maps as different values. Reading a nil map
   * yields no entries.
   */
  datatype Tags = NilTags | TagSet(m: TagMap)
  {
    function Entries(): TagMap
    {
      if NilTags? then map[] else m
    }
  }

  /** A field value; the statistics behind it are not modelled. */
  datatype Value = IntValue(i: int) | FloatValue(f: real)

  type Fields = map<string, Value>

  /** The InfluxDB client's point: measurement, tags and fields. */
  datatype Point = Point(measurement: string, tags: Tags, fields: Fields)

  /** The tag key under which a bucketed metric names its bucket. */
  const BucketKey := "bucket"

  /** One template field map `{field: 0.0}` per bucket name. */
  function BuildBucketVals(buckets: seq<string>, field: string): (m: map<string, Fields>)
    ensures m.Keys == set b | b in buckets
    ensures forall b :: b in m ==> m[b].Keys == {field} && m[b][field] == FloatValue(0.0)
  {
    map b | b in buckets :: map[field := FloatValue(0.0)]
  }

  /**
   * The tags of one bucket's point: the empty bucket name gives the input
   * back as it is; any other name gives a fresh map with every input tag
   * and `bucket` set to the name.
   */
  function BucketTags(bucket: string, tags: Tags): (r: Tags)
    ensures bucket == "" ==> r == tags
    ensures bucket != "" ==> r.TagSet?
    ensures bucket != "" ==> r.m.Keys == tags.Entries().Keys + {BucketKey}
    ensures bucket != "" ==> r.m[BucketKey] == bucket
    ensures bucket != "" ==> forall k :: k in tags.Entries() && k != BucketKey ==> r.m[k] == tags.Entries()[k]
  {
    if bucket == "" then tags
    else TagSet(tags.Entries()[BucketKey := bucket])
  }

  /** One tag map per bucket name, each built by BucketTags. */
  function BuildBucketTags(buckets: seq<string>, tags: Tags): (m: map<string, Tags>)
    ensures m.Keys == set b | b in buckets
    ensures forall b :: b in m ==> m[b] == BucketTags(b, tags)
  {
    map b | b in buckets :: BucketTags(b, tags)
  }

  /**
   * Reporter tags overlaid with metric tags: the result is always a fresh,
   * non-nil map, and the metric side wins on a shared key.
   */
  function ComposeTags(reporterTags: Tags, metricTags: Tags): (r: Tags)
    ensures r.TagSet?
    ensures r.m.Keys == reporterTags.Entries().Keys + metricTags.Entries().Keys
    ensures forall k :: k in metricTags.Entries() ==> r.m[k] == metricTags.Entries()[k]
    ensures forall k :: k in reporterTags.Entries() && k !in metricTags.Entries() ==>
      r.m[k] == reporterTags.Entries()[k]
  {
    TagSet(reporterTags.Entries() + metricTags.Entries())
  }

  /** A point holding its three parts verbatim, with no validation. */
  function GetPoint(measurement: string, fields: Fields, tags: Tags): (p: Point)
    ensures p.measurement == measurement && p.tags == tags && p.fields == fields
  {
    Point(measurement, tags, fields)
  }

  /** With one side nil, composing yields the other side's entries in a non-nil map. */
  lemma ComposeWithNil(tags: Tags)
    ensures ComposeTags(NilTags, tags) == TagSet(tags.Entries())
    ensures ComposeTags(tags, NilTags) == TagSet(tags.Entries())
  {
    assert tags.Entries() + map[] == tags.Entries();
    assert map[] + tags.Entries() == tags.Entries();
  }

  /** A named bucket adds exactly one tag unless the input already has a `bucket` tag. */
  lemma BucketTagsCount(bucket: string, tags: Tags)
    requires bucket != "" && BucketKey !in tags.Entries()
    ensures |BucketTags(bucket, tags).m| == |tags.Entries()| + 1
  {
    var r := BucketTags(bucket, tags);
    assert r.m.Keys == tags.Entries().Keys + {BucketKey};
    assert |r.m.Keys| == |tags.Entries().Keys| + 1;
  }

  /** Taking away the `bucket` tag of a bucket's tags gives the input tags back. */
  lemma BucketTagsWithoutBucket(bucket: string, tags: Tags)
    requires bucket != "" && BucketKey !in tags.Entries()
    ensures BucketTags(bucket, tags).m - {BucketKey} == tags.Entries()
  {
    var r := BucketTags(bucket, tags).m - {BucketKey};
    assert r.Keys == tags.Entries().Keys;
  }

  /** Bucket field maps keyed by exactly the bucket names, each holding only `field`. */
  ghost predicate ShellsFor(vals: map<string, Fields>, buckets: seq<string>, field: string)
  {
    && vals.Keys == (set b | b in buckets)
    && forall b :: b in vals ==> vals[b].Keys == {field}
  }

  /** Overwriting one bucket's field keeps the shape and leaves the single-field map. */
  lemma OverwriteShell(vals: map<string, Fields>, buckets: seq<string>, field: string, b: string, v: Value)
    requires ShellsFor(vals, buckets, field) && b in vals
    ensures vals[b][field := v] == map[field := v]
    ensures ShellsFor(vals[b := vals[b][field := v]], buckets, field)
  {
    assert vals[b][field := v].Keys == {field};
  }

  /** The elements of a prefix grow by the next element. */
  lemma PrefixElementsStep<T>(s: seq<T>, i: nat)
    requires i < |s|
    ensures (set j | 0 <= j < i + 1 :: s[j]) == (set j | 0 <= j < i :: s[j]) + {s[i]}
  {
  }

  /** Appending the next element of `all` to a prefix of it extends the prefix by one. */
  lemma AppendStep<T>(pts: seq<T>, all: seq<T>, r: seq<T>, i: nat)
    requires i < |all| && r == pts + all[..i]
    ensures r + [all[i]] == pts + all[..i + 1]
  {
    assert all[..i + 1] == all[..i] + [all[i]];
  }
}

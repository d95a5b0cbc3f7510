/**
 * The statistics behind the adapters, seen only through the readings the
 * adapters take from one snapshot. Their values are inputs to the model.
 */
module Snapshots {
  import opened Wrappers
  import opened Base

  /**
   * One snapshot of a go-metrics statistic: every reading any adapter takes.
   * `quantile` gives the percentile value at a level (0.5 for the median).
   */
  datatype Snapshot = Snapshot(
    count: int,
    value: int,
    floatValue: real,
    max: int,
    mean: real,
    min: int,
    stdDev: real,
    variance: real,
    quantile: real -> real,
    rate1: real,
    rate5: real,
    rate15: real,
    rateMean: real)

  /** The percentile levels the histogram and the timer ask for. */
  const PercentileLevels: seq<real> := [0.5, 0.75, 0.95, 0.99, 0.999, 0.9999]

  /** Snapshot.Percentiles: one value per requested level, in order. */
  function Percentiles(s: Snapshot, levels: seq<real>): (r: seq<real>)
    ensures |r| == |levels|
    ensures forall i :: 0 <= i < |levels| ==> r[i] == s.quantile(levels[i])
  {
    seq(|levels|, i requires 0 <= i < |levels| => s.quantile(levels[i]))
  }

  /** Which entry of the percentile list a percentile bucket reads. */
  function PercentileIndex(bucket: string): (r: Option<nat>)
    ensures r.Some? ==> r.value < |PercentileLevels|
    ensures r.Some? <==> bucket in [P50, P75, P95, P99, P999, P9999]
  {
    if bucket == P50 then Some(0)
    else if bucket == P75 then Some(1)
    else if bucket == P95 then Some(2)
    else if bucket == P99 then Some(3)
    else if bucket == P999 then Some(4)
    else if bucket == P9999 then Some(5)
    else None
  }

  /** The percentile buckets read the levels 0.5, 0.75, 0.95, 0.99, 0.999, 0.9999 in that order. */
  lemma PercentileBucketsReadTheirLevels(s: Snapshot)
    ensures Percentiles(s, PercentileLevels)[PercentileIndex(P50).value] == s.quantile(0.5)
    ensures Percentiles(s, PercentileLevels)[PercentileIndex(P75).value] == s.quantile(0.75)
    ensures Percentiles(s, PercentileLevels)[PercentileIndex(P95).value] == s.quantile(0.95)
    ensures Percentiles(s, PercentileLevels)[PercentileIndex(P99).value] == s.quantile(0.99)
    ensures Percentiles(s, PercentileLevels)[PercentileIndex(P999).value] == s.quantile(0.999)
    ensures Percentiles(s, PercentileLevels)[PercentileIndex(P9999).value] == s.quantile(0.9999)
  {
  }
}

/** The counter adapter (m_counter.go): one point per snapshot. */
module CounterMetric {
  import opened Points
  import opened Base
  import opened Snapshots

  /** A counter: its own copy of the metric base and the go-metrics counter it wraps. */
  class Counter {
    const base: BaseMetric
    const stat: ForeignValue
    const fieldName: string := base.name + base.suffix

    constructor (base: BaseMetric, stat: ForeignValue)
      ensures this.base == base && this.stat == stat
    {
      this.base := base;
      this.stat := stat;
    }

    /**
     * AddPoints: the input followed by one point that carries the metric's
     * measurement and tags and the single field `fieldName` holding the count.
     */
    function AddPoints(pts: seq<Point>, s: Snapshot): (r: seq<Point>)
      ensures |r| == |pts| + 1 && r[..|pts|] == pts
      ensures r[|pts|].measurement == base.measurement && r[|pts|].tags == base.tags
      ensures r[|pts|].fields.Keys == {fieldName} && r[|pts|].fields[fieldName] == IntValue(s.count)
    {
      pts + [GetPoint(base.measurement, map[fieldName := IntValue(s.count)], base.tags)]
    }
  }
}

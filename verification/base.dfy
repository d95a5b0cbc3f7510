/**
 * The metric base (metric.go): kind suffixes, bucket names, the
 * registration key and the per-metric state that registration updates.
 */
module Base {
  import opened Wrappers
  import opened Points

  // Registration suffixes, one per adapter kind; the two gauges share one.
  const SuffixGauge := ".gauge"
  const SuffixTimer := ".timer"
  const SuffixCounter := ".count"
  const SuffixHistogram := ".histogram"
  const SuffixMeter := ".meter"

  /** The measurement a metric carries unless an option names another. */
  const MeasurementDefault := "default"

  // Bucket names of the bucketed adapters.
  const Count := "count"
  const Max := "max"
  const Mean := "mean"
  const Min := "min"
  const P50 := "p50"
  const P75 := "p75"
  const P95 := "p95"
  const P99 := "p99"
  const P999 := "p999"
  const P9999 := "p9999"
  const StdDev := "stddev"
  const Variance := "variance"
  const M1 := "m1"
  const M5 := "m5"
  const M15 := "m15"
  const MeanRate := "meanrate"

  /**
   * The go-metrics interfaces a registered value may satisfy, standing for
   * the dynamic type tests of the Go code.
   */
  datatype Kind = CounterKind | GaugeKind | GaugeFloat64Kind | HistogramKind | MeterKind | TimerKind

  /** The suffix each adapter's constructor assigns. */
  function Suffix(k: Kind): (s: string)
    ensures s == SuffixGauge <==> k == GaugeKind || k == GaugeFloat64Kind
  {
    match k
    case CounterKind => SuffixCounter
    case GaugeKind => SuffixGauge
    case GaugeFloat64Kind => SuffixGauge
    case HistogramKind => SuffixHistogram
    case MeterKind => SuffixMeter
    case TimerKind => SuffixTimer
  }

  /**
   * A value of a type this package does not define: a go-metrics statistic,
   * an application's own metric, or anything else. It is known only by its
   * identity, the go-metrics interfaces it satisfies and whether it has an
   * AddPoints method (implements Metric).
   */
  datatype ForeignValue = ForeignValue(id: nat, caps: set<Kind>, isMetric: bool)

  function Digit(d: nat): char
    requires d < 10
  {
    ('0' as int + d) as char
  }

  /** strconv.Itoa on the non-negative numbers a disambiguator takes. */
  function Itoa(n: nat): (s: string)
    ensures 1 <= |s|
    ensures n < 10 <==> |s| == 1
    ensures s[|s| - 1] == Digit(n % 10)
    decreases n
  {
    if n < 10 then [Digit(n)] else Itoa(n / 10) + [Digit(n % 10)]
  }

  /** The text inserted before the suffix: nothing for 0, the decimal number otherwise. */
  function Disambiguator(incr: nat): string
  {
    if incr == 0 then "" else Itoa(incr)
  }

  /** The registration key `measurement + "/" + name + [incr] + suffix`. */
  function RegName(measurement: string, name: string, suffix: string, incr: nat): string
  {
    measurement + "/" + name + Disambiguator(incr) + suffix
  }

  /** Distinct numbers have distinct decimal renderings. */
  lemma {:induction false} ItoaInjective(a: nat, b: nat)
    requires Itoa(a) == Itoa(b)
    ensures a == b
    decreases a
  {
    var s := Itoa(a);
    assert Digit(a % 10) == Digit(b % 10);
    assert a % 10 == b % 10;
    if 10 <= a {
      assert 10 <= b;
      assert Itoa(a / 10) == s[..|s| - 1] == Itoa(b / 10);
      ItoaInjective(a / 10, b / 10);
    }
  }

  /** The key of disambiguator 0 and the key of disambiguator n > 0. */
  lemma RegNameShape(measurement: string, name: string, suffix: string, incr: nat)
    ensures incr == 0 ==> RegName(measurement, name, suffix, incr) == measurement + "/" + name + suffix
    ensures incr > 0 ==> RegName(measurement, name, suffix, incr) == measurement + "/" + name + Itoa(incr) + suffix
  {
    assert measurement + "/" + name + "" == measurement + "/" + name;
  }

  /**
   * For a fixed measurement, name and suffix, distinct disambiguators give
   * distinct keys; this is why the collision walk of registration ends on
   * a finite registry.
   */
  lemma RegNameInjective(measurement: string, name: string, suffix: string, i: nat, j: nat)
    requires RegName(measurement, name, suffix, i) == RegName(measurement, name, suffix, j)
    ensures i == j
  {
    var p := measurement + "/" + name;
    var di, dj := Disambiguator(i), Disambiguator(j);
    var key := RegName(measurement, name, suffix, i);
    assert key == p + di + suffix == p + dj + suffix;
    assert |di| == |dj|;
    assert di == key[|p|..|p| + |di|] == dj;
    if i != 0 && j != 0 {
      ItoaInjective(i, j);
    }
  }

  /**
   * The part of baseMetric that outlives construction, as each adapter's
   * own copy of it: everything is fixed except the disambiguator, which
   * registration raises while it looks for a free key.
   */
  class BaseMetric {
    const name: string
    const measurement: string
    const tags: Tags
    const suffix: string
    /** The statistic supplied by WithMetric, if any. */
    const metric: Option<ForeignValue>
    var incr: nat

    constructor (name: string, measurement: string, tags: Tags, suffix: string, metric: Option<ForeignValue>)
      ensures this.name == name && this.measurement == measurement && this.tags == tags
      ensures this.suffix == suffix && this.metric == metric && incr == 0
    {
      this.name := name;
      this.measurement := measurement;
      this.tags := tags;
      this.suffix := suffix;
      this.metric := metric;
      incr := 0;
    }

    /** The key this metric registers under with its current disambiguator. */
    function Key(): string
      reads this
    {
      RegName(measurement, name, suffix, incr)
    }

    /** regIncr: the next disambiguator; nothing else of the metric can change. */
    method RegIncr()
      modifies this
      ensures incr == old(incr) + 1
    {
      incr := incr + 1;
    }
  }
}

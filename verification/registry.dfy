/**
 * The name-to-value registry the reporter reads from (a go-metrics
 * registry) and the collision walk of registration (metric.go, reg).
 *
 * A registered value is an Entry: one of this package's adapters, or a
 * value of a foreign type. Specifications look at entries through Slot,
 * the part of an entry that registration compares and flushing reads.
 */
module MetricRegistry {
  import opened Wrappers
  import opened Points
  import opened Base
  import opened CounterMetric
  import opened GaugeMetric
  import opened GaugeFloat64Metric
  import HistogramMetric
  import MeterMetric
  import TimerMetric

  datatype Entry =
    | CounterEntry(c: Counter)
    | GaugeEntry(g: Gauge)
    | GaugeFloat64Entry(f: GaugeFloat64)
    | HistogramEntry(h: HistogramMetric.Histogram)
    | MeterEntry(m: MeterMetric.Meter)
    | TimerEntry(t: TimerMetric.Timer)
    | ForeignEntry(v: ForeignValue)

  /**
   * What registration and flushing see of an entry: an adapter's kind, base
   * fields and wrapped statistic, or the foreign value itself.
   */
  datatype Slot =
    | AdapterSlot(kind: Kind, measurement: string, name: string, suffix: string, tags: Tags, stat: ForeignValue)
    | ForeignSlot(v: ForeignValue)

  function SlotOf(e: Entry): Slot
  {
    match e
    case CounterEntry(c) => AdapterSlot(CounterKind, c.base.measurement, c.base.name, c.base.suffix, c.base.tags, c.stat)
    case GaugeEntry(g) => AdapterSlot(GaugeKind, g.base.measurement, g.base.name, g.base.suffix, g.base.tags, g.stat)
    case GaugeFloat64Entry(f) =>
      AdapterSlot(GaugeFloat64Kind, f.base.measurement, f.base.name, f.base.suffix, f.base.tags, f.stat)
    case HistogramEntry(h) => AdapterSlot(HistogramKind, h.base.measurement, h.base.name, h.base.suffix, h.base.tags, h.stat)
    case MeterEntry(m) => AdapterSlot(MeterKind, m.base.measurement, m.base.name, m.base.suffix, m.base.tags, m.stat)
    case TimerEntry(t) => AdapterSlot(TimerKind, t.base.measurement, t.base.name, t.base.suffix, t.base.tags, t.stat)
    case ForeignEntry(v) => ForeignSlot(v)
  }

  function SlotsOf(entries: map<string, Entry>): (r: map<string, Slot>)
    ensures r.Keys == entries.Keys
    ensures forall k :: k in entries ==> r[k] == SlotOf(entries[k])
  {
    map k | k in entries :: SlotOf(entries[k])
  }

  /** Whether the value has an AddPoints method, i.e. implements Metric. */
  predicate IsMetricSlot(s: Slot)
  {
    s.AdapterSlot? || s.v.isMetric
  }

  /** The dynamic type of the value, when it is one of this package's adapters. */
  function AdapterKind(s: Slot): Option<Kind>
  {
    if s.AdapterSlot? then Some(s.kind) else None
  }

  /**
   * Whether go-metrics stores the value at all: it keeps only values of its
   * own interfaces, which every adapter satisfies by embedding one.
   */
  predicate Storable(s: Slot)
  {
    s.AdapterSlot? || s.v.caps != {}
  }

  /** The typeCheck closure of newGaugeFloat64: accepts exactly the float gauge adapter. */
  function TypeCheck(e: Entry): (ok: bool)
    ensures ok <==> AdapterKind(SlotOf(e)) == Some(GaugeFloat64Kind)
  {
    e.GaugeFloat64Entry?
  }

  predicate IsBucketed(e: Entry)
  {
    e.HistogramEntry? || e.MeterEntry? || e.TimerEntry?
  }

  /** The object whose field maps a bucketed adapter overwrites on every flush. */
  function BucketObject(e: Entry): object
    requires IsBucketed(e)
  {
    match e
    case HistogramEntry(h) => h
    case MeterEntry(m) => m
    case TimerEntry(t) => t
  }

  /** A bucketed adapter keeps its bucket list and its field maps' shape. */
  ghost predicate EntryValid(e: Entry)
    reads if IsBucketed(e) then {BucketObject(e)} else {}
  {
    match e
    case HistogramEntry(h) => h.Valid() && h.buckets == HistogramMetric.Buckets
    case MeterEntry(m) => m.Valid() && m.buckets == MeterMetric.Buckets
    case TimerEntry(t) => t.Valid() && t.buckets == TimerMetric.Buckets
    case _ => true
  }

  ghost function Objects(entries: map<string, Entry>): set<object>
  {
    set k | k in entries && IsBucketed(entries[k]) :: BucketObject(entries[k])
  }

  ghost predicate AllValid(entries: map<string, Entry>)
    reads Objects(entries)
  {
    forall k :: k in entries ==> EntryValid(entries[k])
  }

  /** A go-metrics registry: a map from names to registered values. */
  class Registry {
    var entries: map<string, Entry>

    ghost predicate Valid()
      reads this, Objects(entries)
    {
      AllValid(entries)
    }

    constructor ()
      ensures entries == map[]
    {
      entries := map[];
    }

    /** Get: the value registered under `name`, if any. */
    method Get(name: string) returns (r: Option<Entry>)
      ensures r.Some? <==> name in entries
      ensures r.Some? ==> r.value == entries[name]
    {
      if name in entries {
        r := Some(entries[name]);
      } else {
        r := None;
      }
    }

    /**
     * Register: a taken name is refused with an error and nothing changes;
     * otherwise the value is stored, if it is of a kind go-metrics keeps.
     */
    method Register(name: string, e: Entry) returns (err: bool)
      modifies this
      ensures err <==> name in old(entries)
      ensures entries == if !err && Storable(SlotOf(e)) then old(entries)[name := e] else old(entries)
      ensures old(Valid()) && EntryValid(e) ==> Valid()
    {
      if name in entries {
        err := true;
      } else {
        err := false;
        if Storable(SlotOf(e)) {
          entries := entries[name := e];
        }
      }
    }
  }

  /** Which way the collision walk of registration ended. */
  datatype Status = Existing | Free | Blocked

  /** The walk's end: how it ended and the disambiguator it ended at. */
  datatype Outcome = Outcome(status: Status, at: nat)

  /** The keys of disambiguators 0 .. count - 1 are pairwise distinct. */
  lemma {:induction false} ProbedKeys(measurement: string, name: string, suffix: string, count: nat)
    ensures |set j | 0 <= j < count :: RegName(measurement, name, suffix, j)| == count
  {
    if count > 0 {
      var prev := set j | 0 <= j < count - 1 :: RegName(measurement, name, suffix, j);
      var key := RegName(measurement, name, suffix, count - 1);
      assert (set j | 0 <= j < count :: RegName(measurement, name, suffix, j)) == prev + {key};
      if key in prev {
        var j :| 0 <= j < count - 1 && RegName(measurement, name, suffix, j) == key;
        RegNameInjective(measurement, name, suffix, j, count - 1);
      }
      ProbedKeys(measurement, name, suffix, count - 1);
    }
  }

  /** A registry holding the keys of disambiguators 0 .. count - 1 has at least count entries. */
  lemma ProbedKeysFit(slots: map<string, Slot>, measurement: string, name: string, suffix: string, count: nat)
    requires forall j :: 0 <= j < count ==> RegName(measurement, name, suffix, j) in slots
    ensures count <= |slots|
  {
    var probed := set j | 0 <= j < count :: RegName(measurement, name, suffix, j);
    ProbedKeys(measurement, name, suffix, count);
    assert probed <= slots.Keys;
    SubsetCardinality(probed, slots.Keys);
  }

  lemma {:induction false} SubsetCardinality<T>(a: set<T>, b: set<T>)
    requires a <= b
    ensures |a| <= |b|
    decreases |b|
  {
    if a != {} {
      var x :| x in a;
      SubsetCardinality(a - {x}, b - {x});
    }
  }

  /** The walk passes disambiguator `j`: its key holds a Metric of another kind. */
  predicate Passes(slots: map<string, Slot>, measurement: string, name: string, suffix: string, kind: Kind, j: nat)
  {
    var key := RegName(measurement, name, suffix, j);
    key in slots && IsMetricSlot(slots[key]) && AdapterKind(slots[key]) != Some(kind)
  }

  /**
   * reg with a reporter: starting at disambiguator `incr`, the first key
   * that is free, holds a non-Metric value, or holds an adapter of the
   * candidate's own kind ends the walk; a key holding any other Metric
   * moves it on to the next disambiguator.
   */
  function Resolve(slots: map<string, Slot>, measurement: string, name: string, suffix: string, kind: Kind, incr: nat)
    : (o: Outcome)
    requires forall j :: 0 <= j < incr ==> RegName(measurement, name, suffix, j) in slots
    ensures o.at >= incr
    ensures var key := RegName(measurement, name, suffix, o.at);
      && (o.status == Free <==> key !in slots)
      && (o.status == Blocked <==> key in slots && !IsMetricSlot(slots[key]))
      && (o.status == Existing <==> key in slots && IsMetricSlot(slots[key]) && AdapterKind(slots[key]) == Some(kind))
    ensures forall j :: incr <= j < o.at ==> Passes(slots, measurement, name, suffix, kind, j)
    decreases |slots| - incr
  {
    var key := RegName(measurement, name, suffix, incr);
    if key !in slots then Outcome(Free, incr)
    else if !IsMetricSlot(slots[key]) then Outcome(Blocked, incr)
    else if AdapterKind(slots[key]) == Some(kind) then Outcome(Existing, incr)
    else
      ProbedKeysFit(slots, measurement, name, suffix, incr + 1);
      var o := Resolve(slots, measurement, name, suffix, kind, incr + 1);
      assert forall j :: incr <= j < o.at ==> j == incr || Passes(slots, measurement, name, suffix, kind, j);
      o
  }

  /** A key the walk passes hands it on to the next disambiguator. */
  lemma ResolvePasses(slots: map<string, Slot>, measurement: string, name: string, suffix: string, kind: Kind, incr: nat)
    requires forall j :: 0 <= j < incr ==> RegName(measurement, name, suffix, j) in slots
    requires Passes(slots, measurement, name, suffix, kind, incr)
    ensures forall j :: 0 <= j < incr + 1 ==> RegName(measurement, name, suffix, j) in slots
    ensures incr + 1 <= |slots|
    ensures Resolve(slots, measurement, name, suffix, kind, incr) == Resolve(slots, measurement, name, suffix, kind, incr + 1)
  {
    ProbedKeysFit(slots, measurement, name, suffix, incr + 1);
  }

  /**
   * Registration of an adapter candidate, as what it returns and the
   * registry afterwards. With a reporter: the collision walk from
   * disambiguator 0; the candidate is stored only at a free key, and an
   * existing adapter of its kind is returned instead of it. Without one:
   * the default registry under disambiguator 0, which keeps a value
   * already there and still returns the candidate.
   */
  function RegisterSlot(slots: map<string, Slot>, cand: Slot, hasReporter: bool): (r: (Slot, map<string, Slot>))
    requires cand.AdapterSlot?
  {
    if hasReporter then
      var o := Resolve(slots, cand.measurement, cand.name, cand.suffix, cand.kind, 0);
      var key := RegName(cand.measurement, cand.name, cand.suffix, o.at);
      match o.status
      case Existing => (slots[key], slots)
      case Free => (cand, slots[key := cand])
      case Blocked => (cand, slots)
    else
      var key := RegName(cand.measurement, cand.name, cand.suffix, 0);
      (cand, if key in slots then slots else slots[key := cand])
  }

  /**
   * Registration never overwrites: every key keeps its value and at most
   * one key is added; what comes back is an adapter of the candidate's kind.
   */
  lemma NeverOverwrites(slots: map<string, Slot>, cand: Slot, hasReporter: bool)
    requires cand.AdapterSlot?
    ensures var (res, after) := RegisterSlot(slots, cand, hasReporter);
      && (forall k :: k in slots ==> k in after && after[k] == slots[k])
      && |after.Keys - slots.Keys| <= 1
      && res.AdapterSlot? && res.kind == cand.kind
  {
    var key := RegName(cand.measurement, cand.name, cand.suffix, 0);
    if hasReporter {
      var o := Resolve(slots, cand.measurement, cand.name, cand.suffix, cand.kind, 0);
      key := RegName(cand.measurement, cand.name, cand.suffix, o.at);
    }
    var (res, after) := RegisterSlot(slots, cand, hasReporter);
    assert after == slots || after == slots[key := cand];
    KeepsKeys(slots, after, key, cand);
    assert res == cand || (hasReporter && res == slots[key]);
  }

  /** A registry that is left as it was or gains `key` keeps every key and grows by at most one. */
  lemma KeepsKeys(slots: map<string, Slot>, after: map<string, Slot>, key: string, cand: Slot)
    requires after == slots || (key !in slots && after == slots[key := cand])
    ensures forall k :: k in slots ==> k in after && after[k] == slots[k]
    ensures |after.Keys - slots.Keys| <= 1
  {
    SubsetCardinality(after.Keys - slots.Keys, {key});
  }


  /**
   * Once the walk has stored the candidate at a free key, walking again
   * from the same start for the same kind stops at that key.
   */
  lemma {:induction false} ResolveAfterInsert(slots: map<string, Slot>, measurement: string, name: string, suffix: string,
                                              kind: Kind, incr: nat, cand: Slot)
    requires forall j :: 0 <= j < incr ==> RegName(measurement, name, suffix, j) in slots
    requires Resolve(slots, measurement, name, suffix, kind, incr).status == Free
    requires IsMetricSlot(cand) && AdapterKind(cand) == Some(kind)
    ensures var o := Resolve(slots, measurement, name, suffix, kind, incr);
      var after := slots[RegName(measurement, name, suffix, o.at) := cand];
      Resolve(after, measurement, name, suffix, kind, incr) == Outcome(Existing, o.at)
    decreases |slots| - incr
  {
    var o := Resolve(slots, measurement, name, suffix, kind, incr);
    var at := RegName(measurement, name, suffix, o.at);
    var after := slots[at := cand];
    var key := RegName(measurement, name, suffix, incr);
    if o.at == incr {
      assert key in after && after[key] == cand;
    } else {
      assert Passes(slots, measurement, name, suffix, kind, incr);
      if key == at {
        RegNameInjective(measurement, name, suffix, incr, o.at);
      }
      assert key in slots && after[key] == slots[key];
      assert Passes(after, measurement, name, suffix, kind, incr);
      ResolvePasses(slots, measurement, name, suffix, kind, incr);
      ResolvePasses(after, measurement, name, suffix, kind, incr);
      ResolveAfterInsert(slots, measurement, name, suffix, kind, incr + 1, cand);
    }
  }

  /**
   * With a reporter, registering the same adapter a second time returns
   * what the first registration returned and leaves the registry as it
   * left it; only when a non-Metric value blocks the key does each
   * registration hand back its own, unregistered candidate.
   */
  lemma RegisterIdempotent(slots: map<string, Slot>, cand: Slot, again: Slot)
    requires cand.AdapterSlot? && again.AdapterSlot?
    requires again.kind == cand.kind && again.measurement == cand.measurement
    requires again.name == cand.name && again.suffix == cand.suffix
    ensures var o := Resolve(slots, cand.measurement, cand.name, cand.suffix, cand.kind, 0);
      var (first, after) := RegisterSlot(slots, cand, true);
      && (o.status != Blocked ==> RegisterSlot(after, again, true) == (first, after))
      && (o.status == Blocked ==> RegisterSlot(after, again, true) == (again, after))
  {
    var o := Resolve(slots, cand.measurement, cand.name, cand.suffix, cand.kind, 0);
    if o.status == Free {
      ResolveAfterInsert(slots, cand.measurement, cand.name, cand.suffix, cand.kind, 0, cand);
    }
  }

  /**
   * Without a reporter a second registration under the same key is refused
   * and hands back its own, unregistered candidate.
   */
  lemma NoReporterReturnsCandidate(slots: map<string, Slot>, cand: Slot, again: Slot)
    requires cand.AdapterSlot? && again.AdapterSlot?
    requires again.measurement == cand.measurement && again.name == cand.name && again.suffix == cand.suffix
    ensures var (_, after) := RegisterSlot(slots, cand, false);
      RegisterSlot(after, again, false) == (again, after)
  {
  }

  /**
   * The gauges share a suffix: with a gauge at `measurement/name.gauge` and
   * `measurement/name1.gauge` free, a float gauge of the same name lands at
   * the latter.
   */
  lemma GaugeCollision(slots: map<string, Slot>, measurement: string, name: string, tags: Tags, stat: ForeignValue)
    requires RegName(measurement, name, SuffixGauge, 0) in slots
    requires AdapterKind(slots[RegName(measurement, name, SuffixGauge, 0)]) == Some(GaugeKind)
    requires RegName(measurement, name, SuffixGauge, 1) !in slots
    ensures var cand := AdapterSlot(GaugeFloat64Kind, measurement, name, Suffix(GaugeFloat64Kind), tags, stat);
      RegisterSlot(slots, cand, true) == (cand, slots[measurement + "/" + name + "1.gauge" := cand])
  {
    assert Passes(slots, measurement, name, SuffixGauge, GaugeFloat64Kind, 0);
    ResolvePasses(slots, measurement, name, SuffixGauge, GaugeFloat64Kind, 0);
    assert RegName(measurement, name, SuffixGauge, 1) == measurement + "/" + name + "1.gauge";
  }

  /**
   * A disambiguated key is also the plain key of another name: after the
   * float gauge `name` has been moved to `measurement/name1.gauge`, a float
   * gauge named `name1` finds it there and gets it back instead of a gauge
   * of its own.
   */
  lemma DisambiguatedKeyCaptured(slots: map<string, Slot>, measurement: string, name: string, tags: Tags,
                                 stat: ForeignValue, other: ForeignValue)
    requires RegName(measurement, name, SuffixGauge, 0) in slots
    requires AdapterKind(slots[RegName(measurement, name, SuffixGauge, 0)]) == Some(GaugeKind)
    requires RegName(measurement, name, SuffixGauge, 1) !in slots
    ensures var first := AdapterSlot(GaugeFloat64Kind, measurement, name, SuffixGauge, tags, stat);
      var second := AdapterSlot(GaugeFloat64Kind, measurement, name + "1", SuffixGauge, tags, other);
      var after := RegisterSlot(slots, first, true).1;
      RegisterSlot(after, second, true) == (first, after)
  {
    var first := AdapterSlot(GaugeFloat64Kind, measurement, name, SuffixGauge, tags, stat);
    GaugeCollision(slots, measurement, name, tags, stat);
    var after := slots[measurement + "/" + name + "1.gauge" := first];
    assert RegName(measurement, name + "1", SuffixGauge, 0) == measurement + "/" + name + "1.gauge";
    var o := Resolve(after, measurement, name + "1", SuffixGauge, GaugeFloat64Kind, 0);
    assert o.at == 0;
  }
}

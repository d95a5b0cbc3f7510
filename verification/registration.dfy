/**
 * Creating and registering metrics (metric.go, metrics.go, options.go and
 * the constructors of the m_*.go files): the metric options, newMetric,
 * the recursive reg, the create-or-retrieve constructors and the public
 * Register dispatch.
 */
module Registration {
  import opened Wrappers
  import opened Points
  import opened Base
  import opened MetricRegistry
  import opened Reporting
  import opened CounterMetric
  import opened GaugeMetric
  import opened GaugeFloat64Metric
  import HistogramMetric
  import MeterMetric
  import TimerMetric

  /** The metric options of options.go, one constructor each. */
  datatype MetricOption =
    | WithReporter(reporter: Option<Reporter>)
    | WithMeasurement(measurement: string)
    | WithTags(tags: Tags)
    | WithMetric(metric: ForeignValue)

  /** The baseMetric fields the options set. */
  datatype MetricSettings = MetricSettings(reporter: Option<Reporter>, measurement: string, tags: Tags,
                                           metric: Option<ForeignValue>)

  /** newMetric before any option: the default reporter, measurement "default", no tags, no metric. */
  function MetricDefaults(defaultReporter: Option<Reporter>): MetricSettings
  {
    MetricSettings(defaultReporter, MeasurementDefault, NilTags, None)
  }

  /** What one option does: it assigns its own field; WithTags replaces the tags outright. */
  function ApplyMetricOption(s: MetricSettings, o: MetricOption): MetricSettings
  {
    match o
    case WithReporter(r) => s.(reporter := r)
    case WithMeasurement(m) => s.(measurement := m)
    case WithTags(t) => s.(tags := t)
    case WithMetric(m) => s.(metric := Some(m))
  }

  /** The reporters an option list can name. */
  function OptionReporters(opts: seq<MetricOption>): set<Reporter>
  {
    set o | o in opts && o.WithReporter? && o.reporter.Some? :: o.reporter.value
  }

  /** The options applied left to right; the reporter comes from the start or from an option. */
  function Configure(s: MetricSettings, opts: seq<MetricOption>): (r: MetricSettings)
    ensures r.reporter.Some? ==> r.reporter == s.reporter || r.reporter.value in OptionReporters(opts)
    decreases |opts|
  {
    if opts == [] then s
    else
      var init := opts[..|opts| - 1];
      assert forall o :: o in init ==> o in opts;
      ApplyMetricOption(Configure(s, init), opts[|opts| - 1])
  }

  /** The reporter tags merged under the metric's own, when there is a reporter. */
  function Settle(s: MetricSettings): MetricSettings
    reads if s.reporter.Some? then {s.reporter.value} else {}
  {
    if s.reporter.Some? then s.(tags := ComposeTags(s.reporter.value.tags, s.tags)) else s
  }

  /** newMetric's settings for an option list, given the default reporter. */
  function SettingsFor(options: seq<MetricOption>, defaultReporter: Option<Reporter>): MetricSettings
    reads (if defaultReporter.Some? then {defaultReporter.value} else {}), OptionReporters(options)
  {
    Settle(Configure(MetricDefaults(defaultReporter), options))
  }

  /**
   * Each metric option sets only its own field: two options setting
   * different fields give the same settings in either order.
   */
  lemma MetricOptionsCommute(s: MetricSettings, a: MetricOption, b: MetricOption)
    requires a.WithReporter? != b.WithReporter? || a.WithMeasurement? != b.WithMeasurement?
             || a.WithTags? != b.WithTags? || a.WithMetric? != b.WithMetric?
    ensures ApplyMetricOption(ApplyMetricOption(s, a), b) == ApplyMetricOption(ApplyMetricOption(s, b), a)
  {
  }

  /** A later metric option overrides an earlier one that sets the same field. */
  lemma LaterMetricOptionOverrides(s: MetricSettings, opts: seq<MetricOption>, a: MetricOption, b: MetricOption)
    requires a.WithReporter? == b.WithReporter? && a.WithMeasurement? == b.WithMeasurement?
    requires a.WithTags? == b.WithTags? && a.WithMetric? == b.WithMetric?
    ensures Configure(s, opts + [a, b]) == Configure(s, opts + [b])
  {
    assert (opts + [a, b])[..|opts| + 1] == opts + [a];
    assert (opts + [a])[..|opts|] == opts;
    assert (opts + [b])[..|opts|] == opts;
  }

  /**
   * newMetric: the defaults, the options in order, then the reporter's
   * tags merged in when a reporter is set (a nil tag map stays nil when
   * there is none).
   */
  method NewMetric(options: seq<MetricOption>, g: Globals) returns (s: MetricSettings)
    ensures s == SettingsFor(options, g.defaultReporter)
  {
    s := MetricDefaults(g.defaultReporter);
    for i := 0 to |options|
      invariant s == Configure(MetricDefaults(g.defaultReporter), options[..i])
    {
      assert options[..i + 1][..i] == options[..i];
      s := ApplyMetricOption(s, options[i]);
    }
    assert options[..|options|] == options;
    if s.reporter.Some? {
      s := s.(tags := ComposeTags(s.reporter.value.tags, s.tags));
    }
  }

  /** The registry registration writes to: the reporter's, or go-metrics' default one. */
  function Target(reporter: Option<Reporter>, g: Globals): Registry
    reads if reporter.Some? then {reporter.value} else {}
  {
    if reporter.Some? then reporter.value.registry else g.defaultRegistry
  }

  /** The adapter's own copy of the metric base. */
  function BaseOf(e: Entry): BaseMetric
    requires SlotOf(e).AdapterSlot?
  {
    match e
    case CounterEntry(c) => c.base
    case GaugeEntry(g) => g.base
    case GaugeFloat64Entry(f) => f.base
    case HistogramEntry(h) => h.base
    case MeterEntry(m) => m.base
    case TimerEntry(t) => t.base
  }

  /** The adapter object itself. */
  function AdapterObject(e: Entry): object
    requires SlotOf(e).AdapterSlot?
  {
    match e
    case CounterEntry(c) => c
    case GaugeEntry(g) => g
    case GaugeFloat64Entry(f) => f
    case HistogramEntry(h) => h
    case MeterEntry(m) => m
    case TimerEntry(t) => t
  }

  /** The registry key of a candidate at disambiguator `incr`. */
  function KeyAt(s: Slot, incr: nat): string
    requires s.AdapterSlot?
  {
    RegName(s.measurement, s.name, s.suffix, incr)
  }

  lemma SlotsOfUpdate(entries: map<string, Entry>, key: string, e: Entry)
    ensures SlotsOf(entries[key := e]) == SlotsOf(entries)[key := SlotOf(e)]
  {
  }

  /** Neither a metric base nor a registry is among the objects registry validity reads. */
  lemma OutsideObjects(entries: map<string, Entry>, base: BaseMetric, registry: Registry)
    ensures base !in Objects(entries) && registry !in Objects(entries)
  {
  }

  /** The object an entry's bucket maps live in, if it has bucket maps. */
  ghost function EntryObjects(e: Entry): set<object>
  {
    if IsBucketed(e) then {BucketObject(e)} else {}
  }

  /** A registry key names each of its entries' objects. */
  lemma KeyObjects(entries: map<string, Entry>, k: string)
    requires k in entries
    ensures EntryObjects(entries[k]) <= Objects(entries)
  {
  }

  /** A registered entry's object is among the registry's objects. */
  lemma ValueObjects(entries: map<string, Entry>, e: Entry)
    requires e in entries.Values
    ensures EntryObjects(e) <= Objects(entries)
  {
    var k :| k in entries && entries[k] == e;
    KeyObjects(entries, k);
  }

  /** Storing an entry adds at most that entry's own object to the registry's objects. */
  /** Storing a valid entry keeps every entry of the registry valid. */
  lemma AllValidUpdate(entries: map<string, Entry>, key: string, e: Entry)
    requires AllValid(entries) && EntryValid(e)
    ensures AllValid(entries[key := e])
  {
  }

  lemma ObjectsUpdate(entries: map<string, Entry>, key: string, e: Entry)
    ensures Objects(entries[key := e]) <= Objects(entries) + EntryObjects(e)
  {
    forall o | o in Objects(entries[key := e])
      ensures o in Objects(entries) + EntryObjects(e)
    {
      var k :| k in entries[key := e] && IsBucketed(entries[key := e][k]) && BucketObject(entries[key := e][k]) == o;
      if k != key {
        assert entries[k] == entries[key := e][k];
      }
    }
  }

  /** The candidate's keys below disambiguator `count` are all taken. */
  predicate KeysTaken(slots: map<string, Slot>, s: Slot, count: nat)
    requires s.AdapterSlot?
  {
    forall j :: 0 <= j < count ==> RegName(s.measurement, s.name, s.suffix, j) in slots
  }

  /**
   * What reg with a reporter returns and leaves in the registry, on the
   * entries themselves, from disambiguator `incr`: a free key takes the
   * candidate; a non-Metric value leaves the registry as it is and the
   * candidate is returned unregistered; an adapter of the candidate's kind
   * is returned instead of it; any other Metric moves on to the next key.
   */
  function RegOutcome(entries: map<string, Entry>, cand: Entry, incr: nat): (Entry, map<string, Entry>)
    requires SlotOf(cand).AdapterSlot? && KeysTaken(SlotsOf(entries), SlotOf(cand), incr)
    decreases |entries| - incr
  {
    var s := SlotOf(cand);
    var key := KeyAt(s, incr);
    if key !in entries then (cand, entries[key := cand])
    else if !IsMetricSlot(SlotOf(entries[key])) then (cand, entries)
    else if AdapterKind(SlotOf(entries[key])) == Some(s.kind) then (entries[key], entries)
    else
      assert KeysTaken(SlotsOf(entries), s, incr + 1);
      ProbedKeysFit(SlotsOf(entries), s.measurement, s.name, s.suffix, incr + 1);
      RegOutcome(entries, cand, incr + 1)
  }

  /**
   * The entry-level walk seen through slots is the collision walk: it
   * stops where Resolve stops and returns or stores what registration
   * says.
   */
  lemma {:induction false} RegOutcomeResolves(entries: map<string, Entry>, cand: Entry, incr: nat)
    requires SlotOf(cand).AdapterSlot? && KeysTaken(SlotsOf(entries), SlotOf(cand), incr)
    ensures var s := SlotOf(cand);
      var o := Resolve(SlotsOf(entries), s.measurement, s.name, s.suffix, s.kind, incr);
      var key := KeyAt(s, o.at);
      RegOutcome(entries, cand, incr) == match o.status
        case Existing => (entries[key], entries)
        case Free => (cand, entries[key := cand])
        case Blocked => (cand, entries)
    decreases |entries| - incr
  {
    var s := SlotOf(cand);
    var key := KeyAt(s, incr);
    if key in entries && IsMetricSlot(SlotOf(entries[key])) && AdapterKind(SlotOf(entries[key])) != Some(s.kind) {
      assert KeysTaken(SlotsOf(entries), s, incr + 1);
      ProbedKeysFit(SlotsOf(entries), s.measurement, s.name, s.suffix, incr + 1);
      RegOutcomeResolves(entries, cand, incr + 1);
    }
  }

  /** One step of the walk: the key at `incr` settles the outcome or hands it to the next key. */
  lemma RegOutcomeStep(entries: map<string, Entry>, cand: Entry, incr: nat)
    requires SlotOf(cand).AdapterSlot? && KeysTaken(SlotsOf(entries), SlotOf(cand), incr)
    ensures var key := KeyAt(SlotOf(cand), incr);
      && (key !in entries ==> RegOutcome(entries, cand, incr) == (cand, entries[key := cand]))
      && (key in entries && !IsMetricSlot(SlotOf(entries[key])) ==> RegOutcome(entries, cand, incr) == (cand, entries))
      && (key in entries && AdapterKind(SlotOf(entries[key])) == Some(SlotOf(cand).kind) ==>
            RegOutcome(entries, cand, incr) == (entries[key], entries))
      && (key in entries && IsMetricSlot(SlotOf(entries[key])) && AdapterKind(SlotOf(entries[key])) != Some(SlotOf(cand).kind) ==>
            && KeysTaken(SlotsOf(entries), SlotOf(cand), incr + 1) && incr + 1 <= |entries|
            && RegOutcome(entries, cand, incr) == RegOutcome(entries, cand, incr + 1))
  {
    var s := SlotOf(cand);
    var key := KeyAt(s, incr);
    if key in entries && IsMetricSlot(SlotOf(entries[key])) && AdapterKind(SlotOf(entries[key])) != Some(s.kind) {
      assert KeysTaken(SlotsOf(entries), s, incr + 1);
      ProbedKeysFit(SlotsOf(entries), s.measurement, s.name, s.suffix, incr + 1);
    }
  }

  /** Registration stores only a valid candidate, so a valid registry stays valid. */
  lemma {:induction false} RegOutcomeKeepsValid(entries: map<string, Entry>, cand: Entry, incr: nat)
    requires SlotOf(cand).AdapterSlot? && KeysTaken(SlotsOf(entries), SlotOf(cand), incr)
    requires AllValid(entries) && EntryValid(cand)
    ensures AllValid(RegOutcome(entries, cand, incr).1) && EntryValid(RegOutcome(entries, cand, incr).0)
    decreases |entries| - incr
  {
    var s := SlotOf(cand);
    var key := KeyAt(s, incr);
    RegOutcomeStep(entries, cand, incr);
    if key !in entries {
      AllValidUpdate(entries, key, cand);
    } else if IsMetricSlot(SlotOf(entries[key])) && AdapterKind(SlotOf(entries[key])) != Some(s.kind) {
      RegOutcomeKeepsValid(entries, cand, incr + 1);
    } else {
      assert EntryValid(entries[key]);
    }
  }

  /** The walk adds no object to the registry other than the candidate's own. */
  lemma {:induction false} RegOutcomeObjects(entries: map<string, Entry>, cand: Entry, incr: nat)
    requires SlotOf(cand).AdapterSlot? && KeysTaken(SlotsOf(entries), SlotOf(cand), incr)
    ensures Objects(RegOutcome(entries, cand, incr).1) <= Objects(entries) + EntryObjects(cand)
    decreases |entries| - incr
  {
    var s := SlotOf(cand);
    var key := KeyAt(s, incr);
    RegOutcomeStep(entries, cand, incr);
    if key !in entries {
      ObjectsUpdate(entries, key, cand);
    } else if IsMetricSlot(SlotOf(entries[key])) && AdapterKind(SlotOf(entries[key])) != Some(s.kind) {
      RegOutcomeObjects(entries, cand, incr + 1);
    }
  }

  /** The entry-level outcome seen through slots is registration with a reporter. */
  lemma RegOutcomeSlots(entries: map<string, Entry>, cand: Entry)
    requires SlotOf(cand).AdapterSlot?
    ensures var (r, after) := RegOutcome(entries, cand, 0);
      && (SlotOf(r), SlotsOf(after)) == RegisterSlot(SlotsOf(entries), SlotOf(cand), true)
      && (r == cand || r in entries.Values)
  {
    var s := SlotOf(cand);
    var o := Resolve(SlotsOf(entries), s.measurement, s.name, s.suffix, s.kind, 0);
    RegOutcomeResolves(entries, cand, 0);
    SlotsOfUpdate(entries, KeyAt(s, o.at), cand);
  }

  /**
   * reg from disambiguator 0, on the entries themselves: with a reporter
   * the walk; without one, the default registry, which keeps a value
   * already under the key and otherwise stores the candidate, which comes
   * back either way.
   */
  function Registered(entries: map<string, Entry>, cand: Entry, hasReporter: bool): (Entry, map<string, Entry>)
    requires SlotOf(cand).AdapterSlot?
  {
    if hasReporter then RegOutcome(entries, cand, 0)
    else
      var key := KeyAt(SlotOf(cand), 0);
      (cand, if key in entries then entries else entries[key := cand])
  }

  /** Whether registering an adapter with slot `c` hands back one registered before. */
  predicate Retrieves(slots: map<string, Slot>, c: Slot, hasReporter: bool)
    requires c.AdapterSlot?
  {
    hasReporter && Resolve(slots, c.measurement, c.name, c.suffix, c.kind, 0).status == Existing
  }

  /** The key the collision walk for an adapter with slot `c` ends at. */
  function ResolvedKey(slots: map<string, Slot>, c: Slot): string
    requires c.AdapterSlot?
  {
    KeyAt(c, Resolve(slots, c.measurement, c.name, c.suffix, c.kind, 0).at)
  }

  /**
   * `r` and `after` are what registering an adapter with slot `c` into
   * `before` gives: the adapter stored at the key the walk ends at, with
   * nothing changed, or else `r` is the candidate itself.
   */
  predicate RegisteredAs(before: map<string, Entry>, after: map<string, Entry>, r: Entry, c: Slot, hasReporter: bool)
    requires c.AdapterSlot?
  {
    if Retrieves(SlotsOf(before), c, hasReporter) then
      ResolvedKey(SlotsOf(before), c) in before && r == before[ResolvedKey(SlotsOf(before), c)] && after == before
    else
      SlotOf(r) == c && (r, after) == Registered(before, r, hasReporter)
  }

  /** Registration of a candidate is RegisteredAs of its slot. */
  lemma RegisteredCases(entries: map<string, Entry>, cand: Entry, hasReporter: bool)
    requires SlotOf(cand).AdapterSlot?
    ensures var (r, after) := Registered(entries, cand, hasReporter);
      && RegisteredAs(entries, after, r, SlotOf(cand), hasReporter)
      && (!Retrieves(SlotsOf(entries), SlotOf(cand), hasReporter) ==> r == cand)
  {
    if hasReporter {
      RegOutcomeResolves(entries, cand, 0);
    }
  }

  /**
   * A second construction of the same kind, measurement and name returns
   * the adapter the first one returned and leaves the registry as the first
   * left it, whether the first created or retrieved it; only when a value
   * that is no Metric holds the key does each get its own adapter.
   */
  lemma {:induction false} SecondConstructionRetrievesFirst(before: map<string, Entry>, after1: map<string, Entry>,
      r1: Entry, c1: Slot, after2: map<string, Entry>, r2: Entry, c2: Slot)
    requires c1.AdapterSlot? && c2.AdapterSlot?
    requires c2.kind == c1.kind && c2.measurement == c1.measurement && c2.name == c1.name && c2.suffix == c1.suffix
    requires RegisteredAs(before, after1, r1, c1, true) && RegisteredAs(after1, after2, r2, c2, true)
    ensures Resolve(SlotsOf(before), c1.measurement, c1.name, c1.suffix, c1.kind, 0).status != Blocked ==>
      r2 == r1 && after2 == after1
    ensures Resolve(SlotsOf(before), c1.measurement, c1.name, c1.suffix, c1.kind, 0).status == Blocked ==>
      SlotOf(r2) == c2 && after2 == after1 == before
  {
    var o := Resolve(SlotsOf(before), c1.measurement, c1.name, c1.suffix, c1.kind, 0);
    if o.status == Existing {
      SecondAfterExisting(before, after1, r1, c1, after2, r2, c2);
    } else if o.status == Free {
      SecondAfterFree(before, after1, r1, c1, after2, r2, c2);
    } else {
      SecondAfterBlocked(before, after1, r1, c1, after2, r2, c2);
    }
  }

  /** SecondConstructionRetrievesFirst when the first walk found an adapter: both return it. */
  lemma SecondAfterExisting(before: map<string, Entry>, after1: map<string, Entry>,
      r1: Entry, c1: Slot, after2: map<string, Entry>, r2: Entry, c2: Slot)
    requires c1.AdapterSlot? && c2.AdapterSlot?
    requires c2.kind == c1.kind && c2.measurement == c1.measurement && c2.name == c1.name && c2.suffix == c1.suffix
    requires RegisteredAs(before, after1, r1, c1, true) && RegisteredAs(after1, after2, r2, c2, true)
    requires Resolve(SlotsOf(before), c1.measurement, c1.name, c1.suffix, c1.kind, 0).status == Existing
    ensures r2 == r1 && after2 == after1
  {
    assert Retrieves(SlotsOf(before), c1, true);
    assert after1 == before;
    assert Retrieves(SlotsOf(after1), c2, true) && ResolvedKey(SlotsOf(after1), c2) == ResolvedKey(SlotsOf(before), c1);
  }

  /** SecondConstructionRetrievesFirst when the first walk stored its candidate: the second finds it. */
  lemma SecondAfterFree(before: map<string, Entry>, after1: map<string, Entry>,
      r1: Entry, c1: Slot, after2: map<string, Entry>, r2: Entry, c2: Slot)
    requires c1.AdapterSlot? && c2.AdapterSlot?
    requires c2.kind == c1.kind && c2.measurement == c1.measurement && c2.name == c1.name && c2.suffix == c1.suffix
    requires RegisteredAs(before, after1, r1, c1, true) && RegisteredAs(after1, after2, r2, c2, true)
    requires Resolve(SlotsOf(before), c1.measurement, c1.name, c1.suffix, c1.kind, 0).status == Free
    ensures r2 == r1 && after2 == after1
  {
    assert !Retrieves(SlotsOf(before), c1, true);
    RegOutcomeResolves(before, r1, 0);
    FreeThenRetrieved(before, r1, c2);
  }

  /** SecondConstructionRetrievesFirst when a value that is no Metric holds the key: nothing is stored. */
  lemma SecondAfterBlocked(before: map<string, Entry>, after1: map<string, Entry>,
      r1: Entry, c1: Slot, after2: map<string, Entry>, r2: Entry, c2: Slot)
    requires c1.AdapterSlot? && c2.AdapterSlot?
    requires c2.kind == c1.kind && c2.measurement == c1.measurement && c2.name == c1.name && c2.suffix == c1.suffix
    requires RegisteredAs(before, after1, r1, c1, true) && RegisteredAs(after1, after2, r2, c2, true)
    requires Resolve(SlotsOf(before), c1.measurement, c1.name, c1.suffix, c1.kind, 0).status == Blocked
    ensures SlotOf(r2) == c2 && after2 == after1 == before
  {
    assert !Retrieves(SlotsOf(before), c1, true);
    RegOutcomeResolves(before, r1, 0);
    assert after1 == before;
    assert !Retrieves(SlotsOf(after1), c2, true);
    RegOutcomeResolves(after1, r2, 0);
  }

  /** Once the walk has stored an adapter at a free key, the same walk finds it there. */
  lemma FreeThenRetrieved(before: map<string, Entry>, r: Entry, c: Slot)
    requires SlotOf(r).AdapterSlot? && c.AdapterSlot?
    requires c.kind == SlotOf(r).kind && c.measurement == SlotOf(r).measurement
    requires c.name == SlotOf(r).name && c.suffix == SlotOf(r).suffix
    requires Resolve(SlotsOf(before), c.measurement, c.name, c.suffix, c.kind, 0).status == Free
    ensures var key := KeyAt(c, Resolve(SlotsOf(before), c.measurement, c.name, c.suffix, c.kind, 0).at);
      var after := before[key := r];
      Retrieves(SlotsOf(after), c, true) && ResolvedKey(SlotsOf(after), c) == key && after[key] == r
  {
    var o := Resolve(SlotsOf(before), c.measurement, c.name, c.suffix, c.kind, 0);
    var key := KeyAt(c, o.at);
    SlotsOfUpdate(before, key, r);
    ResolveAfterInsert(SlotsOf(before), c.measurement, c.name, c.suffix, c.kind, 0, SlotOf(r));
  }


  /**
   * reg with a reporter. A key holding a Metric of the candidate's own
   * kind gives that metric back; a key holding any other Metric moves the
   * candidate to its next disambiguator and tries again; otherwise the
   * candidate is registered, which fails, leaving the registry as it was,
   * when a non-Metric value holds the key, and the candidate is returned.
   */
  method RegWith(cand: Entry, rep: Reporter) returns (r: Entry)
    requires SlotOf(cand).AdapterSlot?
    requires KeysTaken(SlotsOf(rep.registry.entries), SlotOf(cand), BaseOf(cand).incr)
    modifies rep.registry, BaseOf(cand)
    decreases |rep.registry.entries| - BaseOf(cand).incr, 1
    ensures (r, rep.registry.entries) == RegOutcome(old(rep.registry.entries), cand, old(BaseOf(cand).incr))
  {
    var key := KeyAt(SlotOf(cand), BaseOf(cand).incr);
    RegOutcomeStep(rep.registry.entries, cand, BaseOf(cand).incr);
    var got := rep.Get(key);
    if got.Some? && AdapterKind(SlotOf(got.value)) != Some(SlotOf(cand).kind) {
      r := RegNext(cand, rep);
    } else {
      r := RegHere(cand, rep, key, got);
    }
  }

  /** The key is held by a Metric of another kind: the next disambiguator is tried. */
  method RegNext(cand: Entry, rep: Reporter) returns (r: Entry)
    requires SlotOf(cand).AdapterSlot?
    requires KeysTaken(SlotsOf(rep.registry.entries), SlotOf(cand), BaseOf(cand).incr + 1)
    requires BaseOf(cand).incr + 1 <= |rep.registry.entries|
    modifies rep.registry, BaseOf(cand)
    decreases |rep.registry.entries| - BaseOf(cand).incr, 0
    ensures (r, rep.registry.entries) == RegOutcome(old(rep.registry.entries), cand, old(BaseOf(cand).incr) + 1)
  {
    BaseOf(cand).RegIncr();
    r := RegWith(cand, rep);
  }

  /**
   * The end of the walk at the current key: the adapter of the candidate's
   * kind found there, or the candidate after an attempt to register it.
   */
  method RegHere(cand: Entry, rep: Reporter, key: string, got: Option<Entry>) returns (r: Entry)
    requires SlotOf(cand).AdapterSlot?
    requires KeysTaken(SlotsOf(rep.registry.entries), SlotOf(cand), BaseOf(cand).incr)
    requires key == KeyAt(SlotOf(cand), BaseOf(cand).incr)
    requires got.Some? <==> key in rep.registry.entries && IsMetricSlot(SlotOf(rep.registry.entries[key]))
    requires got.Some? ==> got.value == rep.registry.entries[key] && AdapterKind(SlotOf(got.value)) == Some(SlotOf(cand).kind)
    modifies rep.registry
    ensures (r, rep.registry.entries) == RegOutcome(old(rep.registry.entries), cand, BaseOf(cand).incr)
  {
    RegOutcomeStep(rep.registry.entries, cand, BaseOf(cand).incr);
    if got.Some? {
      return got.value;
    }
    var err := rep.Register(key, cand);
    r := cand;
  }

  /**
   * reg without a reporter: the default registry, under the current key
   * only; the candidate is returned whether or not it could be registered.
   */
  method RegDefault(cand: Entry, registry: Registry) returns (r: Entry)
    requires SlotOf(cand).AdapterSlot? && BaseOf(cand).incr == 0
    requires registry.Valid() && EntryValid(cand)
    modifies registry
    ensures (r, registry.entries) == Registered(old(registry.entries), cand, false)
    ensures (SlotOf(r), SlotsOf(registry.entries)) == RegisterSlot(old(SlotsOf(registry.entries)), SlotOf(cand), false)
    ensures registry.Valid() && EntryValid(r)
    ensures Objects(registry.entries) <= old(Objects(registry.entries)) + EntryObjects(cand)
  {
    ghost var before := registry.entries;
    var base := BaseOf(cand);
    var key := KeyAt(SlotOf(cand), base.incr);
    var err := registry.Register(key, cand);
    r := cand;
    SlotsOfUpdate(before, key, cand);
    ObjectsUpdate(before, key, cand);
  }

  /**
   * The statistic a new adapter wraps: the WithMetric value when it is of
   * the adapter's kind, otherwise a newly created one.
   */
  function StatFor(metric: Option<ForeignValue>, kind: Kind, created: ForeignValue): (stat: ForeignValue)
    ensures metric.Some? && kind in metric.value.caps ==> stat == metric.value
    ensures stat != created ==> metric == Some(stat) && kind in stat.caps
  {
    if metric.Some? && kind in metric.value.caps then metric.value else created
  }

  /** The adapter a constructor builds, as registration sees it. */
  function Candidate(kind: Kind, name: string, s: MetricSettings, created: ForeignValue): (c: Slot)
    ensures c.AdapterSlot? && c.kind == kind && c.suffix == Suffix(kind)
  {
    AdapterSlot(kind, s.measurement, name, Suffix(kind), s.tags, StatFor(s.metric, kind, created))
  }

  /** The adapter of the given kind around a base and a statistic. */
  method Build(kind: Kind, base: BaseMetric, stat: ForeignValue) returns (cand: Entry)
    ensures SlotOf(cand) == AdapterSlot(kind, base.measurement, base.name, base.suffix, base.tags, stat)
    ensures BaseOf(cand) == base && fresh(AdapterObject(cand)) && EntryValid(cand)
  {
    match kind {
      case CounterKind =>
        var c := new Counter(base, stat);
        cand := CounterEntry(c);
      case GaugeKind =>
        var c := new Gauge(base, stat);
        cand := GaugeEntry(c);
      case GaugeFloat64Kind =>
        var c := new GaugeFloat64(base, stat);
        cand := GaugeFloat64Entry(c);
      case HistogramKind =>
        var c := new HistogramMetric.Histogram(base, stat);
        cand := HistogramEntry(c);
      case MeterKind =>
        var c := new MeterMetric.Meter(base, stat);
        cand := MeterEntry(c);
      case TimerKind =>
        var c := new TimerMetric.Timer(base, stat);
        cand := TimerEntry(c);
    }
  }

  /**
   * reg: with a reporter, the collision walk from the candidate's current
   * disambiguator in the reporter's registry; without one, the default
   * registry under the current key. What comes back and what the registry
   * holds afterwards are what registration of the candidate's slot says;
   * the result is the candidate or an adapter registered before, and a
   * valid registry stays valid.
   */
  method Reg(cand: Entry, reporter: Option<Reporter>, g: Globals) returns (r: Entry)
    requires SlotOf(cand).AdapterSlot? && BaseOf(cand).incr == 0
    requires Target(reporter, g).Valid() && EntryValid(cand)
    modifies Target(reporter, g), BaseOf(cand)
    ensures (r, Target(reporter, g).entries) == Registered(old(Target(reporter, g).entries), cand, reporter.Some?)
    ensures (SlotOf(r), SlotsOf(Target(reporter, g).entries))
      == RegisterSlot(old(SlotsOf(Target(reporter, g).entries)), SlotOf(cand), reporter.Some?)
    ensures r == cand || r in old(Target(reporter, g).entries).Values
    ensures AdapterKind(SlotOf(r)) == Some(SlotOf(cand).kind)
    ensures Target(reporter, g).Valid() && EntryValid(r)
    ensures Objects(Target(reporter, g).entries) <= old(Objects(Target(reporter, g).entries)) + EntryObjects(cand)
  {
    if reporter.Some? {
      r := RegReporter(cand, reporter.value);
    } else {
      r := RegDefault(cand, g.defaultRegistry);
    }
  }

  /** The reporter branch of reg, from disambiguator 0, seen through slots. */
  method RegReporter(cand: Entry, rep: Reporter) returns (r: Entry)
    requires SlotOf(cand).AdapterSlot? && BaseOf(cand).incr == 0
    requires rep.registry.Valid() && EntryValid(cand)
    modifies rep.registry, BaseOf(cand)
    ensures (r, rep.registry.entries) == RegOutcome(old(rep.registry.entries), cand, 0)
    ensures (SlotOf(r), SlotsOf(rep.registry.entries)) == RegisterSlot(old(SlotsOf(rep.registry.entries)), SlotOf(cand), true)
    ensures r == cand || r in old(rep.registry.entries).Values
    ensures AdapterKind(SlotOf(r)) == Some(SlotOf(cand).kind)
    ensures rep.registry.Valid() && EntryValid(r)
    ensures Objects(rep.registry.entries) <= old(Objects(rep.registry.entries)) + EntryObjects(cand)
  {
    ghost var before := rep.registry.entries;
    r := RegValid(cand, rep);
    RegOutcomeSlots(before, cand);
    NeverOverwrites(SlotsOf(before), SlotOf(cand), true);
  }

  /** The walk from disambiguator 0 keeps a valid registry valid and returns a valid adapter. */
  method RegValid(cand: Entry, rep: Reporter) returns (r: Entry)
    requires SlotOf(cand).AdapterSlot? && BaseOf(cand).incr == 0
    requires rep.registry.Valid() && EntryValid(cand)
    modifies rep.registry, BaseOf(cand)
    ensures (r, rep.registry.entries) == RegOutcome(old(rep.registry.entries), cand, 0)
    ensures rep.registry.Valid() && EntryValid(r)
    ensures Objects(rep.registry.entries) <= old(Objects(rep.registry.entries)) + EntryObjects(cand)
  {
    ghost var before := rep.registry.entries;
    RegOutcomeKeepsValid(before, cand, 0);
    RegOutcomeObjects(before, cand, 0);
    ghost var outcome := RegOutcome(before, cand, 0);
    OutsideObjects(outcome.1, BaseOf(cand), rep.registry);
    assert AllValid(outcome.1) && EntryValid(outcome.0);
    r := RegWith(cand, rep);
    assert rep.registry.entries == outcome.1;
    assert AllValid(outcome.1) && EntryValid(outcome.0);
  }

  /**
   * What registering `e` did to the objects of `target`: every object it
   * gained is new, and `e`'s own objects were either there before or are new.
   */
  twostate predicate Grown(target: Registry, new e: Entry)
    reads target
  {
    && fresh(Objects(target.entries) - old(Objects(target.entries)))
    && (EntryObjects(e) <= old(Objects(target.entries)) || fresh(EntryObjects(e)))
  }

  /**
   * newCounter, newGauge, newGaugeFloat64, newHistogram, newMeter and
   * newTimer, which differ only in the adapter they build: newMetric, then
   * a fresh base with the kind's suffix, the statistic, the adapter, then
   * reg. The result is what registration of the candidate returns, and the
   * target registry changes as registration says; a returned adapter is
   * either newly built or was already registered.
   */
  method NewAdapter(kind: Kind, name: string, options: seq<MetricOption>, g: Globals, created: ForeignValue)
    returns (e: Entry)
    requires Target(SettingsFor(options, g.defaultReporter).reporter, g).Valid()
    modifies Target(SettingsFor(options, g.defaultReporter).reporter, g)
    ensures var s := old(SettingsFor(options, g.defaultReporter));
      var target := Target(s.reporter, g);
      && (SlotOf(e), SlotsOf(target.entries))
         == RegisterSlot(old(SlotsOf(target.entries)), Candidate(kind, name, s, created), s.reporter.Some?)
      && RegisteredAs(old(target.entries), target.entries, e, Candidate(kind, name, s, created), s.reporter.Some?)
      && (!Retrieves(old(SlotsOf(target.entries)), Candidate(kind, name, s, created), s.reporter.Some?) ==> fresh(AdapterObject(e)))
      && AdapterKind(SlotOf(e)) == Some(kind)
      && (e in old(target.entries).Values || fresh(AdapterObject(e)))
      && target.Valid() && EntryValid(e) && Grown(target, e)
  {
    var s := NewMetric(options, g);
    assert s == old(SettingsFor(options, g.defaultReporter));
    assert Target(s.reporter, g) == old(Target(s.reporter, g));
    e := ConstructAndReg(kind, name, s, g, created);
  }

  /** What the constructors do once newMetric has given the settings `s`. */
  method ConstructAndReg(kind: Kind, name: string, s: MetricSettings, g: Globals, created: ForeignValue)
    returns (e: Entry)
    requires Target(s.reporter, g).Valid()
    modifies Target(s.reporter, g)
    ensures var target := Target(s.reporter, g);
      && (SlotOf(e), SlotsOf(target.entries))
         == RegisterSlot(old(SlotsOf(target.entries)), Candidate(kind, name, s, created), s.reporter.Some?)
      && RegisteredAs(old(target.entries), target.entries, e, Candidate(kind, name, s, created), s.reporter.Some?)
      && (!Retrieves(old(SlotsOf(target.entries)), Candidate(kind, name, s, created), s.reporter.Some?) ==> fresh(AdapterObject(e)))
      && AdapterKind(SlotOf(e)) == Some(kind)
      && (e in old(target.entries).Values || fresh(AdapterObject(e)))
      && target.Valid() && EntryValid(e) && Grown(target, e)
  {
    var cand := Construct(kind, name, s, created);
    ghost var before := Target(s.reporter, g).entries;
    e := Reg(cand, s.reporter, g);
    RegisteredCases(before, cand, s.reporter.Some?);
    if e in before.Values {
      ValueObjects(before, e);
    }
  }

  /**
   * The adapter a constructor builds before registering it: a fresh base
   * with the settings and the kind's suffix, around the statistic StatFor
   * picks.
   */
  method Construct(kind: Kind, name: string, s: MetricSettings, created: ForeignValue) returns (cand: Entry)
    ensures SlotOf(cand) == Candidate(kind, name, s, created)
    ensures fresh(BaseOf(cand)) && BaseOf(cand).incr == 0
    ensures fresh(AdapterObject(cand)) && EntryValid(cand)
  {
    var base := new BaseMetric(name, s.measurement, s.tags, Suffix(kind), s.metric);
    var stat := StatFor(s.metric, kind, created);
    cand := Build(kind, base, stat);
  }

  /** newCounter: a counter adapter, created or retrieved as registration says. */
  method NewCounter(name: string, options: seq<MetricOption>, g: Globals, created: ForeignValue) returns (c: Counter)
    requires Target(SettingsFor(options, g.defaultReporter).reporter, g).Valid()
    modifies Target(SettingsFor(options, g.defaultReporter).reporter, g)
    ensures var s := old(SettingsFor(options, g.defaultReporter));
      var target := Target(s.reporter, g);
      var (res, after) := RegisterSlot(old(SlotsOf(target.entries)), Candidate(CounterKind, name, s, created), s.reporter.Some?);
      && SlotOf(CounterEntry(c)) == res && SlotsOf(target.entries) == after && target.Valid()
      && RegisteredAs(old(target.entries), target.entries, CounterEntry(c), Candidate(CounterKind, name, s, created), s.reporter.Some?)
      && (!Retrieves(old(SlotsOf(target.entries)), Candidate(CounterKind, name, s, created), s.reporter.Some?) ==> fresh(c))
      && (CounterEntry(c) in old(target.entries).Values || fresh(c))
  {
    var e := NewAdapter(CounterKind, name, options, g, created);
    c := e.c;
  }

  /** newGauge: a gauge adapter, created or retrieved as registration says. */
  method NewGauge(name: string, options: seq<MetricOption>, g: Globals, created: ForeignValue) returns (gauge: Gauge)
    requires Target(SettingsFor(options, g.defaultReporter).reporter, g).Valid()
    modifies Target(SettingsFor(options, g.defaultReporter).reporter, g)
    ensures var s := old(SettingsFor(options, g.defaultReporter));
      var target := Target(s.reporter, g);
      var (res, after) := RegisterSlot(old(SlotsOf(target.entries)), Candidate(GaugeKind, name, s, created), s.reporter.Some?);
      && SlotOf(GaugeEntry(gauge)) == res && SlotsOf(target.entries) == after && target.Valid()
      && RegisteredAs(old(target.entries), target.entries, GaugeEntry(gauge), Candidate(GaugeKind, name, s, created), s.reporter.Some?)
      && (!Retrieves(old(SlotsOf(target.entries)), Candidate(GaugeKind, name, s, created), s.reporter.Some?) ==> fresh(gauge))
      && (GaugeEntry(gauge) in old(target.entries).Values || fresh(gauge))
  {
    var e := NewAdapter(GaugeKind, name, options, g, created);
    gauge := e.g;
  }

  /** newGaugeFloat64: a float gauge adapter, created or retrieved as registration says. */
  method NewGaugeFloat64(name: string, options: seq<MetricOption>, g: Globals, created: ForeignValue) returns (f: GaugeFloat64)
    requires Target(SettingsFor(options, g.defaultReporter).reporter, g).Valid()
    modifies Target(SettingsFor(options, g.defaultReporter).reporter, g)
    ensures var s := old(SettingsFor(options, g.defaultReporter));
      var target := Target(s.reporter, g);
      var (res, after) := RegisterSlot(old(SlotsOf(target.entries)), Candidate(GaugeFloat64Kind, name, s, created), s.reporter.Some?);
      && SlotOf(GaugeFloat64Entry(f)) == res && SlotsOf(target.entries) == after && target.Valid()
      && RegisteredAs(old(target.entries), target.entries, GaugeFloat64Entry(f), Candidate(GaugeFloat64Kind, name, s, created), s.reporter.Some?)
      && (!Retrieves(old(SlotsOf(target.entries)), Candidate(GaugeFloat64Kind, name, s, created), s.reporter.Some?) ==> fresh(f))
      && (GaugeFloat64Entry(f) in old(target.entries).Values || fresh(f))
  {
    var e := NewAdapter(GaugeFloat64Kind, name, options, g, created);
    f := e.f;
  }

  /** newHistogram: a histogram adapter, created or retrieved as registration says. */
  method NewHistogram(name: string, options: seq<MetricOption>, g: Globals, created: ForeignValue) returns (h: HistogramMetric.Histogram)
    requires Target(SettingsFor(options, g.defaultReporter).reporter, g).Valid()
    modifies Target(SettingsFor(options, g.defaultReporter).reporter, g)
    ensures var s := old(SettingsFor(options, g.defaultReporter));
      var target := Target(s.reporter, g);
      var (res, after) := RegisterSlot(old(SlotsOf(target.entries)), Candidate(HistogramKind, name, s, created), s.reporter.Some?);
      && SlotOf(HistogramEntry(h)) == res && SlotsOf(target.entries) == after && target.Valid()
      && RegisteredAs(old(target.entries), target.entries, HistogramEntry(h), Candidate(HistogramKind, name, s, created), s.reporter.Some?)
      && (!Retrieves(old(SlotsOf(target.entries)), Candidate(HistogramKind, name, s, created), s.reporter.Some?) ==> fresh(h))
      && (HistogramEntry(h) in old(target.entries).Values || fresh(h))
      && h.Valid() && h.buckets == HistogramMetric.Buckets
  {
    var e := NewAdapter(HistogramKind, name, options, g, created);
    h := e.h;
  }

  /** newMeter: a meter adapter, created or retrieved as registration says. */
  method NewMeter(name: string, options: seq<MetricOption>, g: Globals, created: ForeignValue) returns (m: MeterMetric.Meter)
    requires Target(SettingsFor(options, g.defaultReporter).reporter, g).Valid()
    modifies Target(SettingsFor(options, g.defaultReporter).reporter, g)
    ensures var s := old(SettingsFor(options, g.defaultReporter));
      var target := Target(s.reporter, g);
      var (res, after) := RegisterSlot(old(SlotsOf(target.entries)), Candidate(MeterKind, name, s, created), s.reporter.Some?);
      && SlotOf(MeterEntry(m)) == res && SlotsOf(target.entries) == after && target.Valid()
      && RegisteredAs(old(target.entries), target.entries, MeterEntry(m), Candidate(MeterKind, name, s, created), s.reporter.Some?)
      && (!Retrieves(old(SlotsOf(target.entries)), Candidate(MeterKind, name, s, created), s.reporter.Some?) ==> fresh(m))
      && (MeterEntry(m) in old(target.entries).Values || fresh(m))
      && m.Valid() && m.buckets == MeterMetric.Buckets
  {
    var e := NewAdapter(MeterKind, name, options, g, created);
    m := e.m;
  }

  /** newTimer: a timer adapter, created or retrieved as registration says. */
  method NewTimer(name: string, options: seq<MetricOption>, g: Globals, created: ForeignValue) returns (t: TimerMetric.Timer)
    requires Target(SettingsFor(options, g.defaultReporter).reporter, g).Valid()
    modifies Target(SettingsFor(options, g.defaultReporter).reporter, g)
    ensures var s := old(SettingsFor(options, g.defaultReporter));
      var target := Target(s.reporter, g);
      var (res, after) := RegisterSlot(old(SlotsOf(target.entries)), Candidate(TimerKind, name, s, created), s.reporter.Some?);
      && SlotOf(TimerEntry(t)) == res && SlotsOf(target.entries) == after && target.Valid()
      && RegisteredAs(old(target.entries), target.entries, TimerEntry(t), Candidate(TimerKind, name, s, created), s.reporter.Some?)
      && (!Retrieves(old(SlotsOf(target.entries)), Candidate(TimerKind, name, s, created), s.reporter.Some?) ==> fresh(t))
      && (TimerEntry(t) in old(target.entries).Values || fresh(t))
      && t.Valid() && t.buckets == TimerMetric.Buckets
  {
    var e := NewAdapter(TimerKind, name, options, g, created);
    t := e.t;
  }

  /**
   * Two calls of newCounter with the same name and options under a
   * reporter give the same counter, unless a value that is no Metric holds
   * the key the name resolves to.
   */
  method SecondNewCounterReturnsFirst(name: string, options: seq<MetricOption>, g: Globals, created1: ForeignValue, created2: ForeignValue)
    returns (c1: Counter, c2: Counter)
    requires Target(SettingsFor(options, g.defaultReporter).reporter, g).Valid()
    modifies Target(SettingsFor(options, g.defaultReporter).reporter, g)
    ensures var s := SettingsFor(options, g.defaultReporter);
      s.reporter.Some? &&
      Resolve(old(SlotsOf(Target(s.reporter, g).entries)), s.measurement, name, Suffix(CounterKind), CounterKind, 0).status != Blocked
      ==> c2 == c1
  {
    ghost var s := SettingsFor(options, g.defaultReporter);
    ghost var before := Target(s.reporter, g).entries;
    c1 := NewCounter(name, options, g, created1);
    ghost var after1 := Target(s.reporter, g).entries;
    c2 := NewCounter(name, options, g, created2);
    if s.reporter.Some? {
      SecondConstructionRetrievesFirst(before, after1, CounterEntry(c1), Candidate(CounterKind, name, s, created1),
                                       Target(s.reporter, g).entries, CounterEntry(c2), Candidate(CounterKind, name, s, created2));
    }
  }

  /** The go-metrics interfaces Register tries, in its order. */
  const RegisterOrder: seq<Kind> := [CounterKind, GaugeKind, GaugeFloat64Kind, TimerKind, MeterKind, HistogramKind]

  /** The first kind of `order` that `caps` contains: the case a type switch takes. */
  function FirstIn(order: seq<Kind>, caps: set<Kind>): (k: Option<Kind>)
    ensures k.None? <==> forall i :: 0 <= i < |order| ==> order[i] !in caps
    ensures k.Some? ==> k.value in caps && exists i :: 0 <= i < |order| && order[i] == k.value &&
                                                      forall j :: 0 <= j < i ==> order[j] !in caps
  {
    if order == [] then None
    else if order[0] in caps then Some(order[0])
    else
      var k := FirstIn(order[1..], caps);
      if k.Some? then
        var i :| 0 <= i < |order[1..]| && order[1..][i] == k.value &&
                 forall j :: 0 <= j < i ==> order[1..][j] !in caps;
        assert order[i + 1] == k.value;
        k
      else k
  }

  /**
   * Register: a value implementing Metric is wrapped in the adapter of the
   * first go-metrics interface it satisfies, in Register's order, with
   * WithMetric(value) appended to the options, so that the adapter wraps the
   * value itself; a value satisfying none is refused and nothing changes.
   */
  method Register(name: string, metric: ForeignValue, options: seq<MetricOption>, g: Globals, created: ForeignValue)
    returns (err: bool)
    requires metric.isMetric
    requires Target(SettingsFor(options + [WithMetric(metric)], g.defaultReporter).reporter, g).Valid()
    modifies Target(SettingsFor(options + [WithMetric(metric)], g.defaultReporter).reporter, g)
    ensures var s := SettingsFor(options + [WithMetric(metric)], g.defaultReporter);
      var target := Target(s.reporter, g);
      var k := FirstIn(RegisterOrder, metric.caps);
      && (err <==> k.None?)
      && (err ==> target.entries == old(target.entries))
      && (!err ==> Candidate(k.value, name, s, created).stat == metric
                   && SlotsOf(target.entries)
                      == RegisterSlot(old(SlotsOf(target.entries)), Candidate(k.value, name, s, created), s.reporter.Some?).1)
      && target.Valid()
  {
    var opts := options + [WithMetric(metric)];
    var k := FirstIn(RegisterOrder, metric.caps);
    if k.None? {
      return true;
    }
    ghost var s := SettingsFor(opts, g.defaultReporter);
    assert s.metric == Some(metric) by {
      assert opts[..|opts| - 1] == options;
    }
    assert Candidate(k.value, name, s, created).stat == metric;
    var e := NewAdapter(k.value, name, opts, g, created);
    err := false;
  }
}

/**
 * Collecting points (reporter.go, getPoints and basicMetric) and one
 * interval tick of run. The registry is iterated over a copy, so what
 * registration does during a flush is seen only by the next one; a value
 * that does not implement Metric is wrapped by the adapter constructor of
 * its go-metrics interface, which registers the wrapper too.
 *
 * The statistics' readings and the points of an application's own Metric
 * are inputs: a Sampler gives them.
 */
module Collection {
  import opened Wrappers
  import opened Points
  import opened Base
  import opened Snapshots
  import opened MetricRegistry
  import opened Reporting
  import opened Registration
  import opened CounterMetric
  import opened GaugeMetric
  import opened GaugeFloat64Metric
  import HistogramMetric
  import MeterMetric
  import TimerMetric

  /**
   * What the statistics read at flush time: the snapshot of a go-metrics
   * statistic, and the points an application's own Metric appends.
   */
  datatype Sampler = Sampler(snap: ForeignValue -> Snapshot, custom: ForeignValue -> seq<Point>)

  /** The points a registered Metric appends, as its slot shows it; a non-Metric appends none. */
  function SlotPoints(s: Slot, sample: Sampler): seq<Point>
  {
    match s
    case ForeignSlot(v) => if v.isMetric then sample.custom(v) else []
    case AdapterSlot(kind, measurement, name, suffix, tags, stat) =>
      var snap := sample.snap(stat);
      var field := name + suffix;
      match kind
      case CounterKind => [GetPoint(measurement, map[field := IntValue(snap.count)], tags)]
      case GaugeKind => [GetPoint(measurement, map[field := IntValue(snap.value)], tags)]
      case GaugeFloat64Kind => [GetPoint(measurement, map[field := FloatValue(snap.floatValue)], tags)]
      case HistogramKind => HistogramMetric.BucketPoints(measurement, field, tags, snap)
      case MeterKind => MeterMetric.BucketPoints(measurement, field, tags, snap)
      case TimerKind => TimerMetric.BucketPoints(measurement, field, tags, snap)
  }

  /** The objects registry validity reads already exist. */
  lemma ObjectsAllocated(entries: map<string, Entry>)
    ensures forall o :: o in Objects(entries) ==> allocated(o)
  {
  }

  /** A registry is never among the objects registry validity reads. */
  lemma RegistryOutside(entries: map<string, Entry>, registry: Registry)
    ensures registry !in Objects(entries)
  {
  }

  /**
   * AddPoints of a registered Metric: the adapter's own points for its
   * statistic's snapshot, or the points an application's Metric appends,
   * after the input. Only a bucketed adapter's bucket maps change.
   */
  method EntryAddPoints(e: Entry, pts: seq<Point>, sample: Sampler) returns (r: seq<Point>)
    requires IsMetricSlot(SlotOf(e)) && EntryValid(e)
    modifies EntryObjects(e)
    ensures r == pts + SlotPoints(SlotOf(e), sample)
    ensures EntryValid(e)
  {
    match e {
      case CounterEntry(c) =>
        r := c.AddPoints(pts, sample.snap(c.stat));
      case GaugeEntry(g) =>
        r := g.AddPoints(pts, sample.snap(g.stat));
      case GaugeFloat64Entry(f) =>
        r := f.AddPoints(pts, sample.snap(f.stat));
      case HistogramEntry(h) =>
        r := h.AddPoints(pts, sample.snap(h.stat));
        HistogramMetric.PointsForIsPoints(h, sample.snap(h.stat));
      case MeterEntry(m) =>
        r := m.AddPoints(pts, sample.snap(m.stat));
        MeterMetric.PointsForIsPoints(m, sample.snap(m.stat));
      case TimerEntry(t) =>
        r := t.AddPoints(pts, sample.snap(t.stat));
        TimerMetric.PointsForIsPoints(t, sample.snap(t.stat));
      case ForeignEntry(v) =>
        r := pts + sample.custom(v);
    }
  }

  /**
   * The package state and the registries are never among the objects a
   * flush overwrites: those are the bucketed adapters.
   */
  lemma Apart(e: Entry, entries: map<string, Entry>, g: Globals, registry: Registry)
    ensures g !in EntryObjects(e) && g !in Objects(entries)
    ensures registry !in EntryObjects(e) && registry !in Objects(entries)
    ensures g.defaultReporter.Some? ==> g.defaultReporter.value !in EntryObjects(e) + Objects(entries)
  {
  }

  /** EntryAddPoints, keeping valid two registries that were valid before. */
  method AddPointsKeepingValid(e: Entry, pts: seq<Point>, sample: Sampler, ghost a: map<string, Entry>,
                               ghost b: map<string, Entry>)
    returns (r: seq<Point>)
    requires IsMetricSlot(SlotOf(e)) && EntryValid(e) && AllValid(a) && AllValid(b)
    modifies EntryObjects(e)
    ensures r == pts + SlotPoints(SlotOf(e), sample)
    ensures EntryValid(e) && AllValid(a) && AllValid(b)
  {
    r := EntryAddPoints(e, pts, sample);
    forall m, k | (m == a || m == b) && k in m
      ensures EntryValid(m[k])
    {
      KeyObjects(m, k);
      if IsBucketed(m[k]) && BucketObject(m[k]) in EntryObjects(e) {
        assert m[k] == e;
      } else {
        assert old(EntryValid(m[k]));
      }
    }
  }

  /** The go-metrics interfaces basicMetric tries, in its order. */
  const WrapOrder: seq<Kind> := [CounterKind, GaugeKind, GaugeFloat64Kind, HistogramKind, MeterKind, TimerKind]

  /**
   * The settings basicMetric's constructor runs with: newMetric of the one
   * option WithMetric(v) is newMetric of no option with v as the metric.
   */
  lemma WrapSettings(v: ForeignValue, d: Option<Reporter>)
    ensures SettingsFor([WithMetric(v)], d) == SettingsFor([], d).(metric := Some(v))
    ensures SettingsFor([WithMetric(v)], d).reporter == d
  {
    assert [WithMetric(v)][..0] == [];
  }

  /** A flush so far: the points collected and the target registry as slots. */
  datatype Flush = Flush(points: seq<Point>, registered: map<string, Slot>)

  /**
   * One entry of the iteration: a Metric appends its points; any other
   * value is wrapped in the adapter of the first interface of WrapOrder it
   * satisfies, which is registered like any new adapter and appends the
   * points of what registration returns; a value of none of them adds
   * nothing. `ctx` is newMetric's settings for no option.
   */
  function Visit(f: Flush, name: string, slot: Slot, sample: Sampler, ctx: MetricSettings): Flush
  {
    if IsMetricSlot(slot) then Flush(f.points + SlotPoints(slot, sample), f.registered)
    else
      match FirstIn(WrapOrder, slot.v.caps)
      case None => f
      case Some(k) =>
        var (res, after) := RegisterSlot(f.registered, Candidate(k, name, ctx.(metric := Some(slot.v)), slot.v),
                                         ctx.reporter.Some?);
        Flush(f.points + SlotPoints(res, sample), after)
  }

  /** The entries of `slots` visited in `order`, starting from `f`. */
  function Collect(f: Flush, slots: map<string, Slot>, order: seq<string>, sample: Sampler, ctx: MetricSettings): Flush
    requires forall i :: 0 <= i < |order| ==> order[i] in slots
    decreases |order|
  {
    if order == [] then f
    else
      var last := order[|order| - 1];
      Visit(Collect(f, slots, order[..|order| - 1], sample, ctx), last, slots[last], sample, ctx)
  }

  /** `order` lists every key of `keys` exactly once. */
  predicate Enumerates(order: seq<string>, keys: set<string>)
  {
    && (forall i :: 0 <= i < |order| ==> order[i] in keys)
    && (forall k :: k in keys ==> k in order)
    && (forall i, j :: 0 <= i < j < |order| ==> order[i] != order[j])
  }

  /** Visiting one more key extends the fold by one visit. */
  lemma CollectStep(f: Flush, slots: map<string, Slot>, order: seq<string>, name: string, sample: Sampler,
                    ctx: MetricSettings)
    requires forall i :: 0 <= i < |order| ==> order[i] in slots
    requires name in slots
    ensures Collect(f, slots, order + [name], sample, ctx) == Visit(Collect(f, slots, order, sample, ctx), name, slots[name], sample, ctx)
  {
    assert (order + [name])[..|order|] == order;
  }

  /** Listing one more of the keys still to visit lists the keys visited so far. */
  lemma EnumeratesStep(order: seq<string>, keys: set<string>, remaining: set<string>, name: string)
    requires remaining <= keys && Enumerates(order, keys - remaining) && name in remaining
    ensures remaining - {name} <= keys && Enumerates(order + [name], keys - (remaining - {name}))
  {
    assert keys - (remaining - {name}) == (keys - remaining) + {name};
  }

  /** A visit that wraps: the value's wrapper is registered and the points of what comes back are appended. */
  lemma VisitWraps(f: Flush, name: string, v: ForeignValue, sample: Sampler, ctx: MetricSettings, k: Kind)
    requires !v.isMetric && FirstIn(WrapOrder, v.caps) == Some(k)
    ensures var (res, after) := RegisterSlot(f.registered, Candidate(k, name, ctx.(metric := Some(v)), v), ctx.reporter.Some?);
      Visit(f, name, ForeignSlot(v), sample, ctx) == Flush(f.points + SlotPoints(res, sample), after)
  {
  }

  /**
   * The wrapper basicMetric builds for a value: the constructor of `kind`
   * with WithMetric(value) alone, so it registers with the default
   * reporter, or in the default registry when there is none. A valid
   * registry given as `keep` stays valid.
   */
  method Wrap(kind: Kind, name: string, v: ForeignValue, g: Globals, ghost keep: map<string, Entry>) returns (e: Entry)
    requires kind in v.caps
    requires Target(g.defaultReporter, g).Valid() && AllValid(keep)
    modifies Target(g.defaultReporter, g)
    ensures var target := Target(g.defaultReporter, g);
      && (SlotOf(e), SlotsOf(target.entries))
         == RegisterSlot(old(SlotsOf(target.entries)), Candidate(kind, name, SettingsFor([], g.defaultReporter).(metric := Some(v)), v),
                         g.defaultReporter.Some?)
      && target.Valid() && AllValid(keep) && EntryValid(e) && IsMetricSlot(SlotOf(e)) && Grown(target, e)
  {
    RegistryOutside(keep, Target(g.defaultReporter, g));
    ObjectsAllocated(keep);
    WrapSettings(v, g.defaultReporter);
    e := NewAdapter(kind, name, [WithMetric(v)], g, v);
  }

  /**
   * basicMetric: a value that does not implement Metric is wrapped by the
   * adapter of the first interface of WrapOrder it satisfies, and the
   * points of what registration returns are appended; a value of none of
   * them appends nothing.
   */
  method BasicMetric(pts: seq<Point>, name: string, v: ForeignValue, g: Globals, sample: Sampler,
                     ghost keep: map<string, Entry>)
    returns (r: seq<Point>)
    requires !v.isMetric
    requires Target(g.defaultReporter, g).Valid() && AllValid(keep)
    modifies Target(g.defaultReporter, g), Objects(Target(g.defaultReporter, g).entries)
    ensures var target := Target(g.defaultReporter, g);
      Flush(r, SlotsOf(target.entries))
        == Visit(Flush(pts, old(SlotsOf(target.entries))), name, ForeignSlot(v), sample, SettingsFor([], g.defaultReporter))
    ensures Target(g.defaultReporter, g).Valid() && AllValid(keep)
    ensures fresh(Objects(Target(g.defaultReporter, g).entries) - old(Objects(Target(g.defaultReporter, g).entries)))
  {
    var k := FirstIn(WrapOrder, v.caps);
    if k.None? {
      return pts;
    }
    var target := Target(g.defaultReporter, g);
    ghost var ctx := SettingsFor([], g.defaultReporter);
    ghost var start := Flush(pts, SlotsOf(target.entries));
    VisitWraps(start, name, v, sample, ctx, k.value);
    Apart(ForeignEntry(v), target.entries, g, target);
    var e := Wrap(k.value, name, v, g, keep);
    ghost var registered := target.entries;
    Apart(e, target.entries, g, target);
    r := AddPointsKeepingValid(e, pts, sample, keep, target.entries);
    assert target.entries == registered && Target(g.defaultReporter, g) == target;
  }

  /**
   * What basicMetric's wrappers depend on: the target registry and the
   * settings newMetric gives without options, both read from the default
   * reporter.
   */
  ghost predicate Setup(g: Globals, target: Registry, ctx: MetricSettings)
    reads g, if g.defaultReporter.Some? then {g.defaultReporter.value} else {}
  {
    target == Target(g.defaultReporter, g) && ctx == SettingsFor([], g.defaultReporter)
  }

  /**
   * One call of getPoints' callback: a Metric's own AddPoints, or
   * basicMetric for any other value. `snapshot` is the registry being
   * iterated, which stays valid.
   */
  method VisitEntry(pts: seq<Point>, name: string, e: Entry, g: Globals, sample: Sampler, target: Registry,
                    ghost ctx: MetricSettings, ghost snapshot: map<string, Entry>)
    returns (r: seq<Point>, ghost added: set<object>)
    requires Setup(g, target, ctx)
    requires EntryValid(e) && EntryObjects(e) <= Objects(snapshot)
    requires target.Valid() && AllValid(snapshot)
    modifies target, Objects(target.entries), EntryObjects(e)
    ensures Setup(g, target, ctx)
    ensures Flush(r, SlotsOf(target.entries)) == Visit(Flush(pts, old(SlotsOf(target.entries))), name, SlotOf(e), sample, ctx)
    ensures target.Valid() && AllValid(snapshot)
    ensures Objects(target.entries) <= old(Objects(target.entries)) + added && fresh(added)
  {
    Apart(e, target.entries, g, target);
    if IsMetricSlot(SlotOf(e)) {
      ghost var registered := target.entries;
      r := AddPointsKeepingValid(e, pts, sample, snapshot, target.entries);
      assert target.entries == registered && Target(g.defaultReporter, g) == target;
      added := {};
    } else {
      ghost var before := Objects(target.entries);
      r := BasicMetric(pts, name, e.v, g, sample, snapshot);
      added := Objects(target.entries) - before;
    }
  }

  /**
   * getPoints: every entry of the reporter's registry, as it was when the
   * flush began, is visited once, in an order the model leaves open (Go's
   * map order); the points are the input followed by what each visit
   * appends, and the wrappers' target registry changes as the visits say.
   */
  method GetPoints(rep: Reporter, pts: seq<Point>, g: Globals, sample: Sampler)
    returns (out: seq<Point>, ghost order: seq<string>)
    requires rep.registry.Valid() && Target(g.defaultReporter, g).Valid()
    modifies Target(g.defaultReporter, g), Objects(rep.registry.entries), Objects(Target(g.defaultReporter, g).entries)
    ensures Enumerates(order, old(rep.registry.entries).Keys)
    ensures var target := Target(g.defaultReporter, g);
      Flush(out, SlotsOf(target.entries))
        == Collect(Flush(pts, old(SlotsOf(target.entries))), old(SlotsOf(rep.registry.entries)), order, sample,
                   SettingsFor([], g.defaultReporter))
    ensures Target(g.defaultReporter, g).Valid() && rep.registry.Valid()
  {
    var snapshot := rep.registry.entries;
    var target := Target(g.defaultReporter, g);
    RegistryOutside(snapshot, rep.registry);
    RegistryOutside(target.entries, rep.registry);
    out, order := VisitRest(pts, [], snapshot.Keys, g, sample, target, SettingsFor([], g.defaultReporter), snapshot,
                            Flush(pts, SlotsOf(target.entries)));
  }

  /**
   * Each over a copy of the registry, `snapshot`: the callback runs once
   * for each key not visited yet, in an order the model leaves open. The
   * visits so far, `done`, have brought the flush from `start` to `pts`.
   */
  method VisitRest(pts: seq<Point>, ghost done: seq<string>, remaining: set<string>, g: Globals, sample: Sampler,
                   target: Registry, ghost ctx: MetricSettings, snapshot: map<string, Entry>, ghost start: Flush)
    returns (out: seq<Point>, ghost order: seq<string>)
    requires Setup(g, target, ctx) && AllValid(snapshot) && target.Valid()
    requires remaining <= snapshot.Keys && Enumerates(done, snapshot.Keys - remaining)
    requires Flush(pts, SlotsOf(target.entries)) == Collect(start, SlotsOf(snapshot), done, sample, ctx)
    modifies target, Objects(snapshot), Objects(target.entries)
    ensures Setup(g, target, ctx) && target.Valid() && AllValid(snapshot) && Enumerates(order, snapshot.Keys)
    ensures Flush(out, SlotsOf(target.entries)) == Collect(start, SlotsOf(snapshot), order, sample, ctx)
    decreases |remaining|
  {
    if remaining == {} {
      assert snapshot.Keys - remaining == snapshot.Keys;
      return pts, done;
    }
    var name :| name in remaining;
    var e := snapshot[name];
    KeyObjects(snapshot, name);
    var next, added := VisitEntry(pts, name, e, g, sample, target, ctx, snapshot);
    CollectStep(start, SlotsOf(snapshot), done, name, sample, ctx);
    EnumeratesStep(done, snapshot.Keys, remaining, name);
    out, order := VisitRest(next, done + [name], remaining - {name}, g, sample, target, ctx, snapshot, start);
  }

  /**
   * One interval tick of run: the buffer is emptied, the points collected
   * into it, and the batch write sends is built from them; a write error is
   * only logged, so nothing of the failure carries over to the next tick.
   */
  method Tick(rep: Reporter, buffer: seq<Point>, now: nat, g: Globals, sample: Sampler)
    returns (batch: BatchPoints, ghost order: seq<string>)
    requires rep.registry.Valid() && Target(g.defaultReporter, g).Valid()
    modifies Target(g.defaultReporter, g), Objects(rep.registry.entries), Objects(Target(g.defaultReporter, g).entries)
    ensures Enumerates(order, old(rep.registry.entries).Keys)
    ensures var target := Target(g.defaultReporter, g);
      && batch.points == Collect(Flush([], old(SlotsOf(target.entries))), old(SlotsOf(rep.registry.entries)), order,
                                 sample, SettingsFor([], g.defaultReporter)).points
      && batch.database == rep.server.db && batch.time == rep.GetNow(now)
    ensures Target(g.defaultReporter, g).Valid() && rep.registry.Valid()
  {
    var pts := buffer[..0];
    pts, order := GetPoints(rep, pts, g, sample);
    batch := rep.WriteBatch(pts, now);
  }

  /**
   * Register and basicMetric try the go-metrics interfaces in different
   * orders, so a value satisfying several of them can get a different
   * adapter from each: exactly when it is no counter or gauge of either
   * kind and satisfies at least two of histogram, meter and timer.
   */
  lemma WrapOrderDiffers(caps: set<Kind>)
    ensures FirstIn(WrapOrder, caps) != FirstIn(RegisterOrder, caps) <==>
      && CounterKind !in caps && GaugeKind !in caps && GaugeFloat64Kind !in caps
      && ((HistogramKind in caps && MeterKind in caps) || (MeterKind in caps && TimerKind in caps)
          || (HistogramKind in caps && TimerKind in caps))
  {
    FirstInFrom(WrapOrder, caps);
    FirstInFrom(RegisterOrder, caps);
  }

  /**
   * A go-metrics value satisfies at most one of the six interfaces, since
   * each declares its own Snapshot result type; for such values the two
   * orders choose the same adapter.
   */
  lemma OrdersAgreeOnSingleInterface(caps: set<Kind>)
    requires |caps| <= 1
    ensures FirstIn(WrapOrder, caps) == FirstIn(RegisterOrder, caps)
  {
    WrapOrderDiffers(caps);
    if caps != {} {
      var k :| k in caps;
      assert |caps - {k}| == 0;
      assert caps == {k};
    }
  }

  /** The first kind of `order` in `caps` is the one at the first index whose kind `caps` holds. */
  lemma FirstInIs(order: seq<Kind>, caps: set<Kind>, i: nat)
    requires i < |order| && order[i] in caps
    requires forall j :: 0 <= j < i ==> order[j] !in caps
    ensures FirstIn(order, caps) == Some(order[i])
  {
    var k := FirstIn(order, caps);
    var i' :| 0 <= i' < |order| && order[i'] == k.value && forall j :: 0 <= j < i' ==> order[j] !in caps;
    if i' < i || i < i' {
      assert false;
    }
  }

  /** The type switch of either order, case by case. */
  lemma FirstInFrom(order: seq<Kind>, caps: set<Kind>)
    requires |order| == 6
    ensures order[0] in caps ==> FirstIn(order, caps) == Some(order[0])
    ensures order[0] !in caps && order[1] in caps ==> FirstIn(order, caps) == Some(order[1])
    ensures order[0] !in caps && order[1] !in caps && order[2] in caps ==> FirstIn(order, caps) == Some(order[2])
    ensures order[0] !in caps && order[1] !in caps && order[2] !in caps && order[3] in caps ==>
      FirstIn(order, caps) == Some(order[3])
    ensures order[0] !in caps && order[1] !in caps && order[2] !in caps && order[3] !in caps && order[4] in caps ==>
      FirstIn(order, caps) == Some(order[4])
    ensures (forall j :: 0 <= j < 5 ==> order[j] !in caps) && order[5] in caps ==> FirstIn(order, caps) == Some(order[5])
    ensures (forall j :: 0 <= j < 6 ==> order[j] !in caps) ==> FirstIn(order, caps) == None
  {
    var i := 0;
    while i < 6 && order[i] !in caps
      invariant 0 <= i <= 6
      invariant forall j :: 0 <= j < i ==> order[j] !in caps
    {
      i := i + 1;
    }
    if i < 6 {
      FirstInIs(order, caps, i);
    }
  }

  /**
   * A flush never overwrites a registered value: every key of the target
   * keeps its value, and the points collected so far stay in front.
   */
  lemma {:induction false} CollectNeverOverwrites(f: Flush, slots: map<string, Slot>, order: seq<string>, sample: Sampler,
                                                  ctx: MetricSettings)
    requires forall i :: 0 <= i < |order| ==> order[i] in slots
    ensures var r := Collect(f, slots, order, sample, ctx);
      && (forall k :: k in f.registered ==> k in r.registered && r.registered[k] == f.registered[k])
      && f.points <= r.points
    decreases |order|
  {
    if order != [] {
      var init := order[..|order| - 1];
      var last := order[|order| - 1];
      CollectNeverOverwrites(f, slots, init, sample, ctx);
      var mid := Collect(f, slots, init, sample, ctx);
      var slot := slots[last];
      if !IsMetricSlot(slot) && FirstIn(WrapOrder, slot.v.caps).Some? {
        var k := FirstIn(WrapOrder, slot.v.caps).value;
        NeverOverwrites(mid.registered, Candidate(k, last, ctx.(metric := Some(slot.v)), slot.v), ctx.reporter.Some?);
      }
    }
  }

  /** A flush that meets only Metric values registers nothing. */
  lemma {:induction false} MetricOnlyRegistersNothing(f: Flush, slots: map<string, Slot>, order: seq<string>,
                                                      sample: Sampler, ctx: MetricSettings)
    requires forall i :: 0 <= i < |order| ==> order[i] in slots && IsMetricSlot(slots[order[i]])
    ensures Collect(f, slots, order, sample, ctx).registered == f.registered
    decreases |order|
  {
    if order != [] {
      MetricOnlyRegistersNothing(f, slots, order[..|order| - 1], sample, ctx);
    }
  }

  /**
   * A value that does not implement Metric, in a registry that is also
   * where its wrapper is registered (the default setup: the reporter reads
   * go-metrics' default registry, which is the target when there is no
   * default reporter, and the default reporter's own registry otherwise):
   * the first flush reports it once and stores the wrapper under a key of
   * its own; every flush after that visits both the value, which reports
   * the same points again, and the wrapper, so the same points are sent
   * twice.
   */
  lemma RawValueReportedTwice(slots: map<string, Slot>, name: string, v: ForeignValue, k: Kind, sample: Sampler,
                              ctx: MetricSettings)
    requires name in slots && slots[name] == ForeignSlot(v) && !v.isMetric
    requires FirstIn(WrapOrder, v.caps) == Some(k)
    requires KeyAt(Candidate(k, name, ctx.(metric := Some(v)), v), 0) !in slots
    ensures var wrapper := Candidate(k, name, ctx.(metric := Some(v)), v);
      var key := KeyAt(wrapper, 0);
      var first := Collect(Flush([], slots), slots, [name], sample, ctx);
      && key != name
      && first.points == SlotPoints(wrapper, sample)
      && first.registered == slots[key := wrapper]
      && Collect(Flush([], first.registered), first.registered, [name, key], sample, ctx).points == first.points + first.points
      && Collect(Flush([], first.registered), first.registered, [key, name], sample, ctx).points == first.points + first.points
  {
    var wrapper := Candidate(k, name, ctx.(metric := Some(v)), v);
    var key := KeyAt(wrapper, 0);
    RawValueFirstFlush(slots, name, v, k, sample, ctx);
    RawValueLaterFlush(slots[key := wrapper], name, v, wrapper, sample, ctx);
  }

  /** The first flush of RawValueReportedTwice: the wrapper's points, and the wrapper stored at its own key. */
  lemma RawValueFirstFlush(slots: map<string, Slot>, name: string, v: ForeignValue, k: Kind, sample: Sampler,
                           ctx: MetricSettings)
    requires name in slots && slots[name] == ForeignSlot(v) && !v.isMetric
    requires FirstIn(WrapOrder, v.caps) == Some(k)
    requires KeyAt(Candidate(k, name, ctx.(metric := Some(v)), v), 0) !in slots
    ensures var wrapper := Candidate(k, name, ctx.(metric := Some(v)), v);
      var key := KeyAt(wrapper, 0);
      var first := Collect(Flush([], slots), slots, [name], sample, ctx);
      && key != name
      && wrapper.stat == v && wrapper.name == name
      && first.points == SlotPoints(wrapper, sample)
      && first.registered == slots[key := wrapper]
  {
    var wrapper := Candidate(k, name, ctx.(metric := Some(v)), v);
    var key := KeyAt(wrapper, 0);
    RegNameShape(wrapper.measurement, name, wrapper.suffix, 0);
    assert |key| > |name|;
    assert [name][..0] == [];
    if ctx.reporter.Some? {
      var o := Resolve(slots, wrapper.measurement, name, wrapper.suffix, k, 0);
      assert o.at == 0;
    }
    assert RegisterSlot(slots, wrapper, ctx.reporter.Some?) == (wrapper, slots[key := wrapper]);
  }

  /**
   * A later flush of RawValueReportedTwice: with the raw value at `name`
   * and its wrapper at the wrapper's key, either order of the two keys
   * collects the wrapper's points twice.
   */
  lemma RawValueLaterFlush(after: map<string, Slot>, name: string, v: ForeignValue, wrapper: Slot, sample: Sampler,
                           ctx: MetricSettings)
    requires wrapper.AdapterSlot? && wrapper.stat == v && wrapper.name == name
    requires name in after && after[name] == ForeignSlot(v) && !v.isMetric
    requires FirstIn(WrapOrder, v.caps) == Some(wrapper.kind)
    requires wrapper == Candidate(wrapper.kind, name, ctx.(metric := Some(v)), v)
    requires var key := KeyAt(wrapper, 0); key != name && key in after && after[key] == wrapper
    ensures var key := KeyAt(wrapper, 0);
      var once := SlotPoints(wrapper, sample);
      && Collect(Flush([], after), after, [name, key], sample, ctx).points == once + once
      && Collect(Flush([], after), after, [key, name], sample, ctx).points == once + once
  {
    var key := KeyAt(wrapper, 0);
    var once := SlotPoints(wrapper, sample);
    var start := Flush([], after);
    CollectPair(start, after, name, key, sample, ctx);
    CollectPair(start, after, key, name, sample, ctx);
    RawValueRevisited(start, name, v, wrapper, sample, ctx);
    assert Visit(start, key, wrapper, sample, ctx) == Flush(once, after);
    RawValueRevisited(Flush(once, after), name, v, wrapper, sample, ctx);
  }

  /** A fold over two keys is two visits. */
  lemma CollectPair(f: Flush, slots: map<string, Slot>, a: string, b: string, sample: Sampler, ctx: MetricSettings)
    requires a in slots && b in slots
    ensures Collect(f, slots, [a, b], sample, ctx) == Visit(Visit(f, a, slots[a], sample, ctx), b, slots[b], sample, ctx)
  {
    assert [a, b][..1] == [a];
    assert [a][..0] == [];
    assert Collect(f, slots, [a], sample, ctx) == Visit(f, a, slots[a], sample, ctx);
  }

  /**
   * Visiting the raw value again, with its wrapper already registered:
   * the wrapper's points are appended and the registry is unchanged.
   */
  lemma RawValueRevisited(f: Flush, name: string, v: ForeignValue, wrapper: Slot, sample: Sampler, ctx: MetricSettings)
    requires wrapper.AdapterSlot? && wrapper.stat == v && wrapper.name == name && !v.isMetric
    requires FirstIn(WrapOrder, v.caps) == Some(wrapper.kind)
    requires wrapper == Candidate(wrapper.kind, name, ctx.(metric := Some(v)), v)
    requires KeyAt(wrapper, 0) in f.registered && f.registered[KeyAt(wrapper, 0)] == wrapper
    ensures Visit(f, name, ForeignSlot(v), sample, ctx) == Flush(f.points + SlotPoints(wrapper, sample), f.registered)
  {
    if ctx.reporter.Some? {
      var o := Resolve(f.registered, wrapper.measurement, name, wrapper.suffix, wrapper.kind, 0);
      assert o.at == 0;
    }
    assert RegisterSlot(f.registered, wrapper, ctx.reporter.Some?) == (wrapper, f.registered);
  }


}

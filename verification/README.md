# metrics: a Dafny model

A model of the Go package `github.com/tehsphinx/metrics`. The package puts an
InfluxDB reporter on top of the statistics of `rcrowley/go-metrics`. The model
covers the path from "a metric is created" to "a batch is handed to the
database client":

- the tag and point builders (`funcs.go`, module `Points`);
- the registration key and the collision-disambiguating registration `reg`
  (`metric.go`, modules `Base`, `MetricRegistry` and `Registration`);
- the six adapters and their `AddPoints` (`m_*.go`, modules `CounterMetric`,
  `GaugeMetric`, `GaugeFloat64Metric`, `HistogramMetric`, `MeterMetric` and
  `TimerMetric`);
- the reporter: its options, `Get`, `Register`, `open`, the batch `write`
  builds, `getNow`, the ping step and the preamble of `Run` (`reporter.go`,
  `options.go`, module `Reporting`);
- the metric options, `newMetric`, the `newX` constructors and the public
  `Register` dispatch (`metric.go`, `metrics.go`, `options.go`, module
  `Registration`);
- `getPoints`, `basicMetric` and one interval tick of `run` (`reporter.go`,
  module `Collection`).

Objects that the Go code updates in place are classes:
- the metric base (`Base.BaseMetric`), whose disambiguator `incr` is raised
  during registration;
- the bucketed adapters, whose per-bucket field maps are overwritten on every
  flush;
- the registry;
- the reporter;
- the package globals (the default reporter and go-metrics' default registry).

Every method is proved against a pure specification:
- registration against `MetricRegistry.RegisterSlot`, the collision walk on a
  `map<string, Slot>`;
- a flush against `Collection.Collect`, a left fold of `Collection.Visit`
  over an enumeration of the registry keys.

The lemmas state what the package promises about those specifications.

A Go dynamic type test becomes data. A registered value of a foreign type is a
`ForeignValue`: an identity, the set of go-metrics interfaces it satisfies
(`Kind`), and whether it has an `AddPoints` method. A type switch becomes
`Registration.FirstIn` over the switch's order.

The following are inputs and are not computed by the model:
- statistics, as a `Snapshot` record;
- the points of an application's own Metric, through a `Sampler`;
- the clock;
- what the InfluxDB client returns;
- whether the URL parses.

Behaviour of the code that the model keeps as it is:
- `composeTags` always returns a fresh, non-nil map, even for two nil sides
  (`Points.ComposeTags`, `Points.ComposeWithNil`).
- `basicMetric` registers the wrapper it builds. The wrapper is built by
  `newX(name, WithMetric(v))` with no reporter option, and that constructor
  registers it through `reg`:
  - into the default reporter's registry, not into the registry of the
    reporter that flushes;
  - or into go-metrics' default registry when there is no default reporter.

  In the default setup the reporter reads the registry the wrapper lands in,
  so each later flush visits both the raw value and its wrapper and sends the
  same points twice (`Collection.RawValueReportedTwice`).
- `basicMetric` tries Counter, Gauge, GaugeFloat64, Histogram, Meter, Timer.
  `Register` tries Counter, Gauge, GaugeFloat64, Timer, Meter, Histogram.
  `Collection.WrapOrderDiffers` characterises when the two choose different
  adapters. Each go-metrics interface declares its own `Snapshot` result
  type, so no go-metrics value satisfies two of them; for a value satisfying
  at most one the orders agree (`Collection.OrdersAgreeOnSingleInterface`).
  `ForeignValue` still allows any set of interfaces, so the lemma above covers
  values of other types as well.
- `register` is declared with a type-check parameter that `reg` never uses.
  `reg` compares dynamic types only. The model does the same, and keeps the
  float gauge's type check as `MetricRegistry.TypeCheck`.
- A disambiguated key `measurement/name1.gauge` is also the plain key of the
  name `name1`. After a float gauge `foo` has been moved there by a gauge
  `foo`, constructing a float gauge `foo1` returns the gauge `foo`
  (`MetricRegistry.DisambiguatedKeyCaptured`).
- The reporter's `running` flag starts false and nothing sets it, so the
  "already running" refusal of `Run` never happens
  (`Reporting.Reporter.Start`).
- `newMetric` starts every metric with the suffix `.metric`, and every
  constructor overwrites it with its own before the metric is used
  (m_counter.go:15 and its counterparts). The model therefore starts from the
  constructor's suffix (`Base.Suffix`).

## Model

| member | source | states |
|---|---|---|
| Points.BuildBucketVals | funcs.go:7-15 | the keys are exactly the bucket names, and each value is the single-field map `{field: 0.0}` |
| Points.BucketTags | funcs.go:25-36 | an empty bucket name gives the input tags back unchanged; any other name gives a non-nil map with every input tag plus `bucket` set to the name, which overrides an existing `bucket` |
| Points.BuildBucketTags | funcs.go:17-23 | the keys are exactly the bucket names, and the entry of each bucket is its BucketTags |
| Points.ComposeTags | funcs.go:38-47 | the result is non-nil, its keys are the union of both sides, a metric tag wins on a shared key, and the reporter's value stays elsewhere |
| Points.GetPoint | funcs.go:49-55 | measurement, tags and fields are stored verbatim, with no validation |
| Points.ComposeWithNil | funcs.go:38-47 | composing with a nil side yields the other side's entries in a non-nil map |
| Points.BucketTagsCount | funcs.go:30-35 | a named bucket over tags without `bucket` has exactly one tag more than its input |
| Points.BucketTagsWithoutBucket | funcs.go:30-35 | removing `bucket` from a bucket's tags gives the input tags back, so the input is copied and not altered |
| Base.Suffix | metric.go:13-19 | the registration suffix of each kind; only the two gauges share `.gauge` |
| Base.Itoa | metric.go:71-73 | decimal rendering: at least one digit, one digit exactly below 10, and the last digit is the number modulo 10 |
| Base.ItoaInjective | metric.go:71-73 | distinct numbers render differently |
| Base.RegNameShape | metric.go:69-75 | disambiguator 0 gives `measurement/name + suffix`; n > 0 gives `measurement/name + itoa(n) + suffix` |
| Base.RegNameInjective | metric.go:69-75 | for fixed measurement, name and suffix, distinct disambiguators give distinct keys |
| Base.BaseMetric.constructor | metric.go:55-67 | a fresh base holds the given fields and disambiguator 0 |
| Base.BaseMetric.RegIncr | metric.go:76-78 | raises the disambiguator by exactly one and changes nothing else |
| Snapshots.Percentiles | m_histogram.go:49-50 | one value per requested level, in the order requested |
| Snapshots.PercentileIndex | m_histogram.go:68-79 | exactly the six percentile buckets read the percentile list, at indices below its length of six |
| Snapshots.PercentileBucketsReadTheirLevels | m_histogram.go:27-27 | p50 to p9999 read the levels 0.5, 0.75, 0.95, 0.99, 0.999 and 0.9999 |
| CounterMetric.Counter.constructor | m_counter.go:23-27 | the counter keeps its base and wraps the given statistic |
| CounterMetric.Counter.AddPoints | m_counter.go:38-43 | the input is kept as prefix, followed by one point with the metric's measurement and tags and the single field `name.count` holding the count |
| GaugeMetric.Gauge.constructor | m_gauge.go:23-27 | the gauge keeps its base and wraps the given statistic |
| GaugeMetric.Gauge.AddPoints | m_gauge.go:38-43 | the input is kept as prefix, followed by one point with the metric's measurement and tags and the single field `name.gauge` holding the value |
| GaugeFloat64Metric.GaugeFloat64.constructor | m_gauge64.go:23-27 | the float gauge keeps its base and wraps the given statistic |
| GaugeFloat64Metric.GaugeFloat64.AddPoints | m_gauge64.go:43-48 | the input is kept as prefix, followed by one point with the metric's measurement and tags and the single field holding the float value |
| HistogramMetric.Histogram.constructor | m_histogram.go:23-32 | the twelve buckets, their tag maps built from the metric tags, and one `{field: 0.0}` map per bucket |
| HistogramMetric.Histogram.PointsFor | m_histogram.go:53-87 | one point per bucket |
| HistogramMetric.Histogram.AddPoints | m_histogram.go:47-88 | appends the bucket points in bucket order after the input; each bucket's field map now holds only that bucket's value under the field name; the key set of the bucket maps is unchanged |
| HistogramMetric.BucketValueReadsItsStatistic | m_histogram.go:53-80 | bucket i reports reading i: count, max, mean, min, the six percentiles, standard deviation, variance |
| HistogramMetric.BucketPoints | m_histogram.go:53-87 | a histogram appends exactly 12 points |
| HistogramMetric.PointsForIsPoints | m_histogram.go:82-85 | what a histogram object appends depends only on its measurement, field name, tags and snapshot |
| HistogramMetric.PointShape | m_histogram.go:82-85 | point i carries the measurement, the metric tags plus `bucket`, and the single field `name.histogram` with reading i; its tag count is the metric's plus one |
| MeterMetric.Meter.constructor | m_meter.go:23-30 | the five buckets, their tag maps, and one `{field: 0.0}` map per bucket |
| MeterMetric.Meter.PointsFor | m_meter.go:47-69 | one point per bucket |
| MeterMetric.Meter.AddPoints | m_meter.go:44-70 | appends the bucket points in bucket order after the input; each bucket's field map is overwritten under the field name only; the bucket map keys are unchanged |
| MeterMetric.BucketValueReadsItsStatistic | m_meter.go:50-61 | count, m1, m5, m15 and mean read the count, the three rates and the mean rate |
| MeterMetric.BucketPoints | m_meter.go:47-69 | a meter appends exactly 5 points |
| MeterMetric.PointsForIsPoints | m_meter.go:63-67 | what a meter object appends depends only on its measurement, field name, tags and snapshot |
| MeterMetric.PointShape | m_meter.go:63-67 | point i carries the measurement, the metric tags plus `bucket`, and the single field `name.meter`; its tag count is the metric's plus one |
| TimerMetric.AgreesWithHistogram | m_timer.go:66-103 | the first twelve timer buckets are the histogram's, and the timer reads them as the histogram does |
| TimerMetric.GetValueReadsItsStatistic | m_timer.go:66-103 | each of the 16 buckets reads the statistic of its own name |
| TimerMetric.Timer.constructor | m_timer.go:27-36 | the sixteen buckets, their tag maps, one `{field: 0.0}` map per bucket, and nothing recorded yet |
| TimerMetric.Timer.PointsFor | m_timer.go:57-63 | one point per bucket |
| TimerMetric.Timer.AddPoints | m_timer.go:51-64 | appends the bucket points in bucket order after the input; each bucket's field map is overwritten under the field name only; the bucket map keys are unchanged |
| TimerMetric.TimeThis | m_timer.go:107-112 | the stop function is bound to this timer and to the instant of the call |
| TimerMetric.Stop | m_timer.go:109-111 | records the time elapsed since the stop function's start, and touches no field map |
| TimerMetric.StopsMeasureFromOneStart | m_timer.go:107-112 | calling one stop function twice records both durations from the same start |
| TimerMetric.BucketPoints | m_timer.go:57-63 | a timer appends exactly 16 points |
| TimerMetric.PointsForIsPoints | m_timer.go:57-61 | what a timer object appends depends only on its measurement, field name, tags and snapshot |
| TimerMetric.PointShape | m_timer.go:57-61 | point i carries the measurement, the metric tags plus `bucket`, and the single field `name.timer` with reading i; its tag count is the metric's plus one |
| MetricRegistry.TypeCheck | m_gauge64.go:28-31 | accepts exactly the float gauge adapter |
| MetricRegistry.Registry.Get | reporter.go:93-93 | the registered value under the name, if there is one |
| MetricRegistry.Registry.Register | metric.go:90-92 | a taken name is refused with an error and nothing changes; otherwise a value of a kind go-metrics keeps is stored; validity is kept |
| MetricRegistry.ProbedKeys | metric.go:96-102 | the keys of disambiguators 0 to count - 1 are pairwise distinct |
| MetricRegistry.ProbedKeysFit | metric.go:96-102 | a registry holding all of them has at least count entries, so the walk ends on a finite registry |
| MetricRegistry.Resolve | metric.go:96-108 | the walk ends at the first key that is free, holds a non-Metric, or holds an adapter of the candidate's kind; every key it passed holds a Metric of another kind |
| MetricRegistry.NeverOverwrites | metric.go:86-109 | registration keeps every key's value and adds at most one key; the result is an adapter of the candidate's kind |
| MetricRegistry.ResolveAfterInsert | metric.go:96-99 | after the candidate is stored at a free key, the walk for the same kind stops at that key with the stored adapter |
| MetricRegistry.RegisterIdempotent | metric.go:96-108 | with a reporter, a second registration of the same kind and name returns the first result and leaves the registry as it was; when a non-Metric blocks the key, it returns its own candidate |
| MetricRegistry.NoReporterReturnsCandidate | metric.go:88-94 | without a reporter, a second registration under the same key is refused and returns its own unregistered candidate |
| MetricRegistry.DisambiguatedKeyCaptured | metric.go:69-75 | after a float gauge `name` is moved to `measurement/name1.gauge`, registering a float gauge `name1` returns the `name` gauge and changes nothing |
| MetricRegistry.GaugeCollision | m_gauge64.go:13-33 | a float gauge named like a registered gauge lands at `measurement/name1.gauge` |
| Reporting.OptionsCommute | options.go:44-79 | each reporter option sets only its own field, so two options setting different fields commute |
| Reporting.LaterOptionOverrides | reporter.go:53-55 | a later option overrides an earlier one that sets the same field |
| Reporting.IntervalIsLastInterval | options.go:54-58 | the interval is the last Interval option's, or the default when there is none |
| Reporting.Truncate | reporter.go:208-214 | the largest multiple of the interval not after the time; the time itself for a non-positive interval |
| Reporting.Reporter.constructor | reporter.go:42-51 | the default registry, no client, ten seconds, no tags, not aligned, not running |
| Reporting.Reporter.Apply | options.go:44-99 | applies one option in place as ApplyOption says, leaving `running` alone |
| Reporting.Reporter.Register | reporter.go:87-89 | the registry's Register: an error exactly when the name is taken |
| Reporting.Reporter.Get | reporter.go:92-95 | succeeds exactly when the name is present and its value implements Metric, and returns that value |
| Reporting.Reporter.Open | reporter.go:183-195 | with a client it changes nothing and reports no error; otherwise it takes the new client, even a failed one, and reports its error |
| Reporting.Reporter.GetNow | reporter.go:208-214 | the clock reading when not aligned; when aligned, the largest multiple of the interval not after it |
| Reporting.Reporter.WriteBatch | reporter.go:197-206 | the batch holds the given points, the server's database and getNow |
| Reporting.Reporter.PingStep | reporter.go:135-143 | a failed ping keeps the existing client and raises no reconnect error |
| Reporting.Reporter.Start | reporter.go:104-116 | refuses only when running; otherwise a client is in place, and the loop starts exactly when open reports no error |
| Reporting.Globals.SetDefaultReporter | reporter.go:16-18 | replaces the default reporter and nothing else |
| Reporting.NewReporter | reporter.go:34-57 | nothing when the URL does not parse; otherwise a fresh, not running reporter: the defaults with the options applied left to right |
| Registration.Configure | metric.go:46-48 | the reporter after the options is the default or one an option named |
| Registration.LaterMetricOptionOverrides | metric.go:46-48 | a later metric option overrides an earlier one that sets the same field |
| Registration.MetricOptionsCommute | options.go:14-39 | each metric option sets only its own field, so two options setting different fields commute |
| Registration.NewMetric | metric.go:38-53 | defaults (default reporter, measurement "default", no tags, no metric), the options in order, then the reporter's tags merged under the metric's when there is a reporter |
| Registration.StatFor | m_counter.go:17-21 | the WithMetric value is wrapped when it is of the adapter's kind, and anything else is a newly created statistic; Registration.Register (its candidate's `stat` is the registered value) and Collection.VisitWraps rely on it |
| Registration.Build | m_counter.go:23-27 | a fresh, valid adapter of the kind around the base and the statistic |
| Registration.RegOutcomeResolves | metric.go:86-109 | the entry-level walk stops where Resolve stops and returns or stores what registration says |
| Registration.RegOutcomeStep | metric.go:96-102 | one key settles the walk or passes it to the next disambiguator |
| Registration.RegOutcomeKeepsValid | metric.go:104-108 | registration stores only the valid candidate, so a valid registry stays valid |
| Registration.RegOutcomeObjects | metric.go:104-108 | the walk adds no object to the registry except the candidate's own |
| Registration.RegOutcomeSlots | metric.go:86-109 | seen through slots, the entry-level walk from 0 is registration with a reporter |
| Registration.RegisteredCases | metric.go:86-109 | registering a candidate is RegisteredAs its slot, and the result is the candidate itself unless the walk finds an adapter of its kind |
| Registration.SecondConstructionRetrievesFirst | metric.go:96-99 | under a reporter, a second construction of the same kind, measurement and name returns the object the first returned and leaves the registry as the first left it, unless a value that is no Metric holds the key |
| Registration.RegWith | metric.go:95-108 | the recursive walk returns and stores what RegOutcome says from the current disambiguator |
| Registration.RegHere | metric.go:96-108 | the end of the walk: the same-kind adapter found, or the candidate after a register attempt |
| Registration.RegDefault | metric.go:88-94 | without a reporter: the candidate itself is returned; the default registry gains it under disambiguator 0 when that key is free and is unchanged otherwise |
| Registration.RegValid | metric.go:95-108 | the walk from 0 keeps a valid registry valid and returns a valid adapter |
| Registration.RegReporter | metric.go:95-108 | the reporter branch returns and stores what the entry-level walk RegOutcome from disambiguator 0 says (the adapter stored at the key the walk ends at, or the candidate); seen through slots this is RegisterSlot with a reporter |
| Registration.Reg | metric.go:86-109 | result and target registry are those of Registered: with a reporter the walk's entry, the object stored at the resolved key when it holds an adapter of the kind; without one the candidate; through slots this is RegisterSlot; validity is kept |
| Registration.NewAdapter | m_counter.go:13-29 | RegisteredAs: when the walk finds an adapter of the kind, the result is exactly the object stored at the resolved key and the registry is unchanged; otherwise the result is a newly built adapter, registered as Registered says |
| Registration.NewCounter | m_counter.go:13-29 | the counter is the one stored at the resolved key when the walk finds a counter there, and is otherwise a fresh counter registered as Registered says |
| Registration.NewGauge | m_gauge.go:13-29 | the gauge is the one stored at the resolved key when the walk finds a gauge there, and is otherwise a fresh gauge registered as Registered says |
| Registration.NewGaugeFloat64 | m_gauge64.go:13-34 | the float gauge is the one stored at the resolved key when the walk finds a float gauge there, and is otherwise a fresh one registered as Registered says |
| Registration.NewHistogram | m_histogram.go:13-34 | the histogram is the one stored at the resolved key when the walk finds a histogram there, and is otherwise a fresh, valid histogram registered as Registered says |
| Registration.NewMeter | m_meter.go:13-32 | the meter is the one stored at the resolved key when the walk finds a meter there, and is otherwise a fresh, valid meter registered as Registered says |
| Registration.NewTimer | m_timer.go:17-38 | the timer is the one stored at the resolved key when the walk finds a timer there, and is otherwise a fresh, valid timer registered as Registered says |
| Registration.SecondNewCounterReturnsFirst | m_counter.go:28 | two newCounter calls with the same name and options under a reporter return the same counter object, unless a value that is no Metric holds the key |
| Registration.FirstIn | metrics.go:24-39 | the first kind of the order that the value satisfies, or none exactly when it satisfies none |
| Registration.Register | metrics.go:21-42 | an error exactly when the value satisfies none of the six interfaces, and then nothing changes; otherwise the first match in Register's order wraps the value itself and registers |
| Collection.EntryAddPoints | reporter.go:156-156 | a Metric entry appends the points its slot and the snapshot determine |
| Collection.AddPointsKeepingValid | reporter.go:156-156 | the same, keeping the validity of the registries involved |
| Collection.WrapSettings | reporter.go:165-165 | newMetric of WithMetric(v) alone is newMetric of no option with v as the metric |
| Collection.CollectStep | reporter.go:148-159 | visiting one more key extends the fold by one visit |
| Collection.VisitWraps | reporter.go:161-180 | a raw value is wrapped by the first kind of basicMetric's order; the wrapper is registered, and the points of what comes back are appended |
| Collection.Wrap | reporter.go:163-175 | the constructor with WithMetric(value) registers in the default reporter's registry, or in the default registry, as RegisterSlot says |
| Collection.BasicMetric | reporter.go:161-181 | a raw value is collected exactly as Visit says, and a value of no known kind leaves the points unchanged |
| Collection.VisitEntry | reporter.go:149-157 | a Metric appends its AddPoints; anything else goes to basicMetric; the result is one Visit |
| Collection.VisitRest | reporter.go:149-157 | visiting the remaining keys of the copy extends the fold over an enumeration of all keys, and the copy's entries stay valid |
| Collection.GetPoints | reporter.go:148-159 | the points are the input followed by each entry's contribution, over some enumeration of the registry copy's keys; the target registry takes the wrappers; both registries stay valid |
| Collection.Tick | reporter.go:128-134 | the buffer is emptied, the points collected, and the batch built from them with the database and getNow; both registries stay valid |
| Collection.WrapOrderDiffers | reporter.go:163-178 | basicMetric's and Register's orders choose different adapters exactly when the value is no counter or gauge and satisfies two of histogram, meter and timer |
| Collection.OrdersAgreeOnSingleInterface | reporter.go:163-178 | for a value satisfying at most one of the six interfaces, as every go-metrics value does, basicMetric and Register choose the same adapter |
| Collection.CollectNeverOverwrites | reporter.go:148-181 | a flush keeps every registered key's value, and the points collected before stay in front |
| Collection.MetricOnlyRegistersNothing | reporter.go:150-156 | a flush that meets only Metric values registers nothing |
| Collection.RawValueReportedTwice | reporter.go:161-180 | a raw value is wrapped and its wrapper registered under another key; every later flush sends its points twice, in either order |

## Left out

- The `run` loop itself is left out: its tickers, `select`, context cancellation and `Stop`. It is timer and concurrency plumbing. One interval tick is `Collection.Tick`, one ping tick is `Reporting.Reporter.PingStep`, and the preamble is `Reporting.Reporter.Start`.
- `regMutex` and concurrency: registration is sequential. Each construction makes a mutex of its own, so the lock gives no exclusion between calls anyway.
- The statistics are not computed: go-metrics snapshots, percentiles, rates and float arithmetic. A snapshot is a record of opaque readings supplied by the caller, and float fields are `real`.
- Creating a go-metrics statistic (`metrics.NewCounter()` and so on) is an input, `created`, to the constructors.
- The InfluxDB client (`NewClient`, `Write`, `Ping`) and `url.Parse`: their results are inputs, and a write error has no effect beyond logging.
- Logging and `time.Now`: the clock is a parameter.
- `reflect.TypeOf` and the Go type switches are replaced by `Kind`, `ForeignValue` and `Registration.FirstIn`.
- `WithGCStats` and `WithMemStats`: the runtime statistics collectors they start are not part of this model.
- Other implementations of the `Reporter` interface are not modelled; the model has the package's own reporter only.
- The public `NewCounter` to `NewHistogram` of metrics.go:44-75 are one-line calls of the `newX` constructors; the `Registration.NewX` methods stand for both.
- `Tags()` of the reporter is a field read (`Reporting.Reporter.tags`).
- The examples directory: it contains infinite loops, randomness and sleeps.
- Collection.GetPoints: the order of `Each` over a Go map is unspecified. The model proves the result for some enumeration of the keys, returned as a ghost value, and does not fix which one.
- Collection.Sampler: the points an application's own Metric appends are an input; the model assumes such a Metric only appends to its input.
- TimerMetric.Stop: the wrapped timer's `UpdateSince` is modelled by appending the duration to `recorded`. The timer's statistics are not updated.
- MetricRegistry.Registry.Register: go-metrics' own type filter is modelled as "satisfies at least one of the six interfaces". Its `Healthcheck` case is not distinguished.
- Registration.Register: the Go signature takes a `Metric`, so the model requires a value with `AddPoints`.
- HistogramMetric.Histogram.AddPoints, MeterMetric.Meter.AddPoints, TimerMetric.Timer.AddPoints: in Go the appended points hold the adapter's own per-bucket field maps (m_histogram.go:82-85, m_meter.go:63-66, m_timer.go:58-61), so a later AddPoints rewrites the fields of points appended earlier. The model's points hold copies of the values at the time of the call; the sharing is not modelled.

/**
 * The reporter (reporter.go, options.go): its settings and how options set
 * them, the registry it reads, its connection state, and the write batch.
 * The InfluxDB client is abstract: what its calls return is supplied by
 * the caller.
 */
module Reporting {
  import opened Wrappers
  import opened Points
  import opened MetricRegistry

  /** The default reporting interval, ten seconds, in nanoseconds. */
  const DefaultInterval: int := 10_000_000_000

  /** An InfluxDB client, known only by its identity. */
  datatype Client = Client(id: nat)

  /** What creating a client returns: the client and whether an error came with it. */
  datatype NewClientResult = NewClientResult(client: Client, failed: bool)

  datatype Server = Server(url: string, db: string, user: string, pass: string)

  /** The batch handed to the client's Write. */
  datatype BatchPoints = BatchPoints(points: seq<Point>, database: string, time: nat)

  /** The reporter options of options.go, one constructor each. */
  datatype ReporterOption =
    | Auth(user: string, pass: string)
    | Interval(d: int)
    | RegistryOption(registry: Registry)
    | TagsOption(tags: Tags)
    | Align
    | WithDBClient(client: Client)

  /** The reporter state the options set. */
  datatype Settings = Settings(registry: Registry, client: Option<Client>, server: Server,
                               interval: int, tags: Tags, align: bool)

  /** A reporter's settings before any option: the default registry, no client, ten seconds. */
  function Defaults(url: string, db: string, registry: Registry): Settings
  {
    Settings(registry, None, Server(url, db, "", ""), DefaultInterval, NilTags, false)
  }

  /** What one option does to the settings. */
  function ApplyOption(c: Settings, o: ReporterOption): Settings
  {
    match o
    case Auth(user, pass) => c.(server := c.server.(user := user, pass := pass))
    case Interval(d) => c.(interval := d)
    case RegistryOption(registry) => c.(registry := registry)
    case TagsOption(tags) => c.(tags := tags)
    case Align => c.(align := true)
    case WithDBClient(client) => c.(client := Some(client))
  }

  /** The options applied left to right. */
  function ApplyAll(c: Settings, opts: seq<ReporterOption>): Settings
    decreases |opts|
  {
    if opts == [] then c else ApplyOption(ApplyAll(c, opts[..|opts| - 1]), opts[|opts| - 1])
  }

  /** Whether two options set the same field. */
  predicate SameField(a: ReporterOption, b: ReporterOption)
  {
    match a
    case Auth(_, _) => b.Auth?
    case Interval(_) => b.Interval?
    case RegistryOption(_) => b.RegistryOption?
    case TagsOption(_) => b.TagsOption?
    case Align => b.Align?
    case WithDBClient(_) => b.WithDBClient?
  }

  /**
   * Each option sets only its own field: two options setting different
   * fields give the same settings in either order.
   */
  lemma OptionsCommute(c: Settings, a: ReporterOption, b: ReporterOption)
    requires !SameField(a, b)
    ensures ApplyOption(ApplyOption(c, a), b) == ApplyOption(ApplyOption(c, b), a)
  {
  }

  /** A later option overrides an earlier one that sets the same field. */
  lemma LaterOptionOverrides(c: Settings, opts: seq<ReporterOption>, a: ReporterOption, b: ReporterOption)
    requires SameField(a, b)
    ensures ApplyAll(c, opts + [a, b]) == ApplyAll(c, opts + [b])
  {
    assert (opts + [a, b])[..|opts| + 1] == opts + [a];
    assert (opts + [a])[..|opts|] == opts;
    assert (opts + [b])[..|opts|] == opts;
  }

  /**
   * The interval is the value of the last Interval option, or the default
   * when there is none.
   */
  lemma {:induction false} IntervalIsLastInterval(c: Settings, opts: seq<ReporterOption>)
    ensures (forall i :: 0 <= i < |opts| ==> !opts[i].Interval?) ==> ApplyAll(c, opts).interval == c.interval
    ensures forall i :: 0 <= i < |opts| && opts[i].Interval? && (forall j :: i < j < |opts| ==> !opts[j].Interval?) ==>
      ApplyAll(c, opts).interval == opts[i].d
    decreases |opts|
  {
    if opts != [] {
      var init := opts[..|opts| - 1];
      IntervalIsLastInterval(c, init);
      assert forall i :: 0 <= i < |init| ==> init[i] == opts[i];
    }
  }

  /** time.Time.Truncate on a clock counted from the zero time: the largest multiple of d not after t. */
  function Truncate(t: nat, d: int): (r: nat)
    ensures d <= 0 ==> r == t
    ensures d > 0 ==> r <= t < r + d && r % d == 0
  {
    if d <= 0 then t else FloorMultiple(t, d); t - t % d
  }

  lemma FloorMultiple(t: nat, d: int)
    requires d > 0
    ensures (t - t % d) % d == 0
  {
    var q := t / d;
    var r := t - t % d;
    assert r == d * q;
    var q', m := r / d, r % d;
    assert r == d * q' + m && 0 <= m < d;
    assert d * (q - q') == m;
    if q - q' >= 1 {
      MulAtLeast(q - q', d);
    } else if q - q' <= -1 {
      MulAtLeast(q' - q, d);
    }
  }

  lemma MulAtLeast(x: int, d: int)
    requires x >= 1 && d > 0
    ensures x * d >= d
  {
  }

  class Reporter {
    var registry: Registry
    var client: Option<Client>
    var server: Server
    var interval: int
    var tags: Tags
    var align: bool
    /** Never set by the package, so the guard of Run never fires. */
    var running: bool

    function State(): Settings
      reads this
    {
      Settings(registry, client, server, interval, tags, align)
    }

    constructor (url: string, db: string, registry: Registry)
      ensures State() == Defaults(url, db, registry) && !running
    {
      this.registry := registry;
      client := None;
      server := Server(url, db, "", "");
      interval := DefaultInterval;
      tags := NilTags;
      align := false;
      running := false;
    }

    /** Applies one option in place. */
    method Apply(o: ReporterOption)
      modifies this
      ensures State() == ApplyOption(old(State()), o)
      ensures running == old(running)
    {
      match o
      case Auth(user, pass) => server := server.(user := user, pass := pass);
      case Interval(d) => interval := d;
      case RegistryOption(r) => registry := r;
      case TagsOption(t) => tags := t;
      case Align => align := true;
      case WithDBClient(c) => client := Some(c);
    }

    /** Register: stores the metric in the reporter's registry; a taken name is an error. */
    method Register(name: string, e: Entry) returns (err: bool)
      modifies registry
      ensures err <==> name in old(registry.entries)
      ensures registry.entries ==
        if !err && Storable(SlotOf(e)) then old(registry.entries)[name := e] else old(registry.entries)
      ensures old(registry.Valid()) && EntryValid(e) ==> registry.Valid()
    {
      err := registry.Register(name, e);
    }

    /** Get: the entry under `name`, only when there is one and it implements Metric. */
    method Get(name: string) returns (r: Option<Entry>)
      ensures r.Some? <==> name in registry.entries && IsMetricSlot(SlotOf(registry.entries[name]))
      ensures r.Some? ==> r.value == registry.entries[name]
    {
      var e := registry.Get(name);
      if e.Some? && IsMetricSlot(SlotOf(e.value)) {
        r := e;
      } else {
        r := None;
      }
    }

    /**
     * open: keeps an existing client and reports no error; otherwise takes
     * the newly created client, which is kept even when creation failed.
     */
    method Open(res: NewClientResult) returns (failed: bool)
      modifies this`client
      ensures old(client).Some? ==> client == old(client) && !failed
      ensures old(client).None? ==> client == Some(res.client) && failed == res.failed
    {
      if client.Some? {
        return false;
      }
      client := Some(res.client);
      failed := res.failed;
    }

    /** getNow: the clock reading, truncated to the interval when aligning. */
    function GetNow(now: nat): (r: nat)
      reads this
      ensures !align ==> r == now
      ensures align && interval > 0 ==> r <= now < r + interval && r % interval == 0
      ensures align && interval <= 0 ==> r == now
    {
      if align then Truncate(now, interval) else now
    }

    /** The batch write sends: the given points, the server's database, the current time. */
    function WriteBatch(points: seq<Point>, now: nat): (b: BatchPoints)
      reads this
      ensures b.points == points && b.database == server.db && b.time == GetNow(now)
    {
      BatchPoints(points, server.db, GetNow(now))
    }

    /**
     * One ping tick of run: a failed ping calls open, which keeps the
     * existing client, so nothing changes and no reconnect error arises.
     */
    method PingStep(pingFailed: bool, res: NewClientResult) returns (reconnectFailed: bool)
      requires client.Some?
      modifies this`client
      ensures client == old(client) && !reconnectFailed
    {
      reconnectFailed := false;
      if pingFailed {
        reconnectFailed := Open(res);
      }
    }

    /**
     * Run up to its loop: refuses when running (never the case), then opens
     * the connection; the loop starts exactly when open reports no error,
     * and a client is in place either way.
     */
    method Start(res: NewClientResult) returns (started: bool)
      modifies this`client
      ensures old(running) ==> !started && client == old(client)
      ensures !old(running) ==> client.Some? && (started <==> old(client).Some? || !res.failed)
    {
      if running {
        return false;
      }
      var failed := Open(res);
      started := !failed;
    }
  }

  /** The package-level state: the default reporter and go-metrics' default registry. */
  class Globals {
    var defaultReporter: Option<Reporter>
    const defaultRegistry: Registry

    constructor (defaultRegistry: Registry)
      ensures defaultReporter == None && this.defaultRegistry == defaultRegistry
    {
      defaultReporter := None;
      this.defaultRegistry := defaultRegistry;
    }

    /** SetDefaultReporter: replaces the default reporter and nothing else. */
    method SetDefaultReporter(r: Option<Reporter>)
      modifies this`defaultReporter
      ensures defaultReporter == r
    {
      defaultReporter := r;
    }
  }

  /**
   * NewReporter: nothing when the URL does not parse (parsing is not
   * modelled; its verdict is an input); otherwise a fresh reporter with the
   * defaults, then the options applied in order.
   */
  method NewReporter(urlParses: bool, url: string, db: string, options: seq<ReporterOption>, g: Globals)
    returns (r: Option<Reporter>)
    ensures r.Some? <==> urlParses
    ensures r.Some? ==> fresh(r.value) && !r.value.running
    ensures r.Some? ==> r.value.State() == ApplyAll(Defaults(url, db, g.defaultRegistry), options)
  {
    if !urlParses {
      return None;
    }
    var rep := new Reporter(url, db, g.defaultRegistry);
    for i := 0 to |options|
      invariant fresh(rep) && !rep.running
      invariant rep.State() == ApplyAll(Defaults(url, db, g.defaultRegistry), options[..i])
    {
      assert options[..i + 1][..i] == options[..i];
      rep.Apply(options[i]);
    }
    assert options[..|options|] == options;
    r := Some(rep);
  }
}

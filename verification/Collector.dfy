/** exporter/collector.go: what one gather of the process metrics emits and counts. */
module Collector {
  import opened Wrappers
  import opened Utf8
  import opened Decimal
  import opened Givens
  import opened LabelBound
  import opened Config
  import opened Environ
  import opened History
  import opened ActiveView

  // ----- promoted CI labels ------------------------------------------------------------

  const ENV_JOB_ID := Lit("CI_JOB_ID")
  const ENV_JOB_NAME := Lit("CI_JOB_NAME")
  const ENV_PROJECT_PATH := Lit("CI_PROJECT_PATH")
  const ENV_PIPELINE_ID := Lit("CI_PIPELINE_ID")

  datatype LabelKey = LabelKey(env: Bytes, name: Bytes)

  /** ciJobLabelKeys: the variable and the label it becomes, in label order. */
  const CI_JOB_LABEL_KEYS: seq<LabelKey> := [
    LabelKey(ENV_JOB_ID, CI_JOB_ID), LabelKey(ENV_JOB_NAME, CI_JOB_NAME),
    LabelKey(ENV_PROJECT_PATH, CI_PROJECT_PATH), LabelKey(ENV_PIPELINE_ID, CI_PIPELINE_ID)
  ]

  /** environ[k] of a Go map: "" when absent. */
  function Lookup(environ: map<Bytes, Bytes>, k: Bytes): Bytes {
    if k in environ then environ[k] else []
  }

  /** A value about to be bounded, under the name whose limit applies. */
  datatype Item = Item(name: Bytes, value: Bytes)

  function CiItem(k: LabelKey, environ: map<Bytes, Bytes>): Item {
    Item(k.name, SanitizeLabelValue(Lookup(environ, k.env)))
  }

  function CiItems(environ: map<Bytes, Bytes>): seq<Item> {
    seq(|CI_JOB_LABEL_KEYS|, i requires 0 <= i < |CI_JOB_LABEL_KEYS| => CiItem(CI_JOB_LABEL_KEYS[i], environ))
  }

  function BoundedItem(fp: Fingerprint, limits: map<Bytes, int>, item: Item): Bytes {
    Bounded(fp, limits, item.name, item.value)
  }

  function CiValues(fp: Fingerprint, limits: map<Bytes, int>, environ: map<Bytes, Bytes>): seq<Bytes> {
    seq(|CI_JOB_LABEL_KEYS|, i requires 0 <= i < |CI_JOB_LABEL_KEYS| =>
      BoundedItem(fp, limits, CiItem(CI_JOB_LABEL_KEYS[i], environ)))
  }

  /** The counters after these values were bounded in turn. */
  function Counted(
    fp: Fingerprint, limits: map<Bytes, int>, counts: map<Bytes, nat>, items: seq<Item>): map<Bytes, nat>
  {
    if items == [] then counts
    else
      var last := items[|items| - 1];
      var before := Counted(fp, limits, counts, items[..|items| - 1]);
      Incremented(before, last.name, CutCount(fp, limits, last.name, last.value))
  }

  lemma {:induction false} CountedConcat(
    fp: Fingerprint, limits: map<Bytes, int>, counts: map<Bytes, nat>, a: seq<Item>, b: seq<Item>)
    ensures Counted(fp, limits, counts, a + b) == Counted(fp, limits, Counted(fp, limits, counts, a), b)
  {
    hide Incremented, CutCount;
    if b == [] {
      assert a + b == a;
    } else {
      assert (a + b)[..|a + b| - 1] == a + b[..|b| - 1];
      CountedConcat(fp, limits, counts, a, b[..|b| - 1]);
    }
  }

  method CiJobLabelValuesWith(
    fp: Fingerprint, limits: map<Bytes, int>, environ: map<Bytes, Bytes>, obs: TruncationCounter?)
    returns (vals: seq<Bytes>)
    modifies obs
    ensures vals == CiValues(fp, limits, environ)
    ensures obs != null ==> obs.counts == Counted(fp, limits, old(obs.counts), CiItems(environ))
  {
    hide Incremented, CutCount, SanitizeLabelValue, Bounded, Lookup;
    vals := [];
    ghost var items := CiItems(environ);
    for i := 0 to |CI_JOB_LABEL_KEYS|
      invariant vals == CiValues(fp, limits, environ)[..i]
      invariant obs != null ==> obs.counts == Counted(fp, limits, old(obs.counts), items[..i])
    {
      var k := CI_JOB_LABEL_KEYS[i];
      assert items[..i + 1][..i] == items[..i] && items[i] == CiItem(k, environ);
      var v := BoundLabelWith(fp, limits, k.name, SanitizeLabelValue(Lookup(environ, k.env)), obs);
      assert CiValues(fp, limits, environ)[i] == v;
      vals := vals + [v];
    }
    assert items[..|items|] == items;
  }

  // ----- what one process emits -----------------------------------------------------------

  datatype Family =
    | CpuSeconds | Rss | Vms | IoRead | IoWrite | IoReadSelf | IoWriteSelf
    | IoReadSyscalls | IoWriteSyscalls | IoReadSyscallsSelf | IoWriteSyscallsSelf | Info

  datatype Metric = Metric(family: Family, value: real, labels: seq<Bytes>)

  /** The families of the core metrics, in the order they are emitted. */
  const CORE: seq<Family> := [
    CpuSeconds, Rss, Vms, IoRead, IoWrite, IoReadSelf, IoWriteSelf,
    IoReadSyscalls, IoWriteSyscalls, IoReadSyscallsSelf, IoWriteSyscallsSelf
  ]

  /** What a family measures; info is constantly 1. */
  function Measured(f: Family, u: Usage): real {
    match f
    case CpuSeconds => u.cpuSeconds
    case Rss => u.memoryRss as real
    case Vms => u.memoryVms as real
    case IoRead => u.ioRead as real
    case IoWrite => u.ioWrite as real
    case IoReadSelf => u.ioReadSelf as real
    case IoWriteSelf => u.ioWriteSelf as real
    case IoReadSyscalls => u.ioReadSyscalls as real
    case IoWriteSyscalls => u.ioWriteSyscalls as real
    case IoReadSyscallsSelf => u.ioReadSyscallsSelf as real
    case IoWriteSyscallsSelf => u.ioWriteSyscallsSelf as real
    case Info => 1.0
  }

  /** Each core family once, with what it measures. */
  function CoreMetrics(u: Usage, labels: seq<Bytes>): seq<Metric> {
    seq(|CORE|, i requires 0 <= i < |CORE| => Metric(CORE[i], Measured(CORE[i], u), labels))
  }

  method EmitCore(u: Usage, labels: seq<Bytes>) returns (metrics: seq<Metric>)
    ensures metrics == CoreMetrics(u, labels)
  {
    metrics := [
      Metric(CpuSeconds, u.cpuSeconds, labels),
      Metric(Rss, u.memoryRss as real, labels),
      Metric(Vms, u.memoryVms as real, labels),
      Metric(IoRead, u.ioRead as real, labels),
      Metric(IoWrite, u.ioWrite as real, labels),
      Metric(IoReadSelf, u.ioReadSelf as real, labels),
      Metric(IoWriteSelf, u.ioWriteSelf as real, labels),
      Metric(IoReadSyscalls, u.ioReadSyscalls as real, labels),
      Metric(IoWriteSyscalls, u.ioWriteSyscalls as real, labels),
      Metric(IoReadSyscallsSelf, u.ioReadSyscallsSelf as real, labels),
      Metric(IoWriteSyscallsSelf, u.ioWriteSyscallsSelf as real, labels)
    ];
  }

  /** Where a family stands among the twelve. */
  function Place(f: Family): (i: nat)
    ensures i < 12
  {
    match f
    case CpuSeconds => 0
    case Rss => 1
    case Vms => 2
    case IoRead => 3
    case IoWrite => 4
    case IoReadSelf => 5
    case IoWriteSelf => 6
    case IoReadSyscalls => 7
    case IoWriteSyscalls => 8
    case IoReadSyscallsSelf => 9
    case IoWriteSyscallsSelf => 10
    case Info => 11
  }

  /** The eleven core metrics stand in their families' places, all under the same labels. */
  lemma CoreShape(u: Usage, labels: seq<Bytes>)
    ensures |CoreMetrics(u, labels)| == 11
    ensures forall i :: 0 <= i < 11 ==>
      var m := CoreMetrics(u, labels)[i]; Place(m.family) == i && !m.family.Info? && m.labels == labels
  {
  }

  /** One collector's settings. */
  datatype Settings = Settings(fp: Fingerprint, text: Text, limits: map<Bytes, int>, extra: seq<Bytes>)

  /** One process as the gather sees it: its sample and what its environ map holds. */
  datatype Process = Process(sample: ProcessSample, environ: map<Bytes, Bytes>)

  function NameItem(p: Process): Item { Item(NAME, SanitizeLabelValue(p.sample.name)) }
  function CmdlineItem(p: Process): Item { Item(CMDLINE, SanitizeLabelValue(p.sample.cmdLine)) }

  /** pid, name and the CI labels: on all twelve families. */
  function CommonLabels(c: Settings, p: Process): seq<Bytes> {
    [Itoa(p.sample.pid as int), BoundedItem(c.fp, c.limits, NameItem(p))] + CiValues(c.fp, c.limits, p.environ)
  }

  ghost function InfoLabels(c: Settings, p: Process): seq<Bytes> {
    [Itoa(p.sample.pid as int), BoundedItem(c.fp, c.limits, NameItem(p)),
     BoundedItem(c.fp, c.limits, CmdlineItem(p)),
     ScrubbedLabel(c.text, c.extra, p.environ),
     if Incomplete(c.text, c.extra, p.environ) then Lit("1") else Lit("0")]
    + CiValues(c.fp, c.limits, p.environ)
  }

  ghost function MetricsOf(c: Settings, p: Process): seq<Metric> {
    CoreMetrics(p.sample.usage, CommonLabels(c, p)) + [Metric(Info, 1.0, InfoLabels(c, p))]
  }

  /** The values of one process that go through a limit, in the order they are bounded. */
  function ItemsOf(p: Process): seq<Item> {
    [NameItem(p)] + CiItems(p.environ) + [CmdlineItem(p)]
  }

  ghost function Emitted(c: Settings, ps: seq<Process>): seq<Metric> {
    if ps == [] then [] else Emitted(c, ps[..|ps| - 1]) + MetricsOf(c, ps[|ps| - 1])
  }

  function AllItems(ps: seq<Process>): seq<Item> {
    if ps == [] then [] else AllItems(ps[..|ps| - 1]) + ItemsOf(ps[|ps| - 1])
  }

  function SamplesOf(ps: seq<Process>): seq<ProcessSample> {
    seq(|ps|, i requires 0 <= i < |ps| => ps[i].sample)
  }

  /** Each sample with what its environ map holds now. */
  ghost predicate Seen(active: seq<ProcessSample>, ps: seq<Process>)
    reads set i | 0 <= i < |active| :: active[i].environ
  {
    |ps| == |active| && forall i :: 0 <= i < |active| ==> ps[i] == Process(active[i], active[i].environ.m)
  }

  // ----- the collector --------------------------------------------------------------------

  /** The effective limits and substrings of an optional, possibly hand-built Config. */
  function LimitsOf(cfg: Option<Config>): map<Bytes, int> {
    Merged(match cfg case Some(c) => c.maxLabelBytes case None => map[])
  }

  function ExtraOf(text: Text, cfg: Option<Config>): seq<Bytes> {
    Normalized(text, match cfg case Some(c) => c.redactKeySubstrings case None => [])
  }

  class ProcessCollector {
    const store: HistoryStore
    const settings: Settings
    const truncations: TruncationCounter

    /** NewProcessCollectorWithConfig; no Config means defaults, not "no limits". */
    constructor (store: HistoryStore, fp: Fingerprint, text: Text, cfg: Option<Config>)
      ensures this.store == store && fresh(truncations)
      ensures settings == Settings(fp, text, LimitsOf(cfg), ExtraOf(text, cfg))
      ensures truncations.counts == map name | name in MAX_LABEL_BYTES :: 0
    {
      var overrides, substrings := map[], [];
      if cfg.Some? {
        overrides, substrings := cfg.value.maxLabelBytes, cfg.value.redactKeySubstrings;
      }
      var limits := MergedMaxLabelBytes(overrides);
      var extra := NormalizeSubstrings(text, substrings);
      this.store := store;
      this.settings := Settings(fp, text, limits, extra);
      this.truncations := new TruncationCounter();
    }

    /** The metrics of one process; its cuts are counted as they are made. */
    method CollectProcess(sample: ProcessSample) returns (metrics: seq<Metric>)
      modifies truncations
      ensures var p := Process(sample, sample.environ.m);
        && metrics == MetricsOf(settings, p)
        && truncations.counts == Counted(settings.fp, settings.limits, old(truncations.counts), ItemsOf(p))
    {
      hide Incremented, CutCount, SanitizeLabelValue, Bounded, ScrubbedLabel, Incomplete, CiItems;
      ghost var p, counts := Process(sample, sample.environ.m), truncations.counts;
      var pid := Itoa(sample.pid as int);
      var name := BoundLabelWith(settings.fp, settings.limits, NAME, SanitizeLabelValue(sample.name), truncations);
      CountedOne(settings.fp, settings.limits, counts, NameItem(p));
      CountedConcat(settings.fp, settings.limits, counts, [NameItem(p)], CiItems(p.environ));
      var ciVals := CiJobLabelValuesWith(settings.fp, settings.limits, sample.environ.m, truncations);
      var labels := [pid, name] + ciVals;
      metrics := EmitCore(sample.usage, labels);
      var environ, incomplete := ScrubEnviron(settings.text, settings.extra, sample.environ.m);
      var truncatedLabel := if incomplete then Lit("1") else Lit("0");
      CountedOne(settings.fp, settings.limits, truncations.counts, CmdlineItem(p));
      CountedConcat(settings.fp, settings.limits, counts, [NameItem(p)] + CiItems(p.environ), [CmdlineItem(p)]);
      var cmdline :=
        BoundLabelWith(settings.fp, settings.limits, CMDLINE, SanitizeLabelValue(sample.cmdLine), truncations);
      metrics := metrics + [Metric(Info, 1.0, [pid, name, cmdline, environ, truncatedLabel] + ciVals)];
    }

    /** One gather: the metrics of every active process, in the order the store's map
        yields them, then the counters with this gather's own cuts included. */
    method Collect() returns (ch: seq<Metric>, counts: map<Bytes, nat>, ghost ps: seq<Process>, ghost order: seq<int32>)
      requires store.Valid()
      modifies truncations
      ensures |ps| == |order| && IsActiveListing(store.Abs(), order, SamplesOf(ps))
      ensures forall i :: 0 <= i < |ps| ==> ps[i].environ == ps[i].sample.environ.m
      ensures ch == Emitted(settings, ps)
      ensures counts == truncations.counts ==
        Counted(settings.fp, settings.limits, old(truncations.counts), AllItems(ps))
    {
      hide MetricsOf, ItemsOf, Incremented, CutCount;
      var processes;
      processes, order := store.GetActiveProcesses();
      ghost var active := processes[..];
      ch, ps := [], [];
      for i := 0 to processes.Length
        invariant processes[..] == active
        invariant Seen(active[..i], ps)
        invariant ch == Emitted(settings, ps)
        invariant truncations.counts == Counted(settings.fp, settings.limits, old(truncations.counts), AllItems(ps))
      {
        ghost var p := Process(processes[i], processes[i].environ.m);
        assert (ps + [p])[..|ps|] == ps;
        CountedConcat(settings.fp, settings.limits, old(truncations.counts), AllItems(ps), ItemsOf(p));
        var metrics := CollectProcess(processes[i]);
        ch := ch + metrics;
        ps := ps + [p];
      }
      counts := truncations.counts;
      assert SamplesOf(ps) == active;
    }
  }

  lemma CountedOne(fp: Fingerprint, limits: map<Bytes, int>, counts: map<Bytes, nat>, item: Item)
    ensures Counted(fp, limits, counts, [item]) ==
      Incremented(counts, item.name, CutCount(fp, limits, item.name, item.value))
  {
    assert [item][..0] == [];
  }

  // ----- every emitted label fits -------------------------------------------------------------

  /** A Go string is never longer than MaxInt64 bytes. */
  predicate GoSized(p: Process) {
    && |p.sample.name| <= INT64_MAX && |p.sample.cmdLine| <= INT64_MAX
    && forall k :: k in p.environ ==> |p.environ[k]| <= INT64_MAX
  }

  predicate Fitting(b: Bytes) { Valid(b) && |b| <= MAX_ENVIRON_BYTES }

  lemma CiValuesFit(fp: Fingerprint, overrides: map<Bytes, int>, environ: map<Bytes, Bytes>)
    requires forall k :: k in environ ==> |environ[k]| <= INT64_MAX
    ensures forall i :: 0 <= i < |CiValues(fp, Merged(overrides), environ)| ==>
      Fitting(CiValues(fp, Merged(overrides), environ)[i])
  {
    hide SanitizeLabelValue, Bounded, Merged;
    forall i | 0 <= i < |CI_JOB_LABEL_KEYS| ensures Fitting(CiValues(fp, Merged(overrides), environ)[i]) {
      CiKeyInContract(i);
      BoundedFits(fp, overrides, CI_JOB_LABEL_KEYS[i].name, Lookup(environ, CI_JOB_LABEL_KEYS[i].env));
    }
  }

  lemma CiKeyInContract(i: nat)
    requires i < |CI_JOB_LABEL_KEYS|
    ensures CI_JOB_LABEL_KEYS[i].name in MAX_LABEL_BYTES
  {
  }

  lemma PidFits(pid: int32)
    ensures Fitting(Itoa(pid as int))
  {
    AsciiIsValid(Itoa(pid as int));
    var n := if pid as int < 0 then -(pid as int) else pid as int;
    assert Pow10(5) == 100_000 && Pow10(10) == 10_000_000_000;
    DigitsLength(n, 10);
  }

  lemma FlagFits()
    ensures Fitting(Lit("0")) && Fitting(Lit("1"))
  {
    AsciiIsValid(Lit("0"));
    AsciiIsValid(Lit("1"));
  }

  /** For any process bytes and any Config, hand-built invalid ones included, every
      label value of every metric is valid UTF-8 of at most 8192 bytes. */
  lemma {:induction false} EveryLabelFits(
    fp: Fingerprint, text: Text, cfg: Option<Config>, extra: seq<Bytes>, p: Process)
    requires GoSized(p)
    ensures forall m, i :: m in MetricsOf(Settings(fp, text, LimitsOf(cfg), extra), p) && 0 <= i < |m.labels| ==>
      Valid(m.labels[i]) && |m.labels[i]| <= MAX_ENVIRON_BYTES
  {
    hide SanitizeLabelValue, Bounded, Merged, ScrubbedLabel, Incomplete, CiValues, Fitting, Lit;
    var overrides: map<Bytes, int> := match cfg case Some(c) => c.maxLabelBytes case None => map[];
    var c := Settings(fp, text, LimitsOf(cfg), extra);
    CiValuesFit(fp, overrides, p.environ);
    PidFits(p.sample.pid);
    FlagFits();
    NameAndCmdlineFit(fp, overrides, p);
    EnvironFits(text, extra, p.environ);
    forall m, i | m in MetricsOf(c, p) && 0 <= i < |m.labels|
      ensures Valid(m.labels[i]) && |m.labels[i]| <= MAX_ENVIRON_BYTES
    {
      assert m.labels == CommonLabels(c, p) || m.labels == InfoLabels(c, p);
      assert Fitting(m.labels[i]);
      FittingMeans(m.labels[i]);
    }
  }

  lemma FittingMeans(b: Bytes)
    ensures Fitting(b) <==> Valid(b) && |b| <= MAX_ENVIRON_BYTES
  {
  }

  lemma NameAndCmdlineFit(fp: Fingerprint, overrides: map<Bytes, int>, p: Process)
    requires GoSized(p)
    ensures Fitting(BoundedItem(fp, Merged(overrides), NameItem(p)))
    ensures Fitting(BoundedItem(fp, Merged(overrides), CmdlineItem(p)))
  {
    hide SanitizeLabelValue, Bounded, Merged;
    BoundedFits(fp, overrides, NAME, p.sample.name);
    BoundedFits(fp, overrides, CMDLINE, p.sample.cmdLine);
  }

  lemma EnvironFits(text: Text, extra: seq<Bytes>, environ: map<Bytes, Bytes>)
    requires forall k :: k in environ ==> |environ[k]| <= INT64_MAX
    ensures Fitting(ScrubbedLabel(text, extra, environ))
  {
    EnvironLabelSpec(text, extra, environ);
  }

  // ----- each reading under its own family ------------------------------------------------------

  /** One metric of the family, with its reading, and no other. */
  ghost predicate ReportedOnce(ms: seq<Metric>, f: Family, u: Usage) {
    exists i :: 0 <= i < |ms| && ReportedAt(ms, f, u, i)
  }

  ghost predicate ReportedAt(ms: seq<Metric>, f: Family, u: Usage, i: nat)
    requires i < |ms|
  {
    ms[i].family == f && ms[i].value == Measured(f, u) && forall j :: 0 <= j < |ms| && ms[j].family == f ==> j == i
  }

  lemma CoreAt(u: Usage, labels: seq<Bytes>, f: Family)
    requires !f.Info?
    ensures |CoreMetrics(u, labels)| == 11
    ensures Place(f) < 11 && CoreMetrics(u, labels)[Place(f)] == Metric(f, Measured(f, u), labels)
  {
  }

  /** Every process is reported exactly once in each family, with that family's reading. */
  lemma {:induction false} EachFamilyOnce(c: Settings, p: Process, f: Family)
    ensures ReportedOnce(MetricsOf(c, p), f, p.sample.usage)
  {
    var ms, core, u := MetricsOf(c, p), CoreMetrics(p.sample.usage, CommonLabels(c, p)), p.sample.usage;
    var i := Place(f);
    BlockShape(c, p);
    CoreAt(u, CommonLabels(c, p), if f.Info? then Rss else f);
    assert ms[11] == Metric(Info, 1.0, InfoLabels(c, p));
    assert f.Info? ==> i == 11;
    assert !f.Info? ==> ms[i] == core[i];
    hide MetricsOf, CoreMetrics, CommonLabels, InfoLabels, Place;
    assert ms[i].family == f && ms[i].value == Measured(f, u);
    assert ReportedAt(ms, f, u, i);
  }

  lemma MetricLabels(c: Settings, p: Process)
    ensures forall m <- MetricsOf(c, p) :: m.labels == if m.family.Info? then InfoLabels(c, p) else CommonLabels(c, p)
  {
    CoreShape(p.sample.usage, CommonLabels(c, p));
    hide CoreMetrics, CommonLabels, InfoLabels, Place;
  }

  // ----- what the metrics may depend on --------------------------------------------------------

  /** The same process but for environment values that the environ label cannot tell apart. */
  predicate Indistinguishable(c: Settings, p: Process, q: Process) {
    && p.sample.pid == q.sample.pid && p.sample.name == q.sample.name
    && p.sample.cmdLine == q.sample.cmdLine && p.sample.usage == q.sample.usage
    && p.environ.Keys == q.environ.Keys
    && forall k :: k in p.environ ==> Indistinct(c.text, c.extra, k, p.environ[k], q.environ[k])
  }

  /** Secret and over-long values leave through the four CI labels or not at all: the twelve
      metrics of such processes are equal exactly when their bounded CI values are. */
  lemma {:induction false} MetricsHideValues(c: Settings, p: Process, q: Process)
    requires Indistinguishable(c, p, q)
    ensures MetricsOf(c, p) == MetricsOf(c, q) <==>
      CiValues(c.fp, c.limits, p.environ) == CiValues(c.fp, c.limits, q.environ)
  {
    LabelHidesValues(c.text, c.extra, p.environ, q.environ);
    hide Indistinguishable, ScrubbedLabel, Incomplete, CiValues, BoundedItem, Lit, Itoa;
    var ms, ns := MetricsOf(c, p), MetricsOf(c, q);
    assert ms[0].labels == CommonLabels(c, p) && ns[0].labels == CommonLabels(c, q);
    assert CommonLabels(c, p)[2..] == CiValues(c.fp, c.limits, p.environ);
    assert CommonLabels(c, q)[2..] == CiValues(c.fp, c.limits, q.environ);
  }

  // ----- no duplicate series ---------------------------------------------------------------------

  /** Metrics of one family have pairwise distinct label sets. */
  ghost predicate NoDuplicates(ms: seq<Metric>) {
    forall i, j :: 0 <= i < j < |ms| && ms[i].family == ms[j].family ==> ms[i].labels != ms[j].labels
  }

  ghost predicate CarriesPid(m: Metric, pid: int32) {
    m.labels != [] && m.labels[0] == Itoa(pid as int)
  }

  /** Twelve metrics, one in each family's place, the PID in front. */
  lemma BlockShape(c: Settings, p: Process)
    ensures |MetricsOf(c, p)| == 12
    ensures forall i :: 0 <= i < 12 ==> Place(MetricsOf(c, p)[i].family) == i
    ensures forall i :: 0 <= i < 12 ==> CarriesPid(MetricsOf(c, p)[i], p.sample.pid)
  {
    CoreShape(p.sample.usage, CommonLabels(c, p));
    assert CommonLabels(c, p)[0] == Itoa(p.sample.pid as int) && InfoLabels(c, p)[0] == Itoa(p.sample.pid as int);
    hide CoreMetrics, CommonLabels, InfoLabels, Itoa;
  }

  lemma {:induction false} EmittedPids(c: Settings, ps: seq<Process>, i: nat) returns (k: nat)
    ensures i < |Emitted(c, ps)| ==> k < |ps| && CarriesPid(Emitted(c, ps)[i], ps[k].sample.pid)
  {
    hide MetricsOf;
    if ps == [] {
      return 0;
    }
    BlockShape(c, ps[|ps| - 1]);
    if i < |Emitted(c, ps[..|ps| - 1])| {
      k := EmittedPids(c, ps[..|ps| - 1], i);
    } else {
      k := |ps| - 1;
    }
  }

  lemma {:induction false} DistinctPidsDistinctSeries(c: Settings, ps: seq<Process>)
    requires forall i, j :: 0 <= i < j < |ps| ==> ps[i].sample.pid != ps[j].sample.pid
    ensures NoDuplicates(Emitted(c, ps))
  {
    hide MetricsOf, Itoa;
    if ps != [] {
      var front, last := ps[..|ps| - 1], ps[|ps| - 1];
      var ms, n := Emitted(c, ps), |Emitted(c, front)|;
      DistinctPidsDistinctSeries(c, front);
      BlockShape(c, last);
      assert forall k :: n <= k < |ms| ==> ms[k] == MetricsOf(c, last)[k - n];
      forall i, j | 0 <= i < j < |ms| && ms[i].family == ms[j].family ensures ms[i].labels != ms[j].labels {
        if i < n && j < n {
          assert ms[i] == Emitted(c, front)[i] && ms[j] == Emitted(c, front)[j];
        } else if i < n {
          var k := EmittedPids(c, front, i);
          if Itoa(front[k].sample.pid as int) == Itoa(last.sample.pid as int) {
            ItoaInjective(front[k].sample.pid as int, last.sample.pid as int);
          }
        }
      }
    }
  }

  /** Whatever the store went through, one gather never emits two series of a family
      with the same label set (which the registry would reject). */
  lemma {:induction false} GatherHasNoDuplicates(c: Settings, ops: seq<Op>, order: seq<int32>, ps: seq<Process>)
    requires |ps| == |order|
    requires IsActiveListing(After(EMPTY, ops), order, SamplesOf(ps))
    ensures NoDuplicates(Emitted(c, ps))
  {
    hide After, IsActiveListing;
    var active := SamplesOf(ps);
    ActivePidsDistinct(ops, order, active);
    assert forall i :: 0 <= i < |ps| ==> active[i] == ps[i].sample;
    DistinctPidsDistinctSeries(c, ps);
  }

  // ----- what the counter counts ------------------------------------------------------------------

  /** A value over its limit that does not already end in the marker it would get. */
  predicate OverLimit(fp: Fingerprint, limits: map<Bytes, int>, item: Item) {
    && item.name in limits && 0 < limits[item.name] < |item.value|
    && item.value[CutPoint(item.value, limits[item.name])..] != Marker(fp, item.value)
  }

  /** How many of these values are over the limit of this label. */
  function OverLimitCount(fp: Fingerprint, limits: map<Bytes, int>, items: seq<Item>, name: Bytes): nat {
    if items == [] then 0
    else
      var last := items[|items| - 1];
      OverLimitCount(fp, limits, items[..|items| - 1], name)
      + if last.name == name && OverLimit(fp, limits, last) then 1 else 0
  }

  function CountOf(counts: map<Bytes, nat>, name: Bytes): nat {
    if name in counts then counts[name] else 0
  }

  /** One gather adds to each label's counter exactly the number of its over-limit values. */
  lemma {:induction false} CounterCountsOverLimit(
    fp: Fingerprint, limits: map<Bytes, int>, counts: map<Bytes, nat>, items: seq<Item>, name: Bytes)
    ensures CountOf(Counted(fp, limits, counts, items), name) ==
      CountOf(counts, name) + OverLimitCount(fp, limits, items, name)
  {
    hide Marker, CutPoint;
    if items != [] {
      var last := items[|items| - 1];
      CounterCountsOverLimit(fp, limits, counts, items[..|items| - 1], name);
      if last.name in limits { UnchangedIff(fp, last.value, limits[last.name]); }
    }
  }
}

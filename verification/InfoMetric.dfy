/** exporter/collector.go and kube_collector.go: what each label shows, one by one, told from the process. */
module InfoMetric {
  import opened Wrappers
  import opened Utf8
  import opened Decimal
  import opened Givens
  import opened LabelBound
  import opened Config
  import opened Environ
  import opened Redaction
  import opened Collector
  import opened KubeJoin

  /** The limits without overrides. */
  lemma {:induction false} DefaultLimits()
    ensures var limits := Merged(map[]);
      && limits[Lit("name")] == 128 && limits[Lit("cmdline")] == 2048
      && limits[Lit("ci_job_name")] == 256 && limits[Lit("ci_project_path")] == 256
      && limits[Lit("ci_job_id")] == 32 && limits[Lit("ci_pipeline_id")] == 32
  {
    assert |NAME| == 4 && |CMDLINE| == 7 && |CI_JOB_ID| == 9;
    assert |CI_JOB_NAME| == 11 && |CI_PIPELINE_ID| == 14 && |CI_PROJECT_PATH| == 15;
    assert NAME == Lit("name") && CMDLINE == Lit("cmdline") && CI_JOB_ID == Lit("ci_job_id");
    assert CI_JOB_NAME == Lit("ci_job_name") && CI_PIPELINE_ID == Lit("ci_pipeline_id");
    assert CI_PROJECT_PATH == Lit("ci_project_path");
    hide Lit;
  }

  /** `out` shows `value` under a limit: as it is when it fits, else as a cut that reads back to a prefix
      of it, at most three bytes short of the limit, its length and its fingerprint. */
  predicate ShowsBounded(fp: Fingerprint, max: int, value: Bytes, out: Bytes) {
    if |value| <= max then out == value
    else
      var cut := ParseCut(out);
      && cut.Some? && cut.value.length == |value| && cut.value.digest == fp(value)
      && |cut.value.prefix| <= |value| && cut.value.prefix == value[..|cut.value.prefix|]
      && max - 3 <= |cut.value.prefix| <= max
  }

  /** The same for a raw value under the limit of a label. */
  ghost predicate ShowsLabel(fp: Fingerprint, overrides: map<Bytes, int>, name: Bytes, raw: Bytes, out: Bytes) {
    && name in Merged(overrides)
    && ShowsBounded(fp, Merged(overrides)[name], SanitizeLabelValue(raw), out)
  }

  lemma BoundedShows(fp: Fingerprint, overrides: map<Bytes, int>, name: Bytes, raw: Bytes)
    requires name in MAX_LABEL_BYTES && |raw| <= INT64_MAX
    ensures ShowsLabel(fp, overrides, name, raw, Bounded(fp, Merged(overrides), name, SanitizeLabelValue(raw)))
  {
    var s, max := SanitizeLabelValue(raw), Merged(overrides)[name];
    MergedLimitRange(overrides, name);
    SanitizeMakesValid(raw);
    if |s| > max {
      ParseTruncated(fp, s, max);
      CutPointIsLongest(s, max);
    }
    hide SanitizeLabelValue, ParseCut, Merged, CutPoint;
  }

  /** What the four CI labels show, in order: the variable, "" when absent, under its own limit. */
  ghost predicate ShowsCi(fp: Fingerprint, overrides: map<Bytes, int>, environ: map<Bytes, Bytes>, labels: seq<Bytes>) {
    && |labels| == 4
    && ShowsLabel(fp, overrides, Lit("ci_job_id"), Lookup(environ, Lit("CI_JOB_ID")), labels[0])
    && ShowsLabel(fp, overrides, Lit("ci_job_name"), Lookup(environ, Lit("CI_JOB_NAME")), labels[1])
    && ShowsLabel(fp, overrides, Lit("ci_project_path"), Lookup(environ, Lit("CI_PROJECT_PATH")), labels[2])
    && ShowsLabel(fp, overrides, Lit("ci_pipeline_id"), Lookup(environ, Lit("CI_PIPELINE_ID")), labels[3])
  }

  lemma CiShows(fp: Fingerprint, overrides: map<Bytes, int>, environ: map<Bytes, Bytes>)
    requires forall k :: k in environ ==> |environ[k]| <= INT64_MAX
    ensures ShowsCi(fp, overrides, environ, CiValues(fp, Merged(overrides), environ))
  {
    hide Lit, SanitizeLabelValue, Bounded, Merged, ShowsLabel;
    forall i | 0 <= i < 4
      ensures var k := CI_JOB_LABEL_KEYS[i];
        ShowsLabel(fp, overrides, k.name, Lookup(environ, k.env), CiValues(fp, Merged(overrides), environ)[i])
    {
      CiKeyInContract(i);
      BoundedShows(fp, overrides, CI_JOB_LABEL_KEYS[i].name, Lookup(environ, CI_JOB_LABEL_KEYS[i].env));
    }
    var vals := CiValues(fp, Merged(overrides), environ);
    assert CI_JOB_LABEL_KEYS[0] == LabelKey(Lit("CI_JOB_ID"), Lit("ci_job_id"));
    assert CI_JOB_LABEL_KEYS[1] == LabelKey(Lit("CI_JOB_NAME"), Lit("ci_job_name"));
    assert CI_JOB_LABEL_KEYS[2] == LabelKey(Lit("CI_PROJECT_PATH"), Lit("ci_project_path"));
    assert CI_JOB_LABEL_KEYS[3] == LabelKey(Lit("CI_PIPELINE_ID"), Lit("ci_pipeline_id"));
    assert |vals| == 4;
  }

  /** The rendered variable stands in the label. */
  ghost predicate VariableStands(text: Text, extra: seq<Bytes>, k: Bytes, raw: Bytes, out: Bytes) {
    exists r :: Renders(text, extra, k, raw, r) && PairStands(out, SanitizeLabelValue(k), r)
  }

  /** The environ label: valid, within 8192 bytes, every variable that has a pair rendered in it. */
  ghost predicate ShowsEnviron(text: Text, extra: seq<Bytes>, environ: map<Bytes, Bytes>, out: Bytes) {
    && Valid(out) && |out| <= 8192
    && forall k :: k in environ && HasPair(text, extra, environ, k) ==> VariableStands(text, extra, k, environ[k], out)
  }

  lemma EnvironShows(text: Text, extra: seq<Bytes>, environ: map<Bytes, Bytes>)
    requires forall k :: k in environ ==> |environ[k]| <= INT64_MAX
    ensures ShowsEnviron(text, extra, environ, ScrubbedLabel(text, extra, environ))
  {
    EnvironLabelSpec(text, extra, environ);
    hide ScrubbedLabel, Kept, Pairs, Renders, PairStands, SanitizeLabelValue, Valid, EmittedKeys;
    forall k | k in environ && HasPair(text, extra, environ, k)
      ensures VariableStands(text, extra, k, environ[k], ScrubbedLabel(text, extra, environ))
    {
      var i :| 0 <= i < |EmittedKeys(environ)| && KeyAt(environ, i) == k &&
        i in Kept(Pairs(text, extra, environ), |Pairs(text, extra, environ)|);
      KeptPairStands(text, extra, environ, i);
    }
  }

  function OverridesOf(cfg: Option<Config>): map<Bytes, int> {
    match cfg case Some(c) => c.maxLabelBytes case None => map[]
  }

  /** PID, name and the four CI variables: the labels of the eleven core metrics. */
  ghost predicate ShowsCommon(fp: Fingerprint, overrides: map<Bytes, int>, p: Process, labels: seq<Bytes>) {
    && |labels| == 6 && labels[0] == Itoa(p.sample.pid as int)
    && ShowsLabel(fp, overrides, Lit("name"), p.sample.name, labels[1])
    && ShowsCi(fp, overrides, p.environ, labels[2..])
  }

  /** The nine labels of the info metric; the fifth says whether some variable has no pair in the fourth. */
  ghost predicate ShowsInfo(
    fp: Fingerprint, overrides: map<Bytes, int>, text: Text, extra: seq<Bytes>, p: Process, labels: seq<Bytes>)
  {
    && |labels| == 9 && labels[0] == Itoa(p.sample.pid as int)
    && ShowsLabel(fp, overrides, Lit("name"), p.sample.name, labels[1])
    && ShowsLabel(fp, overrides, Lit("cmdline"), p.sample.cmdLine, labels[2])
    && ShowsEnviron(text, extra, p.environ, labels[3])
    && labels[4] == (if AllHavePairs(text, extra, p.environ) then Lit("0") else Lit("1"))
    && ShowsCi(fp, overrides, p.environ, labels[5..])
  }

  ghost predicate AllHavePairs(text: Text, extra: seq<Bytes>, environ: map<Bytes, Bytes>) {
    forall k :: k in environ ==> HasPair(text, extra, environ, k)
  }

  lemma CiValuesLength(fp: Fingerprint, limits: map<Bytes, int>, environ: map<Bytes, Bytes>)
    ensures |CiValues(fp, limits, environ)| == 4
  {
    hide Bounded, Lookup, SanitizeLabelValue;
  }

  lemma NameShows(fp: Fingerprint, overrides: map<Bytes, int>, p: Process)
    requires GoSized(p)
    ensures ShowsLabel(fp, overrides, Lit("name"), p.sample.name, BoundedItem(fp, Merged(overrides), NameItem(p)))
    ensures
      ShowsLabel(fp, overrides, Lit("cmdline"), p.sample.cmdLine, BoundedItem(fp, Merged(overrides), CmdlineItem(p)))
  {
    hide Bounded, Merged, ShowsLabel, SanitizeLabelValue;
    BoundedShows(fp, overrides, NAME, p.sample.name);
    BoundedShows(fp, overrides, CMDLINE, p.sample.cmdLine);
  }

  lemma CommonShows(c: Settings, overrides: map<Bytes, int>, p: Process)
    requires GoSized(p) && c.limits == Merged(overrides)
    ensures ShowsCommon(c.fp, overrides, p, CommonLabels(c, p))
  {
    hide BoundedItem, NameItem, CmdlineItem, Merged, ShowsLabel, ShowsCi, CiValues, Itoa, Lit;
    NameShows(c.fp, overrides, p);
    CiShows(c.fp, overrides, p.environ);
    CiValuesLength(c.fp, c.limits, p.environ);
    assert CommonLabels(c, p)[2..] == CiValues(c.fp, c.limits, p.environ);
  }

  lemma InfoShows(c: Settings, overrides: map<Bytes, int>, p: Process)
    requires GoSized(p) && c.limits == Merged(overrides)
    ensures ShowsInfo(c.fp, overrides, c.text, c.extra, p, InfoLabels(c, p))
  {
    hide BoundedItem, NameItem, CmdlineItem, Merged, ShowsLabel, ShowsCi, CiValues, Itoa, Lit;
    hide ScrubbedLabel, Incomplete, HasPair, ShowsEnviron;
    NameShows(c.fp, overrides, p);
    CiShows(c.fp, overrides, p.environ);
    CiValuesLength(c.fp, c.limits, p.environ);
    EnvironShows(c.text, c.extra, p.environ);
    IncompleteIff(c.text, c.extra, p.environ);
    assert InfoLabels(c, p)[5..] == CiValues(c.fp, c.limits, p.environ);
  }

  /** Label by label, what every metric of a process shows, for any Config. */
  lemma LabelsShow(fp: Fingerprint, text: Text, cfg: Option<Config>, extra: seq<Bytes>, p: Process)
    requires GoSized(p)
    ensures forall m <- MetricsOf(Settings(fp, text, LimitsOf(cfg), extra), p) ::
      if m.family.Info? then ShowsInfo(fp, OverridesOf(cfg), text, extra, p, m.labels)
      else ShowsCommon(fp, OverridesOf(cfg), p, m.labels)
  {
    var c := Settings(fp, text, LimitsOf(cfg), extra);
    assert c.limits == Merged(OverridesOf(cfg));
    hide *;
    MetricLabels(c, p);
    CommonShows(c, OverridesOf(cfg), p);
    InfoShows(c, OverridesOf(cfg), p);
  }

  /** Metric m belongs to this process and shows its labels. */
  ghost predicate Shows(
    fp: Fingerprint, overrides: map<Bytes, int>, text: Text, extra: seq<Bytes>, p: Process, m: Metric)
  {
    if m.family.Info? then ShowsInfo(fp, overrides, text, extra, p, m.labels)
    else ShowsCommon(fp, overrides, p, m.labels)
  }

  /** Every metric of a gather shows one of the processes it reports. */
  lemma {:induction false} GatherShows(
    fp: Fingerprint, text: Text, cfg: Option<Config>, extra: seq<Bytes>, ps: seq<Process>, i: nat)
    returns (k: nat)
    requires forall p <- ps :: GoSized(p)
    ensures var ms := Emitted(Settings(fp, text, LimitsOf(cfg), extra), ps);
      i < |ms| ==> k < |ps| && Shows(fp, OverridesOf(cfg), text, extra, ps[k], ms[i])
  {
    hide MetricsOf, GoSized, ShowsInfo, ShowsCommon, LimitsOf, OverridesOf;
    if ps == [] {
      return 0;
    }
    var front, last := ps[..|ps| - 1], ps[|ps| - 1];
    var c := Settings(fp, text, LimitsOf(cfg), extra);
    if i < |Emitted(c, front)| {
      k := GatherShows(fp, text, cfg, extra, front, i);
    } else {
      k := |ps| - 1;
      LabelsShow(fp, text, cfg, extra, last);
    }
  }

  /** The family's metric, whichever it is, carries this value. */
  ghost predicate Carries(ms: seq<Metric>, f: Family, value: real) {
    && (exists m <- ms :: m.family == f)
    && (forall m <- ms :: m.family == f ==> m.value == value)
  }

  /** Each reading under its own family. */
  lemma {:induction false} ReadingsOfFamilies(c: Settings, p: Process)
    ensures var ms, u := MetricsOf(c, p), p.sample.usage;
      && Carries(ms, CpuSeconds, u.cpuSeconds) && Carries(ms, Info, 1.0)
      && Carries(ms, Rss, u.memoryRss as real) && Carries(ms, Vms, u.memoryVms as real)
      && Carries(ms, IoRead, u.ioRead as real) && Carries(ms, IoWrite, u.ioWrite as real)
      && Carries(ms, IoReadSelf, u.ioReadSelf as real) && Carries(ms, IoWriteSelf, u.ioWriteSelf as real)
      && Carries(ms, IoReadSyscalls, u.ioReadSyscalls as real)
      && Carries(ms, IoWriteSyscalls, u.ioWriteSyscalls as real)
      && Carries(ms, IoReadSyscallsSelf, u.ioReadSyscallsSelf as real)
      && Carries(ms, IoWriteSyscallsSelf, u.ioWriteSyscallsSelf as real)
  {
    hide MetricsOf, Carries;
    CarriesMeasured(c, p, CpuSeconds);
    CarriesMeasured(c, p, Rss);
    CarriesMeasured(c, p, Vms);
    CarriesMeasured(c, p, IoRead);
    CarriesMeasured(c, p, IoWrite);
    CarriesMeasured(c, p, IoReadSelf);
    CarriesMeasured(c, p, IoWriteSelf);
    CarriesMeasured(c, p, IoReadSyscalls);
    CarriesMeasured(c, p, IoWriteSyscalls);
    CarriesMeasured(c, p, IoReadSyscallsSelf);
    CarriesMeasured(c, p, IoWriteSyscallsSelf);
    CarriesMeasured(c, p, Info);
  }

  lemma CarriesMeasured(c: Settings, p: Process, f: Family)
    ensures Carries(MetricsOf(c, p), f, Measured(f, p.sample.usage))
  {
    hide MetricsOf, Measured;
    EachFamilyOnce(c, p, f);
    var ms := MetricsOf(c, p);
    var i :| 0 <= i < |ms| && ReportedAt(ms, f, p.sample.usage, i);
    assert ms[i] in ms;
  }

  /** The values whose cuts are counted, each under its label: name, the CI variables, command line. */
  lemma {:induction false} CountedLabels(p: Process)
    ensures ItemsOf(p) == [
      Item(Lit("name"), SanitizeLabelValue(p.sample.name)),
      Item(Lit("ci_job_id"), SanitizeLabelValue(Lookup(p.environ, Lit("CI_JOB_ID")))),
      Item(Lit("ci_job_name"), SanitizeLabelValue(Lookup(p.environ, Lit("CI_JOB_NAME")))),
      Item(Lit("ci_project_path"), SanitizeLabelValue(Lookup(p.environ, Lit("CI_PROJECT_PATH")))),
      Item(Lit("ci_pipeline_id"), SanitizeLabelValue(Lookup(p.environ, Lit("CI_PIPELINE_ID")))),
      Item(Lit("cmdline"), SanitizeLabelValue(p.sample.cmdLine))
    ]
  {
    hide Lit, SanitizeLabelValue, Lookup;
    assert CI_JOB_LABEL_KEYS == [
      LabelKey(Lit("CI_JOB_ID"), Lit("ci_job_id")), LabelKey(Lit("CI_JOB_NAME"), Lit("ci_job_name")),
      LabelKey(Lit("CI_PROJECT_PATH"), Lit("ci_project_path")), LabelKey(Lit("CI_PIPELINE_ID"), Lit("ci_pipeline_id"))];
  }

  /** Some entry of the list, trimmed and then folded, is s. */
  ghost predicate LeftOf(text: Text, ss: seq<Bytes>, s: Bytes) {
    exists i :: 0 <= i < |ss| && text.lower(text.trim(ss[i])) == s
  }

  /** The collector redacts by exactly what is left of each configured substring, trimmed and folded. */
  lemma {:induction false} ConfiguredSubstrings(text: Text, cfg: Option<Config>, s: Bytes)
    ensures s in ExtraOf(text, cfg) <==>
      s != [] && cfg.Some? && LeftOf(text, cfg.value.redactKeySubstrings, s)
  {
    NormalizedHolds(text, match cfg case Some(c) => c.redactKeySubstrings case None => [], s);
  }

  /** A variable reads as what it was set to, and as "" when it is not set. */
  lemma LookupReads(environ: map<Bytes, Bytes>, k: Bytes, v: Bytes)
    ensures Lookup(environ[k := v], k) == v && Lookup(environ - {k}, k) == []
  {
  }

  // ----- what the join says of processes ----------------------------------------------------------

  predicate NamesJob(p: Process) { Lookup(p.environ, Lit("CI_JOB_NAME")) != [] }

  /** The process runs in a pod of the snapshot it is looked up in. */
  predicate HasKnownPod(pods: Snapshots, i: nat, p: Process) {
    p.sample.podUid != [] && p.sample.podUid in pods(i)
  }

  /** The job name a process goes by: its CI_JOB_NAME, under the limit of ci_job_name. */
  ghost predicate GoesBy(fp: Fingerprint, cfg: Option<Config>, p: Process, job: Bytes) {
    && NamesJob(p) && job != []
    && ShowsLabel(fp, OverridesOf(cfg), Lit("ci_job_name"), Lookup(p.environ, Lit("CI_JOB_NAME")), job)
  }

  lemma SanitizeEmptyIff(v: Bytes)
    ensures SanitizeLabelValue(v) == [] <==> v == []
  {
  }

  lemma BoundedEmptyIff(fp: Fingerprint, overrides: map<Bytes, int>, name: Bytes, raw: Bytes)
    requires name in MAX_LABEL_BYTES
    ensures Bounded(fp, Merged(overrides), name, SanitizeLabelValue(raw)) == [] <==> raw == []
  {
    MergedLimitRange(overrides, name);
    SanitizeEmptyIff(raw);
    hide SanitizeLabelValue, Merged;
    assert Marker(fp, SanitizeLabelValue(raw)) != [];
  }

  /** A process joins exactly when it has a pod, that pod is in the snapshot, and it names its job. */
  lemma {:induction false} JoinsIff(fp: Fingerprint, cfg: Option<Config>, pods: map<Bytes, PodInfo>, p: Process)
    requires GoSized(p)
    ensures Joins(fp, LimitsOf(cfg), pods, p) <==>
      p.sample.podUid != [] && p.sample.podUid in pods && NamesJob(p)
    ensures Joins(fp, LimitsOf(cfg), pods, p) ==> GoesBy(fp, cfg, p, JobName(fp, LimitsOf(cfg), p.environ))
  {
    var raw := Lookup(p.environ, Lit("CI_JOB_NAME"));
    BoundedEmptyIff(fp, OverridesOf(cfg), CI_JOB_NAME, raw);
    BoundedShows(fp, OverridesOf(cfg), CI_JOB_NAME, raw);
    hide Bounded, SanitizeLabelValue, Merged, ShowsLabel, Lookup, Lit;
    assert LimitsOf(cfg) == Merged(OverridesOf(cfg));
  }

  /** Process i bears the metric's job name, and its pod, in the snapshot it was looked up in,
      requests what the metric says. */
  ghost predicate Tells(fp: Fingerprint, cfg: Option<Config>, pods: Snapshots, i: nat, p: Process, m: KubeMetric) {
    && GoesBy(fp, cfg, p, m.jobName)
    && HasKnownPod(pods, i, p)
    && var pod := pods(i)[p.sample.podUid];
      m.value == if m.request.CpuRequest? then pod.cpuRequest else pod.memRequest
  }

  ghost predicate TellsSome(fp: Fingerprint, cfg: Option<Config>, pods: Snapshots, ps: seq<Process>, m: KubeMetric) {
    exists i :: 0 <= i < |ps| && Tells(fp, cfg, pods, i, ps[i], m)
  }

  /** No emitted job_name is empty: each is what some process with a known pod goes by, and carries
      that pod's request. Whoever has a known pod and a CI_JOB_NAME goes by an emitted name. */
  lemma {:induction false} JobsAreNamed(
    fp: Fingerprint, cfg: Option<Config>, pods: Snapshots, ps: seq<Process>, ch: seq<KubeMetric>)
    requires JoinsExactly(fp, LimitsOf(cfg), pods, ps, ch)
    requires forall p <- ps :: GoSized(p)
    ensures forall m <- ch :: m.jobName != [] && TellsSome(fp, cfg, pods, ps, m)
    ensures forall i :: 0 <= i < |ps| && HasKnownPod(pods, i, ps[i]) && NamesJob(ps[i]) ==>
      exists job :: GoesBy(fp, cfg, ps[i], job) && HasJob(ch, job)
  {
    hide LimitsOf, Joins, JobName, GoesBy, HasJob, GoSized, Lookup;
    forall m | m in ch ensures m.jobName != [] && TellsSome(fp, cfg, pods, ps, m) {
      assert Explained(fp, LimitsOf(cfg), pods, ps, ch, m);
      MetricTells(fp, cfg, pods, ps, ch, m);
    }
    forall i | 0 <= i < |ps| && HasKnownPod(pods, i, ps[i]) && NamesJob(ps[i])
      ensures exists job :: GoesBy(fp, cfg, ps[i], job) && HasJob(ch, job)
    {
      JoinsIff(fp, cfg, pods(i), ps[i]);
      assert HasJob(ch, JobName(fp, LimitsOf(cfg), ps[i].environ));
    }
  }

  lemma MetricTells(
    fp: Fingerprint, cfg: Option<Config>, pods: Snapshots, ps: seq<Process>, ch: seq<KubeMetric>, m: KubeMetric)
    requires Explained(fp, LimitsOf(cfg), pods, ps, ch, m)
    requires forall p <- ps :: GoSized(p)
    ensures m.jobName != [] && TellsSome(fp, cfg, pods, ps, m)
  {
    hide LimitsOf, Joins, JobName, GoSized, ShowsLabel, Lookup, HasBoth;
    var info :| Backed(fp, LimitsOf(cfg), pods, ps, m.jobName, info) && HasBoth(ch, m.jobName, info)
      && m.value == ValueOf(m.request, info);
    var i :| 0 <= i < |ps| && BackedBy(fp, LimitsOf(cfg), pods, i, ps[i], m.jobName, info);
    JoinsIff(fp, cfg, pods(i), ps[i]);
    assert Tells(fp, cfg, pods, i, ps[i], m);
  }

  // ----- the marker -------------------------------------------------------------------------------

  /** A cut value, spelled out. */
  lemma TruncationSpelledOut(fp: Fingerprint, s: Bytes, max: int)
    requires 0 < max < |s|
    ensures Truncated(fp, s, max) == s[..CutPoint(s, max)]
      + ([0xE2, 0x80, 0xA6] + Lit("[len=") + Itoa(|s|) + (Lit(";sha256=") + fp(s) + Lit("]")))
  {
    hide Digits, CutPoint;
    assert Lit("]") == [0x5D];
  }
}

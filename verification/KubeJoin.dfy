/** exporter/kube_collector.go: joining active processes with the pod snapshot,
    deduplicated by the bounded job name. */
module KubeJoin {
  import opened Wrappers
  import opened Utf8
  import opened Givens
  import opened LabelBound
  import opened Config
  import opened Environ
  import opened History
  import opened Collector

  datatype PodInfo = PodInfo(uid: Bytes, cpuRequest: real, memRequest: real)

  /** The latest snapshot of pod UID to resource requests. */
  class KubeStore {
    var pods: map<Bytes, PodInfo>

    constructor ()
      ensures pods == map[]
    {
      pods := map[];
    }

    /** Swaps the whole snapshot. */
    method Replace(listed: seq<PodInfo>)
      modifies this
      ensures pods == SnapshotOf(listed)
    {
      var next: map<Bytes, PodInfo> := map[];
      for i := 0 to |listed|
        invariant next == SnapshotOf(listed[..i])
      {
        assert listed[..i + 1][..i] == listed[..i];
        next := next[listed[i].uid := listed[i]];
      }
      assert listed[..|listed|] == listed;
      pods := next;
    }

    /** A replacement another goroutine makes, if it makes one. */
    method Meanwhile(listed: Option<seq<PodInfo>>)
      modifies this
      ensures pods == match listed case Some(l) => SnapshotOf(l) case None => old(pods)
    {
      if listed.Some? { Replace(listed.value); }
    }

    method Get(uid: Bytes) returns (r: Option<PodInfo>)
      ensures r == if uid in pods then Some(pods[uid]) else None
    {
      return if uid in pods then Some(pods[uid]) else None;
    }
  }

  function SnapshotOf(listed: seq<PodInfo>): map<Bytes, PodInfo> {
    if listed == [] then map[]
    else SnapshotOf(listed[..|listed| - 1])[listed[|listed| - 1].uid := listed[|listed| - 1]]
  }

  /** The snapshot holds exactly the listed UIDs, each as it was listed last. */
  lemma {:induction false} LastListingWins(listed: seq<PodInfo>, uid: Bytes)
    ensures uid in SnapshotOf(listed) <==> exists i :: 0 <= i < |listed| && listed[i].uid == uid
    ensures uid in SnapshotOf(listed) ==> exists i: nat :: ListedLast(listed, uid, SnapshotOf(listed)[uid], i)
  {
    if listed != [] {
      var front, last := listed[..|listed| - 1], listed[|listed| - 1];
      LastListingWins(front, uid);
      hide ListedLast;
      SnapshotSnoc(listed, uid);
      hide SnapshotOf;
      assert forall i :: 0 <= i < |front| ==> listed[i] == front[i];
      if last.uid == uid {
        LastIsListedLast(listed);
      } else if uid in SnapshotOf(front) {
        var i: nat :| ListedLast(front, uid, SnapshotOf(front)[uid], i);
        ListedLastStays(listed, uid, SnapshotOf(front)[uid], i);
      }
    }
  }

  /** Entry i is this one and the last of its UID. */
  predicate ListedLast(listed: seq<PodInfo>, uid: Bytes, info: PodInfo, i: nat) {
    && i < |listed| && listed[i] == info && info.uid == uid
    && forall j :: i < j < |listed| ==> listed[j].uid != uid
  }

  lemma SnapshotSnoc(listed: seq<PodInfo>, uid: Bytes)
    requires listed != []
    ensures var front, last := listed[..|listed| - 1], listed[|listed| - 1];
      && (uid in SnapshotOf(listed) <==> uid == last.uid || uid in SnapshotOf(front))
      && (uid in SnapshotOf(listed) ==>
            SnapshotOf(listed)[uid] == if uid == last.uid then last else SnapshotOf(front)[uid])
  {
  }

  lemma LastIsListedLast(listed: seq<PodInfo>)
    requires listed != []
    ensures var last := listed[|listed| - 1]; ListedLast(listed, last.uid, last, |listed| - 1)
  {
  }

  lemma ListedLastStays(listed: seq<PodInfo>, uid: Bytes, info: PodInfo, i: nat)
    requires listed != [] && listed[|listed| - 1].uid != uid
    requires ListedLast(listed[..|listed| - 1], uid, info, i)
    ensures ListedLast(listed, uid, info, i)
  {
  }

  datatype Request = CpuRequest | MemoryRequest

  datatype KubeMetric = KubeMetric(request: Request, value: real, jobName: Bytes)

  /** The job_name of one process: sanitised, then bounded at the ci_job_name limit. */
  function JobName(fp: Fingerprint, limits: map<Bytes, int>, environ: map<Bytes, Bytes>): Bytes {
    BoundedItem(fp, limits, JobItem(environ))
  }

  /** A process that belongs to a pod of the snapshot and names its job. */
  predicate Joins(fp: Fingerprint, limits: map<Bytes, int>, pods: map<Bytes, PodInfo>, p: Process) {
    p.sample.podUid != [] && JobName(fp, limits, p.environ) != [] && p.sample.podUid in pods
  }

  function ValueOf(request: Request, info: PodInfo): real {
    match request case CpuRequest => info.cpuRequest case MemoryRequest => info.memRequest
  }

  /** The job names that are bounded, snapshot or not, for processes of some pod. */
  function KubeItems(ps: seq<Process>): seq<Item> {
    if ps == [] then []
    else
      var last := ps[|ps| - 1];
      KubeItems(ps[..|ps| - 1]) + if last.sample.podUid != [] then [JobItem(last.environ)] else []
  }

  function JobItem(environ: map<Bytes, Bytes>): Item {
    Item(CI_JOB_NAME, SanitizeLabelValue(Lookup(environ, ENV_JOB_NAME)))
  }

  lemma KubeItemsSnoc(fp: Fingerprint, limits: map<Bytes, int>, counts: map<Bytes, nat>, ps: seq<Process>, p: Process)
    ensures var before := Counted(fp, limits, counts, KubeItems(ps));
            Counted(fp, limits, counts, KubeItems(ps + [p])) ==
            if p.sample.podUid != []
            then Incremented(before, CI_JOB_NAME, CutCount(fp, limits, CI_JOB_NAME, JobItem(p.environ).value))
            else before
  {
    hide Incremented, CutCount, SanitizeLabelValue;
    assert (ps + [p])[..|ps|] == ps;
    if p.sample.podUid != [] {
      CountedConcat(fp, limits, counts, KubeItems(ps), [JobItem(p.environ)]);
      CountedOne(fp, limits, Counted(fp, limits, counts, KubeItems(ps)), JobItem(p.environ));
    } else {
      assert KubeItems(ps) + [] == KubeItems(ps);
    }
  }

  /** Replacements that other goroutines make while a gather runs: the last one, if any,
      before each process is looked up. */
  type Updates = nat -> Option<seq<PodInfo>>

  /** The snapshot that process i is looked up in. */
  function PodsAt(pods: map<Bytes, PodInfo>, updates: Updates, i: nat): map<Bytes, PodInfo> {
    match updates(i)
    case Some(listed) => SnapshotOf(listed)
    case None => if i == 0 then pods else PodsAt(pods, updates, i - 1)
  }

  /** Without replacements there is one snapshot. */
  lemma {:induction false} OneSnapshot(pods: map<Bytes, PodInfo>, updates: Updates, i: nat)
    requires forall k: nat :: k <= i ==> updates(k).None?
    ensures PodsAt(pods, updates, i) == pods
  {
    if i > 0 { OneSnapshot(pods, updates, i - 1); }
  }

  /** The snapshots of one gather, by process. */
  type Snapshots = nat -> map<Bytes, PodInfo>

  function SnapshotsOf(pods: map<Bytes, PodInfo>, updates: Updates): Snapshots {
    (i: nat) => PodsAt(pods, updates, i)
  }

  /** Process i bears this job name and ran in this pod of the snapshot when looked up. */
  predicate BackedBy(
    fp: Fingerprint, limits: map<Bytes, int>, pods: Snapshots, i: nat, p: Process, job: Bytes, info: PodInfo)
  {
    && Joins(fp, limits, pods(i), p)
    && JobName(fp, limits, p.environ) == job && pods(i)[p.sample.podUid] == info
  }

  ghost predicate Backed(
    fp: Fingerprint, limits: map<Bytes, int>, pods: Snapshots, ps: seq<Process>, job: Bytes, info: PodInfo)
  {
    exists i :: 0 <= i < |ps| && BackedBy(fp, limits, pods, i, ps[i], job, info)
  }

  /** The table the first loop builds: one backed entry per joined job name, none missing. */
  ghost predicate IsJoin(
    fp: Fingerprint, limits: map<Bytes, int>, pods: Snapshots, ps: seq<Process>, byJob: map<Bytes, PodInfo>)
  {
    && (forall job :: job in byJob ==> Backed(fp, limits, pods, ps, job, byJob[job]))
    && AllNamed(fp, limits, pods, ps, byJob.Keys)
  }

  /** Every process that joins has its job name among these. */
  ghost predicate AllNamed(
    fp: Fingerprint, limits: map<Bytes, int>, pods: Snapshots, ps: seq<Process>, jobs: set<Bytes>)
  {
    forall i :: 0 <= i < |ps| && Joins(fp, limits, pods(i), ps[i]) ==> JobName(fp, limits, ps[i].environ) in jobs
  }

  /** The two metrics of a joined job. */
  function BothMetrics(job: Bytes, info: PodInfo): seq<KubeMetric> {
    [KubeMetric(CpuRequest, info.cpuRequest, job), KubeMetric(MemoryRequest, info.memRequest, job)]
  }

  /** Both requests of one pod are emitted under this job name. */
  predicate HasBoth(ch: seq<KubeMetric>, job: Bytes, info: PodInfo) {
    forall m <- BothMetrics(job, info) :: m in ch
  }

  ghost predicate HasJob(ch: seq<KubeMetric>, job: Bytes) {
    exists info :: HasBoth(ch, job, info)
  }

  ghost predicate OncePerMetric(ch: seq<KubeMetric>) {
    forall i, j :: 0 <= i < j < |ch| && ch[i].request == ch[j].request ==> ch[i].jobName != ch[j].jobName
  }

  /** Each job of the table once per metric, with its own requests, and nothing else. */
  ghost predicate EmitsTable(ch: seq<KubeMetric>, byJob: map<Bytes, PodInfo>) {
    && OncePerMetric(ch)
    && (forall i :: 0 <= i < |ch| ==>
      ch[i].jobName in byJob && ch[i].value == ValueOf(ch[i].request, byJob[ch[i].jobName]))
    && (forall job :: job in byJob ==> HasBoth(ch, job, byJob[job]))
  }

  lemma NothingCounted(fp: Fingerprint, limits: map<Bytes, int>, counts: map<Bytes, nat>)
    ensures Counted(fp, limits, counts, KubeItems([])) == counts
  {
  }

  function JoinedWith(
    fp: Fingerprint, limits: map<Bytes, int>, pods: map<Bytes, PodInfo>, p: Process,
    byJob: map<Bytes, PodInfo>): map<Bytes, PodInfo>
  {
    if Joins(fp, limits, pods, p) then byJob[JobName(fp, limits, p.environ) := pods[p.sample.podUid]] else byJob
  }

  lemma JoinStep(
    fp: Fingerprint, limits: map<Bytes, int>, pods: Snapshots, ps: seq<Process>, p: Process,
    byJob: map<Bytes, PodInfo>)
    requires IsJoin(fp, limits, pods, ps, byJob)
    ensures IsJoin(fp, limits, pods, ps + [p], JoinedWith(fp, limits, pods(|ps|), p, byJob))
  {
    var next := JoinedWith(fp, limits, pods(|ps|), p, byJob);
    JoinedWithIs(fp, limits, pods, |ps|, p, byJob);
    NamedStep(fp, limits, pods, ps, p, byJob.Keys, next.Keys);
    hide JobName, Joins, Backed, BackedBy, JoinedWith, AllNamed;
    forall job | job in next ensures Backed(fp, limits, pods, ps + [p], job, next[job]) {
      if job in byJob && next[job] == byJob[job] {
        BackedStays(fp, limits, pods, ps, p, job, next[job]);
      } else {
        BackedNow(fp, limits, pods, ps, p, job, next[job]);
      }
    }
  }

  lemma JoinedWithIs(
    fp: Fingerprint, limits: map<Bytes, int>, pods: Snapshots, i: nat, p: Process, byJob: map<Bytes, PodInfo>)
    ensures var next := JoinedWith(fp, limits, pods(i), p, byJob);
      && byJob.Keys <= next.Keys
      && (Joins(fp, limits, pods(i), p) ==> JobName(fp, limits, p.environ) in next)
      && (forall job :: job in next ==>
            (job in byJob && next[job] == byJob[job]) || BackedBy(fp, limits, pods, i, p, job, next[job]))
  {
    hide JobName;
  }

  lemma NamedStep(
    fp: Fingerprint, limits: map<Bytes, int>, pods: Snapshots, ps: seq<Process>, p: Process,
    jobs: set<Bytes>, next: set<Bytes>)
    requires AllNamed(fp, limits, pods, ps, jobs) && jobs <= next
    requires Joins(fp, limits, pods(|ps|), p) ==> JobName(fp, limits, p.environ) in next
    ensures AllNamed(fp, limits, pods, ps + [p], next)
  {
    hide JobName, Joins;
  }

  lemma BackedStays(
    fp: Fingerprint, limits: map<Bytes, int>, pods: Snapshots, ps: seq<Process>, p: Process, job: Bytes, info: PodInfo)
    requires Backed(fp, limits, pods, ps, job, info)
    ensures Backed(fp, limits, pods, ps + [p], job, info)
  {
    hide BackedBy;
    var i :| 0 <= i < |ps| && BackedBy(fp, limits, pods, i, ps[i], job, info);
    assert (ps + [p])[i] == ps[i];
  }

  lemma BackedNow(
    fp: Fingerprint, limits: map<Bytes, int>, pods: Snapshots, ps: seq<Process>, p: Process, job: Bytes, info: PodInfo)
    requires BackedBy(fp, limits, pods, |ps|, p, job, info)
    ensures Backed(fp, limits, pods, ps + [p], job, info)
  {
    hide BackedBy;
    assert (ps + [p])[|ps|] == p;
  }

  class KubeCollector {
    const store: HistoryStore
    const kube: KubeStore
    const fp: Fingerprint
    const limits: map<Bytes, int>
    /** Counts this collector's cuts; null means "don't count". */
    const obs: TruncationCounter?

    /** NewKubeCollectorWithConfig: the operator's limits, the ProcessCollector's counter. */
    constructor (store: HistoryStore, kube: KubeStore, fp: Fingerprint, cfg: Option<Config>, pc: ProcessCollector?)
      ensures this.store == store && this.kube == kube && this.fp == fp
      ensures limits == LimitsOf(cfg)
      ensures obs == if pc != null then pc.truncations else null
    {
      var overrides := map[];
      if cfg.Some? {
        overrides := cfg.value.maxLabelBytes;
      }
      var merged := MergedMaxLabelBytes(overrides);
      this.store, this.kube, this.fp := store, kube, fp;
      this.limits := merged;
      this.obs := if pc != null then pc.truncations else null;
    }

    /** The joining loop; a later process overwrites an earlier one of the same bounded name.
        Nothing holds the pod store between two lookups, so it may be replaced meanwhile. */
    method JoinByJob(
      active: array<ProcessSample>, updates: Updates)
      returns (byJob: map<Bytes, PodInfo>, ghost ps: seq<Process>)
      modifies obs, kube
      ensures Seen(active[..], ps)
      ensures IsJoin(fp, limits, SnapshotsOf(old(kube.pods), updates), ps, byJob)
      ensures obs != null ==> obs.counts == Counted(fp, limits, old(obs.counts), KubeItems(ps))
    {
      hide IsJoin, SanitizeLabelValue, Bounded, Incremented, CutCount, KubeItems, Counted;
      byJob, ps := map[], [];
      if obs != null { NothingCounted(fp, limits, obs.counts); }
      ghost var before := kube.pods;
      ghost var snapshots: Snapshots := SnapshotsOf(before, updates);
      JoinStart(fp, limits, snapshots);
      for i := 0 to active.Length
        invariant Seen(active[..i], ps)
        invariant i > 0 ==> kube.pods == PodsAt(before, updates, i - 1)
        invariant i == 0 ==> kube.pods == before
        invariant IsJoin(fp, limits, snapshots, ps, byJob)
        invariant obs != null ==> obs.counts == Counted(fp, limits, old(obs.counts), KubeItems(ps))
      {
        kube.Meanwhile(updates(i));
        ghost var seen := Process(active[i], active[i].environ.m);
        if obs != null { KubeItemsSnoc(fp, limits, old(obs.counts), ps, seen); }
        JoinStep(fp, limits, snapshots, ps, seen, byJob);
        hide JoinedWith, JobItem;
        byJob := JoinOne(active[i], byJob);
        ps := ps + [seen];
      }
    }

    /** One turn: a process without a pod is not even bounded, one without a name is not looked up. */
    method JoinOne(p: ProcessSample, byJob: map<Bytes, PodInfo>) returns (next: map<Bytes, PodInfo>)
      modifies obs
      ensures next == JoinedWith(fp, limits, kube.pods, Process(p, p.environ.m), byJob)
      ensures obs != null && p.podUid == [] ==> obs.counts == old(obs.counts)
      ensures obs != null && p.podUid != [] ==>
        var cuts := CutCount(fp, limits, CI_JOB_NAME, JobItem(p.environ.m).value);
        obs.counts == Incremented(old(obs.counts), CI_JOB_NAME, cuts)
    {
      hide SanitizeLabelValue, Bounded, Incremented, CutCount;
      next := byJob;
      if p.podUid != [] {
        var raw := Lookup(p.environ.m, ENV_JOB_NAME);
        var jobName := BoundLabelWith(fp, limits, CI_JOB_NAME, SanitizeLabelValue(raw), obs);
        if jobName != [] {
          var info := kube.Get(p.podUid);
          if info.Some? {
            next := byJob[jobName := info.value];
          }
        }
      }
    }

    /** The emitting loop, in whatever order the table is iterated. */
    method Emit(byJob: map<Bytes, PodInfo>) returns (ch: seq<KubeMetric>)
      ensures EmitsTable(ch, byJob)
    {
      ch := [];
      var rest := byJob.Keys;
      while rest != {}
        invariant rest <= byJob.Keys
        invariant EmitsTable(ch, byJob - rest)
      {
        var job :| job in rest;
        EmitStep(ch, byJob, rest, job);
        rest := rest - {job};
        ch := ch + BothMetrics(job, byJob[job]);
      }
      assert byJob - {} == byJob;
    }

    /** One gather, for every order the store and the table may be iterated in and whatever
        becomes of the pod store meanwhile. */
    method Collect(updates: Updates) returns (ch: seq<KubeMetric>, ghost ps: seq<Process>, ghost order: seq<int32>)
      requires store.Valid()
      modifies obs, kube
      ensures |ps| == |order| && IsActiveListing(store.Abs(), order, SamplesOf(ps))
      ensures forall i :: 0 <= i < |ps| ==> ps[i].environ == ps[i].sample.environ.m
      ensures JoinsExactly(fp, limits, SnapshotsOf(old(kube.pods), updates), ps, ch)
      ensures obs != null ==> obs.counts == Counted(fp, limits, old(obs.counts), KubeItems(ps))
    {
      hide IsJoin, EmitsTable, JoinsExactly, IsActiveListing;
      var active;
      active, order := store.GetActiveProcesses();
      var byJob;
      ghost var snapshots: Snapshots := SnapshotsOf(old(kube.pods), updates);
      byJob, ps := JoinByJob(active, updates);
      ListingLength(store.Abs(), order, active[..]);
      assert SamplesOf(ps) == active[..];
      ch := Emit(byJob);
      JoinThenEmit(fp, limits, snapshots, ps, byJob, ch);
    }
  }

  lemma ListingLength(ix: Index, order: seq<int32>, active: seq<ProcessSample>)
    requires IsActiveListing(ix, order, active)
    ensures |active| == |order|
  {
  }

  lemma JoinStart(fp: Fingerprint, limits: map<Bytes, int>, pods: Snapshots)
    ensures IsJoin(fp, limits, pods, [], map[])
  {
  }

  lemma EmitStep(ch: seq<KubeMetric>, byJob: map<Bytes, PodInfo>, rest: set<Bytes>, job: Bytes)
    requires job in rest && rest <= byJob.Keys && EmitsTable(ch, byJob - rest)
    ensures EmitsTable(ch + BothMetrics(job, byJob[job]), byJob - (rest - {job}))
  {
    var both := BothMetrics(job, byJob[job]);
    var next, done := ch + both, byJob - (rest - {job});
    assert next[|ch|] == both[0] && next[|ch| + 1] == both[1];
    forall j | j in done ensures HasBoth(next, j, done[j]) {
      if j != job { assert HasBoth(ch, j, (byJob - rest)[j]); }
    }
  }

  /** The metric carries the request of a pod that backs its job name, emitted whole. */
  ghost predicate Explained(
    fp: Fingerprint, limits: map<Bytes, int>, pods: Snapshots, ps: seq<Process>, ch: seq<KubeMetric>, m: KubeMetric)
  {
    exists info ::
      && Backed(fp, limits, pods, ps, m.jobName, info)
      && HasBoth(ch, m.jobName, info) && m.value == ValueOf(m.request, info)
  }

  /** The join: each bounded job name is emitted exactly once per metric, with both
      request values of one and the same active process bearing that name whose pod is
      in the snapshot; and the name of every such process is emitted. */
  ghost predicate JoinsExactly(
    fp: Fingerprint, limits: map<Bytes, int>, pods: Snapshots, ps: seq<Process>, ch: seq<KubeMetric>)
  {
    && OncePerMetric(ch)
    && (forall m <- ch :: Explained(fp, limits, pods, ps, ch, m))
    && NoneMissing(fp, limits, pods, ps, ch)
  }

  ghost predicate NoneMissing(
    fp: Fingerprint, limits: map<Bytes, int>, pods: Snapshots, ps: seq<Process>, ch: seq<KubeMetric>)
  {
    forall i :: 0 <= i < |ps| && Joins(fp, limits, pods(i), ps[i]) ==> HasJob(ch, JobName(fp, limits, ps[i].environ))
  }

  lemma {:induction false} JoinThenEmit(
    fp: Fingerprint, limits: map<Bytes, int>, pods: Snapshots, ps: seq<Process>, byJob: map<Bytes, PodInfo>,
    ch: seq<KubeMetric>)
    requires IsJoin(fp, limits, pods, ps, byJob) && EmitsTable(ch, byJob)
    ensures JoinsExactly(fp, limits, pods, ps, ch)
  {
    hide JobName, Backed;
    forall i | 0 <= i < |ps| && Joins(fp, limits, pods(i), ps[i])
      ensures HasJob(ch, JobName(fp, limits, ps[i].environ))
    {
      var job := JobName(fp, limits, ps[i].environ);
      assert HasBoth(ch, job, byJob[job]);
    }
    forall m | m in ch ensures Explained(fp, limits, pods, ps, ch, m) {
      assert Backed(fp, limits, pods, ps, m.jobName, byJob[m.jobName]);
    }
  }

  /** The ci_job_name label of a process metric. */
  ghost predicate CiJobNameIs(m: Metric, name: Bytes) {
    var at := if m.family.Info? then 6 else 3;
    at < |m.labels| && m.labels[at] == name
  }

  lemma JobLabel(c: Settings, p: Process)
    ensures |CommonLabels(c, p)| > 3 && CommonLabels(c, p)[3] == JobName(c.fp, c.limits, p.environ)
    ensures |InfoLabels(c, p)| > 6 && InfoLabels(c, p)[6] == JobName(c.fp, c.limits, p.environ)
  {
    hide SanitizeLabelValue, ScrubbedLabel, Incomplete, Lit, BoundedItem;
    assert CI_JOB_LABEL_KEYS[1] == LabelKey(ENV_JOB_NAME, CI_JOB_NAME);
  }

  /** Collectors built from the same Config give one process the same name: its
      job_name is the ci_job_name on all of its process metrics. */
  lemma {:induction false} JobNameIsCiJobName(
    fp: Fingerprint, text: Text, extra: seq<Bytes>, cfg: Option<Config>, p: Process)
    ensures forall m <- MetricsOf(Settings(fp, text, LimitsOf(cfg), extra), p) ::
      CiJobNameIs(m, JobName(fp, LimitsOf(cfg), p.environ))
  {
    var c := Settings(fp, text, LimitsOf(cfg), extra);
    hide MetricsOf, CommonLabels, InfoLabels, JobName, LimitsOf;
    MetricLabels(c, p);
    JobLabel(c, p);
  }
}

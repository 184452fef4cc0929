/** main.go: the scrape step, the process cache behind it, and the JSON handlers.
    The operating system is an oracle. */
module Scraper {
  import opened Wrappers
  import opened Utf8
  import opened Givens
  import opened Environ
  import opened History
  import opened HistoryRuns
  import opened ActiveView
  import opened Sequences

  /** *process.Process: a PID and the incarnation it was opened on. */
  datatype Handle = Handle(pid: int32, incarnation: int)

  /** What the field reads of one process give; the create time may be unreadable. */
  datatype Reading = Reading(
    name: Bytes, podUid: Bytes, cmdLine: Bytes, environ: EnvironMap, usage: Usage, createTime: Option<int>)

  /** The host during one scrape. `incarnation` is the process that runs under a PID
      now; statting or opening it may fail; `read` is None when the name is gone. */
  datatype Os = Os(
    listing: Option<seq<int32>>,
    incarnation: int32 -> Option<int>,
    statFails: int32 -> bool,
    openFails: int32 -> bool,
    read: Handle -> Option<Reading>)

  /** gopsutil's IsRunning: the create times agree, unless statting failed. */
  predicate IsRunning(os: Os, h: Handle) {
    !os.statFails(h.pid) && os.incarnation(h.pid) == Some(h.incarnation)
  }

  function NewProcess(os: Os, pid: int32): Option<Handle> {
    if os.openFails(pid) || os.incarnation(pid).None? then None else Some(Handle(pid, os.incarnation(pid).value))
  }

  // ----- the process cache ----------------------------------------------------------------

  ghost predicate OwnHandles(handles: map<int32, Handle>) {
    forall pid :: pid in handles ==> handles[pid].pid == pid
  }

  /** The handle liveProcess returns for a PID, given the cache. */
  function Live(os: Os, handles: map<int32, Handle>, pid: int32): Option<Handle> {
    if pid in handles && IsRunning(os, handles[pid]) then Some(handles[pid]) else NewProcess(os, pid)
  }

  function HandlesStep(os: Os, handles: map<int32, Handle>, pid: int32): map<int32, Handle> {
    match Live(os, handles, pid)
    case Some(h) => handles[pid := h]
    case None => handles - {pid}
  }

  class ProcCache {
    var handles: map<int32, Handle>

    constructor ()
      ensures handles == map[]
    {
      handles := map[];
    }

    /** The handle is always for the process that runs under the PID now: a cached one
        is returned only while its incarnation runs, and a stale one is evicted. */
    method LiveProcess(os: Os, pid: int32) returns (p: Option<Handle>)
      requires OwnHandles(handles)
      modifies this
      ensures OwnHandles(handles)
      ensures p == Live(os, old(handles), pid) && handles == HandlesStep(os, old(handles), pid)
      ensures p.Some? ==> p.value.pid == pid && os.incarnation(pid) == Some(p.value.incarnation)
      ensures pid in old(handles) && !IsRunning(os, old(handles)[pid]) && !os.statFails(pid) ==>
        p != Some(old(handles)[pid])
    {
      if pid in handles {
        if IsRunning(os, handles[pid]) {
          assert handles == handles[pid := handles[pid]];
          return Some(handles[pid]);
        }
        handles := handles - {pid};
      }
      p := NewProcess(os, pid);
      if p.Some? {
        handles := handles[pid := p.value];
      }
    }
  }

  // ----- one scrape ------------------------------------------------------------------------

  /** Nanoseconds to milliseconds, truncating toward zero. */
  function UnixMilli(now: int): int {
    if now >= 0 then now / 1_000_000 else -((-now) / 1_000_000)
  }

  /** One tick of the scraper: the host it meets and the clocks it reads. */
  datatype Tick = Tick(os: Os, now: int, ticks: nat -> int)

  function EndOf(t: Tick): int {
    match t.os.listing case None => t.now case Some(pids) => t.ticks(|pids|)
  }

  function SampleOf(now: int, pid: int32, r: Reading): ProcessSample {
    var createTime := match r.createTime case Some(t) => t case None => UnixMilli(now);
    ProcessSample(now, pid, r.name, r.podUid, r.cmdLine, r.environ, r.usage, createTime, true)
  }

  /** The sample one turn of the loop adds, if the process can be opened and read. */
  function Sampled(t: Tick, handles: map<int32, Handle>, pid: int32): Option<ProcessSample> {
    match Live(t.os, handles, pid)
    case None => None
    case Some(h) => match t.os.read(h) case None => None case Some(r) => Some(SampleOf(t.now, pid, r))
  }

  function HandlesAfter(os: Os, handles: map<int32, Handle>, pids: seq<int32>): map<int32, Handle> {
    if pids == [] then handles
    else HandlesStep(os, HandlesAfter(os, handles, pids[..|pids| - 1]), pids[|pids| - 1])
  }

  function AddOps(t: Tick, handles: map<int32, Handle>, pid: int32, clock: int): seq<Op> {
    match Sampled(t, handles, pid)
    case Some(s) => [Add(s, clock)]
    case None => []
  }

  /** The AddSample calls of the loop over `pids`; ticks(i) is the clock the i-th one reads. */
  function LoopOps(t: Tick, handles: map<int32, Handle>, pids: seq<int32>): seq<Op> {
    if pids == [] then []
    else
      var front := pids[..|pids| - 1];
      LoopOps(t, handles, front) +
      AddOps(t, HandlesAfter(t.os, handles, front), pids[|pids| - 1], t.ticks(|front|))
  }

  /** Everything one scrape does to the store. */
  function ScrapeOps(t: Tick, handles: map<int32, Handle>): seq<Op> {
    match t.os.listing
    case None => []
    case Some(pids) => LoopOps(t, handles, pids) + [Mark(Elements(pids), t.ticks(|pids|))]
  }

  function PurgedHandles(os: Os, handles: map<int32, Handle>): map<int32, Handle> {
    match os.listing
    case None => handles
    case Some(pids) =>
      var after := HandlesAfter(os, handles, pids);
      map pid | pid in after && pid in Elements(pids) :: after[pid]
  }

  lemma {:induction false} AfterConcat(ix: Index, a: seq<Op>, b: seq<Op>)
    ensures After(ix, a + b) == After(After(ix, a), b)
  {
    if b == [] {
      assert a + b == a;
    } else {
      assert (a + b)[..|a + b| - 1] == a + b[..|b| - 1];
      AfterConcat(ix, a, b[..|b| - 1]);
    }
  }

  /** scrape(): a failed listing changes nothing; otherwise the store takes exactly the
      scrape's operations and the cache keeps no PID that was not listed. */
  method Scrape(store: HistoryStore, procCache: ProcCache, t: Tick)
    requires store.Valid() && OwnHandles(procCache.handles)
    modifies store, store.Repr, procCache
    ensures store.Valid() && fresh(store.Repr - old(store.Repr)) && OwnHandles(procCache.handles)
    ensures store.Abs() == After(old(store.Abs()), ScrapeOps(t, old(procCache.handles)))
    ensures procCache.handles == PurgedHandles(t.os, old(procCache.handles))
    ensures t.os.listing.None? ==> store.Abs() == old(store.Abs()) && procCache.handles == old(procCache.handles)
    ensures t.os.listing.Some? ==> procCache.handles.Keys <= Elements(t.os.listing.value)
    ensures t.os.listing.Some? ==> store.activeKeys.Keys <= Elements(t.os.listing.value)
  {
    hide LoopOps, HandlesAfter, After, Marked;
    if t.os.listing.None? {
      NothingAfter(store.Abs());
      return;
    }
    var pids := t.os.listing.value;
    ghost var ix := store.Abs();
    var activePids := ScrapeLoop(store, procCache, t, pids);
    MarkEndsScrape(ix, LoopOps(t, old(procCache.handles), pids), activePids, t.ticks(|pids|));
    store.MarkInactive(activePids, t.ticks(|pids|));
    Purge(procCache, activePids);
  }

  lemma NothingAfter(ix: Index)
    ensures After(ix, []) == ix
  {
  }

  lemma MarkEndsScrape(ix: Index, ops: seq<Op>, listed: set<int32>, clock: int)
    ensures After(ix, ops + [Mark(listed, clock)]) == Marked(After(ix, ops), listed, clock)
    ensures Marked(After(ix, ops), listed, clock).activeKeys.Keys <= listed
  {
    assert (ops + [Mark(listed, clock)])[..|ops|] == ops;
  }

  method ScrapeLoop(store: HistoryStore, procCache: ProcCache, t: Tick, pids: seq<int32>)
    returns (activePids: set<int32>)
    requires store.Valid() && OwnHandles(procCache.handles)
    modifies store, procCache
    ensures store.Valid() && fresh(store.Repr - old(store.Repr)) && OwnHandles(procCache.handles)
    ensures activePids == Elements(pids)
    ensures procCache.handles == HandlesAfter(t.os, old(procCache.handles), pids)
    ensures store.Abs() == After(old(store.Abs()), LoopOps(t, old(procCache.handles), pids))
  {
    hide Added, Marked, HandlesStep, AddOps;
    ghost var ix, handles := store.Abs(), procCache.handles;
    activePids := {};
    for i := 0 to |pids|
      invariant store.Valid() && fresh(store.Repr - old(store.Repr)) && OwnHandles(procCache.handles)
      invariant activePids == Elements(pids[..i])
      invariant procCache.handles == HandlesAfter(t.os, handles, pids[..i])
      invariant store.Abs() == After(ix, LoopOps(t, handles, pids[..i]))
    {
      activePids := activePids + {pids[i]};
      LoopSnoc(ix, t, handles, pids[..i], pids[i]);
      assert pids[..i + 1] == pids[..i] + [pids[i]];
      ScrapeOne(store, procCache, t, pids[i], t.ticks(i));
    }
    assert pids[..|pids|] == pids;
  }

  lemma LoopSnoc(
    ix: Index, t: Tick, handles: map<int32, Handle>, front: seq<int32>, pid: int32)
    ensures var before := HandlesAfter(t.os, handles, front);
      && HandlesAfter(t.os, handles, front + [pid]) == HandlesStep(t.os, before, pid)
      && Elements(front + [pid]) == Elements(front) + {pid}
      && After(ix, LoopOps(t, handles, front + [pid])) ==
         After(After(ix, LoopOps(t, handles, front)), AddOps(t, before, pid, t.ticks(|front|)))
  {
    hide Added, Marked, AddOps;
    assert (front + [pid])[..|front|] == front;
    var turn := AddOps(t, HandlesAfter(t.os, handles, front), pid, t.ticks(|front|));
    AfterConcat(ix, LoopOps(t, handles, front), turn);
    assert forall i :: 0 <= i < |front| ==> (front + [pid])[i] == front[i];
    assert (front + [pid])[|front|] == pid;
  }

  lemma AfterOne(ix: Index, op: Op)
    ensures After(ix, [op]) == Stepped(ix, op)
  {
    assert [op][..0] == [];
  }

  /** One turn of the loop: continue on a process that cannot be opened or read. */
  method ScrapeOne(store: HistoryStore, procCache: ProcCache, t: Tick, pid: int32, clock: int)
    requires store.Valid() && OwnHandles(procCache.handles)
    modifies store, procCache
    ensures store.Valid() && fresh(store.Repr - old(store.Repr)) && OwnHandles(procCache.handles)
    ensures procCache.handles == HandlesStep(t.os, old(procCache.handles), pid)
    ensures store.Abs() == After(old(store.Abs()), AddOps(t, old(procCache.handles), pid, clock))
  {
    hide Added, Marked;
    var p := procCache.LiveProcess(t.os, pid);
    if p.Some? {
      var reading := t.os.read(p.value);
      if reading.Some? {
        var sample := SampleOf(t.now, pid, reading.value);
        AfterOne(store.Abs(), Add(sample, clock));
        store.AddSample(sample, clock);
      }
    }
  }

  method Purge(procCache: ProcCache, activePids: set<int32>)
    requires OwnHandles(procCache.handles)
    modifies procCache
    ensures procCache.handles ==
      map pid | pid in old(procCache.handles) && pid in activePids :: old(procCache.handles)[pid]
  {
    ghost var handles := procCache.handles;
    var rest := procCache.handles.Keys;
    while rest != {}
      invariant rest <= handles.Keys
      invariant procCache.handles == map pid | pid in handles && (pid in activePids || pid in rest) :: handles[pid]
    {
      var pid :| pid in rest;
      rest := rest - {pid};
      if pid !in activePids {
        procCache.handles := procCache.handles - {pid};
      }
    }
  }

  // ----- what a scrape reports --------------------------------------------------------------

  /** The active view holds exactly this sample for its PID. */
  predicate Reports(ix: Index, s: ProcessSample) {
    s.pid in ActivePids(ix) && Latest(ix, s.pid) == s && ix.activeKeys[s.pid] == KeyOf(s)
  }

  lemma AddReports(ix: Index, s: ProcessSample, clock: int)
    requires clock - RETENTION < s.timestamp
    ensures Reports(Added(ix, s, clock), s)
  {
    hide Reports, Added, Timeline, Recent, KeyOf;
    TimelineAdded(ix, s, clock, KeyOf(s));
    RecentAppend(Timeline(ix, KeyOf(s)), s, clock - RETENTION);
    AddedKeys(ix, s, clock);
    ReportsMeans(Added(ix, s, clock), s);
  }

  lemma DistinctKeys(s: ProcessSample, t: ProcessSample)
    requires s.pid != t.pid
    ensures KeyOf(s) != KeyOf(t)
  {
    if KeyOf(s) == KeyOf(t) { KeyInjective(s.pid as int, s.createTime, t.pid as int, t.createTime); }
  }

  lemma OtherPidKeepsReport(ix: Index, s: ProcessSample, other: ProcessSample, clock: int)
    requires Reports(ix, s) && other.pid != s.pid
    ensures Reports(Added(ix, other, clock), s)
  {
    hide *;
    var added := Added(ix, other, clock);
    AddedKeys(ix, other, clock);
    DistinctKeys(other, s);
    TimelineAdded(ix, other, clock, KeyOf(s));
    ReportsMeans(ix, s);
    ReportsMeans(added, s);
  }

  lemma AddedKeys(ix: Index, s: ProcessSample, clock: int)
    ensures Added(ix, s, clock).activeKeys == ix.activeKeys[s.pid := KeyOf(s)]
  {
  }

  /** The PID is bound to the sample's key, and the sample ends that timeline. */
  lemma ReportsMeans(ix: Index, s: ProcessSample)
    ensures var line := Timeline(ix, KeyOf(s));
      Reports(ix, s) <==>
        s.pid in ix.activeKeys && ix.activeKeys[s.pid] == KeyOf(s) && line != [] && line[|line| - 1] == s
  {
    hide Timeline, KeyOf;
  }

  lemma MarkKeepsReport(ix: Index, s: ProcessSample, listed: set<int32>, clock: int)
    requires Reports(ix, s) && s.pid in listed && ActiveNamed(ix.activeKeys)
    requires clock - RETENTION < s.timestamp
    ensures Reports(Marked(ix, listed, clock), s)
  {
    hide Reports, Marked, Timeline, Recent, KeyOf, Exited, ActiveNamed;
    var key := KeyOf(s);
    ReportsMeans(ix, s);
    ListedStays(ix.activeKeys, listed, s.pid);
    TimelineMarked(ix, listed, clock, key);
    RecentKeepsLast(Timeline(ix, key), clock - RETENTION);
    MarkedKeys(ix, listed, clock);
    ReportsMeans(Marked(ix, listed, clock), s);
  }

  lemma MarkedKeys(ix: Index, listed: set<int32>, clock: int)
    ensures var after := Marked(ix, listed, clock).activeKeys;
      forall pid :: pid in ix.activeKeys && pid in listed ==> pid in after && after[pid] == ix.activeKeys[pid]
  {
  }

  lemma RecentKeepsLast(line: seq<ProcessSample>, cutoff: int)
    requires line != [] && line[|line| - 1].timestamp > cutoff
    ensures Recent(line, cutoff) != [] && Recent(line, cutoff)[|Recent(line, cutoff)| - 1] == line[|line| - 1]
  {
  }

  /** Once its turn has come, a process stays reported for the rest of the loop. */
  lemma {:induction false} LoopReports(
    ix: Index, t: Tick, handles: map<int32, Handle>, pids: seq<int32>, i: nat, n: nat)
    requires i < n <= |pids| && Distinct(pids)
    requires t.ticks(i) < t.now + RETENTION
    requires Sampled(t, HandlesAfter(t.os, handles, pids[..i]), pids[i]).Some?
    ensures var s := Sampled(t, HandlesAfter(t.os, handles, pids[..i]), pids[i]).value;
      Reports(After(ix, LoopOps(t, handles, pids[..n])), s)
    decreases n
  {
    hide *;
    var handle := HandlesAfter(t.os, handles, pids[..i]);
    var s := Sampled(t, handle, pids[i]).value;
    LoopPrefix(ix, t, handles, pids, n);
    var before := After(ix, LoopOps(t, handles, pids[..n - 1]));
    if i == n - 1 {
      AddOpsReport(before, t, handle, pids[i], t.ticks(i), s);
    } else {
      SampledPid(t, handle, pids[i]);
      DistinctAt(pids, i, n - 1);
      LoopReports(ix, t, handles, pids, i, n - 1);
      AddOpsKeepReport(before, t, HandlesAfter(t.os, handles, pids[..n - 1]), pids[n - 1], t.ticks(n - 1), s);
    }
  }

  lemma SampledPid(t: Tick, handles: map<int32, Handle>, pid: int32)
    ensures Sampled(t, handles, pid).Some? ==> Sampled(t, handles, pid).value.pid == pid
  {
  }

  lemma DistinctAt(pids: seq<int32>, i: nat, j: nat)
    requires Distinct(pids) && i < j < |pids|
    ensures pids[i] != pids[j]
  {
  }

  lemma LoopPrefix(
    ix: Index, t: Tick, handles: map<int32, Handle>, pids: seq<int32>, n: nat)
    requires 0 < n <= |pids|
    ensures After(ix, LoopOps(t, handles, pids[..n])) ==
      After(After(ix, LoopOps(t, handles, pids[..n - 1])),
            AddOps(t, HandlesAfter(t.os, handles, pids[..n - 1]), pids[n - 1], t.ticks(n - 1)))
  {
    hide *;
    LoopSnoc(ix, t, handles, pids[..n - 1], pids[n - 1]);
    assert pids[..n - 1] + [pids[n - 1]] == pids[..n];
  }

  lemma AddOpsReport(ix: Index, t: Tick, handles: map<int32, Handle>, pid: int32, clock: int, s: ProcessSample)
    requires Sampled(t, handles, pid) == Some(s) && clock < t.now + RETENTION
    ensures Reports(After(ix, AddOps(t, handles, pid, clock)), s)
  {
    AfterOne(ix, Add(s, clock));
    assert s.timestamp == t.now;
    hide Reports, Added;
    AddReports(ix, s, clock);
  }

  lemma AddOpsKeepReport(
    ix: Index, t: Tick, handles: map<int32, Handle>, pid: int32, clock: int, s: ProcessSample)
    requires Reports(ix, s) && s.pid != pid
    ensures Reports(After(ix, AddOps(t, handles, pid, clock)), s)
  {
    var sampled := Sampled(t, handles, pid);
    if sampled.Some? {
      AfterOne(ix, Add(sampled.value, clock));
      assert sampled.value.pid == pid;
      hide Reports, Added;
      OtherPidKeepsReport(ix, s, sampled.value, clock);
    }
  }

  /** After a scrape that listed distinct PIDs and finished within ten minutes of its
      start, every process it could read is in the active view with exactly the sample
      it took, and the active view names no PID that was not listed. */
  lemma {:induction false} ScrapeReports(
    ix: Index, t: Tick, handles: map<int32, Handle>, i: nat)
    requires ActiveNamed(ix.activeKeys) && t.os.listing.Some?
    requires var pids := t.os.listing.value;
      && i < |pids| && Distinct(pids)
      && (forall j: nat :: j <= |pids| ==> t.ticks(j) < t.now + RETENTION)
      && Sampled(t, HandlesAfter(t.os, handles, pids[..i]), pids[i]).Some?
    ensures var pids, after := t.os.listing.value, After(ix, ScrapeOps(t, handles));
      var s := Sampled(t, HandlesAfter(t.os, handles, pids[..i]), pids[i]).value;
      && pids[i] in ActivePids(after) && Latest(after, pids[i]) == s
      && after.activeKeys[pids[i]] == KeyOf(s)
      && ActivePids(after) <= Elements(pids)
  {
    var pids := t.os.listing.value;
    var s := Sampled(t, HandlesAfter(t.os, handles, pids[..i]), pids[i]).value;
    var loop := LoopOps(t, handles, pids);
    LoopReports(ix, t, handles, pids, i, |pids|);
    assert pids[..|pids|] == pids;
    NamesStay(ix, loop);
    AfterConcat(ix, loop, [Mark(Elements(pids), t.ticks(|pids|))]);
    AfterOne(After(ix, loop), Mark(Elements(pids), t.ticks(|pids|)));
    assert pids[i] in Elements(pids);
    MarkKeepsReport(After(ix, loop), s, Elements(pids), t.ticks(|pids|));
  }

  // ----- the JSON handlers ---------------------------------------------------------------------

  /** Sample by sample the same, but for an environ map with the secrets redacted. */
  ghost predicate RedactedCopy(text: Text, extra: seq<Bytes>, before: seq<ProcessSample>, after: seq<ProcessSample>)
    reads set i | 0 <= i < |before| :: before[i].environ, set i | 0 <= i < |after| :: after[i].environ
  {
    && |after| == |before|
    && forall i :: 0 <= i < |before| ==>
         && after[i] == before[i].(environ := after[i].environ)
         && after[i].environ.m == RedactedMap(text, extra, before[i].environ.m)
  }

  /** Gives every sample a new, redacted environ map; the maps it had stay as they are. */
  method RedactSlice(text: Text, samples: array<ProcessSample>, extra: seq<Bytes>)
    modifies samples
    ensures RedactedCopy(text, extra, old(samples[..]), samples[..])
    ensures forall i :: 0 <= i < samples.Length ==> fresh(samples[i].environ)
  {
    ghost var before := samples[..];
    for i := 0 to samples.Length
      invariant forall j :: i <= j < samples.Length ==> samples[j] == before[j]
      invariant forall j :: 0 <= j < i ==>
                  && fresh(samples[j].environ)
                  && samples[j] == before[j].(environ := samples[j].environ)
                  && samples[j].environ.m == RedactedMap(text, extra, before[j].environ.m)
    {
      var environ := RedactEnviron(text, samples[i].environ, extra);
      samples[i] := samples[i].(environ := environ);
    }
  }

  /** GET /api/processes. It has no modifies clause: overwriting the fields of the
      returned samples touches neither the store, nor its slices, nor any environ map
      that existed before the request. */
  method ServeProcesses(text: Text, store: HistoryStore, extra: seq<Bytes>)
    returns (active: array<ProcessSample>, ghost order: seq<int32>, ghost stored: seq<ProcessSample>)
    requires store.Valid()
    ensures fresh(active) && store.Abs() == old(store.Abs())
    ensures IsActiveListing(store.Abs(), order, stored)
    ensures RedactedCopy(text, extra, stored, active[..])
  {
    active, order := store.GetActiveProcesses();
    stored := active[..];
    RedactSlice(text, active, extra);
  }

  /** GET /api/history: by PID if given, else by name, else a bad request. Nothing
      that existed before the request changes. */
  method ServeHistory(text: Text, store: HistoryStore, pid: Bytes, name: Bytes, extra: seq<Bytes>)
    returns (history: Option<map<Bytes, array<ProcessSample>>>)
    requires store.Valid()
    ensures store.Abs() == old(store.Abs())
    ensures history.None? <==> pid == [] && name == []
    ensures history.Some? ==>
              var found := Matching(store.Contents(), if pid != [] then ByPid(pid) else ByName(name, text.lower));
              && history.value.Keys == found.Keys
              && forall k :: k in found ==>
                fresh(history.value[k]) && RedactedCopy(text, extra, found[k], history.value[k][..])
  {
    hide RedactedMap, Matching;
    if pid == [] && name == [] {
      return None;
    }
    var result, copies := store.QueryHistory(if pid != [] then ByPid(pid) else ByName(name, text.lower));
    RedactAll(text, result, copies, extra);
    return Some(result);
  }

  /** Redacts every timeline of a query result, in whatever order the map is iterated. */
  method RedactAll(
    text: Text, result: map<Bytes, array<ProcessSample>>, ghost copies: set<array<ProcessSample>>, extra: seq<Bytes>)
    requires OwnSlices(result, copies)
    modifies copies
    ensures forall k :: k in result ==> RedactedCopy(text, extra, old(result[k][..]), result[k][..])
  {
    hide RedactedMap;
    var rest := result.Keys;
    while rest != {}
      invariant rest <= result.Keys
      invariant forall k :: k in rest ==> result[k][..] == old(result[k][..])
      invariant forall k :: k in result && k !in rest ==> RedactedCopy(text, extra, old(result[k][..]), result[k][..])
    {
      var key :| key in rest;
      rest := rest - {key};
      RedactSlice(text, result[key], extra);
    }
  }

  // ----- readers keep their snapshots ------------------------------------------------------------

  /** Any sequence of store operations, one locked step at a time. */
  method RunOps(store: HistoryStore, ops: seq<Op>)
    requires store.Valid()
    modifies store, store.Repr
    ensures store.Valid() && fresh(store.Repr - old(store.Repr))
    ensures store.Abs() == After(old(store.Abs()), ops)
  {
    hide Added, Marked;
    ghost var ix := store.Abs();
    for i := 0 to |ops|
      invariant store.Valid() && fresh(store.Repr - old(store.Repr))
      invariant store.Abs() == After(ix, ops[..i])
    {
      assert ops[..i + 1][..i] == ops[..i];
      match ops[i] {
        case Add(s, now) => store.AddSample(s, now);
        case Mark(listed, now) => store.MarkInactive(listed, now);
      }
    }
    assert ops[..|ops|] == ops;
  }

  /** Snapshot isolation: whatever runs on the store after two reads, the results
      still hold what the store held when they were read. */
  method ReadThenRun(store: HistoryStore, query: Query, ops: seq<Op>)
    returns (history: map<Bytes, array<ProcessSample>>, active: array<ProcessSample>,
             ghost copies: set<array<ProcessSample>>, ghost order: seq<int32>)
    requires store.Valid()
    modifies store, store.Repr
    ensures store.Valid() && store.Abs() == After(old(store.Abs()), ops)
    ensures OwnSlices(history, copies) && SlicesOf(history, copies) == Matching(old(store.Contents()), query)
    ensures IsActiveListing(old(store.Abs()), order, active[..])
  {
    hide After, Matching;
    history, copies := store.QueryHistory(query);
    active, order := store.GetActiveProcesses();
    RunOps(store, ops);
  }
}

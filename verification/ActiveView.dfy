/** The active view over whole runs: what activeKeys may name, when a reported
    sample is active, and exactly when a forgotten timeline was marked inactive. */
module ActiveView {
  import opened Utf8
  import opened History
  import opened HistoryRuns

  // ----- timelines -------------------------------------------------------------------

  predicate KeyedLine(key: Bytes, line: seq<ProcessSample>) {
    forall i :: 0 <= i < |line| ==> KeyOf(line[i]) == key
  }

  predicate SortedLine(line: seq<ProcessSample>) {
    forall i, j :: 0 <= i <= j < |line| ==> line[i].timestamp <= line[j].timestamp
  }

  predicate EndsActive(line: seq<ProcessSample>) {
    line != [] ==> line[|line| - 1].isActive
  }

  predicate EndsInactive(line: seq<ProcessSample>) {
    line != [] ==> !line[|line| - 1].isActive
  }

  lemma {:induction false} AllOld(line: seq<ProcessSample>, cutoff: int)
    requires forall i :: 0 <= i < |line| ==> line[i].timestamp <= cutoff
    ensures Recent(line, cutoff) == []
  {
    if line != [] { AllOld(line[..|line| - 1], cutoff); }
  }

  /** Pruning a sorted timeline leaves it sorted, and nothing or its old end. */
  lemma PruneSorted(line: seq<ProcessSample>, cutoff: int)
    requires SortedLine(line)
    ensures SortedLine(Recent(line, cutoff))
    ensures EndsActive(line) ==> EndsActive(Recent(line, cutoff))
    ensures EndsInactive(line) ==> EndsInactive(Recent(line, cutoff))
  {
    RecentSorted(line, cutoff);
    if line != [] && line[|line| - 1].timestamp <= cutoff { AllOld(line, cutoff); }
  }

  lemma {:induction false} RecentSorted(line: seq<ProcessSample>, cutoff: int)
    requires SortedLine(line)
    ensures SortedLine(Recent(line, cutoff))
  {
    if line != [] {
      var front, last := line[..|line| - 1], line[|line| - 1];
      RecentSorted(front, cutoff);
      forall s | s in Recent(front, cutoff) ensures s.timestamp <= last.timestamp { assert s in front; }
    }
  }

  lemma FlipKeeps(line: seq<ProcessSample>, key: Bytes)
    ensures SortedLine(line) ==> SortedLine(LastFlipped(line))
    ensures KeyedLine(key, line) ==> KeyedLine(key, LastFlipped(line))
    ensures EndsInactive(LastFlipped(line))
  {
  }

  lemma PruneKeyed(line: seq<ProcessSample>, key: Bytes, cutoff: int)
    requires KeyedLine(key, line)
    ensures KeyedLine(key, Recent(line, cutoff))
  {
    forall i | 0 <= i < |Recent(line, cutoff)| ensures KeyOf(Recent(line, cutoff)[i]) == key {
      assert Recent(line, cutoff)[i] in line;
    }
  }

  // ----- every run -----------------------------------------------------------------------

  predicate IsKey(key: Bytes, pid: int32, createTime: int) { key == Key(pid as int, createTime) }

  ghost predicate NamesPid(key: Bytes, pid: int32) {
    exists createTime :: IsKey(key, pid, createTime)
  }

  ghost predicate ActiveNamed(keys: map<int32, Bytes>) {
    forall pid :: pid in keys ==> NamesPid(keys[pid], pid)
  }

  /** Two PIDs never name the same timeline. */
  lemma NamesOnePid(key: Bytes, p: int32, q: int32)
    requires NamesPid(key, p) && NamesPid(key, q)
    ensures p == q
  {
    var c :| IsKey(key, p, c);
    var d :| IsKey(key, q, d);
    KeyInjective(p as int, c, q as int, d);
  }

  lemma {:induction false} KeysNamePids(ops: seq<Op>)
    ensures ActiveNamed(KeysAfter(ops))
  {
    if ops != [] {
      var op := ops[|ops| - 1];
      KeysNamePids(ops[..|ops| - 1]);
      if op.Add? { assert IsKey(KeyOf(op.sample), op.sample.pid, op.sample.createTime); }
    }
  }

  /** No operation makes activeKeys name another PID's timeline. */
  lemma {:induction false} NamesStay(ix: Index, ops: seq<Op>)
    requires ActiveNamed(ix.activeKeys)
    ensures ActiveNamed(After(ix, ops).activeKeys)
  {
    if ops != [] {
      var front, op := ops[..|ops| - 1], ops[|ops| - 1];
      NamesStay(ix, front);
      ActiveKeysStep(After(ix, front), op);
      hide Stepped;
      if op.Add? { assert IsKey(KeyOf(op.sample), op.sample.pid, op.sample.createTime); }
    }
  }

  lemma {:induction false} LinesAreKeyed(ops: seq<Op>, key: Bytes)
    ensures KeyedLine(key, LineOf(ops, key))
  {
    if ops != [] {
      var front, op := ops[..|ops| - 1], ops[|ops| - 1];
      LinesAreKeyed(front, key);
      hide KeyedLine, LineAfter, Exits;
      KeyedStep(LineOf(front, key), op, key, Exits(KeysAfter(front), op, key));
    }
  }

  lemma KeyedStep(line: seq<ProcessSample>, op: Op, key: Bytes, exits: bool)
    requires KeyedLine(key, line)
    ensures KeyedLine(key, LineAfter(line, op, key, exits))
  {
    FlipKeeps(line, key);
    hide LastFlipped, Recent;
    PruneKeyed(Changed(line, op, key, exits), key, op.now - RETENTION);
  }

  /** In every run all samples under a key share its PID and create time, and
      activeKeys[pid] always names a timeline of that PID. */
  lemma {:induction false} KeysAreTruthful(ops: seq<Op>)
    ensures ActiveNamed(After(EMPTY, ops).activeKeys)
    ensures forall key :: KeyedLine(key, Timeline(After(EMPTY, ops), key))
  {
    Projects(ops, []);
    KeysNamePids(ops);
    forall key ensures KeyedLine(key, Timeline(After(EMPTY, ops), key)) {
      Projects(ops, key);
      LinesAreKeyed(ops, key);
    }
  }

  /** So every sample the active view reports carries the PID it is reported for,
      and no two reported samples share a PID. */
  lemma {:induction false} ActivePidsDistinct(ops: seq<Op>, order: seq<int32>, active: seq<ProcessSample>)
    requires IsActiveListing(After(EMPTY, ops), order, active)
    ensures forall i :: 0 <= i < |active| ==> active[i].pid == order[i]
    ensures forall i, j :: 0 <= i < j < |active| ==> active[i].pid != active[j].pid
  {
    KeysAreTruthful(ops);
    forall i | 0 <= i < |active| ensures active[i].pid == order[i] {
      assert order[i] in order;
      ReportedUnderOwnPid(After(EMPTY, ops), order[i]);
    }
  }

  lemma ReportedUnderOwnPid(ix: Index, pid: int32)
    requires pid in ActivePids(ix) && ActiveNamed(ix.activeKeys)
    requires KeyedLine(ix.activeKeys[pid], Timeline(ix, ix.activeKeys[pid]))
    ensures Latest(ix, pid).pid == pid
  {
    var key, s := ix.activeKeys[pid], Latest(ix, pid);
    assert IsKey(key, s.pid, s.createTime);
    NamesOnePid(key, pid, s.pid);
  }

  // ----- honest runs -----------------------------------------------------------------------

  /** What the scraper does: samples are added active, and in time order under each key. */
  ghost predicate Honest(ops: seq<Op>) {
    && (forall i :: 0 <= i < |ops| && ops[i].Add? ==> ops[i].sample.isActive)
    && (forall key :: SortedLine(Log(ops, key)))
  }

  lemma HonestFront(front: seq<Op>, op: Op)
    requires Honest(front + [op])
    ensures Honest(front) && (op.Add? ==> op.sample.isActive)
  {
    var ops := front + [op];
    assert forall i :: 0 <= i < |front| ==> front[i] == ops[i];
    assert ops[|front|] == op;
    forall key ensures SortedLine(Log(front, key)) {
      LogSnoc(front, op, key);
      assert SortedLine(Log(ops, key));
      SortedPrefix(Log(front, key), Log(ops, key)[|Log(front, key)|..]);
      assert Log(ops, key) == Log(front, key) + Log(ops, key)[|Log(front, key)|..];
    }
  }

  lemma SortedPrefix(a: seq<ProcessSample>, b: seq<ProcessSample>)
    ensures SortedLine(a + b) ==> SortedLine(a)
  {
    assert forall i :: 0 <= i < |a| ==> a[i] == (a + b)[i];
  }

  /** Every timestamp of `line` is at most one that occurs in `log`. */
  ghost predicate Within(line: seq<ProcessSample>, log: seq<ProcessSample>) {
    forall i :: 0 <= i < |line| ==> exists j :: 0 <= j < |log| && line[i].timestamp <= log[j].timestamp
  }

  lemma WithinAppend(line: seq<ProcessSample>, log: seq<ProcessSample>, s: ProcessSample)
    requires Within(line, log)
    ensures Within(line, log + [s]) && Within(line + [s], log + [s])
  {
    var log' := log + [s];
    forall i | 0 <= i < |line| ensures exists j :: 0 <= j < |log'| && line[i].timestamp <= log'[j].timestamp {
      var j :| 0 <= j < |log| && line[i].timestamp <= log[j].timestamp;
      assert log'[j] == log[j];
    }
    assert log'[|log|] == s;
  }

  lemma WithinPrune(line: seq<ProcessSample>, log: seq<ProcessSample>, cutoff: int)
    requires Within(line, log)
    ensures Within(Recent(line, cutoff), log)
  {
    var r := Recent(line, cutoff);
    forall i | 0 <= i < |r| ensures exists j :: 0 <= j < |log| && r[i].timestamp <= log[j].timestamp {
      assert r[i] in line;
      var k :| 0 <= k < |line| && line[k] == r[i];
    }
  }

  lemma SortedAppend(line: seq<ProcessSample>, log: seq<ProcessSample>, s: ProcessSample)
    requires SortedLine(line) && Within(line, log) && SortedLine(log + [s])
    ensures SortedLine(line + [s])
  {
    var log' := log + [s];
    forall i | 0 <= i < |line| ensures line[i].timestamp <= s.timestamp {
      var j :| 0 <= j < |log| && line[i].timestamp <= log[j].timestamp;
      assert log'[j] == log[j] && log'[|log|] == s;
    }
  }

  /** One change and prune of a sorted timeline: sorted still, and it ends as the change left it. */
  lemma {:induction false} SortedStep(
    line: seq<ProcessSample>, log: seq<ProcessSample>, op: Op, key: Bytes, exits: bool)
    requires SortedLine(line) && Within(line, log)
    requires SortedLine(Logged(log, op, key))
    ensures var next, after := Changed(line, op, key, exits), LineAfter(line, op, key, exits);
      && SortedLine(after) && Within(after, Logged(log, op, key))
      && (EndsActive(next) ==> EndsActive(after))
      && (EndsInactive(next) ==> EndsInactive(after))
  {
    ChangeSorted(line, log, op, key, exits);
    PruneSorted(Changed(line, op, key, exits), op.now - RETENTION);
    WithinPrune(Changed(line, op, key, exits), Logged(log, op, key), op.now - RETENTION);
  }

  function Logged(log: seq<ProcessSample>, op: Op, key: Bytes): seq<ProcessSample> {
    if op.Add? && KeyOf(op.sample) == key then log + [op.sample] else log
  }

  lemma ChangeSorted(line: seq<ProcessSample>, log: seq<ProcessSample>, op: Op, key: Bytes, exits: bool)
    requires SortedLine(line) && Within(line, log)
    requires SortedLine(Logged(log, op, key))
    ensures SortedLine(Changed(line, op, key, exits)) && Within(Changed(line, op, key, exits), Logged(log, op, key))
  {
    FlipKeeps(line, key);
    if op.Add? && KeyOf(op.sample) == key {
      SortedAppend(line, log, op.sample);
      WithinAppend(line, log, op.sample);
    }
  }

  /** In honest runs every timeline stays sorted. */
  lemma {:induction false} LinesSorted(ops: seq<Op>, key: Bytes)
    requires Honest(ops)
    ensures SortedLine(LineOf(ops, key)) && Within(LineOf(ops, key), Log(ops, key))
  {
    if ops != [] {
      var front, op := ops[..|ops| - 1], ops[|ops| - 1];
      assert ops == front + [op];
      HonestFront(front, op);
      LinesSorted(front, key);
      LogSnoc(front, op, key);
      SortedStep(LineOf(front, key), Log(front, key), op, key, Exits(KeysAfter(front), op, key));
    }
  }

  /** A timeline of an honest run ends as it did before the last prune. */
  lemma {:induction false} EndStep(front: seq<Op>, op: Op, key: Bytes)
    requires Honest(front + [op])
    ensures var next := Changed(LineOf(front, key), op, key, Exits(KeysAfter(front), op, key));
      && (EndsActive(next) ==> EndsActive(LineOf(front + [op], key)))
      && (EndsInactive(next) ==> EndsInactive(LineOf(front + [op], key)))
  {
    assert (front + [op])[..|front|] == front;
    HonestFront(front, op);
    LinesSorted(front, key);
    LogSnoc(front, op, key);
    SortedStep(LineOf(front, key), Log(front, key), op, key, Exits(KeysAfter(front), op, key));
  }

  /** The timeline of a listed PID is not among those that exit. */
  lemma ListedStays(keys: map<int32, Bytes>, listed: set<int32>, pid: int32)
    requires ActiveNamed(keys) && pid in keys && pid in listed
    ensures keys[pid] !in Exited(keys, listed)
  {
    forall q | q in keys && q !in listed ensures keys[q] != keys[pid] {
      if keys[q] == keys[pid] { NamesOnePid(keys[pid], pid, q); }
    }
  }

  lemma {:induction false} ActiveLinesEndActive(ops: seq<Op>, pid: int32)
    requires Honest(ops) && pid in KeysAfter(ops)
    ensures EndsActive(LineOf(ops, KeysAfter(ops)[pid]))
  {
    var front, op := ops[..|ops| - 1], ops[|ops| - 1];
    var key := KeysAfter(ops)[pid];
    assert ops == front + [op];
    HonestFront(front, op);
    if pid in KeysAfter(front) && KeysAfter(front)[pid] == key {
      ActiveLinesEndActive(front, pid);
      if op.Mark? {
        KeysNamePids(front);
        ListedStays(KeysAfter(front), op.listed, pid);
      }
    }
    EndStep(front, op, key);
  }

  /** Every sample the active view reports is active. */
  ghost predicate ReportsActive(ix: Index) {
    forall pid :: pid in ActivePids(ix) ==> Latest(ix, pid).isActive
  }

  /** In honest runs nothing the active view reports is inactive. */
  lemma {:induction false} ActiveViewTruthful(ops: seq<Op>)
    requires Honest(ops)
    ensures ReportsActive(After(EMPTY, ops))
  {
    var ix := After(EMPTY, ops);
    hide After, Honest, LineOf, KeysAfter;
    forall pid | pid in ActivePids(ix) ensures Latest(ix, pid).isActive {
      Projects(ops, ix.activeKeys[pid]);
      ActiveLinesEndActive(ops, pid);
    }
  }

  // ----- the active flags ---------------------------------------------------------------------

  /** The log of a key, its flags flipped as MarkInactive flips them, but never pruned. */
  function FlagLog(ops: seq<Op>, key: Bytes): seq<ProcessSample> {
    if ops == [] then []
    else
      var front, op := ops[..|ops| - 1], ops[|ops| - 1];
      Changed(FlagLog(front, key), op, key, Exits(KeysAfter(front), op, key))
  }

  lemma FlagLogSnoc(front: seq<Op>, op: Op, key: Bytes)
    ensures FlagLog(front + [op], key) == Changed(FlagLog(front, key), op, key, Exits(KeysAfter(front), op, key))
  {
    assert (front + [op])[..|front|] == front;
  }

  /** Operation i marks sample j of the log: it exits the key while j is its last sample. */
  predicate MarkedAt(ops: seq<Op>, key: Bytes, j: int, i: nat) {
    i < |ops| && Exits(KeysAfter(ops[..i]), ops[i], key) && |Log(ops[..i], key)| == j + 1
  }

  predicate EverMarked(ops: seq<Op>, key: Bytes, j: int) {
    exists i | 0 <= i < |ops| :: MarkedAt(ops, key, j, i)
  }

  lemma EverMarkedSnoc(front: seq<Op>, op: Op, key: Bytes, j: int)
    ensures EverMarked(front + [op], key, j) <==>
      EverMarked(front, key, j) || (Exits(KeysAfter(front), op, key) && |Log(front, key)| == j + 1)
  {
    var ops := front + [op];
    hide Exits;
    forall i | 0 <= i < |front| ensures MarkedAt(ops, key, j, i) <==> MarkedAt(front, key, j, i) {
      assert ops[..i] == front[..i];
    }
    assert ops[..|front|] == front;
    assert MarkedAt(ops, key, j, |front|) <==> Exits(KeysAfter(front), op, key) && |Log(front, key)| == j + 1;
  }

  lemma {:induction false} FlagLogLength(ops: seq<Op>, key: Bytes)
    ensures |FlagLog(ops, key)| == |Log(ops, key)|
  {
    if ops != [] { FlagLogLength(ops[..|ops| - 1], key); }
  }

  /** A sample of the flag log is the log's, but inactive exactly when it was added so or some
      MarkInactive exited its key while it was the last sample there. */
  ghost predicate FlagIs(ops: seq<Op>, key: Bytes, j: nat) {
    && j < |Log(ops, key)| == |FlagLog(ops, key)|
    && FlagLog(ops, key)[j] == Log(ops, key)[j].(isActive := Log(ops, key)[j].isActive && !EverMarked(ops, key, j))
  }

  /** One operation, on the two logs as values: what it does to sample j. */
  lemma FlagChange(flags: seq<ProcessSample>, log: seq<ProcessSample>, op: Op, key: Bytes, exits: bool, j: nat)
    requires |flags| == |log| && j < |Logged(log, op, key)| && (exits ==> op.Mark?)
    ensures |Changed(flags, op, key, exits)| == |Logged(log, op, key)|
    ensures Changed(flags, op, key, exits)[j] ==
      if j == |log| then op.sample
      else if exits && j == |log| - 1 then flags[j].(isActive := false)
      else flags[j]
  {
    hide KeyOf;
  }

  lemma FlagStep(front: seq<Op>, op: Op, key: Bytes, j: nat)
    requires j < |Log(front + [op], key)| && (j < |Log(front, key)| ==> FlagIs(front, key, j))
    ensures FlagIs(front + [op], key, j)
  {
    FlagLogLength(front, key);
    FlagLogSnoc(front, op, key);
    LogSnoc(front, op, key);
    EverMarkedSnoc(front, op, key, j);
    NothingMarkedYet(front, key);
    hide FlagLog, Log, EverMarked, KeysAfter, Changed, Exited, KeyOf;
    FlagChange(FlagLog(front, key), Log(front, key), op, key, Exits(KeysAfter(front), op, key), j);
  }

  lemma {:induction false} FlagMeaning(ops: seq<Op>, key: Bytes, j: nat)
    requires j < |Log(ops, key)|
    ensures FlagIs(ops, key, j)
    decreases |ops|
  {
    LoggedRun(ops, key);
    hide *;
    var front, op := ops[..|ops| - 1], ops[|ops| - 1];
    assert ops == front + [op];
    if j < |Log(front, key)| { FlagMeaning(front, key, j); }
    FlagStep(front, op, key, j);
  }

  lemma LoggedRun(ops: seq<Op>, key: Bytes)
    ensures Log(ops, key) != [] ==> ops != []
  {
  }

  ghost predicate FlagsAre(ops: seq<Op>, key: Bytes) {
    |FlagLog(ops, key)| == |Log(ops, key)| && forall j :: 0 <= j < |Log(ops, key)| ==> FlagIs(ops, key, j)
  }

  lemma {:induction false} FlagLogMeaning(ops: seq<Op>, key: Bytes)
    ensures FlagsAre(ops, key)
  {
    FlagLogLength(ops, key);
    hide FlagLog, Log, EverMarked, FlagIs;
    forall j: nat | j < |Log(ops, key)| ensures FlagIs(ops, key, j) { FlagMeaning(ops, key, j); }
  }

  /** No sample is marked before it is added. */
  lemma NothingMarkedYet(ops: seq<Op>, key: Bytes)
    ensures !EverMarked(ops, key, |Log(ops, key)|)
  {
    forall i | 0 <= i < |ops| ensures |Log(ops[..i], key)| <= |Log(ops, key)| { LogGrows(ops, key, i); }
  }

  lemma {:induction false} LogGrows(ops: seq<Op>, key: Bytes, i: nat)
    requires i <= |ops|
    ensures |Log(ops[..i], key)| <= |Log(ops, key)|
  {
    if i < |ops| {
      assert ops[..|ops| - 1][..i] == ops[..i];
      LogGrows(ops[..|ops| - 1], key, i);
    } else {
      assert ops[..i] == ops;
    }
  }

  /** On a sorted timeline pruning and flipping commute. */
  lemma FlipThenPrune(line: seq<ProcessSample>, cutoff: int)
    requires SortedLine(line)
    ensures LastFlipped(Recent(line, cutoff)) == Recent(LastFlipped(line), cutoff)
  {
    if line != [] {
      var front, last := line[..|line| - 1], line[|line| - 1];
      assert LastFlipped(line) == front + [last.(isActive := false)];
      RecentAppend(front, last.(isActive := false), cutoff);
      if last.timestamp > cutoff {
        assert LastFlipped(Recent(front, cutoff) + [last]) == Recent(front, cutoff) + [last.(isActive := false)];
      } else {
        AllOld(line, cutoff);
        AllOld(front, cutoff);
      }
    }
  }

  lemma PruneLater(line: seq<ProcessSample>, flags: seq<ProcessSample>, op: Op, key: Bytes, exits: bool, c0: int)
    requires line == Recent(flags, c0) && SortedLine(flags) && (flags == [] || c0 <= op.now - RETENTION)
    ensures Recent(Changed(line, op, key, exits), op.now - RETENTION) ==
      Recent(Changed(flags, op, key, exits), op.now - RETENTION)
  {
    var c := op.now - RETENTION;
    if flags != [] { RecentTwice(flags, c0, c); }
    match op {
      case Add(s, _) =>
        RecentAppend(line, s, c);
        RecentAppend(flags, s, c);
      case Mark(_, _) =>
        if exits && flags != [] {
          FlipThenPrune(flags, c0);
          RecentTwice(LastFlipped(flags), c0, c);
        }
    }
  }

  lemma FlagsSorted(ops: seq<Op>, key: Bytes)
    requires Honest(ops)
    ensures SortedLine(FlagLog(ops, key)) && |FlagLog(ops, key)| == |Log(ops, key)|
  {
    FlagLogMeaning(ops, key);
    assert SortedLine(Log(ops, key));
    forall i, j | 0 <= i <= j < |Log(ops, key)|
      ensures FlagLog(ops, key)[i].timestamp <= FlagLog(ops, key)[j].timestamp
    {
      assert FlagIs(ops, key, i) && FlagIs(ops, key, j);
    }
  }

  lemma {:induction false} LineRefinesFlags(ops: seq<Op>, key: Bytes)
    requires Honest(ops) && ClockMonotone(ops)
    ensures LineOf(ops, key) == Recent(FlagLog(ops, key), LatestCutoff(ops, key))
  {
    if ops != [] {
      var front, op := ops[..|ops| - 1], ops[|ops| - 1];
      assert ops == front + [op];
      HonestFront(front, op);
      LineRefinesFlags(front, key);
      FlagsSorted(front, key);
      EarlierCutoff(front, op, key);
      LogSnoc(front, op, key);
      RunSnoc(front, op, key);
      FlagLogSnoc(front, op, key);
      hide Honest, FlagLog, LineOf, Log, LatestCutoff, Exits, KeysAfter, SortedLine;
      PruneLater(LineOf(front, key), FlagLog(front, key), op, key, Exits(KeysAfter(front), op, key),
        LatestCutoff(front, key));
    }
  }

  /** In honest runs with a non-decreasing clock the log determines the store, flags
      included: a timeline is its flag log filtered at the last cutoff that touched it. */
  lemma {:induction false} RefinesFlagLog(ops: seq<Op>, key: Bytes)
    requires Honest(ops) && ClockMonotone(ops)
    ensures Timeline(After(EMPTY, ops), key) == Recent(FlagLog(ops, key), LatestCutoff(ops, key))
    ensures FlagsAre(ops, key)
  {
    Projects(ops, key);
    LineRefinesFlags(ops, key);
    FlagLogMeaning(ops, key);
  }

  // ----- forgotten timelines ------------------------------------------------------------------

  /** Every retained timeline that no PID points at any more ends in an inactive sample. */
  ghost predicate Settled(ix: Index) {
    forall key :: key in ix.processes && key !in ix.activeKeys.Values ==> EndsInactive(ix.processes[key])
  }

  /** AddSample points the PID away from another timeline that is still retained. */
  predicate Rebinds(ix: Index, s: ProcessSample) {
    && s.pid in ix.activeKeys
    && ix.activeKeys[s.pid] != KeyOf(s)
    && ix.activeKeys[s.pid] in ix.processes
  }

  /** Settled after every prefix of the run. */
  ghost predicate AlwaysSettled(ops: seq<Op>) {
    Settled(After(EMPTY, ops)) && (ops != [] ==> AlwaysSettled(ops[..|ops| - 1]))
  }

  /** No step of the run rebinds a PID whose timeline is retained. */
  predicate NeverRebinds(ops: seq<Op>) {
    ops != [] ==>
      && NeverRebinds(ops[..|ops| - 1])
      && (ops[|ops| - 1].Add? ==> !Rebinds(After(EMPTY, ops[..|ops| - 1]), ops[|ops| - 1].sample))
  }

  /** The same notions on the projections of the run. */
  ghost predicate LinesSettled(ops: seq<Op>) {
    forall key :: key in KeysAfter(ops).Values || EndsInactive(LineOf(ops, key))
  }

  predicate LineRebinds(ops: seq<Op>, s: ProcessSample) {
    s.pid in KeysAfter(ops) && KeysAfter(ops)[s.pid] != KeyOf(s) && LineOf(ops, KeysAfter(ops)[s.pid]) != []
  }

  ghost predicate AlwaysLinesSettled(ops: seq<Op>) {
    LinesSettled(ops) && (ops != [] ==> AlwaysLinesSettled(ops[..|ops| - 1]))
  }

  predicate NeverLineRebinds(ops: seq<Op>) {
    ops != [] ==>
      && NeverLineRebinds(ops[..|ops| - 1])
      && (ops[|ops| - 1].Add? ==> !LineRebinds(ops[..|ops| - 1], ops[|ops| - 1].sample))
  }

  lemma {:induction false} RunsProject(ops: seq<Op>)
    ensures AlwaysSettled(ops) <==> AlwaysLinesSettled(ops)
    ensures NeverRebinds(ops) <==> NeverLineRebinds(ops)
  {
    SettledProjects(ops);
    if ops != [] {
      RunsProject(ops[..|ops| - 1]);
      if ops[|ops| - 1].Add? { RebindsProjects(ops[..|ops| - 1], ops[|ops| - 1].sample); }
    }
  }

  lemma {:induction false} SettledProjects(ops: seq<Op>)
    ensures Settled(After(EMPTY, ops)) <==> LinesSettled(ops)
  {
    Projects(ops, []);
    forall key
      ensures key in After(EMPTY, ops).processes <==> LineOf(ops, key) != []
      ensures Timeline(After(EMPTY, ops), key) == LineOf(ops, key)
    {
      Projects(ops, key);
    }
  }

  lemma RebindsProjects(ops: seq<Op>, s: ProcessSample)
    ensures Rebinds(After(EMPTY, ops), s) <==> LineRebinds(ops, s)
  {
    Projects(ops, []);
    if s.pid in KeysAfter(ops) { Projects(ops, KeysAfter(ops)[s.pid]); }
  }

  /** A timeline that loses its PID in a MarkInactive is one of those that exit. */
  lemma UnlistedExits(keys: map<int32, Bytes>, op: Op, key: Bytes)
    requires op.Mark? && key in keys.Values && key !in KeysStep(keys, op).Values
    ensures Exits(keys, op, key)
  {
    var next := KeysStep(keys, op);
    forall p | p in keys && p in op.listed ensures keys[p] in next.Values {
      assert next[p] == keys[p];
    }
  }

  lemma MarkKeepsSettled(front: seq<Op>, op: Op)
    requires Honest(front + [op]) && op.Mark? && LinesSettled(front)
    ensures LinesSettled(front + [op])
  {
    assert (front + [op])[..|front|] == front;
    forall key | key !in KeysAfter(front + [op]).Values ensures EndsInactive(LineOf(front + [op], key)) {
      EndStep(front, op, key);
      FlipKeeps(LineOf(front, key), key);
      if key in KeysAfter(front).Values { UnlistedExits(KeysAfter(front), op, key); }
    }
  }

  lemma AddKeepsSettled(front: seq<Op>, op: Op)
    requires op.Add? && LinesSettled(front) && !LineRebinds(front, op.sample)
    ensures LinesSettled(front + [op])
  {
    assert (front + [op])[..|front|] == front;
    var keys, next, s := KeysAfter(front), KeysAfter(front + [op]), op.sample;
    forall pid | pid in keys && pid != s.pid ensures keys[pid] in next.Values { assert next[pid] == keys[pid]; }
    assert next[s.pid] == KeyOf(s);
    forall key | key !in next.Values ensures EndsInactive(LineOf(front + [op], key)) {
      assert key != KeyOf(s);
      assert LineOf(front + [op], key) == LineOf(front, key);
    }
  }

  lemma RebindUnsettles(front: seq<Op>, op: Op)
    requires Honest(front + [op]) && op.Add? && LineRebinds(front, op.sample)
    ensures !LinesSettled(front + [op])
  {
    assert (front + [op])[..|front|] == front;
    var keys, next, s := KeysAfter(front), KeysAfter(front + [op]), op.sample;
    var stale := keys[s.pid];
    HonestFront(front, op);
    KeysNamePids(front);
    ActiveLinesEndActive(front, s.pid);
    forall pid | pid in next ensures next[pid] != stale {
      if pid != s.pid && keys[pid] == stale { NamesOnePid(stale, pid, s.pid); }
    }
    assert stale !in next.Values;
    assert LineOf(front + [op], stale) == LineOf(front, stale);
  }

  lemma {:induction false} LinesSettledIff(ops: seq<Op>)
    requires Honest(ops)
    ensures AlwaysLinesSettled(ops) <==> NeverLineRebinds(ops)
  {
    if ops != [] {
      var front, op := ops[..|ops| - 1], ops[|ops| - 1];
      assert ops == front + [op];
      HonestFront(front, op);
      LinesSettledIff(front);
      if op.Add? && LineRebinds(front, op.sample) {
        RebindUnsettles(front, op);
      } else if LinesSettled(front) {
        if op.Mark? { MarkKeepsSettled(front, op); } else { AddKeepsSettled(front, op); }
      }
    }
  }

  /** Over honest runs: every forgotten timeline is always marked inactive exactly
      when no AddSample rebinds a PID whose previous timeline is still retained. */
  lemma {:induction false} SettledIffNeverRebinds(ops: seq<Op>)
    requires Honest(ops)
    ensures AlwaysSettled(ops) <==> NeverRebinds(ops)
  {
    RunsProject(ops);
    LinesSettledIff(ops);
  }

  // ----- the case that breaks it --------------------------------------------------------------

  /** A process is sampled, and before the next scrape its PID is reused. */
  function ReuseRun(first: ProcessSample): seq<Op> {
    var second := first.(createTime := first.createTime + 1, timestamp := 1);
    [Add(first, 0), Mark({first.pid}, 0), Add(second, 1), Mark({first.pid}, 1)]
  }

  /** Then the first incarnation's only sample is retained, unreachable, and still
      says "active": no MarkInactive ever flips it. */
  lemma {:induction false} PidReuseLeavesStaleTimeline(first: ProcessSample)
    requires first.isActive && first.timestamp == 0
    ensures var ix := After(EMPTY, ReuseRun(first));
      && Timeline(ix, KeyOf(first)) == [first]
      && KeyOf(first) !in ix.activeKeys.Values
      && !Settled(ix)
  {
    var key := KeyOf(first);
    ReuseLine(first);
    Projects(ReuseRun(first), key);
    assert !EndsInactive([first]);
  }

  lemma {:induction false} ReuseLine(first: ProcessSample)
    requires first.timestamp == 0
    ensures LineOf(ReuseRun(first), KeyOf(first)) == [first]
    ensures KeyOf(first) !in KeysAfter(ReuseRun(first)).Values
  {
    var second := first.(createTime := first.createTime + 1, timestamp := 1);
    var o1, o2, o3, o4 := Add(first, 0), Mark({first.pid}, 0), Add(second, 1), Mark({first.pid}, 1);
    if KeyOf(second) == KeyOf(first) {
      KeyInjective(first.pid as int, first.createTime, first.pid as int, second.createTime);
    }
    assert [o1] + [o2] == [o1, o2] && [o1, o2] + [o3] == [o1, o2, o3] && [o1, o2, o3] + [o4] == ReuseRun(first);
    FirstSample(first);
    MarkListed([o1], first, KeyOf(first), 0);
    OtherSample([o1, o2], first, second);
    MarkListed([o1, o2, o3], first, KeyOf(second), 1);
  }

  lemma FirstSample(first: ProcessSample)
    requires first.timestamp == 0
    ensures LineOf([Add(first, 0)], KeyOf(first)) == [first]
    ensures KeysAfter([Add(first, 0)]) == map[first.pid := KeyOf(first)]
  {
    assert [Add(first, 0)][..0] == [] && [] + [first] == [first];
    KeepOne(first, -RETENTION);
  }

  lemma MarkListed(front: seq<Op>, first: ProcessSample, bound: Bytes, now: int)
    requires LineOf(front, KeyOf(first)) == [first] && KeysAfter(front) == map[first.pid := bound]
    requires first.timestamp > now - RETENTION
    ensures LineOf(front + [Mark({first.pid}, now)], KeyOf(first)) == [first]
    ensures KeysAfter(front + [Mark({first.pid}, now)]) == map[first.pid := bound]
  {
    hide *;
    RunSnoc(front, Mark({first.pid}, now), KeyOf(first));
    MarkOne(first, bound, now);
  }

  lemma MarkOne(first: ProcessSample, bound: Bytes, now: int)
    requires first.timestamp > now - RETENTION
    ensures var op, keys := Mark({first.pid}, now), map[first.pid := bound];
      && LineAfter([first], op, KeyOf(first), Exits(keys, op, KeyOf(first))) == [first]
      && KeysStep(keys, op) == keys
  {
    ListedStaysBound(first.pid, bound, now, KeyOf(first));
    KeepOne(first, now - RETENTION);
    hide Recent, Exits, KeyOf, KeysStep;
  }

  lemma ListedStaysBound(pid: int32, bound: Bytes, now: int, key: Bytes)
    ensures !Exits(map[pid := bound], Mark({pid}, now), key)
    ensures KeysStep(map[pid := bound], Mark({pid}, now)) == map[pid := bound]
  {
  }

  lemma OtherSample(front: seq<Op>, first: ProcessSample, second: ProcessSample)
    requires LineOf(front, KeyOf(first)) == [first] && KeysAfter(front) == map[first.pid := KeyOf(first)]
    requires second.pid == first.pid && KeyOf(second) != KeyOf(first)
    ensures LineOf(front + [Add(second, 1)], KeyOf(first)) == [first]
    ensures KeysAfter(front + [Add(second, 1)]) == map[first.pid := KeyOf(second)]
  {
    hide LineOf, KeysAfter, KeyOf;
    RunSnoc(front, Add(second, 1), KeyOf(first));
  }

  lemma KeepOne(s: ProcessSample, cutoff: int)
    requires s.timestamp > cutoff
    ensures Recent([s], cutoff) == [s]
  {
    assert [s][..0] == [];
  }
}

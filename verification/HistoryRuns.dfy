/** What the sample index keeps over whole runs: it refines the log of everything
    ever added, its active view is truthful, and exactly when it is not settled. */
module HistoryRuns {
  import opened Utf8
  import opened History

  // ----- the index refines its log --------------------------------------------------

  /** Every sample ever added under a key, in order; nothing leaves this log. */
  function Log(ops: seq<Op>, key: Bytes): seq<ProcessSample> {
    if ops == [] then []
    else
      var op := ops[|ops| - 1];
      Log(ops[..|ops| - 1], key) + if op.Add? && KeyOf(op.sample) == key then [op.sample] else []
  }

  predicate Touches(op: Op, key: Bytes) {
    op.Mark? || KeyOf(op.sample) == key
  }

  /** Some operation pruned this key. */
  predicate EverPruned(ops: seq<Op>, key: Bytes) {
    ops != [] && (Touches(ops[|ops| - 1], key) || EverPruned(ops[..|ops| - 1], key))
  }

  /** The cutoff of the last prune, per-key or global, that touched the key. */
  function LatestCutoff(ops: seq<Op>, key: Bytes): int {
    if ops == [] then 0
    else if Touches(ops[|ops| - 1], key) then ops[|ops| - 1].now - RETENTION
    else LatestCutoff(ops[..|ops| - 1], key)
  }

  ghost predicate ClockMonotone(ops: seq<Op>) {
    forall i, j :: 0 <= i <= j < |ops| ==> ops[i].now <= ops[j].now
  }

  /** The same samples in the same order, up to their IsActive flags. */
  ghost predicate Same(a: seq<ProcessSample>, b: seq<ProcessSample>) {
    |a| == |b| && forall i :: 0 <= i < |a| ==> a[i].(isActive := b[i].isActive) == b[i]
  }

  lemma {:induction false} RecentSame(a: seq<ProcessSample>, b: seq<ProcessSample>, cutoff: int)
    requires Same(a, b)
    ensures Same(Recent(a, cutoff), Recent(b, cutoff))
  {
    if a != [] {
      RecentSame(a[..|a| - 1], b[..|b| - 1], cutoff);
      assert a[|a| - 1].(isActive := b[|a| - 1].isActive) == b[|a| - 1];
    }
  }

  lemma {:induction false} RecentTwice(samples: seq<ProcessSample>, c0: int, c1: int)
    requires c0 <= c1
    ensures Recent(Recent(samples, c0), c1) == Recent(samples, c1)
  {
    if samples != [] {
      var front, last := samples[..|samples| - 1], samples[|samples| - 1];
      RecentTwice(front, c0, c1);
      if last.timestamp > c0 {
        RecentAppend(Recent(front, c0), last, c1);
      } else {
        assert Recent(front, c0) + [] == Recent(front, c0);
      }
    }
  }

  lemma RecentAppend(samples: seq<ProcessSample>, s: ProcessSample, cutoff: int)
    ensures Recent(samples + [s], cutoff) == Recent(samples, cutoff) + if s.timestamp > cutoff then [s] else []
  {
    assert (samples + [s])[..|samples|] == samples;
  }

  lemma {:induction false} CutoffsRise(ops: seq<Op>, key: Bytes, now: int)
    requires forall i :: 0 <= i < |ops| ==> ops[i].now <= now
    requires EverPruned(ops, key)
    ensures LatestCutoff(ops, key) <= now - RETENTION
  {
    if !Touches(ops[|ops| - 1], key) {
      CutoffsRise(ops[..|ops| - 1], key, now);
    }
  }

  lemma {:induction false} LoggedIsPruned(ops: seq<Op>, key: Bytes)
    requires Log(ops, key) != []
    ensures EverPruned(ops, key)
  {
    if !Touches(ops[|ops| - 1], key) { LoggedIsPruned(ops[..|ops| - 1], key); }
  }

  /** What one operation does to one timeline: a change, then a prune if the key is touched. */
  function Changed(line: seq<ProcessSample>, op: Op, key: Bytes, exited: bool): seq<ProcessSample> {
    match op
    case Add(s, _) => if KeyOf(s) == key then line + [s] else line
    case Mark(_, _) => if exited then LastFlipped(line) else line
  }

  function LineAfter(line: seq<ProcessSample>, op: Op, key: Bytes, exited: bool): seq<ProcessSample> {
    if Touches(op, key) then Recent(Changed(line, op, key, exited), op.now - RETENTION) else line
  }

  function KeysStep(keys: map<int32, Bytes>, op: Op): map<int32, Bytes> {
    match op
    case Add(s, _) => keys[s.pid := KeyOf(s)]
    case Mark(listed, _) => map pid | pid in keys && pid in listed :: keys[pid]
  }

  predicate Exits(keys: map<int32, Bytes>, op: Op, key: Bytes) {
    op.Mark? && key in Exited(keys, op.listed)
  }

  /** activeKeys after a run, and one timeline after it, without the rest of the index. */
  function KeysAfter(ops: seq<Op>): map<int32, Bytes> {
    if ops == [] then map[] else KeysStep(KeysAfter(ops[..|ops| - 1]), ops[|ops| - 1])
  }

  function LineOf(ops: seq<Op>, key: Bytes): seq<ProcessSample> {
    if ops == [] then []
    else
      var front, op := ops[..|ops| - 1], ops[|ops| - 1];
      LineAfter(LineOf(front, key), op, key, Exits(KeysAfter(front), op, key))
  }

  lemma RunSnoc(ops: seq<Op>, op: Op, key: Bytes)
    ensures KeysAfter(ops + [op]) == KeysStep(KeysAfter(ops), op)
    ensures LineOf(ops + [op], key) == LineAfter(LineOf(ops, key), op, key, Exits(KeysAfter(ops), op, key))
  {
    assert (ops + [op])[..|ops|] == ops;
  }

  lemma TimelineAdded(ix: Index, s: ProcessSample, now: int, key: Bytes)
    ensures Timeline(Added(ix, s, now), key) ==
            if key == KeyOf(s) then Recent(Timeline(ix, key) + [s], now - RETENTION) else Timeline(ix, key)
  {
  }

  lemma TimelineMarked(ix: Index, listed: set<int32>, now: int, key: Bytes)
    ensures Timeline(Marked(ix, listed, now), key) ==
            var line := Timeline(ix, key);
            Recent(if key in Exited(ix.activeKeys, listed) then LastFlipped(line) else line, now - RETENTION)
  {
  }

  lemma IndexStep(ix: Index, op: Op, key: Bytes)
    ensures Timeline(Stepped(ix, op), key) == LineAfter(Timeline(ix, key), op, key, Exits(ix.activeKeys, op, key))
  {
    hide Timeline, Added, Marked, Recent, LastFlipped, Exited;
    match op {
      case Add(s, now) => TimelineAdded(ix, s, now, key);
      case Mark(listed, now) => TimelineMarked(ix, listed, now, key);
    }
  }

  lemma ActiveKeysStep(ix: Index, op: Op)
    ensures Stepped(ix, op).activeKeys == KeysStep(ix.activeKeys, op)
  {
  }

  /** The two projections are what the index holds. */
  lemma {:induction false} Projects(ops: seq<Op>, key: Bytes)
    ensures Timeline(After(EMPTY, ops), key) == LineOf(ops, key)
    ensures After(EMPTY, ops).activeKeys == KeysAfter(ops)
    ensures key in After(EMPTY, ops).processes <==> LineOf(ops, key) != []
  {
    if ops != [] {
      Projects(ops[..|ops| - 1], key);
      IndexStep(After(EMPTY, ops[..|ops| - 1]), ops[|ops| - 1], key);
      ActiveKeysStep(After(EMPTY, ops[..|ops| - 1]), ops[|ops| - 1]);
    }
    NoEmptyTimeline(ops);
  }

  /** Re-filtering a filtered log at a later cutoff, then extending or flipping it. */
  lemma Refilter(line: seq<ProcessSample>, log: seq<ProcessSample>, c0: int, c: int)
    requires Same(line, Recent(log, c0)) && (log == [] || c0 <= c)
    ensures Same(Recent(line, c), Recent(log, c))
  {
    RecentSame(line, Recent(log, c0), c);
    if log != [] { RecentTwice(log, c0, c); }
  }

  lemma RefilterAdded(line: seq<ProcessSample>, log: seq<ProcessSample>, c0: int, c: int, s: ProcessSample)
    requires Same(line, Recent(log, c0)) && (log == [] || c0 <= c)
    ensures Same(Recent(line + [s], c), Recent(log + [s], c))
  {
    hide Recent;
    Refilter(line, log, c0, c);
    RecentAppend(line, s, c);
    RecentAppend(log, s, c);
  }

  lemma RefilterFlipped(line: seq<ProcessSample>, log: seq<ProcessSample>, c0: int, c: int)
    requires Same(line, Recent(log, c0)) && (log == [] || c0 <= c)
    ensures Same(Recent(LastFlipped(line), c), Recent(log, c))
  {
    hide Recent;
    Refilter(line, log, c0, c);
    FlipSame(line);
    RecentSame(LastFlipped(line), line, c);
    SameTrans(Recent(LastFlipped(line), c), Recent(line, c), Recent(log, c));
  }

  lemma FlipSame(line: seq<ProcessSample>)
    ensures Same(LastFlipped(line), line)
  {
  }

  lemma SameTrans(a: seq<ProcessSample>, b: seq<ProcessSample>, c: seq<ProcessSample>)
    requires Same(a, b) && Same(b, c)
    ensures Same(a, c)
  {
  }

  lemma LogSnoc(front: seq<Op>, op: Op, key: Bytes)
    ensures Log(front + [op], key) ==
      if op.Add? && KeyOf(op.sample) == key then Log(front, key) + [op.sample] else Log(front, key)
    ensures LatestCutoff(front + [op], key) == if Touches(op, key) then op.now - RETENTION else LatestCutoff(front, key)
  {
    assert (front + [op])[..|front|] == front;
    assert Log(front, key) + [] == Log(front, key);
  }

  lemma EarlierCutoff(front: seq<Op>, op: Op, key: Bytes)
    requires ClockMonotone(front + [op])
    ensures Log(front, key) == [] || LatestCutoff(front, key) <= op.now - RETENTION
  {
    if Log(front, key) != [] {
      LoggedIsPruned(front, key);
      forall i | 0 <= i < |front| ensures front[i].now <= op.now {
        assert (front + [op])[i].now <= (front + [op])[|front|].now;
      }
      CutoffsRise(front, key, op.now);
    }
  }

  lemma RefinesStep(line: seq<ProcessSample>, front: seq<Op>, op: Op, key: Bytes, exited: bool)
    requires ClockMonotone(front + [op])
    requires Same(line, Recent(Log(front, key), LatestCutoff(front, key)))
    ensures Same(LineAfter(line, op, key, exited), Recent(Log(front + [op], key), LatestCutoff(front + [op], key)))
  {
    var log, c0, c := Log(front, key), LatestCutoff(front, key), op.now - RETENTION;
    LogSnoc(front, op, key);
    EarlierCutoff(front, op, key);
    match op {
      case Add(s, _) => if KeyOf(s) == key { RefilterAdded(line, log, c0, c, s); }
      case Mark(_, _) => if exited { RefilterFlipped(line, log, c0, c); } else { Refilter(line, log, c0, c); }
    }
  }

  lemma {:induction false} LineRefinesLog(ops: seq<Op>, key: Bytes)
    requires ClockMonotone(ops)
    ensures Same(LineOf(ops, key), Recent(Log(ops, key), LatestCutoff(ops, key)))
  {
    if ops != [] {
      var front, op := ops[..|ops| - 1], ops[|ops| - 1];
      assert ops == front + [op];
      LineRefinesLog(front, key);
      RefinesStep(LineOf(front, key), front, op, key, Exits(KeysAfter(front), op, key));
    }
  }

  /** In every run with a non-decreasing clock, each timeline is the append-only log
      of its key filtered at the latest cutoff that touched it — one prune there does
      what every mix of per-key and global prunes did — and the key is absent exactly
      when that filter is empty. */
  lemma {:induction false} RefinesLog(ops: seq<Op>, key: Bytes)
    requires ClockMonotone(ops)
    ensures Same(Timeline(After(EMPTY, ops), key), Recent(Log(ops, key), LatestCutoff(ops, key)))
    ensures key in After(EMPTY, ops).processes <==> Recent(Log(ops, key), LatestCutoff(ops, key)) != []
  {
    Projects(ops, key);
    LineRefinesLog(ops, key);
  }

  lemma {:induction false} NoEmptyTimeline(ops: seq<Op>)
    ensures forall k :: k in After(EMPTY, ops).processes ==> After(EMPTY, ops).processes[k] != []
  {
    if ops != [] {
      NoEmptyTimeline(ops[..|ops| - 1]);
    }
  }
}

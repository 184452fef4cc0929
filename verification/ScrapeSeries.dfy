/** main.go: any series of scrapes. Each is a run to which the whole-run theorems apply, and
    whether a forgotten timeline was marked inactive can be told from what the scrapes read. */
module ScrapeSeries {
  import opened Wrappers
  import opened Utf8
  import opened Sequences
  import opened History
  import opened HistoryRuns
  import opened ActiveView
  import opened Scraper

  /** The clock never runs backwards, within a scrape or between scrapes. */
  ghost predicate InOrder(series: seq<Tick>) {
    && (forall i :: 0 <= i < |series| ==> series[i].now <= series[i].ticks(0))
    && (forall i, j: nat, k: nat :: 0 <= i < |series| && j <= k ==> series[i].ticks(j) <= series[i].ticks(k))
    && (forall i, j :: 0 <= i < j < |series| ==> EndOf(series[i]) <= series[j].now)
  }

  function HandlesOver(series: seq<Tick>): map<int32, Handle> {
    if series == [] then map[] else PurgedHandles(series[|series| - 1].os, HandlesOver(series[..|series| - 1]))
  }

  function SeriesOps(series: seq<Tick>): seq<Op> {
    if series == [] then []
    else
      var front, t := series[..|series| - 1], series[|series| - 1];
      SeriesOps(front) + ScrapeOps(t, HandlesOver(front))
  }

  /** An honest run with a monotone clock, its timestamps up to t and its clock up to c. */
  ghost predicate Orderly(ops: seq<Op>, t: int, c: int) {
    && Honest(ops) && ClockMonotone(ops)
    && (forall i :: 0 <= i < |ops| ==> ops[i].now <= c)
    && (forall key, i :: 0 <= i < |Log(ops, key)| ==> Log(ops, key)[i].timestamp <= t)
  }

  lemma OrderlySnoc(ops: seq<Op>, op: Op, t: int, c: int)
    requires Orderly(ops, t, c) && c <= op.now
    requires op.Add? ==> op.sample.isActive && op.sample.timestamp == t
    ensures Orderly(ops + [op], t, op.now)
  {
    forall key
      ensures SortedLine(Log(ops + [op], key))
      ensures forall i :: 0 <= i < |Log(ops + [op], key)| ==> Log(ops + [op], key)[i].timestamp <= t
    {
      LogSnoc(ops, op, key);
      assert SortedLine(Log(ops, key));
    }
  }

  lemma {:induction false} LoopOrderly(
    ops: seq<Op>, t0: int, c0: int, t: Tick, handles: map<int32, Handle>, pids: seq<int32>)
    requires Orderly(ops, t0, c0) && t0 <= t.now && c0 <= t.now <= t.ticks(0)
    requires forall j: nat, k: nat :: j <= k ==> t.ticks(j) <= t.ticks(k)
    ensures Orderly(ops + LoopOps(t, handles, pids), t.now, t.ticks(|pids|))
    decreases |pids|
  {
    hide Sampled, HandlesStep;
    if pids == [] {
      assert ops + [] == ops;
    } else {
      var front := pids[..|pids| - 1];
      var loop := LoopOps(t, handles, front);
      var last := AddOps(t, HandlesAfter(t.os, handles, front), pids[|pids| - 1], t.ticks(|front|));
      LoopOrderly(ops, t0, c0, t, handles, front);
      assert ops + LoopOps(t, handles, pids) == ops + loop + last;
      if last != [] {
        SampledShape(t, HandlesAfter(t.os, handles, front), pids[|pids| - 1]);
        OrderlySnoc(ops + loop, last[0], t.now, t.ticks(|front|));
      } else {
        assert ops + loop + last == ops + loop;
      }
      assert t.ticks(|front|) <= t.ticks(|pids|);
    }
  }

  lemma SampledShape(t: Tick, handles: map<int32, Handle>, pid: int32)
    ensures var s := Sampled(t, handles, pid); s.Some? ==> s.value.isActive && s.value.timestamp == t.now
  {
  }

  /** One scrape after an orderly run. */
  lemma TickOrderly(ops: seq<Op>, t: Tick, handles: map<int32, Handle>)
    requires Orderly(ops, t.now, t.now) && t.now <= t.ticks(0)
    requires forall j: nat, k: nat :: j <= k ==> t.ticks(j) <= t.ticks(k)
    ensures Orderly(ops + ScrapeOps(t, handles), t.now, EndOf(t))
  {
    hide Orderly, LoopOps;
    match t.os.listing {
      case None => assert ops + [] == ops;
      case Some(pids) =>
        var loop, mark := LoopOps(t, handles, pids), Mark(Elements(pids), t.ticks(|pids|));
        LoopOrderly(ops, t.now, t.now, t, handles, pids);
        OrderlySnoc(ops + loop, mark, t.now, t.ticks(|pids|));
        Regroup(ops, loop, [], [mark]);
    }
  }

  lemma OrderlyLater(ops: seq<Op>, t0: int, c0: int, t: int, c: int)
    requires Orderly(ops, t0, c0) && t0 <= t && c0 <= c
    ensures Orderly(ops, t, c)
  {
    hide Honest, ClockMonotone, Log;
  }

  /** The clocks of the last tick, and the tick before it. */
  lemma LastInOrder(series: seq<Tick>)
    requires series != [] && InOrder(series)
    ensures var n, t := |series| - 1, series[|series| - 1];
      && InOrder(series[..n]) && t.now <= t.ticks(0)
      && (forall j: nat, k: nat :: j <= k ==> t.ticks(j) <= t.ticks(k))
      && (n > 0 ==> series[n - 1].now <= EndOf(series[n - 1]) <= t.now)
  {
    if |series| > 1 {
      var u := series[|series| - 2];
      assert u.os.listing.Some? ==> u.ticks(0) <= u.ticks(|u.os.listing.value|);
    }
  }

  /** Whatever the host does, a scraper whose clock does not run backwards performs an
      honest run with a monotone clock, so every whole-run theorem applies to it. */
  lemma {:induction false} ScraperRunsAreHonest(series: seq<Tick>)
    requires InOrder(series)
    ensures Honest(SeriesOps(series)) && ClockMonotone(SeriesOps(series))
    ensures series != [] ==> Orderly(SeriesOps(series), series[|series| - 1].now, EndOf(series[|series| - 1]))
  {
    if series != [] {
      hide InOrder, EndOf, ScrapeOps, HandlesOver, Honest, ClockMonotone, Log;
      var front, t := series[..|series| - 1], series[|series| - 1];
      var ops := SeriesOps(front);
      LastInOrder(series);
      ScraperRunsAreHonest(front);
      if front == [] {
        NothingIsOrderly(t.now);
      } else {
        OrderlyLater(ops, front[|front| - 1].now, EndOf(front[|front| - 1]), t.now, t.now);
      }
      TickOrderly(ops, t, HandlesOver(front));
    }
  }

  lemma NothingIsOrderly(t: int)
    ensures Orderly([], t, t)
  {
  }

  // ----- what the scrapes read ----------------------------------------------------------------

  /** No listing names a PID twice. */
  ghost predicate DistinctListings(series: seq<Tick>) {
    forall t <- series :: t.os.listing.Some? ==> Distinct(t.os.listing.value)
  }

  /** The sample a scrape takes of a PID it listed, if it can open and read the process. */
  function Taken(front: seq<Tick>, t: Tick, pid: int32): Option<ProcessSample> {
    Sampled(t, HandlesOver(front), pid)
  }

  /** The latest sample of a PID that every successful listing since has named. */
  function LastTaken(series: seq<Tick>, pid: int32): Option<ProcessSample> {
    if series == [] then None
    else
      var front, t := series[..|series| - 1], series[|series| - 1];
      match t.os.listing
      case None => LastTaken(front, pid)
      case Some(pids) =>
        if pid !in pids then None
        else match Taken(front, t, pid) case Some(s) => Some(s) case None => LastTaken(front, pid)
  }

  /** The clock at the end of the last successful scrape. */
  function LastMark(series: seq<Tick>): int {
    if series == [] then 0
    else
      var t := series[|series| - 1];
      if t.os.listing.Some? then EndOf(t) else LastMark(series[..|series| - 1])
  }

  /** The scrape reads, under a PID, another create time than the last sample has, and that
      sample was not yet ten minutes old at the end of the last scrape. */
  predicate ReusesPid(front: seq<Tick>, t: Tick, pid: int32) {
    && Taken(front, t, pid).Some? && LastTaken(front, pid).Some?
    && LastTaken(front, pid).value.createTime != Taken(front, t, pid).value.createTime
    && LastTaken(front, pid).value.timestamp > LastMark(front) - RETENTION
  }

  predicate Reuses(front: seq<Tick>, t: Tick) {
    t.os.listing.Some? && exists pid <- t.os.listing.value :: ReusesPid(front, t, pid)
  }

  predicate NeverReuses(series: seq<Tick>) {
    series != [] ==> NeverReuses(series[..|series| - 1]) && !Reuses(series[..|series| - 1], series[|series| - 1])
  }

  // ----- one scrape, PID by PID -----------------------------------------------------------------

  /** A turn of the loop changes the cache for its own PID only. */
  lemma {:induction false} OtherHandlesStay(os: Os, handles: map<int32, Handle>, pids: seq<int32>, q: int32)
    requires q !in pids
    ensures q in HandlesAfter(os, handles, pids) <==> q in handles
    ensures q in handles ==> HandlesAfter(os, handles, pids)[q] == handles[q]
  {
    if pids != [] { OtherHandlesStay(os, handles, pids[..|pids| - 1], q); }
  }

  lemma SampledAnyTurn(t: Tick, handles: map<int32, Handle>, pids: seq<int32>, q: int32)
    requires q !in pids
    ensures Sampled(t, HandlesAfter(t.os, handles, pids), q) == Sampled(t, handles, q)
  {
    OtherHandlesStay(t.os, handles, pids, q);
  }

  lemma SampledOwnPid(t: Tick, handles: map<int32, Handle>, q: int32)
    ensures var s := Sampled(t, handles, q); s.Some? ==>
      IsKey(KeyOf(s.value), q, s.value.createTime) && s.value.pid == q
  {
  }

  /** Distinct(pids), split at the last PID. */
  lemma LastIsNew(pids: seq<int32>)
    requires Distinct(pids) && pids != []
    ensures var front, last := pids[..|pids| - 1], pids[|pids| - 1];
      pids == front + [last] && Distinct(front) && last !in front
  {
  }

  /** The loop over one more PID: one more AddSample, or nothing more. */
  lemma LoopAppend(t: Tick, handles: map<int32, Handle>, front: seq<int32>, q: int32)
    requires q !in front
    ensures var s := Sampled(t, handles, q);
      LoopOps(t, handles, front + [q]) ==
        LoopOps(t, handles, front) + if s.Some? then [Add(s.value, t.ticks(|front|))] else []
  {
    assert (front + [q])[..|front|] == front;
    SampledAnyTurn(t, handles, front, q);
    hide Sampled;
  }

  /** The same, as a run. */
  lemma LoopTurn(ops: seq<Op>, t: Tick, handles: map<int32, Handle>, front: seq<int32>, q: int32)
    requires q !in front
    ensures var before, s := ops + LoopOps(t, handles, front), Sampled(t, handles, q);
      ops + LoopOps(t, handles, front + [q]) == if s.Some? then before + [Add(s.value, t.ticks(|front|))] else before
  {
    hide *;
    var s := Sampled(t, handles, q);
    var turn := if s.Some? then [Add(s.value, t.ticks(|front|))] else [];
    LoopAppend(t, handles, front, q);
    Regroup(ops, LoopOps(t, handles, front), [], turn);
    if s.None? { assert ops + LoopOps(t, handles, front) + [] == ops + LoopOps(t, handles, front); }
  }

  lemma RebindsSnoc(ops: seq<Op>, op: Op)
    ensures NeverLineRebinds(ops + [op]) <==> NeverLineRebinds(ops) && (op.Add? ==> !LineRebinds(ops, op.sample))
  {
    assert (ops + [op])[..|ops|] == ops;
  }

  /** The loop binds each PID it sampled and leaves every other one as it was. */
  predicate KeyAfterLoop(keys: map<int32, Bytes>, before: map<int32, Bytes>, taken: Option<ProcessSample>, q: int32) {
    if taken.Some? then q in keys && keys[q] == KeyOf(taken.value)
    else (q in keys <==> q in before) && (q in keys ==> keys[q] == before[q])
  }

  /** What the loop over `pids` samples of q. */
  function TakenIn(t: Tick, handles: map<int32, Handle>, pids: seq<int32>, q: int32): Option<ProcessSample> {
    if q in pids then Sampled(t, handles, q) else None
  }

  lemma TakenSnoc(t: Tick, handles: map<int32, Handle>, front: seq<int32>, last: int32, q: int32)
    requires last !in front
    ensures TakenIn(t, handles, front + [last], q) ==
      if q == last then Sampled(t, handles, last) else TakenIn(t, handles, front, q)
    ensures q == last ==> TakenIn(t, handles, front, q).None?
    ensures TakenIn(t, handles, [], q).None?
  {
    hide Sampled;
  }

  lemma LoopOfNothing(ops: seq<Op>, t: Tick, handles: map<int32, Handle>)
    ensures ops + LoopOps(t, handles, []) == ops
  {
  }

  lemma SampleOwnPid(t: Tick, handles: map<int32, Handle>, q: int32)
    ensures var s := Sampled(t, handles, q); s.Some? ==> s.value.pid == q && NamesPid(KeyOf(s.value), q)
  {
    SampledOwnPid(t, handles, q);
  }

  /** One turn, on the PID table as a value. */
  lemma KeyTurn(
    keys: map<int32, Bytes>, before: map<int32, Bytes>, taken: Option<ProcessSample>, q: int32,
    s: Option<ProcessSample>, last: int32, clock: int)
    requires KeyAfterLoop(keys, before, taken, q)
    requires s.Some? ==> s.value.pid == last
    requires q == last ==> taken.None?
    ensures var after := if s.Some? then KeysStep(keys, Add(s.value, clock)) else keys;
      KeyAfterLoop(after, before, if q == last then s else taken, q)
  {
    hide KeyOf;
  }

  lemma {:induction false} LoopKeys(ops: seq<Op>, t: Tick, handles: map<int32, Handle>, pids: seq<int32>, q: int32)
    requires Distinct(pids)
    ensures KeyAfterLoop(KeysAfter(ops + LoopOps(t, handles, pids)), KeysAfter(ops), TakenIn(t, handles, pids, q), q)
    decreases |pids|
  {
    if pids == [] {
      LoopOfNothing(ops, t, handles);
      hide KeysAfter, LoopOps;
    } else {
      hide *;
      var front, last := pids[..|pids| - 1], pids[|pids| - 1];
      var before, s := ops + LoopOps(t, handles, front), Sampled(t, handles, last);
      LastIsNew(pids);
      LoopKeys(ops, t, handles, front, q);
      LoopTurn(ops, t, handles, front, last);
      SampleOwnPid(t, handles, last);
      TakenSnoc(t, handles, front, last, q);
      if s.Some? { RunSnoc(before, Add(s.value, t.ticks(|front|)), []); }
      KeyTurn(KeysAfter(before), KeysAfter(ops), TakenIn(t, handles, front, q), q, s, last, t.ticks(|front|));
    }
  }

  /** It extends the log of a timeline by the sample taken under its key, if one was, and
      otherwise leaves log and timeline as they were. */
  ghost predicate LineAfterLoop(after: seq<Op>, before: seq<Op>, taken: Option<ProcessSample>, key: Bytes) {
    if taken.Some? && KeyOf(taken.value) == key then Log(after, key) == Log(before, key) + [taken.value]
    else Log(after, key) == Log(before, key) && LineOf(after, key) == LineOf(before, key)
  }

  lemma LineTurn(
    after: seq<Op>, before: seq<Op>, taken: Option<ProcessSample>, key: Bytes, q: int32, s: Option<ProcessSample>,
    last: int32, clock: int)
    requires NamesPid(key, q)
    requires s.Some? ==> NamesPid(KeyOf(s.value), last)
    requires q == last ==> taken.None?
    requires taken.Some? ==> NamesPid(KeyOf(taken.value), q)
    ensures LineAfterLoop(after, before, taken, key) ==>
      var next := if s.Some? then after + [Add(s.value, clock)] else after;
      LineAfterLoop(next, before, if q == last then s else taken, key)
  {
    hide Log, LineOf, KeysAfter, KeyOf, NamesPid;
    if s.Some? {
      if KeyOf(s.value) == key { NamesOnePid(key, last, q); }
      RunSnoc(after, Add(s.value, clock), key);
      LogSnoc(after, Add(s.value, clock), key);
    }
  }

  lemma {:induction false} LoopLines(
    ops: seq<Op>, t: Tick, handles: map<int32, Handle>, pids: seq<int32>, q: int32, key: Bytes)
    requires Distinct(pids) && NamesPid(key, q)
    ensures LineAfterLoop(ops + LoopOps(t, handles, pids), ops, TakenIn(t, handles, pids, q), key)
    decreases |pids|
  {
    if pids == [] {
      LoopOfNothing(ops, t, handles);
      hide Log, LineOf, LoopOps;
    } else {
      hide *;
      var front, last := pids[..|pids| - 1], pids[|pids| - 1];
      var before, s := ops + LoopOps(t, handles, front), Sampled(t, handles, last);
      LastIsNew(pids);
      LoopLines(ops, t, handles, front, q, key);
      LoopTurn(ops, t, handles, front, last);
      SampleOwnPid(t, handles, last);
      TakenOwnPid(t, handles, front, q);
      TakenSnoc(t, handles, front, last, q);
      LineTurn(before, ops, TakenIn(t, handles, front, q), key, q, s, last, t.ticks(|front|));
    }
  }

  lemma TakenOwnPid(t: Tick, handles: map<int32, Handle>, pids: seq<int32>, q: int32)
    ensures var s := TakenIn(t, handles, pids, q); s.Some? ==> NamesPid(KeyOf(s.value), q)
  {
    SampleOwnPid(t, handles, q);
  }

  lemma LaterTurnRebinds(ops: seq<Op>, t: Tick, handles: map<int32, Handle>, front: seq<int32>, s: ProcessSample)
    requires Distinct(front) && s.pid !in front
    ensures LineRebinds(ops + LoopOps(t, handles, front), s) <==> LineRebinds(ops, s)
  {
    LoopKeys(ops, t, handles, front, s.pid);
    KeysNamePids(ops);
    if s.pid in KeysAfter(ops) { LoopLines(ops, t, handles, front, s.pid, KeysAfter(ops)[s.pid]); }
  }

  /** A loop rebinds no PID exactly when none of its samples would have rebound one at its start. */
  lemma {:induction false} LoopRebinds(ops: seq<Op>, t: Tick, handles: map<int32, Handle>, pids: seq<int32>)
    requires Distinct(pids)
    ensures NeverLineRebinds(ops + LoopOps(t, handles, pids)) <==>
      && NeverLineRebinds(ops)
      && forall q <- pids :: Sampled(t, handles, q).Some? ==> !LineRebinds(ops, Sampled(t, handles, q).value)
    decreases |pids|
  {
    if pids == [] {
      assert ops + LoopOps(t, handles, pids) == ops;
    } else {
      var front, last := pids[..|pids| - 1], pids[|pids| - 1];
      var s := Sampled(t, handles, last);
      LastIsNew(pids);
      LoopRebinds(ops, t, handles, front);
      LoopTurn(ops, t, handles, front, last);
      SampledOwnPid(t, handles, last);
      hide Distinct, LoopOps, LineRebinds, NeverLineRebinds, Sampled;
      if s.Some? {
        RebindsSnoc(ops + LoopOps(t, handles, front), Add(s.value, t.ticks(|front|)));
        LaterTurnRebinds(ops, t, handles, front, s.value);
      }
    }
  }

  // ----- the series, PID by PID -------------------------------------------------------------------

  /** One more successful scrape, as a run. */
  lemma SeriesTurn(front: seq<Tick>, t: Tick)
    requires t.os.listing.Some?
    ensures var pids := t.os.listing.value;
      SeriesOps(front + [t]) ==
        SeriesOps(front) + LoopOps(t, HandlesOver(front), pids) + [Mark(Elements(pids), EndOf(t))]
  {
    assert (front + [t])[..|front|] == front;
    var pids := t.os.listing.value;
    var loop, mark := LoopOps(t, HandlesOver(front), pids), [Mark(Elements(pids), EndOf(t))];
    assert SeriesOps(front) + (loop + mark) == SeriesOps(front) + loop + mark;
  }

  lemma FailedTurn(front: seq<Tick>, t: Tick)
    requires t.os.listing.None?
    ensures SeriesOps(front + [t]) == SeriesOps(front)
  {
    assert (front + [t])[..|front|] == front;
  }

  lemma SeriesFront(series: seq<Tick>)
    requires series != []
    ensures var front := series[..|series| - 1];
      && series == front + [series[|series| - 1]]
      && (DistinctListings(series) ==>
            DistinctListings(front) && (var l := series[|series| - 1].os.listing; l.Some? ==> Distinct(l.value)))
      && (InOrder(series) ==> InOrder(front))
  {
  }

  lemma {:induction false} LastTakenPid(series: seq<Tick>, q: int32)
    ensures var s := LastTaken(series, q); s.Some? ==> s.value.pid == q && NamesPid(KeyOf(s.value), q)
  {
    if series != [] {
      LastTakenPid(series[..|series| - 1], q);
      var t := series[|series| - 1];
      SampledOwnPid(t, HandlesOver(series[..|series| - 1]), q);
    }
  }

  /** Past the final MarkInactive the listed PIDs keep their keys, and every timeline has been pruned. */
  lemma MarkTurn(ops: seq<Op>, pids: seq<int32>, clock: int, q: int32, key: Bytes)
    ensures var keys, after := KeysAfter(ops), KeysAfter(ops + [Mark(Elements(pids), clock)]);
      (q in after <==> q in keys && q in pids) && (q in after ==> after[q] == keys[q])
    ensures Log(ops + [Mark(Elements(pids), clock)], key) == Log(ops, key)
    ensures LatestCutoff(ops + [Mark(Elements(pids), clock)], key) == clock - RETENTION
  {
    var op := Mark(Elements(pids), clock);
    RunSnoc(ops, op, key);
    LogSnoc(ops, op, key);
  }

  /** activeKeys holds each PID under the key of its last sample. */
  lemma {:induction false} SeriesKeys(series: seq<Tick>, q: int32)
    requires DistinctListings(series)
    ensures KeyAfterLoop(KeysAfter(SeriesOps(series)), map[], LastTaken(series, q), q)
  {
    if series != [] {
      var front, t := series[..|series| - 1], series[|series| - 1];
      SeriesFront(series);
      SeriesKeys(front, q);
      hide KeysAfter, SeriesOps, DistinctListings, Distinct, Sampled;
      match t.os.listing {
        case None => FailedTurn(front, t);
        case Some(pids) =>
          SeriesTurn(front, t);
          LoopKeys(SeriesOps(front), t, HandlesOver(front), pids, q);
          MarkTurn(SeriesOps(front) + LoopOps(t, HandlesOver(front), pids), pids, EndOf(t), q, []);
      }
    }
  }

  predicate EndsIn(log: seq<ProcessSample>, s: ProcessSample) {
    log != [] && log[|log| - 1] == s
  }

  lemma LastSnoc(front: seq<Tick>, t: Tick, q: int32)
    ensures LastMark(front + [t]) == if t.os.listing.Some? then EndOf(t) else LastMark(front)
    ensures LastTaken(front + [t], q) ==
      match t.os.listing
      case None => LastTaken(front, q)
      case Some(pids) =>
        if q !in pids then None
        else match TakenIn(t, HandlesOver(front), pids, q) case Some(s) => Some(s) case None => LastTaken(front, q)
  {
    assert (front + [t])[..|front|] == front;
    hide EndOf, Sampled;
  }

  lemma LogTurn(after: seq<Op>, before: seq<Op>, taken: Option<ProcessSample>, s: ProcessSample)
    requires LineAfterLoop(after, before, taken, KeyOf(s))
    requires if taken.Some? then taken.value == s else EndsIn(Log(before, KeyOf(s)), s)
    ensures EndsIn(Log(after, KeyOf(s)), s)
  {
    hide Log, LineOf, KeyOf;
  }

  /** The log of a PID's timeline ends in its last sample, and the last scrape pruned it. */
  ghost predicate LogKnown(series: seq<Tick>, q: int32) {
    LastTaken(series, q).Some? ==>
      var prev, ops := LastTaken(series, q).value, SeriesOps(series);
      EndsIn(Log(ops, KeyOf(prev)), prev) && LatestCutoff(ops, KeyOf(prev)) == LastMark(series) - RETENTION
  }

  lemma {:induction false} SeriesLogs(series: seq<Tick>, q: int32)
    requires DistinctListings(series)
    ensures LogKnown(series, q)
  {
    if series != [] {
      hide Log, LatestCutoff, SeriesOps, LastTaken, LastMark, DistinctListings, Distinct, TakenIn, KeyOf, EndsIn;
      hide LineAfterLoop, EndOf, HandlesOver, LoopOps, InOrder;
      var front, t := series[..|series| - 1], series[|series| - 1];
      SeriesFront(series);
      SeriesLogs(front, q);
      LastSnoc(front, t, q);
      LastTakenPid(series, q);
      match t.os.listing {
        case None => FailedTurn(front, t);
        case Some(pids) => LogKnownTurn(front, t, pids, q);
      }
    }
  }

  lemma LogKnownTurn(front: seq<Tick>, t: Tick, pids: seq<int32>, q: int32)
    requires LogKnown(front, q) && t.os.listing == Some(pids) && Distinct(pids)
    ensures LogKnown(front + [t], q)
  {
    hide Log, LatestCutoff, SeriesOps, LastTaken, LastMark, Distinct, TakenIn, KeyOf, EndsIn;
    hide LineAfterLoop, EndOf, HandlesOver, LoopOps;
    var handles, last := HandlesOver(front), LastTaken(front + [t], q);
    LastSnoc(front, t, q);
    LastTakenPid(front + [t], q);
    if last.Some? {
      var key, loop := KeyOf(last.value), SeriesOps(front) + LoopOps(t, handles, pids);
      LoopLines(SeriesOps(front), t, handles, pids, q, key);
      LogTurn(loop, SeriesOps(front), TakenIn(t, handles, pids, q), last.value);
      SeriesTurn(front, t);
      MarkTurn(loop, pids, EndOf(t), q, key);
    }
  }

  /** It is retained exactly when that sample was recent at the end of the last scrape. */
  lemma SeriesRetains(series: seq<Tick>, q: int32)
    requires InOrder(series) && DistinctListings(series) && LastTaken(series, q).Some?
    ensures var prev := LastTaken(series, q).value;
      LineOf(SeriesOps(series), KeyOf(prev)) != [] <==> prev.timestamp > LastMark(series) - RETENTION
  {
    var prev, ops := LastTaken(series, q).value, SeriesOps(series);
    var key := KeyOf(prev);
    SeriesLogs(series, q);
    ScraperRunsAreHonest(series);
    hide SeriesOps, LastTaken, LastMark, InOrder, DistinctListings, LatestCutoff, LineOf, Log, Recent, KeyOf;
    LineRefinesLog(ops, key);
    LogEndsRecent(Log(ops, key), LatestCutoff(ops, key));
  }

  lemma LogEndsRecent(log: seq<ProcessSample>, cutoff: int)
    requires log != [] && SortedLine(log)
    ensures Recent(log, cutoff) != [] <==> log[|log| - 1].timestamp > cutoff
  {
    if log[|log| - 1].timestamp > cutoff { RecentKeepsLast(log, cutoff); } else { AllOld(log, cutoff); }
  }

  lemma RebindsWhenReused(front: seq<Tick>, t: Tick, q: int32)
    requires InOrder(front) && DistinctListings(front) && Taken(front, t, q).Some?
    ensures LineRebinds(SeriesOps(front), Taken(front, t, q).value) <==> ReusesPid(front, t, q)
  {
    var s, prev := Taken(front, t, q).value, LastTaken(front, q);
    SampledOwnPid(t, HandlesOver(front), q);
    SeriesKeys(front, q);
    LastTakenPid(front, q);
    if prev.Some? {
      SeriesRetains(front, q);
      SameKey(prev.value, s);
    }
  }

  lemma SameKey(s: ProcessSample, t: ProcessSample)
    requires s.pid == t.pid
    ensures KeyOf(s) == KeyOf(t) <==> s.createTime == t.createTime
  {
    if KeyOf(s) == KeyOf(t) { KeyInjective(s.pid as int, s.createTime, t.pid as int, t.createTime); }
  }

  lemma {:induction false} RebindsIffReuses(series: seq<Tick>)
    requires InOrder(series) && DistinctListings(series)
    ensures NeverLineRebinds(SeriesOps(series)) <==> NeverReuses(series)
  {
    if series != [] {
      var front, t := series[..|series| - 1], series[|series| - 1];
      SeriesFront(series);
      RebindsIffReuses(front);
      hide InOrder, DistinctListings, Distinct, SeriesOps, NeverLineRebinds, LineRebinds, ReusesPid, Sampled;
      match t.os.listing {
        case None => FailedTurn(front, t);
        case Some(pids) =>
          var ops, handles := SeriesOps(front), HandlesOver(front);
          SeriesTurn(front, t);
          LoopRebinds(ops, t, handles, pids);
          RebindsSnoc(ops + LoopOps(t, handles, pids), Mark(Elements(pids), EndOf(t)));
          forall q | q in pids && Taken(front, t, q).Some?
            ensures LineRebinds(ops, Taken(front, t, q).value) <==> ReusesPid(front, t, q)
          {
            RebindsWhenReused(front, t, q);
          }
      }
    }
  }

  /** Over any series of scrapes with distinct listings and a clock that does not run back:
      every timeline that no PID points at has always been marked inactive exactly when no
      scrape read another create time under a PID whose last sample was still retained. */
  lemma {:induction false} SettledIffNeverReuses(series: seq<Tick>)
    requires InOrder(series) && DistinctListings(series)
    ensures AlwaysSettled(SeriesOps(series)) <==> NeverReuses(series)
  {
    ScraperRunsAreHonest(series);
    SettledIffNeverRebinds(SeriesOps(series));
    RunsProject(SeriesOps(series));
    RebindsIffReuses(series);
  }

  /** The scrape lists the PID, can open and read its process, and gets no create time. */
  predicate ReadsNoCreateTime(front: seq<Tick>, t: Tick, pid: int32) {
    && t.os.listing.Some? && pid in t.os.listing.value
    && var h := Live(t.os, HandlesOver(front), pid);
    && h.Some? && t.os.read(h.value).Some? && t.os.read(h.value).value.createTime.None?
  }

  /** The sample of such a scrape is dated by the scrape itself. */
  lemma FallbackSample(front: seq<Tick>, t: Tick, pid: int32)
    requires ReadsNoCreateTime(front, t, pid)
    ensures var s := Taken(front, t, pid);
      s.Some? && s.value.createTime == UnixMilli(t.now) && s.value.timestamp == t.now && pid in t.os.listing.value
    ensures LastTaken(front + [t], pid) == Taken(front, t, pid) && LastMark(front + [t]) == EndOf(t)
  {
    assert (front + [t])[..|front|] == front;
  }

  /** The fallback for an unreadable create time is the time of the scrape. So whenever two
      successive scrapes, in different milliseconds, read a process that keeps its create time to
      itself, the second takes it for another process, and the timeline of the first is left
      behind active. */
  lemma {:induction false} UnreadableCreateTimeReuses(front: seq<Tick>, t: Tick, u: Tick, pid: int32)
    requires ReadsNoCreateTime(front, t, pid) && ReadsNoCreateTime(front + [t], u, pid)
    requires EndOf(t) < t.now + RETENTION && UnixMilli(t.now) != UnixMilli(u.now)
    ensures var series := front + [t] + [u];
      && !NeverReuses(series)
      && (InOrder(series) && DistinctListings(series) ==> !AlwaysSettled(SeriesOps(series)))
  {
    var before, series := front + [t], front + [t] + [u];
    FallbackSample(front, t, pid);
    FallbackSample(before, u, pid);
    assert ReusesPid(before, u, pid);
    assert series[..|before|] == before && series[|before|] == u;
    hide ReusesPid, InOrder, DistinctListings, AlwaysSettled, SeriesOps, ReadsNoCreateTime;
    if InOrder(series) && DistinctListings(series) { SettledIffNeverReuses(series); }
  }
}

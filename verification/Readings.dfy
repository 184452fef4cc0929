/** main.go: what a scrape stores, told from what it read of each process. */
module Readings {
  import opened Wrappers
  import opened Utf8
  import opened Sequences
  import opened History
  import opened HistoryRuns
  import opened ActiveView
  import opened Scraper

  // ----- from the host to the handle ----------------------------------------------------------

  /** Whatever is cached, a process that runs and can be opened is met under its own handle, and
      where nothing runs there is none. */
  lemma {:induction false} RunningIsMet(os: Os, handles: map<int32, Handle>, pid: int32)
    requires OwnHandles(handles)
    ensures os.incarnation(pid).Some? && !os.openFails(pid) ==>
      Live(os, handles, pid) == Some(Handle(pid, os.incarnation(pid).value))
    ensures os.incarnation(pid).None? ==> Live(os, handles, pid).None?
  {
  }

  lemma {:induction false} HandlesStayOwn(os: Os, handles: map<int32, Handle>, pids: seq<int32>)
    requires OwnHandles(handles)
    ensures OwnHandles(HandlesAfter(os, handles, pids))
  {
    if pids != [] { HandlesStayOwn(os, handles, pids[..|pids| - 1]); }
  }

  /** The scrape lists the PID; its process runs, can be opened, and reads as r. */
  predicate Reads(t: Tick, i: nat, r: Reading) {
    && t.os.listing.Some? && i < |t.os.listing.value|
    && var pid := t.os.listing.value[i];
    && t.os.incarnation(pid).Some? && !t.os.openFails(pid)
    && t.os.read(Handle(pid, t.os.incarnation(pid).value)) == Some(r)
  }

  /** The create time of a process in milliseconds: as it was read, else that of the scrape. */
  predicate CreatedAt(r: Reading, now: int, createTime: int) {
    match r.createTime
    case Some(c) => createTime == c
    case None =>
      if now >= 0 then createTime * 1_000_000 <= now < (createTime + 1) * 1_000_000
      else (createTime - 1) * 1_000_000 < now <= createTime * 1_000_000
  }

  /** The sample of a reading, field by field. */
  predicate SampleShows(s: ProcessSample, pid: int32, now: int, r: Reading) {
    && s.timestamp == now && s.pid == pid && s.isActive
    && s.name == r.name && s.podUid == r.podUid && s.cmdLine == r.cmdLine
    && s.environ == r.environ && s.usage == r.usage
    && CreatedAt(r, now, s.createTime)
  }

  lemma TurnSample(t: Tick, handles: map<int32, Handle>, i: nat, r: Reading) returns (s: ProcessSample)
    requires OwnHandles(handles) && Reads(t, i, r)
    ensures var pids := t.os.listing.value;
      && Sampled(t, HandlesAfter(t.os, handles, pids[..i]), pids[i]) == Some(s)
      && SampleShows(s, pids[i], t.now, r)
  {
    var pids := t.os.listing.value;
    HandlesStayOwn(t.os, handles, pids[..i]);
    RunningIsMet(t.os, HandlesAfter(t.os, handles, pids[..i]), pids[i]);
    hide HandlesAfter, Live;
    s := SampleOf(t.now, pids[i], r);
  }

  /** The listing is distinct and the scrape done within ten minutes of `since`. */
  ghost predicate Timely(t: Tick, since: int) {
    && t.os.listing.Some? && Distinct(t.os.listing.value)
    && forall j: nat :: j <= |t.os.listing.value| ==> t.ticks(j) < since + RETENTION
  }

  /** After a scrape the active view holds, for every process it read, a sample of exactly what
      it read, bound under the PID and create time. */
  lemma {:induction false} ReadingIsReported(ix: Index, t: Tick, handles: map<int32, Handle>, i: nat, r: Reading)
    returns (s: ProcessSample)
    requires ActiveNamed(ix.activeKeys) && OwnHandles(handles) && Timely(t, t.now) && Reads(t, i, r)
    ensures var pid, after := t.os.listing.value[i], After(ix, ScrapeOps(t, handles));
      && pid in ActivePids(after) && Latest(after, pid) == s && after.activeKeys[pid] == Key(pid as int, s.createTime)
      && SampleShows(s, pid, t.now, r)
  {
    s := TurnSample(t, handles, i, r);
    hide Sampled, HandlesAfter, ScrapeOps, SampleShows, ActivePids, Latest, Reads;
    ScrapeReports(ix, t, handles, i);
  }

  // ----- two scrapes, one timeline --------------------------------------------------------------

  predicate Ends(line: seq<ProcessSample>, tail: seq<ProcessSample>) {
    |tail| <= |line| && line[|line| - |tail|..] == tail
  }

  lemma EndsOf(head: seq<ProcessSample>, tail: seq<ProcessSample>)
    ensures Ends(head + tail, tail)
  {
  }

  lemma HeadOf(line: seq<ProcessSample>, tail: seq<ProcessSample>) returns (head: seq<ProcessSample>)
    requires Ends(line, tail)
    ensures line == head + tail
  {
    head := line[..|line| - |tail|];
  }

  predicate Newer(tail: seq<ProcessSample>, cutoff: int) {
    forall i :: 0 <= i < |tail| ==> tail[i].timestamp > cutoff
  }

  lemma {:induction false} RecentConcat(a: seq<ProcessSample>, b: seq<ProcessSample>, cutoff: int)
    ensures Recent(a + b, cutoff) == Recent(a, cutoff) + Recent(b, cutoff)
  {
    if b == [] {
      NothingRecent(cutoff);
      hide Recent;
      assert a + b == a && Recent(a, cutoff) + [] == Recent(a, cutoff);
    } else {
      hide *;
      var front, last := b[..|b| - 1], b[|b| - 1];
      var kept := if last.timestamp > cutoff then [last] else [];
      assert b == front + [last];
      Regroup(a, front, [], [last]);
      RecentConcat(a, front, cutoff);
      RecentAppend(a + front, last, cutoff);
      RecentAppend(front, last, cutoff);
      Regroup(Recent(a, cutoff), Recent(front, cutoff), [], kept);
    }
  }

  lemma NothingRecent(cutoff: int)
    ensures Recent([], cutoff) == []
  {
  }

  lemma NewerSnoc(tail: seq<ProcessSample>, cutoff: int)
    requires Newer(tail, cutoff) && tail != []
    ensures Newer(tail[..|tail| - 1], cutoff) && tail[|tail| - 1].timestamp > cutoff
  {
  }

  lemma KeepLast(front: seq<ProcessSample>, last: ProcessSample, cutoff: int)
    requires last.timestamp > cutoff && Recent(front, cutoff) == front
    ensures Recent(front + [last], cutoff) == front + [last]
  {
    hide Recent;
    RecentAppend(front, last, cutoff);
  }

  lemma {:induction false} RecentAll(tail: seq<ProcessSample>, cutoff: int)
    requires Newer(tail, cutoff)
    ensures Recent(tail, cutoff) == tail
  {
    hide Recent;
    if tail == [] {
      NothingRecent(cutoff);
    } else {
      NewerSnoc(tail, cutoff);
      hide Newer;
      SplitLast(tail);
      RecentAll(tail[..|tail| - 1], cutoff);
      KeepLast(tail[..|tail| - 1], tail[|tail| - 1], cutoff);
    }
  }

  /** Pruning keeps an end that is recent. */
  lemma RecentKeepsEnd(line: seq<ProcessSample>, tail: seq<ProcessSample>, cutoff: int)
    requires Ends(line, tail) && Newer(tail, cutoff)
    ensures Ends(Recent(line, cutoff), tail)
  {
    hide *;
    var head := HeadOf(line, tail);
    RecentConcat(head, tail, cutoff);
    RecentAll(tail, cutoff);
    EndsOf(Recent(head, cutoff), tail);
  }

  lemma EndsAppend(line: seq<ProcessSample>, tail: seq<ProcessSample>, s: ProcessSample)
    requires Ends(line, tail)
    ensures Ends(line + [s], tail + [s])
  {
    hide *;
    var head := HeadOf(line, tail);
    assert line + [s] == head + (tail + [s]);
    EndsOf(head, tail + [s]);
  }

  lemma AddKeepsEnd(ix: Index, s: ProcessSample, clock: int, key: Bytes, tail: seq<ProcessSample>)
    requires Ends(Timeline(ix, key), tail) && Newer(tail, clock - RETENTION)
    ensures KeyOf(s) != key ==> Ends(Timeline(Added(ix, s, clock), key), tail)
    ensures KeyOf(s) == key && s.timestamp > clock - RETENTION ==>
      Ends(Timeline(Added(ix, s, clock), key), tail + [s])
  {
    TimelineAdded(ix, s, clock, key);
    hide Added, Timeline, Recent, KeyOf, Ends;
    if KeyOf(s) == key && s.timestamp > clock - RETENTION {
      EndsAppend(Timeline(ix, key), tail, s);
      RecentKeepsEnd(Timeline(ix, key) + [s], tail + [s], clock - RETENTION);
    }
  }

  lemma ListedKeyStays(keys: map<int32, Bytes>, listed: set<int32>, key: Bytes, pid: int32)
    requires ActiveNamed(keys) && NamesPid(key, pid) && pid in listed
    ensures key !in Exited(keys, listed)
  {
    forall q | q in keys && q !in listed ensures keys[q] != key {
      if keys[q] == key { NamesOnePid(key, q, pid); }
    }
  }

  lemma MarkKeepsEnd(ix: Index, listed: set<int32>, clock: int, key: Bytes, pid: int32, tail: seq<ProcessSample>)
    requires Ends(Timeline(ix, key), tail) && Newer(tail, clock - RETENTION)
    requires ActiveNamed(ix.activeKeys) && NamesPid(key, pid) && pid in listed
    ensures Ends(Timeline(Marked(ix, listed, clock), key), tail)
  {
    hide *;
    ListedKeyStays(ix.activeKeys, listed, key, pid);
    TimelineMarked(ix, listed, clock, key);
    RecentKeepsEnd(Timeline(ix, key), tail, clock - RETENTION);
  }

  /** One turn of the loop, for another PID or for this one. */
  lemma TurnKeepsEnd(
    ix: Index, t: Tick, handles: map<int32, Handle>, q: int32, clock: int, key: Bytes, pid: int32,
    tail: seq<ProcessSample>)
    requires Ends(Timeline(ix, key), tail) && Newer(tail, clock - RETENTION) && NamesPid(key, pid)
    ensures q != pid ==> Ends(Timeline(After(ix, AddOps(t, handles, q, clock)), key), tail)
    ensures var s := Sampled(t, handles, q);
      s.Some? && KeyOf(s.value) == key && t.now > clock - RETENTION ==>
        Ends(Timeline(After(ix, AddOps(t, handles, q, clock)), key), tail + [s.value])
  {
    var s := Sampled(t, handles, q);
    if s.Some? {
      AfterOne(ix, Add(s.value, clock));
      assert s.value.pid == q && s.value.timestamp == t.now;
      assert IsKey(KeyOf(s.value), q, s.value.createTime);
      hide Sampled, Added, Ends, KeyOf, Newer, Timeline;
      if KeyOf(s.value) == key && q != pid { NamesOnePid(key, q, pid); }
      AddKeepsEnd(ix, s.value, clock, key, tail);
    } else {
      hide Ends, Timeline;
    }
  }

  predicate Since(tail: seq<ProcessSample>, since: int) {
    forall k :: 0 <= k < |tail| ==> tail[k].timestamp >= since
  }

  /** What the n-th turn finds: the end so far is recent, and it is another PID's unless n is i. */
  ghost predicate TurnReady(t: Tick, pids: seq<int32>, i: nat, n: nat, end: seq<ProcessSample>)
    requires i < |pids| && n < |pids|
  {
    && Newer(end, t.ticks(n) - RETENTION) && t.now > t.ticks(n) - RETENTION
    && (i != n ==> pids[n] != pids[i])
  }

  function EndAfter(tail: seq<ProcessSample>, s: ProcessSample, i: nat, n: nat): seq<ProcessSample> {
    if n <= i then tail else tail + [s]
  }

  lemma TurnIsReady(
    t: Tick, pids: seq<int32>, since: int, tail: seq<ProcessSample>, s: ProcessSample, i: nat, n: nat)
    requires Timely(t, since) && Timely(t, t.now) && t.os.listing == Some(pids) && i < |pids| && n < |pids|
    requires Since(tail, since) && s.timestamp == t.now
    ensures TurnReady(t, pids, i, n, EndAfter(tail, s, i, n))
  {
  }

  /** The loop leaves the end as it is until the turn of the PID, whose sample it then adds. */
  lemma {:induction false} LoopKeepsEnd(
    ix: Index, t: Tick, handles: map<int32, Handle>, pids: seq<int32>, i: nat, n: nat, key: Bytes,
    tail: seq<ProcessSample>, s: ProcessSample, since: int)
    requires Timely(t, since) && Timely(t, t.now) && t.os.listing == Some(pids) && i < |pids| && n <= |pids|
    requires Ends(Timeline(ix, key), tail) && Since(tail, since)
    requires NamesPid(key, pids[i]) && KeyOf(s) == key && s.timestamp == t.now
    requires Sampled(t, HandlesAfter(t.os, handles, pids[..i]), pids[i]) == Some(s)
    ensures Ends(Timeline(After(ix, LoopOps(t, handles, pids[..n])), key), EndAfter(tail, s, i, n))
    decreases n
  {
    hide *;
    if n == 0 {
      NoTurns(ix, t, handles, pids);
      EndAtFirst(tail, s, i);
    } else {
      var before := After(ix, LoopOps(t, handles, pids[..n - 1]));
      var end := EndAfter(tail, s, i, n - 1);
      TurnIsReady(t, pids, since, tail, s, i, n - 1);
      LoopKeepsEnd(ix, t, handles, pids, i, n - 1, key, tail, s, since);
      LoopPrefix(ix, t, handles, pids, n);
      TurnGives(before, t, handles, pids, i, n - 1, key, end, s);
      EndTurns(tail, s, i, n - 1);
    }
  }

  lemma EndAtFirst(tail: seq<ProcessSample>, s: ProcessSample, i: nat)
    ensures EndAfter(tail, s, i, 0) == tail
  {
  }

  lemma EndTurns(tail: seq<ProcessSample>, s: ProcessSample, i: nat, n: nat)
    ensures EndAfter(tail, s, i, n + 1) == if i == n then EndAfter(tail, s, i, n) + [s] else EndAfter(tail, s, i, n)
  {
  }

  lemma TurnGives(
    ix: Index, t: Tick, handles: map<int32, Handle>, pids: seq<int32>, i: nat, n: nat, key: Bytes,
    end: seq<ProcessSample>, s: ProcessSample)
    requires i < |pids| && n < |pids| && TurnReady(t, pids, i, n, end)
    requires Ends(Timeline(ix, key), end) && NamesPid(key, pids[i]) && KeyOf(s) == key
    requires Sampled(t, HandlesAfter(t.os, handles, pids[..i]), pids[i]) == Some(s)
    ensures var turn := AddOps(t, HandlesAfter(t.os, handles, pids[..n]), pids[n], t.ticks(n));
      Ends(Timeline(After(ix, turn), key), if i == n then end + [s] else end)
  {
    hide Ends, Timeline, Sampled, HandlesAfter, AddOps, After, NamesPid, KeyOf, Newer;
    TurnKeepsEnd(ix, t, HandlesAfter(t.os, handles, pids[..n]), pids[n], t.ticks(n), key, pids[i], end);
  }

  lemma NoTurns(ix: Index, t: Tick, handles: map<int32, Handle>, pids: seq<int32>)
    ensures After(ix, LoopOps(t, handles, pids[..0])) == ix
  {
  }

  lemma ScrapeSplits(ix: Index, t: Tick, handles: map<int32, Handle>, pids: seq<int32>)
    requires t.os.listing == Some(pids)
    ensures After(ix, ScrapeOps(t, handles)) ==
      Marked(After(ix, LoopOps(t, handles, pids[..|pids|])), Elements(pids), t.ticks(|pids|))
  {
    assert pids[..|pids|] == pids;
    hide LoopOps, Marked, After;
    MarkEndsScrape(ix, LoopOps(t, handles, pids), Elements(pids), t.ticks(|pids|));
  }

  lemma EndIsNewer(t: Tick, pids: seq<int32>, since: int, end: seq<ProcessSample>)
    requires Timely(t, since) && t.os.listing == Some(pids) && Since(end, since)
    ensures Newer(end, t.ticks(|pids|) - RETENTION)
  {
  }

  lemma PidIsListed(pids: seq<int32>, i: nat)
    requires i < |pids|
    ensures pids[i] in Elements(pids)
  {
  }

  lemma SinceEnd(tail: seq<ProcessSample>, s: ProcessSample, since: int)
    requires Since(tail, since) && s.timestamp >= since
    ensures Since(tail + [s], since) && Since([s], s.timestamp)
  {
  }

  /** A scrape adds its sample at the end of the timeline, if the end so far is recent. */
  lemma ScrapeKeepsEnd(
    ix: Index, t: Tick, handles: map<int32, Handle>, pids: seq<int32>, i: nat, key: Bytes,
    tail: seq<ProcessSample>, s: ProcessSample, since: int)
    requires Timely(t, since) && Timely(t, t.now) && t.os.listing == Some(pids) && i < |pids|
    requires Ends(Timeline(ix, key), tail) && Since(tail, since) && since <= t.now
    requires ActiveNamed(ix.activeKeys) && NamesPid(key, pids[i]) && KeyOf(s) == key && s.timestamp == t.now
    requires Sampled(t, HandlesAfter(t.os, handles, pids[..i]), pids[i]) == Some(s)
    ensures Ends(Timeline(After(ix, ScrapeOps(t, handles)), key), tail + [s])
  {
    hide *;
    LoopKeepsEnd(ix, t, handles, pids, i, |pids|, key, tail, s, since);
    EndAtLast(tail, s, i, |pids|);
    SinceEnd(tail, s, since);
    EndIsNewer(t, pids, since, tail + [s]);
    NamesStay(ix, LoopOps(t, handles, pids[..|pids|]));
    PidIsListed(pids, i);
    ScrapeSplits(ix, t, handles, pids);
    MarkKeepsEnd(After(ix, LoopOps(t, handles, pids[..|pids|])), Elements(pids), t.ticks(|pids|), key, pids[i],
      tail + [s]);
  }

  lemma EndAtLast(tail: seq<ProcessSample>, s: ProcessSample, i: nat, n: nat)
    requires i < n
    ensures EndAfter(tail, s, i, n) == tail + [s]
  {
  }

  /** The PID reads as r at place i of the listing, and r has this create time. */
  predicate ReadsCreated(t: Tick, i: nat, pid: int32, r: Reading, createTime: int) {
    Reads(t, i, r) && t.os.listing.value[i] == pid && r.createTime == Some(createTime)
  }

  lemma CreatedSample(t: Tick, handles: map<int32, Handle>, i: nat, pid: int32, r: Reading, createTime: int)
    returns (pids: seq<int32>, s: ProcessSample)
    requires OwnHandles(handles) && ReadsCreated(t, i, pid, r, createTime)
    ensures t.os.listing == Some(pids) && i < |pids| && pids[i] == pid
    ensures Sampled(t, HandlesAfter(t.os, handles, pids[..i]), pids[i]) == Some(s)
    ensures SampleShows(s, pid, t.now, r) && s.timestamp == t.now && KeyOf(s) == Key(pid as int, createTime)
    ensures NamesPid(Key(pid as int, createTime), pid)
  {
    pids := t.os.listing.value;
    s := TurnSample(t, handles, i, r);
    hide Sampled, HandlesAfter;
    assert IsKey(Key(pid as int, createTime), pid, createTime);
  }

  lemma PurgedStayOwn(os: Os, handles: map<int32, Handle>)
    requires OwnHandles(handles)
    ensures OwnHandles(PurgedHandles(os, handles))
  {
    if os.listing.Some? { HandlesStayOwn(os, handles, os.listing.value); }
  }

  /** Two scrapes within ten minutes that read the same create time under a PID put their samples,
      one after the other, at the end of one timeline: that of the PID and create time. */
  lemma {:induction false} TwoScrapesOneTimeline(
    ix: Index, t: Tick, u: Tick, handles: map<int32, Handle>, i: nat, j: nat, pid: int32, r: Reading, q: Reading,
    createTime: int)
    returns (s1: ProcessSample, s2: ProcessSample)
    requires ActiveNamed(ix.activeKeys) && OwnHandles(handles) && t.now <= u.now
    requires Timely(t, t.now) && Timely(u, t.now) && Timely(u, u.now)
    requires ReadsCreated(t, i, pid, r, createTime) && ReadsCreated(u, j, pid, q, createTime)
    ensures var both := After(After(ix, ScrapeOps(t, handles)), ScrapeOps(u, PurgedHandles(t.os, handles)));
      Ends(Timeline(both, Key(pid as int, createTime)), [s1, s2])
    ensures SampleShows(s1, pid, t.now, r) && SampleShows(s2, pid, u.now, q)
  {
    hide *;
    var key := Key(pid as int, createTime);
    var first, next := After(ix, ScrapeOps(t, handles)), PurgedHandles(t.os, handles);
    var ps, qs;
    PurgedStayOwn(t.os, handles);
    ps, s1 := CreatedSample(t, handles, i, pid, r, createTime);
    qs, s2 := CreatedSample(u, next, j, pid, q, createTime);
    NoEnd(ix, key, t.now);
    ScrapeKeepsEnd(ix, t, handles, ps, i, key, [], s1, t.now);
    NamesStay(ix, ScrapeOps(t, handles));
    NothingBefore(s1, s2);
    SinceEnd([], s1, t.now);
    ScrapeKeepsEnd(first, u, next, qs, j, key, [s1], s2, t.now);
  }

  lemma NoEnd(ix: Index, key: Bytes, since: int)
    ensures Ends(Timeline(ix, key), []) && Since([], since)
  {
  }

  lemma NothingBefore(s1: ProcessSample, s2: ProcessSample)
    ensures [] + [s1] == [s1] && [s1] + [s2] == [s1, s2]
  {
  }
}

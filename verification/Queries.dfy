/** exporter/history.go: which timelines a history query returns, how long a sample is kept, told from the samples. */
module Queries {
  import opened Utf8
  import opened Substrings
  import opened Decimal
  import opened History
  import opened HistoryRuns
  import opened ActiveView
  import Config

  function LastOf(line: seq<ProcessSample>): ProcessSample
    requires line != []
  {
    line[|line| - 1]
  }

  /** The folded name of the timeline's latest sample has the folded text in it. */
  ghost predicate NamedLike(line: seq<ProcessSample>, lower: Bytes -> Bytes, value: Bytes) {
    line != [] && Around(lower(LastOf(line).name), lower(value))
  }

  /** A name query returns, whole, exactly the timelines whose folded latest name is
      x + folded text + y for some x and y. */
  lemma NameQueryFinds(timelines: map<Bytes, seq<ProcessSample>>, value: Bytes, lower: Bytes -> Bytes)
    ensures var found := Matching(timelines, ByName(value, lower));
      && (forall key :: key in found <==> key in timelines && NamedLike(timelines[key], lower, value))
      && (forall key :: key in found ==> found[key] == timelines[key])
  {
    var found := Matching(timelines, ByName(value, lower));
    forall key ensures key in found <==> key in timelines && NamedLike(timelines[key], lower, value) {
      if key in timelines && timelines[key] != [] {
        ContainsIffAround(lower(LastOf(timelines[key]).name), lower(value));
      }
      hide Contains, Around;
    }
  }

  lemma AroundFits(s: Bytes, p: Bytes)
    requires Around(s, p)
    ensures |p| <= |s|
  {
  }

  lemma AroundTrans(s: Bytes, p: Bytes, q: Bytes)
    requires Around(s, p) && Around(p, q)
    ensures Around(s, q)
  {
    var x: Bytes, y: Bytes :| s == x + p + y;
    var u: Bytes, v: Bytes :| p == u + q + v;
    assert s == (x + u) + q + (v + y);
  }

  /** A text longer, once folded, than every folded latest name finds nothing. */
  lemma LongQueryFindsNothing(timelines: map<Bytes, seq<ProcessSample>>, value: Bytes, lower: Bytes -> Bytes)
    requires forall key :: key in timelines && timelines[key] != [] ==>
      |lower(LastOf(timelines[key]).name)| < |lower(value)|
    ensures Matching(timelines, ByName(value, lower)) == map[]
  {
    var found := Matching(timelines, ByName(value, lower));
    NameQueryFinds(timelines, value, lower);
    hide Matching, Around;
    forall key ensures key !in found {
      if key in timelines && NamedLike(timelines[key], lower, value) {
        AroundFits(lower(LastOf(timelines[key]).name), lower(value));
      }
    }
  }

  /** What a text finds, every text that folds to a part of it finds too. */
  lemma ShorterFindsMore(
    timelines: map<Bytes, seq<ProcessSample>>, value: Bytes, part: Bytes, lower: Bytes -> Bytes, key: Bytes)
    requires Around(lower(value), lower(part))
    requires key in Matching(timelines, ByName(value, lower))
    ensures key in Matching(timelines, ByName(part, lower))
    ensures Matching(timelines, ByName(part, lower))[key] == timelines[key]
  {
    NameQueryFinds(timelines, value, lower);
    NameQueryFinds(timelines, part, lower);
    hide Matching, Around;
    AroundTrans(lower(LastOf(timelines[key]).name), lower(value), lower(part));
  }

  /** A PID query returns, whole, exactly the timelines whose latest PID prints as the text. */
  lemma PidQueryFinds(timelines: map<Bytes, seq<ProcessSample>>, value: Bytes)
    ensures var found := Matching(timelines, ByPid(value));
      && (forall key :: key in found <==>
            key in timelines && timelines[key] != [] && Itoa(LastOf(timelines[key]).pid as int) == value)
      && (forall key :: key in found ==> found[key] == timelines[key])
  {
    hide Itoa;
  }

  lemma RetainedIsOwn(ops: seq<Op>, key: Bytes)
    ensures key in After(EMPTY, ops).processes ==>
      var line := After(EMPTY, ops).processes[key];
      line != [] && IsKey(key, LastOf(line).pid, LastOf(line).createTime)
  {
    KeysAreTruthful(ops);
    NoEmptyTimeline(ops);
    hide After;
    assert KeyedLine(key, Timeline(After(EMPTY, ops), key));
  }

  /** Whatever the store went through, the PID in decimal returns exactly the retained timelines
      of that PID's incarnations. */
  lemma {:induction false} PidQueryFindsIncarnations(ops: seq<Op>, pid: int32)
    ensures var timelines := After(EMPTY, ops).processes;
      var found := Matching(timelines, ByPid(Itoa(pid as int)));
      && (forall key :: key in found <==> key in timelines && NamesPid(key, pid))
      && (forall key :: key in found ==> found[key] == timelines[key])
  {
    var timelines, value := After(EMPTY, ops).processes, Itoa(pid as int);
    PidQueryFinds(timelines, value);
    NoEmptyTimeline(ops);
    hide After, Matching, NamesPid, Itoa;
    forall key | key in timelines
      ensures Itoa(LastOf(timelines[key]).pid as int) == value <==> NamesPid(key, pid)
    {
      RetainedIsOwn(ops, key);
      PrintsAs(key, LastOf(timelines[key]), pid);
    }
  }

  lemma PrintsAs(key: Bytes, last: ProcessSample, pid: int32)
    requires IsKey(key, last.pid, last.createTime)
    ensures Itoa(last.pid as int) == Itoa(pid as int) <==> NamesPid(key, pid)
  {
    hide Itoa, IsKey;
    if Itoa(last.pid as int) == Itoa(pid as int) { ItoaInjective(last.pid as int, pid as int); }
    assert NamesPid(key, last.pid);
    if NamesPid(key, pid) { NamesOnePid(key, last.pid, pid); }
  }

  /** A retained process named "Ruby" is found by "rub", and "rub" is not found by "ruby". */
  lemma {:induction false} RubyByRub(key: Bytes, s: ProcessSample, t: ProcessSample)
    requires s.name == Lit("Ruby") && t.name == Lit("rub")
    ensures Matching(map[key := [s]], ByName(Lit("rub"), Config.AsciiLower)) == map[key := [s]]
    ensures Matching(map[key := [t]], ByName(Lit("Ruby"), Config.AsciiLower)) == map[]
  {
    var name := Config.AsciiLower(Lit("Ruby"));
    assert name == Lit("ruby") && Config.AsciiLower(Lit("rub")) == Lit("rub");
    assert name == [] + Lit("rub") + Lit("y");
    NameQueryFinds(map[key := [s]], Lit("rub"), Config.AsciiLower);
    LongQueryFindsNothing(map[key := [t]], Lit("Ruby"), Config.AsciiLower);
  }

  // ----- ten minutes ----------------------------------------------------------------

  /** The sample stands in the timeline, whatever its flag says now. */
  ghost predicate Holds(line: seq<ProcessSample>, s: ProcessSample) {
    exists i :: 0 <= i < |line| && line[i].(isActive := s.isActive) == s
  }

  lemma HoldsSame(a: seq<ProcessSample>, b: seq<ProcessSample>, s: ProcessSample)
    requires Same(a, b)
    ensures Holds(a, s) <==> Holds(b, s)
  {
    assert forall i :: 0 <= i < |a| ==> a[i].(isActive := s.isActive) == b[i].(isActive := s.isActive);
  }

  lemma {:induction false} HoldsRecent(line: seq<ProcessSample>, cutoff: int, s: ProcessSample)
    ensures Holds(Recent(line, cutoff), s) <==> Holds(line, s) && s.timestamp > cutoff
  {
    if line != [] {
      var front, last := line[..|line| - 1], line[|line| - 1];
      HoldsRecent(front, cutoff, s);
      HoldsSnoc(front, last, s);
      HoldsSnoc(Recent(front, cutoff), last, s);
      assert line == front + [last];
      assert Recent(front, cutoff) + [] == Recent(front, cutoff);
    }
  }

  lemma HoldsSnoc(front: seq<ProcessSample>, last: ProcessSample, s: ProcessSample)
    ensures Holds(front + [last], s) <==> Holds(front, s) || last.(isActive := s.isActive) == s
  {
    assert forall i :: 0 <= i < |front| ==> (front + [last])[i] == front[i];
    assert (front + [last])[|front|] == last;
  }

  /** Right after a scrape, or after a sample was added under its key, a sample ever added is
      retained exactly when it is less than ten minutes old, in nanoseconds. */
  lemma {:induction false} KeptTenMinutes(ops: seq<Op>, op: Op, key: Bytes, s: ProcessSample)
    requires ClockMonotone(ops + [op]) && (op.Mark? || KeyOf(op.sample) == key)
    ensures Holds(Timeline(After(EMPTY, ops + [op]), key), s) <==>
      Holds(Log(ops + [op], key), s) && op.now - s.timestamp < 600_000_000_000
  {
    hide After, Timeline, Same, Holds, Log;
    RefinesLog(ops + [op], key);
    LogSnoc(ops, op, key);
    HoldsSame(Timeline(After(EMPTY, ops + [op]), key), Recent(Log(ops + [op], key), op.now - RETENTION), s);
    HoldsRecent(Log(ops + [op], key), op.now - RETENTION, s);
  }

  /** The key under which PID 7 with create time 1000 is kept. */
  lemma {:induction false} KeySpelledOut()
    ensures Key(7, 1000) == Lit("7-1000") && Key(7, -5) == Lit("7--5")
  {
    assert Digits(10) == Lit("10") && Digits(100) == Lit("100") && Digits(1000) == Lit("1000");
    assert Lit("7-1000") == [0x37, 0x2D, 0x31, 0x30, 0x30, 0x30] && Lit("7--5") == [0x37, 0x2D, 0x2D, 0x35];
  }
}

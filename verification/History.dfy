/** exporter/history.go: the two-map index of process samples, as a value with its
    operations and as the class that holds it in mutable slices. */
module History {
  import opened Utf8
  import opened Decimal
  import opened Environ

  /** Ten minutes, in nanoseconds. */
  const RETENTION := 600_000_000_000

  newtype int32 = n: int | -0x8000_0000 <= n < 0x8000_0000

  datatype Usage = Usage(
    cpuUsage: real, cpuSeconds: real, memoryRss: nat, memoryVms: nat,
    ioRead: nat, ioWrite: nat, ioReadSyscalls: nat, ioWriteSyscalls: nat,
    ioReadSelf: nat, ioWriteSelf: nat, ioReadSyscallsSelf: nat, ioWriteSyscallsSelf: nat)

  datatype ProcessSample = ProcessSample(
    timestamp: int, pid: int32, name: Bytes, podUid: Bytes, cmdLine: Bytes, environ: EnvironMap,
    usage: Usage, createTime: int, isActive: bool)

  /** fmt.Sprintf("%d-%d", pid, createTime). */
  function Key(pid: int, createTime: int): Bytes {
    Itoa(pid) + [HYPHEN] + Itoa(createTime)
  }

  function KeyOf(s: ProcessSample): Bytes { Key(s.pid as int, s.createTime) }

  /** A key is an optional sign, then digits, '-' and the create time. */
  lemma KeyForm(pid: int, createTime: int) returns (n: nat, rest: Bytes)
    ensures n == if pid < 0 then -pid else pid
    ensures rest == Digits(n) + [HYPHEN] + Itoa(createTime) && rest[0] != HYPHEN
    ensures Key(pid, createTime) == if pid < 0 then [HYPHEN] + rest else rest
  {
    n := if pid < 0 then -pid else pid;
    rest := Digits(n) + [HYPHEN] + Itoa(createTime);
    assert Digit(Digits(n)[0]) && rest[0] == Digits(n)[0];
    hide Digits;
    assert pid < 0 ==> Key(pid, createTime) == [HYPHEN] + rest;
  }

  lemma DigitsSplit(m: nat, n: nat, x: Bytes, y: Bytes)
    requires Digits(m) + [HYPHEN] + x == Digits(n) + [HYPHEN] + y
    ensures m == n && x == y
  {
    SplitAtFirst(Digits(m), Digits(n), HYPHEN, x, y);
    DigitsRoundTrip(m);
    DigitsRoundTrip(n);
  }

  /** One key names one (pid, create time), negative numbers included. */
  lemma {:induction false} KeyInjective(p: int, c: int, q: int, d: int)
    requires Key(p, c) == Key(q, d)
    ensures p == q && c == d
  {
    var m, x := KeyForm(p, c);
    var n, y := KeyForm(q, d);
    assert p < 0 <==> Key(p, c)[0] == HYPHEN;
    assert q < 0 <==> Key(q, d)[0] == HYPHEN;
    assert p < 0 ==> Key(p, c)[1..] == x && Key(q, d)[1..] == y;
    DigitsSplit(m, n, Itoa(c), Itoa(d));
    ItoaInjective(c, d);
  }

  // ----- the index as a value ---------------------------------------------------------

  datatype Index = Index(processes: map<Bytes, seq<ProcessSample>>, activeKeys: map<int32, Bytes>)

  const EMPTY := Index(map[], map[])

  /** The samples newer than the cutoff, in order. */
  function Recent(samples: seq<ProcessSample>, cutoff: int): (r: seq<ProcessSample>)
    ensures |r| <= |samples|
    ensures forall s :: s in r ==> s in samples && s.timestamp > cutoff
  {
    if samples == [] then []
    else
      var last := samples[|samples| - 1];
      Recent(samples[..|samples| - 1], cutoff) + if last.timestamp > cutoff then [last] else []
  }

  function Timeline(ix: Index, key: Bytes): seq<ProcessSample> {
    if key in ix.processes then ix.processes[key] else []
  }

  function PrunedKey(
    processes: map<Bytes, seq<ProcessSample>>, key: Bytes, cutoff: int): map<Bytes, seq<ProcessSample>>
  {
    var valid := Recent(if key in processes then processes[key] else [], cutoff);
    if valid == [] then processes - {key} else processes[key := valid]
  }

  function PrunedAll(processes: map<Bytes, seq<ProcessSample>>, cutoff: int): map<Bytes, seq<ProcessSample>> {
    map key | key in processes && Recent(processes[key], cutoff) != [] :: Recent(processes[key], cutoff)
  }

  function Added(ix: Index, s: ProcessSample, now: int): Index {
    var key := KeyOf(s);
    Index(PrunedKey(ix.processes[key := Timeline(ix, key) + [s]], key, now - RETENTION),
          ix.activeKeys[s.pid := key])
  }

  function LastFlipped(samples: seq<ProcessSample>): seq<ProcessSample> {
    if samples == [] then samples
    else samples[|samples| - 1 := samples[|samples| - 1].(isActive := false)]
  }

  /** Global pruning, with the keys in `rest` still to be visited. */
  function PrunedExcept(
    processes: map<Bytes, seq<ProcessSample>>, cutoff: int, rest: set<Bytes>): map<Bytes, seq<ProcessSample>>
  {
    map key | key in processes && (key in rest || Recent(processes[key], cutoff) != []) ::
      if key in rest then processes[key] else Recent(processes[key], cutoff)
  }

  lemma PrunedEnds(processes: map<Bytes, seq<ProcessSample>>, cutoff: int)
    ensures PrunedExcept(processes, cutoff, processes.Keys) == processes
    ensures PrunedExcept(processes, cutoff, {}) == PrunedAll(processes, cutoff)
  {
  }

  lemma PrunedStep(processes: map<Bytes, seq<ProcessSample>>, cutoff: int, rest: set<Bytes>, key: Bytes)
    requires key in rest && rest <= processes.Keys
    ensures PrunedKey(PrunedExcept(processes, cutoff, rest), key, cutoff) ==
      PrunedExcept(processes, cutoff, rest - {key})
  {
  }

  /** The timelines whose PID is active but missing from the scrape. */
  function Exited(activeKeys: map<int32, Bytes>, listed: set<int32>): set<Bytes> {
    set pid | pid in activeKeys && pid !in listed :: activeKeys[pid]
  }

  function Flipped(processes: map<Bytes, seq<ProcessSample>>, exited: set<Bytes>): map<Bytes, seq<ProcessSample>> {
    map key | key in processes :: if key in exited then LastFlipped(processes[key]) else processes[key]
  }

  lemma FlippedNone(processes: map<Bytes, seq<ProcessSample>>)
    ensures Flipped(processes, {}) == processes
  {
  }

  lemma FlippedStep(processes: map<Bytes, seq<ProcessSample>>, done: set<Bytes>, key: Bytes)
    ensures Flipped(Flipped(processes, done), {key}) == Flipped(processes, done + {key})
  {
    assert forall k :: k in processes ==> LastFlipped(LastFlipped(processes[k])) == LastFlipped(processes[k]);
  }

  function Marked(ix: Index, listed: set<int32>, now: int): Index {
    Index(PrunedAll(Flipped(ix.processes, Exited(ix.activeKeys, listed)), now - RETENTION),
          map pid | pid in ix.activeKeys && pid in listed :: ix.activeKeys[pid])
  }

  /** The same, with the PIDs in `rest` still to be visited: what is left, what has gone. */
  function KeysLeft(keys: map<int32, Bytes>, listed: set<int32>, rest: set<int32>): map<int32, Bytes> {
    map pid | pid in keys && (pid in listed || pid in rest) :: keys[pid]
  }

  function KeysGone(keys: map<int32, Bytes>, listed: set<int32>, rest: set<int32>): set<Bytes> {
    set pid | pid in keys && pid !in listed && pid !in rest :: keys[pid]
  }

  lemma KeysTurn(keys: map<int32, Bytes>, listed: set<int32>, rest: set<int32>, pid: int32)
    requires pid in rest && rest <= keys.Keys
    ensures pid in KeysLeft(keys, listed, rest) && KeysLeft(keys, listed, rest)[pid] == keys[pid]
    ensures KeysLeft(keys, listed, rest - {pid}) ==
      if pid in listed then KeysLeft(keys, listed, rest) else KeysLeft(keys, listed, rest) - {pid}
    ensures KeysGone(keys, listed, rest - {pid}) ==
      if pid in listed then KeysGone(keys, listed, rest) else KeysGone(keys, listed, rest) + {keys[pid]}
  {
    var before, after := KeysGone(keys, listed, rest), KeysGone(keys, listed, rest - {pid});
    forall key | key in after ensures key in before || (pid !in listed && key == keys[pid]) {
      var p :| p in keys && p !in listed && p !in rest - {pid} && keys[p] == key;
    }
  }

  lemma KeysEnds(keys: map<int32, Bytes>, listed: set<int32>)
    ensures KeysLeft(keys, listed, keys.Keys) == keys && KeysGone(keys, listed, keys.Keys) == {}
    ensures KeysLeft(keys, listed, {}) == (map pid | pid in keys && pid in listed :: keys[pid])
    ensures KeysGone(keys, listed, {}) == Exited(keys, listed)
  {
  }

  /** PIDs that GetActiveProcesses reports, and the sample it reports for one. */
  function ActivePids(ix: Index): set<int32> {
    set pid | pid in ix.activeKeys && Timeline(ix, ix.activeKeys[pid]) != []
  }

  function Latest(ix: Index, pid: int32): ProcessSample
    requires pid in ActivePids(ix)
  {
    var samples := Timeline(ix, ix.activeKeys[pid]);
    samples[|samples| - 1]
  }

  /** `order` lists the active PIDs once each and `active` their latest samples:
      what some iteration order of activeKeys yields. */
  ghost predicate IsActiveListing(ix: Index, order: seq<int32>, active: seq<ProcessSample>) {
    && |active| == |order|
    && (forall i, j :: 0 <= i < j < |order| ==> order[i] != order[j])
    && (forall pid :: pid in order <==> pid in ActivePids(ix))
    && (forall i :: 0 <= i < |order| ==> active[i] == Latest(ix, order[i]))
  }

  /** The same, with the PIDs in `rest` still to be visited. */
  ghost predicate ActiveSoFar(ix: Index, order: seq<int32>, active: seq<ProcessSample>, rest: set<int32>) {
    && |active| == |order|
    && (forall i, j :: 0 <= i < j < |order| ==> order[i] != order[j])
    && (forall pid :: pid in order <==> pid in ActivePids(ix) && pid !in rest)
    && (forall i :: 0 <= i < |order| ==> order[i] in ActivePids(ix) && active[i] == Latest(ix, order[i]))
  }

  lemma ActiveEnds(ix: Index)
    ensures ActiveSoFar(ix, [], [], ix.activeKeys.Keys)
  {
  }

  lemma ActiveListed(ix: Index, order: seq<int32>, active: seq<ProcessSample>)
    requires ActiveSoFar(ix, order, active, {})
    ensures IsActiveListing(ix, order, active)
  {
  }

  lemma ActiveTurn(ix: Index, order: seq<int32>, active: seq<ProcessSample>, rest: set<int32>, pid: int32)
    requires ActiveSoFar(ix, order, active, rest) && pid in rest && pid in ix.activeKeys
    ensures var line := Timeline(ix, ix.activeKeys[pid]);
      if line == [] then ActiveSoFar(ix, order, active, rest - {pid})
      else ActiveSoFar(ix, order + [pid], active + [line[|line| - 1]], rest - {pid})
  {
    hide Timeline;
  }

  /** One locked operation and the clock it reads. */
  datatype Op = Add(sample: ProcessSample, now: int) | Mark(listed: set<int32>, now: int)

  function Stepped(ix: Index, op: Op): Index {
    match op
    case Add(s, now) => Added(ix, s, now)
    case Mark(listed, now) => Marked(ix, listed, now)
  }

  function After(ix: Index, ops: seq<Op>): Index {
    if ops == [] then ix else Stepped(After(ix, ops[..|ops| - 1]), ops[|ops| - 1])
  }

  // ----- the class ------------------------------------------------------------------------

  class HistoryStore {
    var processes: map<Bytes, array<ProcessSample>>
    var activeKeys: map<int32, Bytes>
    /** The backing slices the store owns. */
    ghost var Repr: set<array<ProcessSample>>

    /** Every timeline has a backing slice of its own. */
    ghost predicate Valid()
      reads this`processes, this`Repr
    {
      OwnSlices(processes, Repr)
    }

    ghost function Contents(): map<Bytes, seq<ProcessSample>>
      requires Valid()
      reads this`processes, this`Repr, Repr
    {
      SlicesOf(processes, Repr)
    }

    ghost function Abs(): Index
      requires Valid()
      reads this, Repr
    {
      Index(Contents(), activeKeys)
    }

    constructor ()
      ensures Valid() && fresh(Repr) && Abs() == EMPTY
    {
      processes := map[];
      activeKeys := map[];
      Repr := {};
      new;
      assert Contents() == map[];
    }

    /** Replaces one timeline by a fresh slice. */
    method SetTimeline(key: Bytes, samples: seq<ProcessSample>)
      requires Valid()
      modifies this`processes, this`Repr
      ensures Valid() && fresh(Repr - old(Repr))
      ensures Contents() == old(Contents())[key := samples]
    {
      processes, Repr := WithCopy(processes, Repr, key, samples);
    }

    method AddSample(sample: ProcessSample, now: int)
      requires Valid()
      modifies this
      ensures Valid() && fresh(Repr - old(Repr))
      ensures Abs() == Added(old(Abs()), sample, now)
    {
      hide PrunedKey, KeyOf;
      var key := KeyOf(sample);
      var samples := if key in processes then processes[key][..] else [];
      assert samples == Timeline(Abs(), key);
      SetTimeline(key, samples + [sample]);
      activeKeys := activeKeys[sample.pid := key];
      PruneTimeline(key, now - RETENTION);
    }

    /** pruneExpiredSamples, and one turn of pruneAll's loop. */
    method PruneTimeline(key: Bytes, cutoff: int)
      requires Valid()
      modifies this`processes, this`Repr
      ensures Valid() && fresh(Repr - old(Repr))
      ensures Contents() == PrunedKey(old(Contents()), key, cutoff)
    {
      ghost var before := Contents();
      var samples := if key in processes then processes[key][..] else [];
      assert samples == if key in before then before[key] else [];
      var valid := KeepRecent(samples, cutoff);
      if |valid| == 0 {
        processes := processes - {key};
        assert Contents() == before - {key};
      } else {
        SetTimeline(key, valid);
      }
    }

    /** Flips the latest sample of every PID the scrape did not list, forgets the
        PID, then prunes every timeline. */
    method MarkInactive(listed: set<int32>, now: int)
      requires Valid()
      modifies this, Repr
      ensures Valid() && fresh(Repr - old(Repr))
      ensures Abs() == Marked(old(Abs()), listed, now)
    {
      ghost var before, keys := Contents(), activeKeys;
      KeysEnds(keys, listed);
      FlippedNone(before);
      hide KeysLeft, KeysGone, Flipped, Exited, PrunedAll;
      var rest := activeKeys.Keys;
      while rest != {}
        invariant rest <= keys.Keys
        invariant processes == old(processes) && Repr == old(Repr)
        invariant activeKeys == KeysLeft(keys, listed, rest)
        invariant Contents() == Flipped(before, KeysGone(keys, listed, rest))
      {
        var pid :| pid in rest;
        KeysTurn(keys, listed, rest, pid);
        if pid !in listed {
          var key := activeKeys[pid];
          FlippedStep(before, KeysGone(keys, listed, rest), key);
          FlipTimeline(key);
          activeKeys := activeKeys - {pid};
        }
        rest := rest - {pid};
      }
      PruneAll(now);
    }

    method FlipTimeline(key: Bytes)
      requires Valid()
      modifies Repr
      ensures Contents() == Flipped(old(Contents()), {key})
    {
      ghost var before := Contents();
      if key in processes {
        FlipLast(processes[key]);
        assert forall k :: k in processes && k != key ==> processes[k][..] == before[k];
      }
    }

    method PruneAll(now: int)
      requires Valid()
      modifies this`processes, this`Repr
      ensures Valid() && fresh(Repr - old(Repr))
      ensures Contents() == PrunedAll(old(Contents()), now - RETENTION)
    {
      var cutoff := now - RETENTION;
      ghost var before := Contents();
      PrunedEnds(before, cutoff);
      var rest := processes.Keys;
      while rest != {}
        invariant Valid() && fresh(Repr - old(Repr))
        invariant rest <= before.Keys
        invariant Contents() == PrunedExcept(before, cutoff, rest)
      {
        var key :| key in rest;
        PrunedStep(before, cutoff, rest, key);
        rest := rest - {key};
        PruneTimeline(key, cutoff);
      }
    }

    /** The latest sample of every active process, in the order some iteration of
        the map yields, in a new slice. */
    method GetActiveProcesses() returns (active: array<ProcessSample>, ghost order: seq<int32>)
      requires Valid()
      ensures fresh(active)
      ensures IsActiveListing(Abs(), order, active[..])
    {
      var out: seq<ProcessSample> := [];
      order := [];
      var rest := activeKeys.Keys;
      ghost var ix := Abs();
      ActiveEnds(ix);
      assert forall key :: Timeline(ix, key) == if key in processes then processes[key][..] else [];
      hide ActiveSoFar, IsActiveListing, Timeline, ActivePids;
      while rest != {}
        invariant rest <= activeKeys.Keys
        invariant ActiveSoFar(ix, order, out, rest)
      {
        var pid :| pid in rest;
        ActiveTurn(ix, order, out, rest, pid);
        rest := rest - {pid};
        var key := activeKeys[pid];
        if key in processes && processes[key].Length > 0 {
          out := out + [processes[key][processes[key].Length - 1]];
          order := order + [pid];
        }
      }
      ActiveListed(ix, order, out);
      active := ToSlice(out);
    }

    /** The timelines whose latest sample matches, each copied into a new slice. */
    method QueryHistory(query: Query)
      returns (result: map<Bytes, array<ProcessSample>>, ghost copies: set<array<ProcessSample>>)
      requires Valid()
      ensures fresh(copies) && OwnSlices(result, copies)
      ensures SlicesOf(result, copies) == Matching(Contents(), query)
    {
      result, copies := map[], {};
      ghost var contents := Contents();
      assert contents.Keys == processes.Keys;
      var rest := processes.Keys;
      MatchingEnds(contents, query);
      assert OwnSlices(result, copies) && SlicesOf(result, copies) == map[];
      hide Matching, MatchingBut, Hit, OwnSlices, SlicesOf;
      while rest != {}
        invariant rest <= processes.Keys
        invariant forall key :: key in processes ==> processes[key][..] == contents[key]
        invariant fresh(copies) && OwnSlices(result, copies)
        invariant SlicesOf(result, copies) == MatchingBut(contents, query, rest)
      {
        var key :| key in rest;
        var samples := processes[key][..];
        MatchingStep(contents, rest, key, query);
        if Hit(samples, query) {
          result, copies := WithCopy(result, copies, key, samples);
        }
        rest := rest - {key};
      }
    }
  }

  /** Every slice in the map is owned and none is shared. */
  ghost predicate OwnSlices(slices: map<Bytes, array<ProcessSample>>, owned: set<array<ProcessSample>>) {
    && (forall k :: k in slices ==> slices[k] in owned)
    && (forall k, l :: k in slices && l in slices && k != l ==> slices[k] != slices[l])
  }

  ghost function SlicesOf(
    slices: map<Bytes, array<ProcessSample>>, owned: set<array<ProcessSample>>): map<Bytes, seq<ProcessSample>>
    requires OwnSlices(slices, owned)
    reads owned
  {
    map k | k in slices :: slices[k][..]
  }

  /** Binds the key to a new slice with these samples; every other slice stays as it is. */
  method WithCopy(slices: map<Bytes, array<ProcessSample>>, ghost owned: set<array<ProcessSample>>,
                  key: Bytes, samples: seq<ProcessSample>)
    returns (result: map<Bytes, array<ProcessSample>>, ghost copies: set<array<ProcessSample>>)
    requires OwnSlices(slices, owned)
    ensures fresh(copies - owned) && OwnSlices(result, copies)
    ensures SlicesOf(result, copies) == SlicesOf(slices, owned)[key := samples]
  {
    ghost var before := SlicesOf(slices, owned);
    var out := ToSlice(samples);
    result := slices[key := out];
    copies := owned + {out};
    assert forall k :: k in slices && k != key ==> result[k][..] == before[k];
  }

  predicate Hit(samples: seq<ProcessSample>, query: Query) {
    samples != [] && query.Matches(samples[|samples| - 1])
  }

  function Matching(timelines: map<Bytes, seq<ProcessSample>>, query: Query): map<Bytes, seq<ProcessSample>> {
    map k | k in timelines && Hit(timelines[k], query) :: timelines[k]
  }

  /** The same, with the keys in `rest` still to be visited. */
  function MatchingBut(
    timelines: map<Bytes, seq<ProcessSample>>, query: Query, rest: set<Bytes>): map<Bytes, seq<ProcessSample>>
  {
    map k | k in timelines && k !in rest && Hit(timelines[k], query) :: timelines[k]
  }

  lemma MatchingEnds(timelines: map<Bytes, seq<ProcessSample>>, query: Query)
    ensures MatchingBut(timelines, query, timelines.Keys) == map[]
    ensures MatchingBut(timelines, query, {}) == Matching(timelines, query)
  {
  }

  lemma MatchingStep(timelines: map<Bytes, seq<ProcessSample>>, rest: set<Bytes>, key: Bytes, query: Query)
    requires key in rest && rest <= timelines.Keys
    ensures MatchingBut(timelines, query, rest - {key}) ==
            if Hit(timelines[key], query) then MatchingBut(timelines, query, rest)[key := timelines[key]]
            else MatchingBut(timelines, query, rest)
  {
  }

  /** What a caller asks for: a PID in decimal, or a name substring whatever its case. */
  datatype Query = ByPid(value: Bytes) | ByName(value: Bytes, lower: Bytes -> Bytes) {
    predicate Matches(s: ProcessSample) {
      match this
      case ByPid(value) => Itoa(s.pid as int) == value
      case ByName(value, lower) => Contains(lower(s.name), lower(value))
    }
  }

  /** Marks the latest sample inactive where it stands. */
  method FlipLast(samples: array<ProcessSample>)
    modifies samples
    ensures samples[..] == LastFlipped(old(samples[..]))
  {
    if samples.Length > 0 {
      var last := samples.Length - 1;
      samples[last] := samples[last].(isActive := false);
    }
  }

  /** A fresh slice holding these samples. */
  method ToSlice(samples: seq<ProcessSample>) returns (a: array<ProcessSample>)
    ensures fresh(a) && a[..] == samples
  {
    a := new ProcessSample[|samples|](i requires 0 <= i < |samples| => samples[i]);
  }

  /** The filtering loop both prunes share. */
  method KeepRecent(samples: seq<ProcessSample>, cutoff: int) returns (valid: seq<ProcessSample>)
    ensures valid == Recent(samples, cutoff)
  {
    valid := [];
    for i := 0 to |samples|
      invariant valid == Recent(samples[..i], cutoff)
    {
      assert samples[..i + 1][..i] == samples[..i];
      if samples[i].timestamp > cutoff {
        valid := valid + [samples[i]];
      }
    }
    assert samples[..|samples|] == samples;
  }
}

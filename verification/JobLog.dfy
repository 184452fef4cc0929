/** internal/jobreport/logparse.go: the folds over a job log's section markers, backtrace
    frames and kill messages, from the matches already found on each line. */
module JobLog {
  import opened Wrappers
  import opened Utf8
  import Decimal
  import opened Sequences

  datatype Kind = Start | End

  /** A section_start or section_end match; its digits make the epoch a natural number. */
  datatype Marker = Marker(kind: Kind, name: Bytes, epoch: nat)

  datatype Phase = Phase(name: Bytes, start: nat, end: nat)

  datatype Frame = Frame(num: nat, text: Bytes)

  /** What the patterns matched on one line. */
  datatype Line = Line(markers: seq<Marker>, frame: Option<Frame>, killName: Option<Bytes>, killPid: Option<Bytes>)

  datatype JobInfo = JobInfo(
    startEpoch: nat, endEpoch: nat, phases: seq<Phase>,
    crashFrames: seq<Bytes>, killedNames: seq<Bytes>, killPids: seq<Bytes>)
  {
    function Duration(): nat { if endEpoch > startEpoch then endEpoch - startEpoch else 0 }
  }

  function Listed<T>(o: Option<T>): seq<T> { if o.Some? then [o.value] else [] }

  function Markers(lines: seq<Line>): seq<Marker> {
    if lines == [] then [] else Markers(lines[..|lines| - 1]) + lines[|lines| - 1].markers
  }

  function Frames(lines: seq<Line>): seq<Frame> {
    if lines == [] then [] else Frames(lines[..|lines| - 1]) + Listed(lines[|lines| - 1].frame)
  }

  function KillNames(lines: seq<Line>): seq<Bytes> {
    if lines == [] then [] else KillNames(lines[..|lines| - 1]) + Listed(lines[|lines| - 1].killName)
  }

  function KillPids(lines: seq<Line>): seq<Bytes> {
    if lines == [] then [] else KillPids(lines[..|lines| - 1]) + Listed(lines[|lines| - 1].killPid)
  }

  // ----- the window ---------------------------------------------------------------------------

  ghost predicate IsEarliest(ms: seq<Marker>, e: nat) {
    if ms == [] then e == 0
    else (exists i :: 0 <= i < |ms| && ms[i].epoch == e) && forall i :: 0 <= i < |ms| ==> e <= ms[i].epoch
  }

  ghost predicate IsLatest(ms: seq<Marker>, e: nat) {
    if ms == [] then e == 0
    else (exists i :: 0 <= i < |ms| && ms[i].epoch == e) && forall i :: 0 <= i < |ms| ==> ms[i].epoch <= e
  }

  ghost predicate Positive(ms: seq<Marker>) {
    forall i :: 0 <= i < |ms| ==> ms[i].epoch > 0
  }

  /** Just after the last marker with epoch 0. Zero is also the unset sentinel, so the
      fold forgets everything before that point. */
  function AfterZero(ms: seq<Marker>): (k: nat)
    ensures k <= |ms| && (k > 0 ==> ms[k - 1].epoch == 0)
    ensures forall i :: k <= i < |ms| ==> ms[i].epoch > 0
  {
    if ms == [] then 0
    else if ms[|ms| - 1].epoch == 0 then |ms|
    else AfterZero(ms[..|ms| - 1])
  }

  function SinceZero(ms: seq<Marker>): seq<Marker> { ms[AfterZero(ms)..] }

  /** StartEpoch is the earliest of all epochs exactly when a zero epoch, if there is one,
      also comes last; for positive epochs it always is. */
  lemma {:induction false} StartIsEarliest(ms: seq<Marker>, e: nat)
    requires IsEarliest(SinceZero(ms), e)
    ensures IsEarliest(ms, e) <==> (Positive(ms) || ms[|ms| - 1].epoch == 0)
  {
    var k := AfterZero(ms);
    if Positive(ms) {
      assert k == 0 && ms[0..] == ms;
    } else if ms[|ms| - 1].epoch != 0 {
      assert ms[k..][|ms| - 1 - k] == ms[|ms| - 1];
      assert e > 0;
    }
  }

  // ----- phases -------------------------------------------------------------------------------

  /** Marker i starts section `name` and nothing after it mentions that name. */
  ghost predicate Opens(ms: seq<Marker>, name: Bytes, i: nat) {
    && i < |ms| && ms[i].kind.Start? && ms[i].name == name
    && forall j :: i < j < |ms| ==> ms[j].name != name
  }

  /** Marker k ends the section marker i started: i is the last mention of the name before k. */
  ghost predicate Closes(ms: seq<Marker>, i: nat, k: nat) {
    k < |ms| && ms[k].kind.End? && Opens(ms[..k], ms[k].name, i)
  }

  function OpenAt(ms: seq<Marker>, name: Bytes): (i: Option<nat>)
    ensures i.Some? ==> i.value < |ms|
  {
    if ms == [] then None
    else
      var last := ms[|ms| - 1];
      if last.name == name then (if last.kind.Start? then Some(|ms| - 1) else None)
      else OpenAt(ms[..|ms| - 1], name)
  }

  lemma {:induction false} OpenAtMeaning(ms: seq<Marker>, name: Bytes, i: nat)
    ensures OpenAt(ms, name) == Some(i) <==> Opens(ms, name, i)
  {
    if ms != [] && ms[|ms| - 1].name != name {
      var front := ms[..|ms| - 1];
      OpenAtMeaning(front, name, i);
      if Opens(front, name, i) {
        forall j | i < j < |ms| ensures ms[j].name != name {
          if j < |front| { assert ms[j] == front[j]; }
        }
      }
    }
  }

  /** The (start, end) marker positions that make up the phases, in order of the ends. */
  function Pairs(ms: seq<Marker>): (ps: seq<(nat, nat)>)
    ensures forall n :: 0 <= n < |ps| ==> ps[n].0 < ps[n].1 < |ms|
  {
    if ms == [] then []
    else
      var last := ms[|ms| - 1];
      var open := OpenAt(ms[..|ms| - 1], last.name);
      Pairs(ms[..|ms| - 1]) + if last.kind.End? && open.Some? then [(open.value, |ms| - 1)] else []
  }

  lemma ClosesInFront(ms: seq<Marker>, i: nat, k: nat)
    requires k < |ms| - 1
    ensures Closes(ms, i, k) <==> Closes(ms[..|ms| - 1], i, k)
  {
    assert ms[..|ms| - 1][..k] == ms[..k];
  }

  lemma {:induction false} PairsAreClosings(ms: seq<Marker>, i: nat, k: nat)
    ensures (i, k) in Pairs(ms) <==> Closes(ms, i, k)
  {
    if ms != [] {
      if k < |ms| - 1 {
        PairsAreClosings(ms[..|ms| - 1], i, k);
        ClosesInFront(ms, i, k);
      } else if k == |ms| - 1 {
        OpenAtMeaning(ms[..k], ms[k].name, i);
      }
    }
  }

  lemma {:induction false} PairsAreOrdered(ms: seq<Marker>, m: nat, n: nat)
    requires m < n < |Pairs(ms)|
    ensures Pairs(ms)[m].1 < Pairs(ms)[n].1
  {
    var front := ms[..|ms| - 1];
    if n < |Pairs(front)| {
      PairsAreOrdered(front, m, n);
    }
  }

  /** No start marker is used twice, and ends appear in order. */
  lemma {:induction false} PairsUseMarkersOnce(ms: seq<Marker>, m: nat, n: nat)
    requires m < n < |Pairs(ms)|
    ensures Pairs(ms)[m].1 < Pairs(ms)[n].1 && Pairs(ms)[m].0 != Pairs(ms)[n].0
  {
    PairsAreOrdered(ms, m, n);
    var (i, k) := Pairs(ms)[m];
    var (i', k') := Pairs(ms)[n];
    assert (i, k) in Pairs(ms) && (i', k') in Pairs(ms);
    PairsAreClosings(ms, i, k);
    PairsAreClosings(ms, i', k');
    assert k < k' && ms[..k'][k] == ms[k];
  }

  function PhaseAt(ms: seq<Marker>, pair: (nat, nat)): Phase
    requires pair.0 < |ms| && pair.1 < |ms|
  {
    Phase(ms[pair.1].name, ms[pair.0].epoch, ms[pair.1].epoch)
  }

  function PhasesOf(ms: seq<Marker>): seq<Phase> {
    seq(|Pairs(ms)|, n requires 0 <= n < |Pairs(ms)| => PhaseAt(ms, Pairs(ms)[n]))
  }

  lemma PhasesAppend(ms: seq<Marker>, m: Marker)
    ensures PhasesOf(ms + [m]) == PhasesOf(ms) +
      if m.kind.End? && OpenAt(ms, m.name).Some?
      then [Phase(m.name, ms[OpenAt(ms, m.name).value].epoch, m.epoch)]
      else []
  {
    assert (ms + [m])[..|ms|] == ms;
  }

  /** Marker i is earlier than the window: a zero epoch follows it, and every marker after
      the last zero epoch, of which there is one, is later than it. */
  ghost predicate BeforeWindow(ms: seq<Marker>, i: nat)
    requires i < |ms|
  {
    var k := AfterZero(ms);
    i < k < |ms| && forall j :: k <= j < |ms| ==> ms[i].epoch < ms[j].epoch
  }

  /** No other marker is earlier than StartEpoch. */
  lemma {:induction false} EarlierThanStart(ms: seq<Marker>, e: nat, i: nat)
    requires IsEarliest(SinceZero(ms), e) && i < |ms|
    ensures ms[i].epoch < e <==> BeforeWindow(ms, i)
  {
    var k, since := AfterZero(ms), SinceZero(ms);
    if since != [] {
      forall j | k <= j < |ms| ensures e <= ms[j].epoch { assert since[j - k] == ms[j]; }
      var j :| 0 <= j < |since| && since[j].epoch == e;
      assert ms[k + j] == since[j];
    }
  }

  ghost predicate Within(info: JobInfo, p: Phase) {
    && info.startEpoch <= p.start <= info.endEpoch
    && info.startEpoch <= p.end <= info.endEpoch
  }

  /** A phase lies within the window exactly when neither of its markers is earlier than the
      window, and is then no longer than the job; no phase is later than the window. When
      StartEpoch is the earliest epoch every phase lies within. */
  lemma {:induction false} PhasesWithinWindow(ms: seq<Marker>, info: JobInfo, n: nat)
    requires IsEarliest(SinceZero(ms), info.startEpoch) && IsLatest(ms, info.endEpoch)
    requires n < |PhasesOf(ms)|
    ensures var p, pair := PhasesOf(ms)[n], Pairs(ms)[n];
      && (Within(info, p) <==> !BeforeWindow(ms, pair.0) && !BeforeWindow(ms, pair.1))
      && (Within(info, p) ==> p.end - p.start <= info.Duration())
      && p.start <= info.endEpoch && p.end <= info.endEpoch
      && (Positive(ms) || ms[|ms| - 1].epoch == 0 ==> Within(info, p))
  {
    EarlierThanStart(ms, info.startEpoch, Pairs(ms)[n].0);
    EarlierThanStart(ms, info.startEpoch, Pairs(ms)[n].1);
    StartIsEarliest(ms, info.startEpoch);
  }

  /** A section that starts at 5, another that starts at 0, and the end of the first at 7. */
  function ZeroEpochLog(a: Bytes, b: Bytes): seq<Marker> {
    [Marker(Start, a, 5), Marker(Start, b, 0), Marker(End, a, 7)]
  }

  /** There the start is reported as 7, although 0 and 5 came before, while the phase
      keeps its own start: it begins before the window does. */
  lemma {:induction false} ZeroEpochMovesStart(a: Bytes, b: Bytes, e: nat)
    requires a != b && IsEarliest(SinceZero(ZeroEpochLog(a, b)), e)
    ensures e == 7 && !IsEarliest(ZeroEpochLog(a, b), e)
    ensures PhasesOf(ZeroEpochLog(a, b)) == [Phase(a, 5, 7)]
  {
    var ms := ZeroEpochLog(a, b);
    assert AfterZero(ms[..2]) == 2 && SinceZero(ms) == [ms[2]];
    ZeroEpochPhases(a, b);
  }

  lemma ZeroEpochPhases(a: Bytes, b: Bytes)
    requires a != b
    ensures PhasesOf(ZeroEpochLog(a, b)) == [Phase(a, 5, 7)]
  {
    var s, z, e := Marker(Start, a, 5), Marker(Start, b, 0), Marker(End, a, 7);
    assert [] + [s] == [s] && [s] + [z] == [s, z] && [s, z] + [e] == ZeroEpochLog(a, b);
    assert [s][..0] == [] && [s, z][..1] == [s];
    assert OpenAt([s], a) == Some(0) && OpenAt([s, z], a) == Some(0);
    hide OpenAt, PhasesOf;
    NoPhases();
    PhasesAppend([], s);
    PhasesAppend([s], z);
    PhasesAppend([s, z], e);
  }

  lemma NoPhases()
    ensures PhasesOf([]) == []
  {
  }

  // ----- first-seen lists and frames ----------------------------------------------------------

  function FirstSeen<T(==)>(s: seq<T>): seq<T> {
    if s == [] then []
    else
      var front := FirstSeen(s[..|s| - 1]);
      if s[|s| - 1] in front then front else front + [s[|s| - 1]]
  }

  /** Position of the first occurrence. */
  ghost predicate FirstAt<T>(s: seq<T>, x: T, i: nat) {
    i < |s| && s[i] == x && x !in s[..i]
  }

  ghost predicate OrderedByFirst<T>(s: seq<T>, list: seq<T>) {
    forall a, b, i, j :: 0 <= a < b < |list| && FirstAt(s, list[a], i) && FirstAt(s, list[b], j) ==> i < j
  }

  /** FirstSeen lists each value once, lists exactly the values that occur, and lists
      them in the order of their first occurrences. */
  lemma {:induction false} FirstSeenMeaning<T>(s: seq<T>)
    ensures Distinct(FirstSeen(s))
    ensures forall x :: x in FirstSeen(s) <==> x in s
    ensures OrderedByFirst(s, FirstSeen(s))
  {
    if s != [] {
      var front, x := s[..|s| - 1], s[|s| - 1];
      FirstSeenMeaning(front);
      assert s == front + [x];
      var list := FirstSeen(s);
      forall a, b, i, j | 0 <= a < b < |list| && FirstAt(s, list[a], i) && FirstAt(s, list[b], j) ensures i < j {
        FirstAtFront(s, list[a], i);
        FirstAtFront(s, list[b], j);
      }
    }
  }

  lemma FirstAtFront<T>(s: seq<T>, x: T, i: nat)
    requires FirstAt(s, x, i)
    ensures x in s[..|s| - 1] ==> FirstAt(s[..|s| - 1], x, i)
    ensures x !in s[..|s| - 1] ==> i == |s| - 1
  {
    if i < |s| - 1 {
      assert s[..|s| - 1][i] == x && s[..|s| - 1][..i] == s[..i];
    } else {
      assert s[..i] == s[..|s| - 1];
    }
  }

  function Numbers(frames: seq<Frame>): seq<nat> {
    seq(|frames|, i requires 0 <= i < |frames| => frames[i].num)
  }

  /** The text kept for a frame number. */
  function TextOf(frames: seq<Frame>, num: nat): Bytes
    requires num in Numbers(frames)
  {
    var front := frames[..|frames| - 1];
    if num in Numbers(front) then TextOf(front, num) else frames[|frames| - 1].text
  }

  /** It is the text of the first frame with that number. */
  lemma {:induction false} TextIsFirstSeen(frames: seq<Frame>, i: nat)
    requires i < |frames| && FirstAt(Numbers(frames), frames[i].num, i)
    ensures TextOf(frames, frames[i].num) == frames[i].text
  {
    var front := frames[..|frames| - 1];
    assert Numbers(front) == Numbers(frames)[..|front|];
    if i < |front| {
      assert Numbers(front)[i] == frames[i].num;
      assert Numbers(front)[..i] == Numbers(frames)[..i];
      TextIsFirstSeen(front, i);
    }
  }

  lemma TextOfAppend(frames: seq<Frame>, frame: Frame, num: nat)
    requires num in Numbers(frames) || num == frame.num
    ensures num in Numbers(frames + [frame])
    ensures TextOf(frames + [frame], num) == if num in Numbers(frames) then TextOf(frames, num) else frame.text
  {
    NumbersAppend(frames, frame);
    assert (frames + [frame])[..|frames|] == frames;
  }

  lemma NumbersAppend(frames: seq<Frame>, frame: Frame)
    ensures Numbers(frames + [frame]) == Numbers(frames) + [frame.num]
  {
  }

  /** `nums` are the lowest frame numbers that occur, in order: all of them, or five. */
  ghost predicate LowestFive(frames: seq<Frame>, nums: seq<nat>) {
    && Increasing(nums) && |nums| <= 5
    && (forall n <- nums :: n in Numbers(frames))
    && (forall n <- Numbers(frames) :: n in nums || (|nums| == 5 && nums[4] < n))
  }

  const HASH: byte := 0x23
  const SPACE: byte := 0x20

  function FrameLine(num: nat, text: Bytes): Bytes {
    [HASH] + Decimal.Itoa(num) + [SPACE] + text
  }

  ghost predicate FrameLines(frames: seq<Frame>, nums: seq<nat>, lines: seq<Bytes>) {
    && |lines| == |nums|
    && forall i :: 0 <= i < |nums| ==>
      nums[i] in Numbers(frames) && lines[i] == FrameLine(nums[i], TextOf(frames, nums[i]))
  }

  /** What CrashFrames must hold. */
  ghost predicate CrashReport(frames: seq<Frame>, lines: seq<Bytes>) {
    exists nums: seq<nat> :: LowestFive(frames, nums) && FrameLines(frames, nums, lines)
  }

  lemma LowestAgree(frames: seq<Frame>, a: seq<nat>, b: seq<nat>, k: nat)
    requires LowestFive(frames, a) && LowestFive(frames, b)
    requires k < |a| && k <= |b| && a[..k] == b[..k]
    ensures k < |b| && b[k] <= a[k]
  {
    assert a[k] in Numbers(frames);
    forall i | 0 <= i < k ensures a[i] == b[i] { assert a[..k][i] == b[..k][i]; }
    if a[k] in b {
      var j :| 0 <= j < |b| && b[j] == a[k];
    } else {
      assert b[k] <= b[4];
    }
  }

  lemma {:induction false} LowestUnique(frames: seq<Frame>, a: seq<nat>, b: seq<nat>, k: nat)
    requires LowestFive(frames, a) && LowestFive(frames, b) && k <= |a|
    ensures k <= |b| && a[..k] == b[..k]
  {
    if k > 0 {
      LowestUnique(frames, a, b, k - 1);
      LowestAgree(frames, a, b, k - 1);
      LowestAgree(frames, b, a, k - 1);
      assert a[..k] == a[..k - 1] + [a[k - 1]] && b[..k] == b[..k - 1] + [b[k - 1]];
    }
  }

  /** A log has one crash report: at most five lines, for the lowest distinct frame
      numbers ascending, each with the text first seen for it. */
  lemma {:induction false} CrashReportUnique(frames: seq<Frame>, l1: seq<Bytes>, l2: seq<Bytes>)
    requires CrashReport(frames, l1) && CrashReport(frames, l2)
    ensures l1 == l2 && |l1| <= 5
  {
    hide LowestFive, Numbers, TextOf, FrameLine;
    var a: seq<nat> :| LowestFive(frames, a) && FrameLines(frames, a, l1);
    var b: seq<nat> :| LowestFive(frames, b) && FrameLines(frames, b, l2);
    LowestEqual(frames, a, b);
  }

  lemma LowestEqual(frames: seq<Frame>, a: seq<nat>, b: seq<nat>)
    requires LowestFive(frames, a) && LowestFive(frames, b)
    ensures a == b && |a| <= 5
  {
    LowestUnique(frames, a, b, |a|);
    LowestUnique(frames, b, a, |b|);
    assert a == a[..|a|] && b == b[..|b|];
  }

  // ----- sort.Ints ----------------------------------------------------------------------------

  function InsertInt(s: seq<nat>, x: nat): seq<nat> {
    if s == [] || x <= s[0] then [x] + s else [s[0]] + InsertInt(s[1..], x)
  }

  function SortInts(s: seq<nat>): seq<nat> {
    if s == [] then [] else InsertInt(SortInts(s[..|s| - 1]), s[|s| - 1])
  }

  lemma {:induction false} InsertIncreasing(s: seq<nat>, x: nat)
    requires Increasing(s) && x !in s
    ensures Increasing(InsertInt(s, x))
    ensures forall y :: y in InsertInt(s, x) <==> y == x || y in s
  {
    if s != [] && x > s[0] {
      assert s == [s[0]] + s[1..];
      InsertIncreasing(s[1..], x);
      var r := InsertInt(s[1..], x);
      forall j | 0 <= j < |r| ensures s[0] < r[j] { assert r[j] in r; }
    }
  }

  lemma {:induction false} SortIncreasing(s: seq<nat>)
    requires Distinct(s)
    ensures Increasing(SortInts(s))
    ensures forall y :: y in SortInts(s) <==> y in s
  {
    if s != [] {
      assert s == s[..|s| - 1] + [s[|s| - 1]];
      SortIncreasing(s[..|s| - 1]);
      InsertIncreasing(SortInts(s[..|s| - 1]), s[|s| - 1]);
    }
  }

  lemma LowestOfSorted(frames: seq<Frame>, sorted: seq<nat>)
    requires Increasing(sorted) && forall n :: n in sorted <==> n in Numbers(frames)
    ensures LowestFive(frames, if |sorted| <= 5 then sorted else sorted[..5])
  {
  }

  // ----- the fold -----------------------------------------------------------------------------

  /** The section variables after the markers `ms`. */
  ghost predicate Folded(
    ms: seq<Marker>, startEpoch: nat, endEpoch: nat, phaseStart: map<Bytes, nat>, phases: seq<Phase>)
  {
    && IsEarliest(SinceZero(ms), startEpoch)
    && IsLatest(ms, endEpoch)
    && phases == PhasesOf(ms)
    && Remembers(ms, phaseStart)
  }

  /** phaseStart knows the sections that are open, and since when. */
  ghost predicate Remembers(ms: seq<Marker>, phaseStart: map<Bytes, nat>) {
    forall name ::
      && (name in phaseStart <==> OpenAt(ms, name).Some?)
      && (name in phaseStart ==> phaseStart[name] == ms[OpenAt(ms, name).value].epoch)
  }

  lemma EarliestAppend(ms: seq<Marker>, m: Marker, e: nat)
    requires IsEarliest(SinceZero(ms), e)
    ensures IsEarliest(SinceZero(ms + [m]), if e == 0 || m.epoch < e then m.epoch else e)
  {
    assert (ms + [m])[..|ms|] == ms;
    var since := SinceZero(ms);
    if m.epoch != 0 {
      assert SinceZero(ms + [m]) == since + [m];
      EarliestGrows(since, m, e);
    }
  }

  lemma EarliestGrows(since: seq<Marker>, m: Marker, e: nat)
    requires IsEarliest(since, e) && Positive(since) && m.epoch > 0
    ensures IsEarliest(since + [m], if e == 0 || m.epoch < e then m.epoch else e)
  {
    assert (since + [m])[|since|] == m;
    if since != [] {
      var i :| 0 <= i < |since| && since[i].epoch == e;
      assert (since + [m])[i].epoch == e;
    }
  }

  lemma LatestAppend(ms: seq<Marker>, m: Marker, e: nat)
    requires IsLatest(ms, e)
    ensures IsLatest(ms + [m], if m.epoch > e then m.epoch else e)
  {
    assert (ms + [m])[|ms|] == m;
    if ms != [] {
      var i :| 0 <= i < |ms| && ms[i].epoch == e;
      assert (ms + [m])[i].epoch == e;
    }
  }

  lemma RemembersAppend(ms: seq<Marker>, m: Marker, phaseStart: map<Bytes, nat>)
    requires Remembers(ms, phaseStart)
    ensures m.kind.Start? ==> Remembers(ms + [m], phaseStart[m.name := m.epoch])
    ensures m.kind.End? ==> Remembers(ms + [m], phaseStart - {m.name})
  {
    assert (ms + [m])[..|ms|] == ms;
  }

  /** The frame variables after `frames`. */
  ghost predicate Gathered(frames: seq<Frame>, frameNums: seq<nat>, frameByNum: map<nat, Bytes>) {
    && frameNums == FirstSeen(Numbers(frames))
    && (forall n :: n in frameByNum <==> n in Numbers(frames))
    && (forall n :: n in frameByNum ==> n in Numbers(frames) && frameByNum[n] == TextOf(frames, n))
  }

  lemma GatheredAppend(frames: seq<Frame>, f: Frame, frameNums: seq<nat>, frameByNum: map<nat, Bytes>)
    requires Gathered(frames, frameNums, frameByNum)
    ensures f.num in frameByNum ==> Gathered(frames + [f], frameNums, frameByNum)
    ensures f.num !in frameByNum ==> Gathered(frames + [f], frameNums + [f.num], frameByNum[f.num := f.text])
  {
    hide FirstSeen, TextOf;
    NumbersAppend(frames, f);
    FirstSeenAppend(Numbers(frames), f.num);
    hide Numbers;
    forall n | n in Numbers(frames) || n == f.num
      ensures n in Numbers(frames + [f])
      ensures TextOf(frames + [f], n) == if n in Numbers(frames) then TextOf(frames, n) else f.text
    {
      TextOfAppend(frames, f, n);
    }
  }

  lemma FirstSeenAppend<T>(s: seq<T>, x: T)
    ensures FirstSeen(s + [x]) == if x in s then FirstSeen(s) else FirstSeen(s) + [x]
  {
    assert (s + [x])[..|s|] == s;
    FirstSeenMeaning(s);
  }

  lemma AppendLine(lines: seq<Line>, i: nat)
    requires i < |lines|
    ensures Markers(lines[..i + 1]) == Markers(lines[..i]) + lines[i].markers
    ensures Frames(lines[..i + 1]) == Frames(lines[..i]) + Listed(lines[i].frame)
    ensures KillNames(lines[..i + 1]) == KillNames(lines[..i]) + Listed(lines[i].killName)
    ensures KillPids(lines[..i + 1]) == KillPids(lines[..i]) + Listed(lines[i].killPid)
  {
    assert lines[..i + 1][..i] == lines[..i];
  }

  method FoldMarker(
    m: Marker, startEpoch: nat, endEpoch: nat, phaseStart: map<Bytes, nat>, phases: seq<Phase>, ghost ms: seq<Marker>)
    returns (startEpoch': nat, endEpoch': nat, phaseStart': map<Bytes, nat>, phases': seq<Phase>)
    requires Folded(ms, startEpoch, endEpoch, phaseStart, phases)
    ensures Folded(ms + [m], startEpoch', endEpoch', phaseStart', phases')
  {
    hide IsEarliest, IsLatest, SinceZero, PhasesOf, OpenAt;
    startEpoch', endEpoch', phaseStart', phases' := startEpoch, endEpoch, phaseStart, phases;
    EarliestAppend(ms, m, startEpoch);
    LatestAppend(ms, m, endEpoch);
    RemembersAppend(ms, m, phaseStart);
    PhasesAppend(ms, m);
    if startEpoch == 0 || m.epoch < startEpoch { startEpoch' := m.epoch; }
    if m.epoch > endEpoch { endEpoch' := m.epoch; }
    if m.kind.Start? {
      phaseStart' := phaseStart[m.name := m.epoch];
    } else if m.name in phaseStart {
      phases' := phases + [Phase(m.name, phaseStart[m.name], m.epoch)];
      phaseStart' := phaseStart - {m.name};
    } else {
      assert phaseStart - {m.name} == phaseStart;
    }
  }

  lemma NothingFolded()
    ensures Folded([], 0, 0, map[], []) && Gathered([], [], map[]) && FirstSeen<Bytes>([]) == []
    ensures Markers([]) == [] && Frames([]) == [] && KillNames([]) == [] && KillPids([]) == []
  {
  }

  lemma FoldedMeans(ms: seq<Marker>, startEpoch: nat, endEpoch: nat, phaseStart: map<Bytes, nat>, phases: seq<Phase>)
    requires Folded(ms, startEpoch, endEpoch, phaseStart, phases)
    ensures IsEarliest(SinceZero(ms), startEpoch) && IsLatest(ms, endEpoch) && phases == PhasesOf(ms)
  {
  }

  /** parseJobLog: whatever the lines hold, the window, the phases, the kill lists and
      the crash report are what the whole sequence of matches determines. */
  method ParseJobLog(lines: seq<Line>) returns (info: JobInfo)
    ensures IsEarliest(SinceZero(Markers(lines)), info.startEpoch) && IsLatest(Markers(lines), info.endEpoch)
    ensures info.phases == PhasesOf(Markers(lines))
    ensures CrashReport(Frames(lines), info.crashFrames)
    ensures info.killedNames == FirstSeen(KillNames(lines)) && info.killPids == FirstSeen(KillPids(lines))
  {
    var startEpoch, endEpoch, phaseStart, phases := 0, 0, map[], [];
    var frameNums, frameByNum := [], map[];
    var killedNames, killPids := [], [];
    ghost var ms, frames, names, pids := [], [], [], [];
    NothingFolded();
    hide *;
    for i := 0 to |lines|
      invariant ms == Markers(lines[..i]) && frames == Frames(lines[..i])
      invariant names == KillNames(lines[..i]) && pids == KillPids(lines[..i])
      invariant Folded(ms, startEpoch, endEpoch, phaseStart, phases)
      invariant Gathered(frames, frameNums, frameByNum)
      invariant killedNames == FirstSeen(names) && killPids == FirstSeen(pids)
    {
      var line := lines[i];
      AppendLine(lines, i);
      startEpoch, endEpoch, phaseStart, phases :=
        FoldMarkers(line.markers, startEpoch, endEpoch, phaseStart, phases, ms);
      ms := ms + line.markers;
      frameNums, frameByNum := KeepFrame(line.frame, frameNums, frameByNum, frames);
      frames := frames + Listed(line.frame);
      killedNames := KeepDistinct(line.killName, killedNames, names);
      names := names + Listed(line.killName);
      killPids := KeepDistinct(line.killPid, killPids, pids);
      pids := pids + Listed(line.killPid);
    }
    assert lines[..|lines|] == lines;
    FoldedMeans(ms, startEpoch, endEpoch, phaseStart, phases);
    var crashFrames := TopFrames(frames, frameNums, frameByNum);
    info := JobInfo(startEpoch, endEpoch, phases, crashFrames, killedNames, killPids);
  }

  lemma NextMarker(ms: seq<Marker>, markers: seq<Marker>, k: nat)
    requires k < |markers|
    ensures ms + markers[..k] + [markers[k]] == ms + markers[..k + 1]
  {
  }

  method FoldMarkers(
    markers: seq<Marker>, startEpoch: nat, endEpoch: nat, phaseStart: map<Bytes, nat>, phases: seq<Phase>,
    ghost ms: seq<Marker>)
    returns (startEpoch': nat, endEpoch': nat, phaseStart': map<Bytes, nat>, phases': seq<Phase>)
    requires Folded(ms, startEpoch, endEpoch, phaseStart, phases)
    ensures Folded(ms + markers, startEpoch', endEpoch', phaseStart', phases')
  {
    startEpoch', endEpoch', phaseStart', phases' := startEpoch, endEpoch, phaseStart, phases;
    assert ms + markers[..0] == ms;
    hide *;
    for k := 0 to |markers|
      invariant Folded(ms + markers[..k], startEpoch', endEpoch', phaseStart', phases')
    {
      startEpoch', endEpoch', phaseStart', phases' :=
        FoldMarker(markers[k], startEpoch', endEpoch', phaseStart', phases', ms + markers[..k]);
      NextMarker(ms, markers, k);
    }
    assert ms + markers[..|markers|] == ms + markers;
  }

  method KeepFrame(frame: Option<Frame>, frameNums: seq<nat>, frameByNum: map<nat, Bytes>, ghost frames: seq<Frame>)
    returns (frameNums': seq<nat>, frameByNum': map<nat, Bytes>)
    requires Gathered(frames, frameNums, frameByNum)
    ensures Gathered(frames + Listed(frame), frameNums', frameByNum')
  {
    frameNums', frameByNum' := frameNums, frameByNum;
    if frame.Some? {
      GatheredAppend(frames, frame.value, frameNums, frameByNum);
      if frame.value.num !in frameByNum {
        frameByNum' := frameByNum[frame.value.num := frame.value.text];
        frameNums' := frameNums + [frame.value.num];
      }
    } else {
      assert frames + [] == frames;
    }
  }

  method KeepDistinct(found: Option<Bytes>, list: seq<Bytes>, ghost all: seq<Bytes>) returns (list': seq<Bytes>)
    requires list == FirstSeen(all)
    ensures list' == FirstSeen(all + Listed(found))
  {
    list' := list;
    if found.Some? {
      FirstSeenMeaning(all);
      FirstSeenAppend(all, found.value);
      if found.value !in list { list' := list + [found.value]; }
    } else {
      assert all + [] == all;
    }
  }

  lemma LinesAppend(frames: seq<Frame>, nums: seq<nat>, lines: seq<Bytes>, i: nat, text: Bytes)
    requires i < |nums| && FrameLines(frames, nums[..i], lines)
    requires nums[i] in Numbers(frames) && text == TextOf(frames, nums[i])
    ensures FrameLines(frames, nums[..i + 1], lines + [FrameLine(nums[i], text)])
  {
    hide TextOf, Numbers, FrameLine;
    assert nums[..i + 1] == nums[..i] + [nums[i]];
  }

  lemma SortedNumbers(frames: seq<Frame>, frameNums: seq<nat>, frameByNum: map<nat, Bytes>)
    requires Gathered(frames, frameNums, frameByNum)
    ensures var nums := SortInts(frameNums);
      && LowestFive(frames, if |nums| <= 5 then nums else nums[..5])
      && (forall n <- nums :: n in frameByNum)
  {
    FirstSeenMeaning(Numbers(frames));
    SortIncreasing(frameNums);
    hide FirstSeen, SortInts, Numbers, TextOf;
    LowestOfSorted(frames, SortInts(frameNums));
  }

  method TopFrames(
    ghost frames: seq<Frame>, frameNums: seq<nat>, frameByNum: map<nat, Bytes>)
    returns (crashFrames: seq<Bytes>)
    requires Gathered(frames, frameNums, frameByNum)
    ensures CrashReport(frames, crashFrames)
  {
    SortedNumbers(frames, frameNums, frameByNum);
    var nums := SortInts(frameNums);
    crashFrames := [];
    assert FrameLines(frames, nums[..0], crashFrames);
    hide FirstSeen, SortInts, Numbers, TextOf, FrameLine, LowestFive, FrameLines;
    var i := 0;
    while i < |nums| && i < 5
      invariant 0 <= i <= |nums| && i <= 5
      invariant FrameLines(frames, nums[..i], crashFrames)
    {
      var n := nums[i];
      assert n in nums;
      LinesAppend(frames, nums, crashFrames, i, frameByNum[n]);
      crashFrames := crashFrames + [FrameLine(n, frameByNum[n])];
      i := i + 1;
    }
    assert nums[..i] == if |nums| <= 5 then nums else nums[..5];
  }

  // ----- what the parts are ---------------------------------------------------------------------

  /** The number and the text can be read back from a frame's line: '#', the number in decimal up to
      the first blank, the text after it. */
  lemma {:induction false} FrameLineReads(num: nat, text: Bytes) returns (k: nat)
    ensures var line := FrameLine(num, text);
      && 0 < k < |line| && line[0] == '#' as int as byte && line[k] == ' ' as int as byte
      && (' ' as int as byte) !in line[..k]
      && Decimal.AllDigits(line[1..k]) && Decimal.DigitsValue(line[1..k]) == num
      && line[k + 1..] == text
  {
    var digits, line := Decimal.Itoa(num), FrameLine(num, text);
    k := 1 + |digits|;
    Decimal.DigitsRoundTrip(num);
    assert line[1..k] == digits && line[k + 1..] == text;
    forall i | 0 <= i < k ensures line[..k][i] != SPACE {
      if i > 0 { assert line[..k][i] == digits[i - 1]; }
    }
  }

  /** The matches of a log are those of its parts, in order; one line contributes what it holds. */
  lemma {:induction false} MatchesInOrder(a: seq<Line>, b: seq<Line>)
    ensures Markers(a + b) == Markers(a) + Markers(b)
    ensures Frames(a + b) == Frames(a) + Frames(b)
    ensures KillNames(a + b) == KillNames(a) + KillNames(b)
    ensures KillPids(a + b) == KillPids(a) + KillPids(b)
  {
    hide *;
    if b == [] {
      NothingFolded();
      assert a + b == a;
    } else {
      var front, last, n := b[..|b| - 1], b[|b| - 1], |a + b|;
      MatchesInOrder(a, front);
      AppendLine(a + b, n - 1);
      AppendLine(b, |b| - 1);
      assert (a + b)[..n - 1] == a + front && (a + b)[..n] == a + b && b[..|b|] == b;
      Regroup(Markers(a), Markers(front), [], last.markers);
      Regroup(Frames(a), Frames(front), [], Listed(last.frame));
      Regroup(KillNames(a), KillNames(front), [], Listed(last.killName));
      Regroup(KillPids(a), KillPids(front), [], Listed(last.killPid));
    }
  }

  lemma {:induction false} MatchesOfLine(markers: seq<Marker>, frame: Frame, name: Bytes, pid: Bytes)
    ensures Markers([Line(markers, None, None, None)]) == markers
    ensures Frames([Line([], Some(frame), None, None)]) == [frame] && Frames([Line(markers, None, None, None)]) == []
    ensures KillNames([Line([], None, Some(name), None)]) == [name]
    ensures KillPids([Line([], None, None, Some(pid))]) == [pid]
  {
    assert forall line: Line :: [line][..0] == [];
  }

  ghost predicate KillsName(lines: seq<Line>, x: Bytes) {
    exists i :: 0 <= i < |lines| && lines[i].killName == Some(x)
  }

  ghost predicate KillsPid(lines: seq<Line>, x: Bytes) {
    exists i :: 0 <= i < |lines| && lines[i].killPid == Some(x)
  }

  lemma {:induction false} KillsOccur(lines: seq<Line>, x: Bytes)
    ensures x in KillNames(lines) <==> KillsName(lines, x)
    ensures x in KillPids(lines) <==> KillsPid(lines, x)
  {
    if lines != [] {
      var front, last := lines[..|lines| - 1], lines[|lines| - 1];
      KillsOccur(front, x);
      assert forall i :: 0 <= i < |front| ==> front[i] == lines[i];
      assert KillsName(lines, x) <==> KillsName(front, x) || last.killName == Some(x);
      assert KillsPid(lines, x) <==> KillsPid(front, x) || last.killPid == Some(x);
    }
  }

  /** The lists of killed names and PIDs hold exactly those some line names, each once. */
  lemma {:induction false} KillsAreListed(lines: seq<Line>, x: Bytes)
    ensures x in FirstSeen(KillNames(lines)) <==> KillsName(lines, x)
    ensures x in FirstSeen(KillPids(lines)) <==> KillsPid(lines, x)
    ensures Distinct(FirstSeen(KillNames(lines))) && Distinct(FirstSeen(KillPids(lines)))
  {
    KillsOccur(lines, x);
    FirstSeenMeaning(KillNames(lines));
    FirstSeenMeaning(KillPids(lines));
  }

  /** With positive epochs the duration is the longest time between two markers. */
  lemma {:induction false} DurationIsLongest(ms: seq<Marker>, info: JobInfo)
    requires Positive(ms) && ms != []
    requires IsEarliest(SinceZero(ms), info.startEpoch) && IsLatest(ms, info.endEpoch)
    ensures exists i, j :: 0 <= i < |ms| && 0 <= j < |ms| && info.Duration() == ms[j].epoch - ms[i].epoch
    ensures forall i, j :: 0 <= i < |ms| && 0 <= j < |ms| ==> ms[j].epoch - ms[i].epoch <= info.Duration()
  {
    StartIsEarliest(ms, info.startEpoch);
    hide SinceZero, AfterZero;
    var i :| 0 <= i < |ms| && ms[i].epoch == info.startEpoch;
    var j :| 0 <= j < |ms| && ms[j].epoch == info.endEpoch;
  }

  /** The distinct frame numbers below n. */
  function Lower(frames: seq<Frame>, n: nat): set<nat> {
    set m | m in Elements(Numbers(frames)) && m < n
  }

  lemma {:induction false} IncreasingCount(nums: seq<nat>)
    requires Increasing(nums)
    ensures |Elements(nums)| == |nums|
  {
    if nums != [] {
      var front, last := nums[..|nums| - 1], nums[|nums| - 1];
      IncreasingCount(front);
      assert nums == front + [last];
      assert Elements(nums) == Elements(front) + {last} && last !in Elements(front);
    }
  }

  lemma ElementsIff<T>(s: seq<T>, x: T)
    ensures x in Elements(s) <==> x in s
  {
  }

  lemma LowerOfLowest(frames: seq<Frame>, nums: seq<nat>, i: nat)
    requires LowestFive(frames, nums) && i < |nums|
    ensures Lower(frames, nums[i]) == Elements(nums[..i])
  {
    hide Numbers;
    forall m ensures m in Lower(frames, nums[i]) <==> m in Elements(nums[..i]) {
      ElementsIff(Numbers(frames), m);
      ElementsIff(nums[..i], m);
      if m in nums[..i] {
        var k :| 0 <= k < i && nums[k] == m;
      }
      if m in Numbers(frames) && m < nums[i] {
        assert m in nums;
        var k :| 0 <= k < |nums| && nums[k] == m;
        assert nums[..i][k] == m;
      }
    }
  }

  /** Line i is '#', number and text of the first frame whose number has i distinct lower ones. */
  ghost predicate LineShows(frames: seq<Frame>, line: Bytes, i: nat, k: nat) {
    && k < |frames| && FirstAt(Numbers(frames), frames[k].num, k)
    && line == FrameLine(frames[k].num, frames[k].text)
    && |Lower(frames, frames[k].num)| == i
  }

  ghost predicate LineShown(frames: seq<Frame>, line: Bytes, i: nat) {
    exists k: nat :: LineShows(frames, line, i, k)
  }

  lemma {:induction false} FirstOccurrence<T>(s: seq<T>, x: T) returns (k: nat)
    requires x in s
    ensures FirstAt(s, x, k)
  {
    if x in s[..|s| - 1] {
      k := FirstOccurrence(s[..|s| - 1], x);
      assert s[..k] == s[..|s| - 1][..k];
    } else {
      k := |s| - 1;
    }
  }

  lemma LowestLine(frames: seq<Frame>, nums: seq<nat>, i: nat) returns (k: nat)
    requires LowestFive(frames, nums) && i < |nums|
    ensures nums[i] in Numbers(frames)
    ensures LineShows(frames, FrameLine(nums[i], TextOf(frames, nums[i])), i, k)
  {
    assert nums[i] in Numbers(frames);
    k := FirstOccurrence(Numbers(frames), nums[i]);
    assert frames[k].num == nums[i];
    TextIsFirstSeen(frames, k);
    LowerOfLowest(frames, nums, i);
    IncreasingCount(nums[..i]);
    hide Numbers, TextOf, FrameLine, LowestFive, Lower;
  }

  lemma LowestCount(frames: seq<Frame>, nums: seq<nat>)
    requires LowestFive(frames, nums)
    ensures var n := |Elements(Numbers(frames))|; |nums| == if n < 5 then n else 5
  {
    IncreasingCount(nums);
    var all, kept := Elements(Numbers(frames)), Elements(nums);
    forall x ensures x in kept ==> x in all {
      ElementsIff(nums, x);
      ElementsIff(Numbers(frames), x);
    }
    assert all == kept + (all - kept);
    if |nums| < 5 {
      forall x | x in all ensures x in kept {
        ElementsIff(nums, x);
        ElementsIff(Numbers(frames), x);
      }
    }
  }

  /** The crash report, told from the frames: a line for each of the lowest distinct numbers, five if
      there are as many, in ascending order, each with the text first seen for it. */
  lemma {:induction false} CrashReportShows(frames: seq<Frame>, lines: seq<Bytes>)
    requires CrashReport(frames, lines)
    ensures var n := |Elements(Numbers(frames))|; |lines| == if n < 5 then n else 5
    ensures forall i :: 0 <= i < |lines| ==> LineShown(frames, lines[i], i)
  {
    hide LowestFive, Numbers, TextOf, FrameLine, LineShows;
    var nums: seq<nat> :| LowestFive(frames, nums) && FrameLines(frames, nums, lines);
    LowestCount(frames, nums);
    forall i | 0 <= i < |lines| ensures LineShown(frames, lines[i], i) {
      var k := LowestLine(frames, nums, i);
    }
  }
}

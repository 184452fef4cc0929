/** internal/jobreport/cli.go, cmd/jobreport-web/window.go and runner.go: the job-log source among the
    flags of a command line, and the time window from the web form to the report. */
module Args {
  import opened Wrappers
  import opened Utf8
  import opened Sequences
  import opened Decimal

  // ----- splitPositional --------------------------------------------------------------------------

  predicate IsFlag(a: Bytes) { a != [] && a[0] == HYPHEN }

  /** A flag token whose value is the token after it. */
  predicate WantsValue(a: Bytes) { IsFlag(a) && EQUALS !in a }

  /** The positional found (or the one already held), and everything else in order. */
  function Scan(argv: seq<Bytes>, pos: Bytes): Split {
    if argv == [] then Split(pos, [])
    else
      var n := if WantsValue(argv[0]) && |argv| > 1 then 2 else 1;
      if IsFlag(argv[0]) || pos != [] then
        var after := Scan(argv[n..], pos);
        Split(after.pos, argv[..n] + after.rest)
      else Scan(argv[1..], argv[0])
  }

  datatype Split = Split(pos: Bytes, rest: seq<Bytes>)

  method SplitPositional(argv: seq<Bytes>) returns (pos: Bytes, rest: seq<Bytes>)
    ensures Scan(argv, []) == Split(pos, rest)
  {
    pos, rest := [], [];
    var i := 0;
    assert Scanned(argv, 0, [], []) by { assert argv[0..] == argv && [] + Scan(argv, []).rest == Scan(argv, []).rest; }
    hide Scan, Scanned;
    while i < |argv|
      invariant 0 <= i <= |argv| && Scanned(argv, i, pos, rest)
    {
      var a := argv[i];
      ScanStep(argv, i, pos, rest);
      if IsFlag(a) {
        rest := rest + [a];
        if EQUALS !in a && i + 1 < |argv| {
          i := i + 1;
          rest := rest + [argv[i]];
        }
        i := i + 1;
        continue;
      }
      if pos == [] {
        pos := a;
      } else {
        rest := rest + [a];
      }
      i := i + 1;
    }
    AllScanned(argv, pos, rest);
  }

  lemma AllScanned(argv: seq<Bytes>, pos: Bytes, rest: seq<Bytes>)
    requires Scanned(argv, |argv|, pos, rest)
    ensures Scan(argv, []) == Split(pos, rest)
  {
  }

  /** With i arguments read, `pos` and `rest` are what remains to be completed. */
  ghost predicate Scanned(argv: seq<Bytes>, i: nat, pos: Bytes, rest: seq<Bytes>)
    requires i <= |argv|
  {
    var after := Scan(argv[i..], pos);
    Scan(argv, []).pos == after.pos && Scan(argv, []).rest == rest + after.rest
  }

  lemma ScanStep(argv: seq<Bytes>, i: nat, pos: Bytes, rest: seq<Bytes>)
    requires i < |argv| && Scanned(argv, i, pos, rest)
    ensures
      if WantsValue(argv[i]) && i + 1 < |argv| then Scanned(argv, i + 2, pos, rest + [argv[i]] + [argv[i + 1]])
      else if IsFlag(argv[i]) || pos != [] then Scanned(argv, i + 1, pos, rest + [argv[i]])
      else Scanned(argv, i + 1, argv[i], rest)
  {
    var left := argv[i..];
    if WantsValue(argv[i]) && i + 1 < |argv| {
      assert left[2..] == argv[i + 2..] && left[..2] == [argv[i]] + [argv[i + 1]];
      Regroup(rest, [argv[i]], [argv[i + 1]], Scan(argv[i + 2..], pos).rest);
    } else {
      assert left[1..] == argv[i + 1..] && left[..1] == [argv[i]];
      Regroup(rest, [argv[i]], [], Scan(argv[i + 1..], pos).rest);
    }
  }

  /** What can stand before the positional: a flag carrying its value, a flag with its
      value after it, or an empty argument. */
  datatype Group = Joined(flag: Bytes) | Pair(flag: Bytes, value: Bytes) | Blank

  predicate WellFormed(g: Group) {
    match g
    case Joined(flag) => IsFlag(flag) && !WantsValue(flag)
    case Pair(flag, _) => WantsValue(flag)
    case Blank => true
  }

  function Tokens(g: Group): seq<Bytes> {
    match g
    case Joined(flag) => [flag]
    case Pair(flag, value) => [flag, value]
    case Blank => [[]]
  }

  /** What of a group reaches the flag parser. */
  function KeptTokens(g: Group): seq<Bytes> {
    if g.Blank? then [] else Tokens(g)
  }

  function Flat(gs: seq<Group>): seq<Bytes> {
    if gs == [] then [] else Tokens(gs[0]) + Flat(gs[1..])
  }

  function Kept(gs: seq<Group>): seq<Bytes> {
    if gs == [] then [] else KeptTokens(gs[0]) + Kept(gs[1..])
  }

  ghost predicate AllWellFormed(gs: seq<Group>) {
    forall i :: 0 <= i < |gs| ==> WellFormed(gs[i])
  }

  lemma {:induction false} GroupsPass(gs: seq<Group>, more: seq<Bytes>)
    requires AllWellFormed(gs)
    ensures Scan(Flat(gs) + more, []).pos == Scan(more, []).pos
    ensures Scan(Flat(gs) + more, []).rest == Kept(gs) + Scan(more, []).rest
  {
    if gs == [] {
      assert Flat(gs) + more == more;
    } else {
      GroupsPass(gs[1..], more);
      var tokens := Tokens(gs[0]);
      assert Flat(gs) + more == tokens + (Flat(gs[1..]) + more);
      FirstGroup(gs[0], Flat(gs[1..]) + more);
      hide Scan;
      Regroup(KeptTokens(gs[0]), Kept(gs[1..]), [], Scan(more, []).rest);
    }
  }

  lemma FirstGroup(g: Group, more: seq<Bytes>)
    requires WellFormed(g)
    ensures Scan(Tokens(g) + more, []).pos == Scan(more, []).pos
    ensures Scan(Tokens(g) + more, []).rest == KeptTokens(g) + Scan(more, []).rest
  {
    var all := Tokens(g) + more;
    assert all[|Tokens(g)|..] == more;
    assert all[..|Tokens(g)|] == Tokens(g);
  }

  /** Once the positional is found nothing else is dropped or moved. */
  lemma {:induction false} HeldPositionalKeepsAll(argv: seq<Bytes>, pos: Bytes)
    requires pos != []
    ensures Scan(argv, pos).pos == pos && Scan(argv, pos).rest == argv
    decreases |argv|
  {
    if argv != [] {
      var n := if WantsValue(argv[0]) && |argv| > 1 then 2 else 1;
      HeldPositionalKeepsAll(argv[n..], pos);
      assert argv == argv[..n] + argv[n..];
    }
  }

  /** The source may stand anywhere among the flags: flags on both sides come out in order,
      and a second bare argument stays where it is. */
  lemma {:induction false} SplitAround(before: seq<Group>, pos: Bytes, after: seq<Bytes>)
    requires AllWellFormed(before) && pos != [] && !IsFlag(pos)
    ensures var r := Scan(Flat(before) + [pos] + after, []); r.pos == pos && r.rest == Kept(before) + after
  {
    assert Flat(before) + [pos] + after == Flat(before) + ([pos] + after);
    GroupsPass(before, [pos] + after);
    assert ([pos] + after)[1..] == after;
    HeldPositionalKeepsAll(after, pos);
  }

  /** Flags alone pass through unchanged, and there is no positional. */
  lemma {:induction false} FlagsPass(gs: seq<Group>)
    requires AllWellFormed(gs) && Blank !in gs
    ensures Scan(Flat(gs), []).pos == [] && Scan(Flat(gs), []).rest == Flat(gs)
  {
    GroupsPass(gs, []);
    assert Flat(gs) + [] == Flat(gs);
    KeptIsFlat(gs);
  }

  lemma {:induction false} KeptIsFlat(gs: seq<Group>)
    requires Blank !in gs
    ensures Kept(gs) == Flat(gs)
  {
    if gs != [] { KeptIsFlat(gs[1..]); }
  }

  /** What follows the groups: nothing, a flag left without a value, or the positional. */
  ghost predicate Tail(tail: seq<Bytes>) {
    || tail == []
    || (|tail| == 1 && WantsValue(tail[0]))
    || (tail[0] != [] && !IsFlag(tail[0]))
  }

  /** Every command line whatever reads as groups and a tail, and that reading says what comes out:
      the only arguments ever lost are empty ones before the positional. */
  lemma {:induction false} EveryCommandLine(argv: seq<Bytes>) returns (gs: seq<Group>, tail: seq<Bytes>)
    ensures AllWellFormed(gs) && Tail(tail) && argv == Flat(gs) + tail
    ensures var r, found := Scan(argv, []), tail != [] && !IsFlag(tail[0]);
      && r.pos == (if found then tail[0] else [])
      && r.rest == Kept(gs) + if found then tail[1..] else tail
    decreases |argv|
  {
    gs, tail := Grouping(argv);
    if tail != [] && !IsFlag(tail[0]) {
      assert argv == Flat(gs) + [tail[0]] + tail[1..];
      SplitAround(gs, tail[0], tail[1..]);
    } else {
      GroupsPass(gs, tail);
      if tail != [] { assert tail[1..] == [] && tail[..1] == tail; }
    }
  }

  lemma {:induction false} Grouping(argv: seq<Bytes>) returns (gs: seq<Group>, tail: seq<Bytes>)
    ensures AllWellFormed(gs) && Tail(tail) && argv == Flat(gs) + tail
    decreases |argv|
  {
    if argv == [] || (argv[0] != [] && !IsFlag(argv[0])) || (|argv| == 1 && WantsValue(argv[0])) {
      return [], argv;
    }
    var g := LeadingGroup(argv);
    hide IsFlag, WantsValue, Tokens, WellFormed, Tail;
    var n := |Tokens(g)|;
    gs, tail := Grouping(argv[n..]);
    Regroup(Tokens(g), Flat(gs), [], tail);
    gs := [g] + gs;
  }

  lemma LeadingGroup(argv: seq<Bytes>) returns (g: Group)
    requires argv != [] && (argv[0] == [] || IsFlag(argv[0])) && (|argv| == 1 ==> !WantsValue(argv[0]))
    ensures WellFormed(g) && 0 < |Tokens(g)| <= |argv|
    ensures argv == Tokens(g) + argv[|Tokens(g)|..]
  {
    g := if argv[0] == [] then Blank else if WantsValue(argv[0]) then Pair(argv[0], argv[1]) else Joined(argv[0]);
  }

  /** One command line: a flag with its value, one that carries it, the source, a last flag. */
  lemma {:induction false} SourceBetweenFlags(source: Bytes, url: Bytes)
    requires source != [] && source[0] != HYPHEN
    ensures Scan([Lit("-prom"), url, Lit("-n=3"), source, Lit("-job-id")], []) ==
      Split(source, [Lit("-prom"), url, Lit("-n=3"), Lit("-job-id")])
  {
    var before := [Pair(Lit("-prom"), url), Joined(Lit("-n=3"))];
    assert Lit("-prom")[0] == HYPHEN && EQUALS !in Lit("-prom");
    assert Lit("-n=3")[0] == HYPHEN && Lit("-n=3")[2] == EQUALS;
    hide Lit, Scan;
    assert [Joined(Lit("-n=3"))][1..] == [] && before[1..] == [Joined(Lit("-n=3"))];
    assert Flat(before[1..]) == [Lit("-n=3")] == Kept(before[1..]);
    assert Flat(before) == [Lit("-prom"), url, Lit("-n=3")] == Kept(before);
    SplitAround(before, source, [Lit("-job-id")]);
    assert Flat(before) + [source] + [Lit("-job-id")] == [Lit("-prom"), url, Lit("-n=3"), source, Lit("-job-id")];
  }

  // ----- windows --------------------------------------------------------------------------------

  datatype Window =
    | Window(start: int, end: int)
    | BadAbsolute
    | EndNotAfterStart
    | BadWindow
    | BadUnit

  const DOTS: Bytes := [DOT, DOT]

  /** strings.Index(s, ".."). */
  function DotsIndex(s: Bytes): (i: Option<nat>)
    ensures i.Some? ==> i.value + 2 <= |s|
  {
    if s == [] then None
    else if HasPrefix(s, DOTS) then Some(0)
    else match DotsIndex(s[1..]) case Some(i) => Some(i + 1) case None => None
  }

  const TWO_64: int := 0x1_0000_0000_0000_0000

  /** int64 arithmetic wraps. */
  function Wrap64(n: int): int { (n - INT64_MIN) % TWO_64 + INT64_MIN }

  function UnitSeconds(unit: byte): Option<int> {
    if unit == 's' as int as byte then Some(1)
    else if unit == 'm' as int as byte then Some(60)
    else if unit == 'h' as int as byte then Some(3600)
    else if unit == 'd' as int as byte then Some(86400)
    else None
  }

  /** parseWindow, at the clock reading `now`. */
  function ParseWindow(win: Bytes, now: int): Window {
    match DotsIndex(win)
    case Some(i) =>
      var s, e := ParseInt64(win[..i]), ParseInt64(win[i + 2..]);
      if s.None? || e.None? then BadAbsolute
      else if e.value <= s.value then EndNotAfterStart
      else Window(s.value, e.value)
    case None =>
      if |win| < 2 then BadWindow
      else
        var n := ParseInt64(win[..|win| - 1]);
        if n.None? then BadWindow
        else match UnitSeconds(win[|win| - 1])
          case None => BadUnit
          case Some(mult) => Window(Wrap64(now - Wrap64(n.value * mult)), now)
  }

  /** A minute is sixty seconds, an hour sixty minutes, a day twenty-four hours; nothing else is a unit. */
  lemma Units(unit: byte)
    ensures UnitSeconds('s' as int as byte) == Some(1)
    ensures UnitSeconds('m' as int as byte) == Some(60 * UnitSeconds('s' as int as byte).value)
    ensures UnitSeconds('h' as int as byte) == Some(60 * UnitSeconds('m' as int as byte).value)
    ensures UnitSeconds('d' as int as byte) == Some(24 * UnitSeconds('h' as int as byte).value)
    ensures UnitSeconds(unit).Some? <==> unit in Lit("smhd")
  {
    assert Lit("smhd") == ['s' as int as byte, 'm' as int as byte, 'h' as int as byte, 'd' as int as byte];
  }

  /** fmt.Sprintf("%d..%d"). */
  function PrintRange(start: int, end: int): Bytes {
    Itoa(start) + DOTS + Itoa(end)
  }

  lemma {:induction false} NoEarlierDots(head: Bytes, more: Bytes)
    requires DOT !in head
    ensures DotsIndex(head + DOTS + more) == Some(|head|)
  {
    var s := head + DOTS + more;
    if head == [] {
      assert s[..2] == DOTS;
    } else {
      assert s[0] == head[0] && s[..2][0] == s[0];
      assert s[1..] == head[1..] + DOTS + more;
      NoEarlierDots(head[1..], more);
    }
  }

  lemma ItoaHasNoDot(n: int)
    ensures DOT !in Itoa(n)
  {
  }

  /** The report reads the range that was printed, for all 64-bit epochs, negative ones
      included, and refuses exactly those that do not run forward. */
  lemma {:induction false} PrintedRangeIsRead(start: int, end: int, now: int)
    requires InInt64(start) && InInt64(end)
    ensures ParseWindow(PrintRange(start, end), now) == if start < end then Window(start, end) else EndNotAfterStart
  {
    var win := PrintRange(start, end);
    ItoaHasNoDot(start);
    NoEarlierDots(Itoa(start), Itoa(end));
    assert win[..|Itoa(start)|] == Itoa(start);
    assert win[|Itoa(start)| + 2..] == Itoa(end);
    ParseItoa(start);
    ParseItoa(end);
  }

  /** A relative window ends now and starts the count of seconds earlier, in wrapping 64-bit
      arithmetic. Unlike an absolute one it is not checked. It runs forward exactly when the
      seconds, taken modulo 2^64, are not zero and do not pass the clock by more than 2^63;
      short of a wrap that means a positive count. */
  lemma {:induction false} RelativeWindowIsUnchecked(n: int, unit: byte, now: int)
    requires InInt64(n) && UnitSeconds(unit).Some? && InInt64(now)
    ensures var seconds := n * UnitSeconds(unit).value;
      var w, start, d := ParseWindow(Itoa(n) + [unit], now), now - seconds, seconds % TWO_64;
      && w == Window(Wrap64(start), now)
      && (w.start < w.end <==> 0 < d <= now + 0x8000_0000_0000_0000)
      && (InInt64(start) ==> w.start == start && (w.start < w.end <==> n > 0))
  {
    UnitIsPositive(n, unit);
    hide *;
    ParsesRelative(n, unit, now);
    RelativeStart(now, n * UnitSeconds(unit).value);
  }

  lemma UnitIsPositive(n: int, unit: byte)
    requires UnitSeconds(unit).Some?
    ensures n * UnitSeconds(unit).value > 0 <==> n > 0
  {
  }

  /** The start as it is computed, against the clock. */
  lemma RelativeStart(now: int, seconds: int)
    requires InInt64(now)
    ensures var start, d := Wrap64(now - Wrap64(seconds)), seconds % TWO_64;
      && start == Wrap64(now - seconds)
      && (start < now <==> 0 < d <= now + 0x8000_0000_0000_0000)
      && (InInt64(now - seconds) ==> start == now - seconds)
  {
    WrapTwice(now, seconds);
    hide Wrap64;
    WrapFits(now - seconds);
    WrappedStart(now, seconds);
  }

  /** The wrapped start is the clock less d seconds, or 2^64 seconds later when that is
      below the least 64-bit integer. */
  lemma WrappedStart(now: int, seconds: int)
    requires InInt64(now)
    ensures var d := seconds % TWO_64;
      Wrap64(now - seconds) == if d <= now + 0x8000_0000_0000_0000 then now - d else now - d + TWO_64
  {
    var d, k := seconds % TWO_64, seconds / TWO_64;
    assert seconds == k * TWO_64 + d;
    ModShift(now - d - INT64_MIN, -k, TWO_64);
    ModShift(now - d - INT64_MIN, 1, TWO_64);
    WrapFits(now - d);
    WrapFits(now - d + TWO_64);
  }

  lemma ParsesRelative(n: int, unit: byte, now: int)
    requires InInt64(n) && UnitSeconds(unit).Some?
    ensures ParseWindow(Itoa(n) + [unit], now) == Window(Wrap64(now - Wrap64(n * UnitSeconds(unit).value)), now)
  {
    var win := Itoa(n) + [unit];
    ItoaHasNoDot(n);
    NoDots(win);
    assert |win| >= 2 && win[..|win| - 1] == Itoa(n) && win[|win| - 1] == unit;
    ParseItoa(n);
    hide Itoa, DotsIndex, ParseInt64, Wrap64;
  }

  lemma WrapFits(n: int)
    ensures InInt64(n) ==> Wrap64(n) == n
  {
  }

  lemma WrapTwice(now: int, seconds: int)
    ensures Wrap64(now - Wrap64(seconds)) == Wrap64(now - seconds)
  {
    var m := TWO_64;
    var k := (seconds - INT64_MIN) / m;
    assert Wrap64(seconds) == seconds - k * m;
    ModShift(now - seconds - INT64_MIN, k, m);
  }

  lemma {:induction false} ModShift(a: int, k: int, m: int)
    requires m > 0
    ensures (a + k * m) % m == a % m
  {
    var q := (a + k * m) / m;
    var r := (a + k * m) % m;
    assert a == (q - k) * m + r;
    DivisionIsUnique(a, q - k, r, m);
  }

  lemma DivisionIsUnique(a: int, q: int, r: int, m: int)
    requires m > 0 && 0 <= r < m && a == q * m + r
    ensures r == a % m
  {
    var d := q - a / m;
    assert d * m == a % m - r;
    assert d >= 1 ==> d * m >= m;
    assert d <= -1 ==> d * m <= -m;
  }

  lemma {:induction false} NoDots(s: Bytes)
    requires DOT !in s
    ensures DotsIndex(s).None?
  {
    if s != [] {
      if |s| >= 2 { assert s[..2][0] == s[0]; }
      NoDots(s[1..]);
    }
  }

  /** Two texts around the first ".." are refused as epochs exactly when one is no 64-bit integer. */
  lemma {:induction false} AbsoluteWindow(a: Bytes, b: Bytes, now: int)
    requires DOT !in a
    ensures var w := ParseWindow(a + [DOT, DOT] + b, now);
      && (w.BadAbsolute? <==> ParseInt64(a).None? || ParseInt64(b).None?)
      && (w.EndNotAfterStart? <==>
            ParseInt64(a).Some? && ParseInt64(b).Some? && ParseInt64(b).value <= ParseInt64(a).value)
      && (w.Window? ==> ParseInt64(a) == Some(w.start) && ParseInt64(b) == Some(w.end))
      && !w.BadWindow? && !w.BadUnit?
  {
    var win := a + DOTS + b;
    NoEarlierDots(a, b);
    assert win[..|a|] == a && win[|a| + 2..] == b;
    hide DotsIndex, ParseInt64;
  }

  /** A text without dots is a count and a unit, or is refused for the count first. */
  lemma {:induction false} RelativeWindow(count: Bytes, unit: byte, now: int)
    requires DOT !in count && unit != DOT
    ensures var w := ParseWindow(count + [unit], now);
      && (w.BadWindow? <==> count == [] || ParseInt64(count).None?)
      && (w.BadUnit? <==> count != [] && ParseInt64(count).Some? && unit !in Lit("smhd"))
      && !w.BadAbsolute? && !w.EndNotAfterStart?
  {
    var win := count + [unit];
    NoDots(win);
    Units(unit);
    assert win[..|win| - 1] == count;
    hide DotsIndex, ParseInt64, UnitSeconds, Lit;
  }

  // ----- from the form to the report ----------------------------------------------------------------

  /** time.Parse("2006-01-02", _) as the epoch of that day's midnight, for the years
      the layout can express. */
  type Midnight = n: int | -62_167_219_200 <= n <= 253_402_300_800 witness 0

  type Calendar = Bytes -> Option<Midnight>

  datatype Moment = Moment(epoch: int) | Incomplete | BadDate | BadHour | BadMinute

  /** parseUTCMoment. */
  function ParseUtcMoment(calendar: Calendar, date: Bytes, hour: Bytes, minute: Bytes): (r: Moment)
    ensures r.Moment? ==> InInt64(r.epoch)
  {
    if date == [] || hour == [] || minute == [] then Incomplete
    else match calendar(date)
      case None => BadDate
      case Some(midnight) =>
        var h := ParseInt64(hour);
        if h.None? || h.value < 0 || h.value > 23 then BadHour
        else
          var m := ParseInt64(minute);
          if m.None? || m.value < 0 || m.value > 59 then BadMinute
          else Moment(midnight + 3600 * h.value + 60 * m.value)
  }

  /** Which printed numbers name a moment, and the clock it shows: its date, hour and minute can be
      read back from the epoch. */
  lemma {:induction false} MomentShows(calendar: Calendar, date: Bytes, h: int, m: int)
    requires date != [] && InInt64(h) && InInt64(m)
    ensures var r := ParseUtcMoment(calendar, date, Itoa(h), Itoa(m));
      if calendar(date).None? then r == BadDate
      else if !(0 <= h < 24) then r == BadHour
      else if !(0 <= m < 60) then r == BadMinute
      else
        && r.Moment?
        && var second := r.epoch - calendar(date).value;
          0 <= second < 24 * 60 * 60 && second % 60 == 0 && second / 60 % 60 == m && second / 60 / 60 == h
  {
    ParseItoa(h);
    ParseItoa(m);
    assert Itoa(h) != [] && Itoa(m) != [];
    hide Itoa, ParseInt64;
  }

  /** An absent field is told apart from a wrong one. */
  lemma IncompleteMoment(calendar: Calendar, date: Bytes, hour: Bytes, minute: Bytes)
    ensures ParseUtcMoment(calendar, date, hour, minute).Incomplete? <==> [] in [date, hour, minute]
  {
    hide ParseInt64;
  }

  /** Days as the calendar counts them: one midnight, or midnights a day or more apart. */
  ghost predicate DaysApart(calendar: Calendar, d: Bytes, e: Bytes) {
    && calendar(d).Some? && calendar(e).Some?
    && var x, y := calendar(d).value, calendar(e).value; x == y || x + 86_400 <= y || y + 86_400 <= x
  }

  /** Moments come in the order of their date, then their hour, then their minute. */
  lemma {:induction false} MomentsInOrder(
    calendar: Calendar, d: Bytes, h: int, m: int, d': Bytes, h': int, m': int)
    requires d != [] && d' != [] && DaysApart(calendar, d, d')
    requires 0 <= h < 24 && 0 <= m < 60 && 0 <= h' < 24 && 0 <= m' < 60
    ensures var r := ParseUtcMoment(calendar, d, Itoa(h), Itoa(m));
      var r' := ParseUtcMoment(calendar, d', Itoa(h'), Itoa(m'));
      && r.Moment? && r'.Moment?
      && var x, y := calendar(d).value, calendar(d').value;
        r.epoch < r'.epoch <==> x < y || (x == y && (h < h' || (h == h' && m < m')))
  {
    MomentShows(calendar, d, h, m);
    MomentShows(calendar, d', h', m');
    hide Itoa, ParseInt64, ParseUtcMoment;
  }

  datatype Form = Form(
    startDate: Bytes, startHour: Bytes, startMin: Bytes, endDate: Bytes, endHour: Bytes, endMin: Bytes)

  datatype BuiltWindow = Built(text: Bytes) | StartError(moment: Moment) | EndError(moment: Moment) | NotAfter

  function StartOf(calendar: Calendar, f: Form): Moment {
    ParseUtcMoment(calendar, f.startDate, f.startHour, f.startMin)
  }

  function EndOf(calendar: Calendar, f: Form): Moment { ParseUtcMoment(calendar, f.endDate, f.endHour, f.endMin) }

  predicate AllEmpty(f: Form) {
    f.startDate == [] && f.startHour == [] && f.startMin == [] && f.endDate == [] && f.endHour == [] && f.endMin == []
  }

  /** A text is built exactly for an untouched form and for two valid moments in order; the
      first is empty and the report reads the second as just these moments. */
  method BuildWindow(calendar: Calendar, f: Form, ghost now: int) returns (r: BuiltWindow)
    ensures r == Built([]) <==> AllEmpty(f)
    ensures var s, e := StartOf(calendar, f), EndOf(calendar, f);
      && (r.Built? && r.text != [] <==> s.Moment? && e.Moment? && s.epoch < e.epoch)
      && (r.Built? && r.text != [] ==> ParseWindow(r.text, now) == Window(s.epoch, e.epoch))
      && (r.StartError? <==> !AllEmpty(f) && !s.Moment?) && (r.StartError? ==> r.moment == s)
      && (r.EndError? <==> s.Moment? && !e.Moment?) && (r.EndError? ==> r.moment == e)
      && (r.NotAfter? <==> s.Moment? && e.Moment? && e.epoch <= s.epoch)
  {
    var fields := [f.startDate, f.startHour, f.startMin, f.endDate, f.endHour, f.endMin];
    var allEmpty := true;
    for i := 0 to |fields|
      invariant allEmpty && forall k :: 0 <= k < i ==> fields[k] == []
    {
      if fields[i] != [] {
        allEmpty := false;
        break;
      }
    }
    assert fields[0] == f.startDate && fields[1] == f.startHour && fields[2] == f.startMin;
    assert fields[3] == f.endDate && fields[4] == f.endHour && fields[5] == f.endMin;
    if allEmpty {
      return Built([]);
    }
    var start := ParseUtcMoment(calendar, f.startDate, f.startHour, f.startMin);
    if !start.Moment? { return StartError(start); }
    var end := ParseUtcMoment(calendar, f.endDate, f.endHour, f.endMin);
    if !end.Moment? { return EndError(end); }
    if !(end.epoch > start.epoch) { return NotAfter; }
    PrintedRangeIsRead(start.epoch, end.epoch, now);
    return Built(PrintRange(start.epoch, end.epoch));
  }

  lemma FlagNames()
    ensures WantsValue(Lit("-prom")) && WantsValue(Lit("-job-id")) && WantsValue(Lit("-window"))
  {
  }

  /** The arguments after "report" that runReport passes to itself. */
  method ReportArgs(promUrl: Bytes, jobId: Bytes, window: Bytes) returns (args: seq<Bytes>)
    ensures Scan(args, []).pos == [] && Scan(args, []).rest == args
    ensures args == Flat([Pair(Lit("-prom"), promUrl)]
      + (if jobId == [] then [] else [Pair(Lit("-job-id"), jobId)])
      + (if window == [] then [] else [Pair(Lit("-window"), window)]))
  {
    args := [Lit("-prom"), promUrl];
    FlagNames();
    ghost var gs := [Pair(Lit("-prom"), promUrl)];
    assert gs[1..] == [] && Flat(gs) == args;
    hide Lit, WantsValue, Flat;
    if jobId != [] {
      args := args + [Lit("-job-id"), jobId];
      FlatAppend(gs, Pair(Lit("-job-id"), jobId));
      gs := gs + [Pair(Lit("-job-id"), jobId)];
    }
    if window != [] {
      args := args + [Lit("-window"), window];
      FlatAppend(gs, Pair(Lit("-window"), window));
      gs := gs + [Pair(Lit("-window"), window)];
    }
    FlagsPass(gs);
  }

  lemma {:induction false} FlatAppend(gs: seq<Group>, g: Group)
    ensures Flat(gs + [g]) == Flat(gs) + Tokens(g)
  {
    hide Tokens;
    if gs == [] {
      assert [g][1..] == [];
    } else {
      FlatAppend(gs[1..], g);
      assert (gs + [g])[1..] == gs[1..] + [g] && (gs + [g])[0] == gs[0];
      assert Flat(gs + [g]) == Tokens(gs[0]) + Flat(gs[1..] + [g]);
      hide Flat;
      Regroup(Tokens(gs[0]), Flat(gs[1..]), [], Tokens(g));
    }
  }
}

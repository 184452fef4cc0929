/** exporter/labelbound.go: the label-size contract and the self-describing cut. */
module LabelBound {
  import opened Wrappers
  import opened Utf8
  import opened Decimal
  import opened Givens

  const NAME := Lit("name")
  const CMDLINE := Lit("cmdline")
  const CI_JOB_NAME := Lit("ci_job_name")
  const CI_PROJECT_PATH := Lit("ci_project_path")
  const CI_JOB_ID := Lit("ci_job_id")
  const CI_PIPELINE_ID := Lit("ci_pipeline_id")

  /** The published contract: label name to limit in bytes. */
  const MAX_LABEL_BYTES: map<Bytes, int> := map[
    NAME := 128,
    CMDLINE := 2048,
    CI_JOB_NAME := 256,
    CI_PROJECT_PATH := 256,
    CI_JOB_ID := 32,
    CI_PIPELINE_ID := 32
  ]

  /** "…" in UTF-8. */
  const ELLIPSIS: Bytes := [0xE2, 0x80, 0xA6]
  const LEN_OPEN := Lit("[len=")
  const SHA_SEP := Lit(";sha256=")
  const CLOSE: byte := 0x5D
  const FINGERPRINT_LEN := 12
  const MAX_LEN_DIGITS := 20
  const MAX_MARKER_LEN := |ELLIPSIS| + |LEN_OPEN| + MAX_LEN_DIGITS + |SHA_SEP| + FINGERPRINT_LEN + 1
  const MAX_ENVIRON_BYTES := 8192
  const MIN_LABEL_BYTES := MAX_MARKER_LEN
  const MAX_LABEL_BYTES_CEILING := MAX_ENVIRON_BYTES - MAX_MARKER_LEN

  // ----- cutting ---------------------------------------------------------------

  /** The last rune start at or before `i`, or 0. */
  function CutPoint(s: Bytes, i: nat): (c: nat)
    requires i < |s|
    ensures c <= i && (c == 0 || RuneStart(s[c]))
  {
    if i == 0 || RuneStart(s[i]) then i else CutPoint(s, i - 1)
  }

  const MARKER_OPEN := ELLIPSIS + LEN_OPEN

  /** The last 21 bytes of every marker. */
  function MarkerTail(digest: Digest): Bytes {
    SHA_SEP + digest + [CLOSE]
  }

  function Marker(fp: Fingerprint, s: Bytes): Bytes {
    MARKER_OPEN + Digits(|s|) + MarkerTail(fp(s))
  }

  function Truncated(fp: Fingerprint, s: Bytes, max: int): Bytes {
    if max <= 0 || |s| <= max then s else s[..CutPoint(s, max)] + Marker(fp, s)
  }

  method TruncateWithFingerprint(fp: Fingerprint, s: Bytes, max: int) returns (r: Bytes)
    ensures r == Truncated(fp, s, max)
  {
    if max <= 0 || |s| <= max {
      return s;
    }
    var i := max;
    while i > 0 && !RuneStart(s[i])
      invariant 0 <= i <= max
      invariant CutPoint(s, i) == CutPoint(s, max)
    {
      i := i - 1;
    }
    r := s[..i] + ELLIPSIS + LEN_OPEN + Itoa(|s|) + SHA_SEP + fp(s) + [CLOSE];
    assert r == s[..i] + Marker(fp, s);
  }

  /** No cut between CutPoint and the limit is valid, and CutPoint gives up at most three bytes. */
  lemma {:induction false} CutPointIsLongest(s: Bytes, i: nat)
    requires Valid(s) && i < |s|
    ensures Valid(s[..CutPoint(s, i)])
    ensures forall j :: CutPoint(s, i) < j <= i ==> !Valid(s[..j])
    ensures i <= CutPoint(s, i) + 3
  {
    var back := RuneStartNearby(s, i);
    CutPointReaches(s, i, i - back);
    BoundaryIffRuneStart(s, CutPoint(s, i));
    assert s[..0] == [];
    forall j | CutPoint(s, i) < j <= i ensures !Valid(s[..j]) {
      CutPointSkipsNoStart(s, i, j);
      BoundaryIffRuneStart(s, j);
    }
  }

  lemma {:induction false} CutPointReaches(s: Bytes, i: nat, start: nat)
    requires start <= i < |s| && RuneStart(s[start])
    ensures start <= CutPoint(s, i)
  {
    if i > start && !RuneStart(s[i]) { CutPointReaches(s, i - 1, start); }
  }

  lemma {:induction false} CutPointSkipsNoStart(s: Bytes, i: nat, j: nat)
    requires i < |s| && CutPoint(s, i) < j <= i
    ensures !RuneStart(s[j])
  {
    if j < i { CutPointSkipsNoStart(s, i - 1, j); }
  }

  lemma MarkerIsValid(fp: Fingerprint, s: Bytes)
    ensures Valid(Marker(fp, s))
  {
    var rest := LEN_OPEN + Digits(|s|) + MarkerTail(fp(s));
    assert Marker(fp, s) == ELLIPSIS + rest;
    AsciiIsValid(rest);
    assert Valid(ELLIPSIS) by { assert ELLIPSIS[3..] == []; }
    ValidConcat(ELLIPSIS, rest);
  }

  /** What a cut value looks like: the longest rune-aligned prefix within the
      limit, then the marker; valid UTF-8, strictly longer than the limit and at
      most 49 bytes past it. */
  lemma {:induction false} TruncationShape(fp: Fingerprint, s: Bytes, max: int)
    requires Valid(s) && 0 < max < |s| && |s| <= 3 * INT64_MAX
    ensures var r := Truncated(fp, s, max);
      && var cut := CutPoint(s, max);
      && r[..cut] == s[..cut] && r[cut..] == Marker(fp, s)
      && max - 3 <= cut <= max && Valid(s[..cut])
      && (forall j :: cut < j <= max ==> !Valid(s[..j]))
      && Valid(r)
      && max < |r| <= max + MAX_MARKER_LEN
  {
    CutPointIsLongest(s, max);
    TwentyDigits(|s|);
    MarkerIsValid(fp, s);
    ValidConcat(s[..CutPoint(s, max)], Marker(fp, s));
  }

  // ----- reading a cut value back ------------------------------------------------

  datatype Cut = Cut(prefix: Bytes, length: nat, digest: Bytes)

  /** Where the run of digits that ends `s` starts. */
  function DigitsStart(s: Bytes): (d: nat)
    ensures d <= |s| && AllDigits(s[d..])
  {
    if s == [] || !Digit(s[|s| - 1]) then |s|
    else
      var d := DigitsStart(s[..|s| - 1]);
      assert s[d..] == s[..|s| - 1][d..] + [s[|s| - 1]];
      d
  }

  lemma {:induction false} DigitsStartStops(a: Bytes, ds: Bytes)
    requires a != [] && !Digit(a[|a| - 1]) && AllDigits(ds)
    ensures DigitsStart(a + ds) == |a|
  {
    if ds == [] {
      assert a + ds == a;
    } else {
      assert (a + ds)[..|a + ds| - 1] == a + ds[..|ds| - 1];
      DigitsStartStops(a, ds[..|ds| - 1]);
    }
  }

  /** Reads "<prefix>…[len=<N>;sha256=<12 hex>]" from its end. */
  function ParseCut(r: Bytes): Option<Cut> {
    if |r| < 21 then None
    else
      var tail, head := r[|r| - 21..], r[..|r| - 21];
      var d := DigitsStart(head);
      if tail[..8] != SHA_SEP || tail[20] != CLOSE || d == |head| || d < 8 || head[d - 8..d] != MARKER_OPEN then None
      else Some(Cut(head[..d - 8], DigitsValue(head[d..]), tail[8..20]))
  }

  /** Prefix, original length and fingerprint can be read back from a cut value. */
  lemma {:induction false} ParseTruncated(fp: Fingerprint, s: Bytes, max: int)
    requires 0 < max < |s|
    ensures ParseCut(Truncated(fp, s, max)) == Some(Cut(s[..CutPoint(s, max)], |s|, fp(s)))
  {
    var p := s[..CutPoint(s, max)];
    assert Truncated(fp, s, max) == p + MARKER_OPEN + Digits(|s|) + MarkerTail(fp(s));
    ParseAssembled(p, |s|, fp(s));
  }

  lemma {:induction false} ParseAssembled(p: Bytes, n: nat, digest: Digest)
    ensures ParseCut(p + MARKER_OPEN + Digits(n) + MarkerTail(digest)) == Some(Cut(p, n, digest))
  {
    var before, tail := p + MARKER_OPEN, MarkerTail(digest);
    var head := before + Digits(n);
    OpenMarkerStops(p, n);
    DigitsRoundTrip(n);
    assert |tail| == 21 && tail[..8] == SHA_SEP && tail[8..20] == digest && tail[20] == CLOSE;
    hide MarkerTail, Digits, DigitsStart, DigitsValue, AllDigits;
    assert (head + tail)[|head|..] == tail && (head + tail)[..|head|] == head;
    assert head[|p|..|before|] == MARKER_OPEN && head[..|p|] == p && head[|before|..] == Digits(n);
  }

  lemma OpenMarkerStops(p: Bytes, n: nat)
    ensures DigitsStart(p + MARKER_OPEN + Digits(n)) == |p| + 8
  {
    var before := p + MARKER_OPEN;
    assert before[|before| - 1] == MARKER_OPEN[7] && !Digit(MARKER_OPEN[7]);
    DigitsStartStops(before, Digits(n));
  }

  /** Distinct values stay distinct: two values share a bounded form exactly when
      they are equal, or both are cut with the same prefix, the same length and
      colliding fingerprints. A cut value never meets one that passed through. */
  lemma {:induction false} TruncationDistinguishes(fp: Fingerprint, s: Bytes, t: Bytes, max: int)
    requires Valid(s) && Valid(t) && max > 0
    requires |s| <= 3 * INT64_MAX && |t| <= 3 * INT64_MAX
    ensures Truncated(fp, s, max) == Truncated(fp, t, max) <==>
            || s == t
            || (&& |s| == |t| > max
                && s[..CutPoint(s, max)] == t[..CutPoint(t, max)]
                && fp(s) == fp(t))
  {
    if |s| > max { ParseTruncated(fp, s, max); TruncationShape(fp, s, max); }
    if |t| > max { ParseTruncated(fp, t, max); TruncationShape(fp, t, max); }
  }

  /** A value equals its own bounded form exactly when it is within the limit or
      already ends in the marker that would replace its tail. */
  lemma {:induction false} UnchangedIff(fp: Fingerprint, s: Bytes, max: int)
    ensures Truncated(fp, s, max) == s <==>
            max <= 0 || |s| <= max || s[CutPoint(s, max)..] == Marker(fp, s)
  {
    if 0 < max < |s| {
      var c := CutPoint(s, max);
      assert s == s[..c] + s[c..];
      assert (s[..c] + Marker(fp, s))[c..] == Marker(fp, s);
    }
  }

  // ----- limit tables ------------------------------------------------------------

  predicate UsableLimit(limit: int) { MIN_LABEL_BYTES <= limit <= MAX_LABEL_BYTES_CEILING }

  /** The effective table: the contract, with every usable override of a contract label applied. */
  function Merged(overrides: map<Bytes, int>): (limits: map<Bytes, int>)
    ensures limits.Keys == MAX_LABEL_BYTES.Keys
  {
    map name | name in MAX_LABEL_BYTES ::
      if name in overrides && UsableLimit(overrides[name]) then overrides[name] else MAX_LABEL_BYTES[name]
  }

  /** Whatever order both maps are iterated in, the result is the one merged table. */
  method MergedMaxLabelBytes(overrides: map<Bytes, int>) returns (out: map<Bytes, int>)
    ensures out == Merged(overrides)
  {
    out := map[];
    var rest := MAX_LABEL_BYTES.Keys;
    while rest != {}
      invariant rest <= MAX_LABEL_BYTES.Keys
      invariant out == map l | l in MAX_LABEL_BYTES.Keys - rest :: MAX_LABEL_BYTES[l]
    {
      var name :| name in rest;
      out := out[name := MAX_LABEL_BYTES[name]];
      rest := rest - {name};
    }
    rest := overrides.Keys;
    while rest != {}
      invariant rest <= overrides.Keys
      invariant out.Keys == MAX_LABEL_BYTES.Keys
      invariant forall l :: l in out ==> out[l] == if l in rest then MAX_LABEL_BYTES[l] else Merged(overrides)[l]
    {
      var name :| name in rest;
      if name in out && UsableLimit(overrides[name]) {
        out := out[name := overrides[name]];
      }
      rest := rest - {name};
    }
  }

  /** Merging keeps the contract's labels and every limit within 32..8143, so no
      bounded value can pass the 8192-byte ceiling. */
  lemma MergedLimitRange(overrides: map<Bytes, int>, name: Bytes)
    requires name in MAX_LABEL_BYTES
    ensures 32 <= Merged(overrides)[name] <= MAX_LABEL_BYTES_CEILING == 8143
    ensures name in overrides && 49 <= overrides[name] <= 8143 ==> Merged(overrides)[name] == overrides[name]
  {
  }

  // ----- bounding one label ------------------------------------------------------

  function Bounded(fp: Fingerprint, limits: map<Bytes, int>, name: Bytes, value: Bytes): Bytes {
    if name in limits then Truncated(fp, value, limits[name]) else value
  }

  /** gitlab_exporter_label_truncations_total, keyed by label name. */
  class TruncationCounter {
    var counts: map<Bytes, nat>

    /** Every contract label starts at zero, so "nothing cut" differs from "not instrumented". */
    constructor ()
      ensures counts == map name | name in MAX_LABEL_BYTES :: 0
    {
      counts := map name | name in MAX_LABEL_BYTES :: 0;
    }

    method ObserveTruncation(name: Bytes)
      modifies this
      ensures counts == Incremented(old(counts), name, 1)
    {
      counts := counts[name := (if name in counts then counts[name] else 0) + 1];
    }
  }

  /** A counter vector after `n` increments of one label; an untouched label gains no entry. */
  function Incremented(counts: map<Bytes, nat>, name: Bytes, n: nat): map<Bytes, nat> {
    if n == 0 then counts else counts[name := (if name in counts then counts[name] else 0) + n]
  }

  /** 1 when bounding changes the value, else 0. */
  function CutCount(fp: Fingerprint, limits: map<Bytes, int>, name: Bytes, value: Bytes): nat {
    if Bounded(fp, limits, name, value) != value then 1 else 0
  }

  method BoundLabelWith(fp: Fingerprint, limits: map<Bytes, int>, name: Bytes, value: Bytes, obs: TruncationCounter?)
    returns (bounded: Bytes)
    modifies obs
    ensures bounded == Bounded(fp, limits, name, value)
    ensures obs != null ==> obs.counts == Incremented(old(obs.counts), name, CutCount(fp, limits, name, value))
  {
    if name !in limits {
      return value;
    }
    bounded := TruncateWithFingerprint(fp, value, limits[name]);
    if bounded != value && obs != null {
      obs.ObserveTruncation(name);
    }
  }

  /** Under any merged table, hand-built overrides included, the bounded form of
      any sanitised /proc value is valid UTF-8 and fits the 8192-byte ceiling. */
  lemma {:induction false} BoundedFits(fp: Fingerprint, overrides: map<Bytes, int>, name: Bytes, raw: Bytes)
    requires name in MAX_LABEL_BYTES && |raw| <= INT64_MAX
    ensures var b := Bounded(fp, Merged(overrides), name, SanitizeLabelValue(raw));
      Valid(b) && |b| <= MAX_ENVIRON_BYTES
  {
    SanitizeMakesValid(raw);
    MergedLimitRange(overrides, name);
    var s, max := SanitizeLabelValue(raw), Merged(overrides)[name];
    if |s| > max { TruncationShape(fp, s, max); }
  }
}

/** exporter/collector.go: the two ways an environment leaves the process — the
    packed "environ" label and the redacted JSON map. */
module Environ {
  import opened Utf8
  import opened Decimal
  import opened Sequences
  import opened Order
  import opened Givens
  import opened LabelBound
  import opened Config
  import opened Secrets

  const REDACTED := Lit("[REDACTED]")
  const TRUNC_OPEN := Lit("[TRUNCATED;len=")
  /** ", ". */
  const SEP: Bytes := [0x2C, 0x20]
  const MAX_ENVIRON_VARS := 100
  const MAX_ENVIRON_VALUE_LEN := 256

  /** A Go map: shared by reference between a sample and every copy of it. */
  class EnvironMap {
    var m: map<Bytes, Bytes>

    constructor (m: map<Bytes, Bytes>)
      ensures this.m == m
    {
      this.m := m;
    }
  }

  // ----- the JSON path --------------------------------------------------------------

  function RedactedValue(text: Text, extra: seq<Bytes>, k: Bytes, v: Bytes): Bytes {
    if IsSensitivePair(text, k, v, extra) then REDACTED else v
  }

  function RedactedMap(text: Text, extra: seq<Bytes>, m: map<Bytes, Bytes>): map<Bytes, Bytes> {
    map k | k in m :: RedactedValue(text, extra, k, m[k])
  }

  /** A new map: nothing reachable before the call changes. */
  method RedactEnviron(text: Text, environ: EnvironMap, extra: seq<Bytes>) returns (out: EnvironMap)
    ensures fresh(out) && out.m == RedactedMap(text, extra, environ.m)
  {
    out := new EnvironMap(map[]);
    var rest := environ.m.Keys;
    hide IsSensitivePair;
    while rest != {}
      invariant fresh(out) && rest <= environ.m.Keys
      invariant out.m.Keys == environ.m.Keys - rest
      invariant forall k :: k in out.m ==> out.m[k] == RedactedValue(text, extra, k, environ.m[k])
    {
      var k :| k in rest;
      var v := environ.m[k];
      if IsSensitivePair(text, k, v, extra) {
        v := REDACTED;
      }
      out.m := out.m[k := v];
      rest := rest - {k};
    }
  }

  // ----- one rendered pair -------------------------------------------------------------

  function EnvironTruncMarker(s: Bytes): Bytes {
    TRUNC_OPEN + Digits(|s|) + [CLOSE]
  }

  function RenderedValue(text: Text, extra: seq<Bytes>, k: Bytes, raw: Bytes): Bytes {
    var val := SanitizeLabelValue(raw);
    if IsSensitivePair(text, k, val, extra) then REDACTED
    else if |val| > MAX_ENVIRON_VALUE_LEN then EnvironTruncMarker(val)
    else val
  }

  function Pair(text: Text, extra: seq<Bytes>, k: Bytes, raw: Bytes): Bytes {
    SanitizeLabelValue(k) + [EQUALS] + RenderedValue(text, extra, k, raw)
  }

  /** Every rendered value is valid UTF-8 of at most 256 bytes. */
  lemma {:induction false} RenderedValueFits(text: Text, extra: seq<Bytes>, k: Bytes, raw: Bytes)
    requires |raw| <= INT64_MAX
    ensures Valid(RenderedValue(text, extra, k, raw))
    ensures |RenderedValue(text, extra, k, raw)| <= MAX_ENVIRON_VALUE_LEN
  {
    SanitizeMakesValid(raw);
    var val := SanitizeLabelValue(raw);
    if IsSensitivePair(text, k, val, extra) {
      AsciiIsValid(REDACTED);
    } else if |val| > MAX_ENVIRON_VALUE_LEN {
      EnvironMarkerFits(val);
    }
  }

  lemma EnvironMarkerFits(s: Bytes)
    requires |s| <= 3 * INT64_MAX
    ensures Valid(EnvironTruncMarker(s)) && |EnvironTruncMarker(s)| <= 36
  {
    AsciiIsValid(EnvironTruncMarker(s));
    TwentyDigits(|s|);
  }

  lemma PairIsValid(text: Text, extra: seq<Bytes>, k: Bytes, raw: Bytes)
    requires |raw| <= INT64_MAX
    ensures Valid(Pair(text, extra, k, raw))
  {
    hide Valid, SanitizeLabelValue, RenderedValue;
    var name, value := SanitizeLabelValue(k), RenderedValue(text, extra, k, raw);
    SanitizeMakesValid(k);
    RenderedValueFits(text, extra, k, raw);
    AsciiIsValid([EQUALS]);
    ValidConcat([EQUALS], value);
    ValidConcat(name, [EQUALS] + value);
    assert Pair(text, extra, k, raw) == name + ([EQUALS] + value);
  }

  // ----- greedy packing under the ceiling ------------------------------------------------

  function Join(parts: seq<Bytes>): Bytes {
    if parts == [] then []
    else if |parts| == 1 then parts[0]
    else Join(parts[..|parts| - 1]) + SEP + parts[|parts| - 1]
  }

  /** What appending a pair to a non-empty or empty label gives. */
  function Appended(acc: Bytes, pair: Bytes): Bytes {
    if acc != [] then acc + SEP + pair else pair
  }

  predicate Fits(acc: Bytes, pair: Bytes) {
    |Appended(acc, pair)| <= MAX_ENVIRON_BYTES
  }

  function Select(pairs: seq<Bytes>, kept: seq<nat>): seq<Bytes>
    requires forall i :: 0 <= i < |kept| ==> kept[i] < |pairs|
  {
    seq(|kept|, i requires 0 <= i < |kept| => pairs[kept[i]])
  }

  /** Ascending positions among the first n. */
  ghost predicate Indices(kept: seq<nat>, n: nat) {
    Increasing(kept) && forall i :: 0 <= i < |kept| ==> kept[i] < n
  }

  /** The label after the loop has seen the first n pairs. */
  ghost function Label(pairs: seq<Bytes>, n: nat): Bytes
    requires n <= |pairs|
  {
    if n == 0 then []
    else
      var acc := Label(pairs, n - 1);
      if Fits(acc, pairs[n - 1]) then Appended(acc, pairs[n - 1]) else acc
  }

  /** The indices, among the first n pairs, that the loop writes. */
  ghost function Kept(pairs: seq<Bytes>, n: nat): (kept: seq<nat>)
    requires n <= |pairs|
    ensures Indices(kept, n) && |kept| <= n
  {
    if n == 0 then []
    else Kept(pairs, n - 1) + if Fits(Label(pairs, n - 1), pairs[n - 1]) then [n - 1] else []
  }

  lemma {:induction false} LabelIsJoin(pairs: seq<Bytes>, n: nat)
    requires n <= |pairs|
    requires forall i :: 0 <= i < |pairs| ==> pairs[i] != []
    ensures Label(pairs, n) == Join(Select(pairs, Kept(pairs, n)))
    ensures Label(pairs, n) == [] <==> Kept(pairs, n) == []
  {
    hide Label, Kept, Fits, Appended, Select, Join;
    if n == 0 {
      NothingLabelled(pairs);
    } else {
      LabelIsJoin(pairs, n - 1);
      LabelStep(pairs, n);
      AppendedIs(Label(pairs, n - 1), pairs[n - 1]);
      if Fits(Label(pairs, n - 1), pairs[n - 1]) {
        SelectSnoc(pairs, Kept(pairs, n - 1), n - 1);
        JoinSnoc(Select(pairs, Kept(pairs, n - 1)), pairs[n - 1]);
      }
    }
  }

  lemma NothingLabelled(pairs: seq<Bytes>)
    ensures Label(pairs, 0) == [] && Kept(pairs, 0) == [] && Join(Select(pairs, [])) == []
  {
  }

  lemma AppendedIs(acc: Bytes, pair: Bytes)
    ensures Appended(acc, pair) == if acc == [] then pair else acc + SEP + pair
    ensures pair != [] ==> Appended(acc, pair) != []
  {
  }

  lemma LabelStep(pairs: seq<Bytes>, n: nat)
    requires 0 < n <= |pairs|
    ensures var acc, kept := Label(pairs, n - 1), Kept(pairs, n - 1);
      if Fits(acc, pairs[n - 1]) then Label(pairs, n) == Appended(acc, pairs[n - 1]) && Kept(pairs, n) == kept + [n - 1]
      else Label(pairs, n) == acc && Kept(pairs, n) == kept
  {
    hide Fits, Appended;
  }

  lemma SelectSnoc(pairs: seq<Bytes>, kept: seq<nat>, i: nat)
    requires i < |pairs| && Indices(kept, i)
    ensures Select(pairs, kept + [i]) == Select(pairs, kept) + [pairs[i]]
    ensures |Select(pairs, kept)| == |kept|
  {
  }

  lemma JoinSnoc(parts: seq<Bytes>, pair: Bytes)
    ensures Join(parts + [pair]) == if parts == [] then pair else Join(parts) + SEP + pair
  {
    assert (parts + [pair])[..|parts|] == parts;
  }

  lemma {:induction false} LabelGrows(pairs: seq<Bytes>, n: nat, m: nat)
    requires n <= m <= |pairs|
    ensures |Label(pairs, n)| <= |Label(pairs, m)|
    ensures |Label(pairs, m)| <= MAX_ENVIRON_BYTES
    decreases m
  {
    if m > 0 {
      LabelGrows(pairs, if n < m then n else m - 1, m - 1);
    }
  }

  /** An index is kept exactly when its pair fit the label of the kept pairs before it. */
  lemma {:induction false} KeptIff(pairs: seq<Bytes>, n: nat, i: nat)
    requires i < n <= |pairs|
    ensures i in Kept(pairs, n) <==> Fits(Label(pairs, i), pairs[i])
  {
    if i < n - 1 { KeptIff(pairs, n - 1, i); }
    LabelStep(pairs, n);
    assert i in [n - 1] <==> i == n - 1;
    hide Label, Fits, Kept;
  }

  /** Packing is greedy and maximal: the label is the join of the kept pairs in
      order, fits the ceiling, and no omitted pair would fit after the FINAL label. */
  lemma {:induction false} PackingIsMaximal(pairs: seq<Bytes>)
    requires forall i :: 0 <= i < |pairs| ==> pairs[i] != []
    ensures var kept, out := Kept(pairs, |pairs|), Label(pairs, |pairs|);
      && Indices(kept, |pairs|) && out == Join(Select(pairs, kept))
      && |out| <= MAX_ENVIRON_BYTES
      && (forall i :: 0 <= i < |pairs| && i !in kept ==> !Fits(out, pairs[i]))
      && (|kept| == |pairs| <==> forall i :: 0 <= i < |pairs| ==> i in kept)
  {
    var n := |pairs|;
    LabelIsJoin(pairs, n);
    LabelGrows(pairs, n, n);
    forall i | 0 <= i < n && i !in Kept(pairs, n) ensures !Fits(Label(pairs, n), pairs[i]) {
      KeptIff(pairs, n, i);
      LabelGrows(pairs, i, n);
    }
    IndicesFull(Kept(pairs, n), n);
  }

  lemma {:induction false} IndicesFull(kept: seq<nat>, n: nat)
    requires Indices(kept, n)
    ensures |kept| <= n
    ensures |kept| == n <==> forall i :: 0 <= i < n ==> i in kept
  {
    if kept == [] {
      assert n > 0 ==> 0 !in kept;
    } else {
      var last := kept[|kept| - 1];
      var front := kept[..|kept| - 1];
      IndicesFull(front, last);
      assert forall i :: i in kept <==> i in front || i == last;
      if last < n - 1 { assert n - 1 !in kept; }
    }
  }

  lemma {:induction false} LabelIsValid(pairs: seq<Bytes>, n: nat)
    requires n <= |pairs|
    requires forall i :: 0 <= i < |pairs| ==> Valid(pairs[i])
    ensures Valid(Label(pairs, n))
  {
    if n > 0 {
      LabelIsValid(pairs, n - 1);
      LabelStep(pairs, n);
      hide Label, Kept, Fits, Valid;
      var acc := Label(pairs, n - 1);
      AsciiIsValid(SEP);
      ValidConcat(acc, SEP);
      ValidConcat(acc + SEP, pairs[n - 1]);
    }
  }

  // ----- the label -------------------------------------------------------------------------

  ghost function EmittedKeys(environ: map<Bytes, Bytes>): (keys: seq<Bytes>)
    ensures forall i :: 0 <= i < |keys| ==> keys[i] in environ
  {
    var all := Sorted(environ.Keys);
    var keys := if |all| > MAX_ENVIRON_VARS then all[..MAX_ENVIRON_VARS] else all;
    assert forall i :: 0 <= i < |keys| ==> all[i] in Elements(all);
    keys
  }

  ghost function Pairs(text: Text, extra: seq<Bytes>, environ: map<Bytes, Bytes>): (pairs: seq<Bytes>)
    ensures |pairs| == |EmittedKeys(environ)|
    ensures forall i :: 0 <= i < |pairs| ==> pairs[i] != []
  {
    var keys := EmittedKeys(environ);
    seq(|keys|, i requires 0 <= i < |keys| => Pair(text, extra, keys[i], environ[keys[i]]))
  }

  ghost function ScrubbedLabel(text: Text, extra: seq<Bytes>, environ: map<Bytes, Bytes>): Bytes {
    var pairs := Pairs(text, extra, environ);
    Label(pairs, |pairs|)
  }

  /** environ_truncated: some variable has no pair in the label. */
  ghost predicate Incomplete(text: Text, extra: seq<Bytes>, environ: map<Bytes, Bytes>) {
    var pairs := Pairs(text, extra, environ);
    |Kept(pairs, |pairs|)| < |environ|
  }

  /** The writing loop of scrubEnviron: skips, rather than stops at, a pair over the ceiling. */
  method WritePairs(keys: seq<Bytes>, render: Bytes --> Bytes, ghost pairs: seq<Bytes>)
    returns (b: Bytes, truncated: bool)
    requires |pairs| == |keys|
    requires forall i :: 0 <= i < |keys| ==> render.requires(keys[i]) && pairs[i] == render(keys[i])
    ensures b == Label(pairs, |pairs|)
    ensures truncated == (|Kept(pairs, |pairs|)| < |pairs|)
  {
    b, truncated := [], false;
    for i := 0 to |keys|
      invariant b == Label(pairs, i)
      invariant truncated == (|Kept(pairs, i)| < i)
    {
      var pair := render(keys[i]);
      var sep := if |b| > 0 then |SEP| else 0;
      if |b| + sep + |pair| > MAX_ENVIRON_BYTES {
        truncated := true;
      } else {
        if sep > 0 {
          b := b + SEP;
        }
        b := b + pair;
      }
    }
  }

  method ScrubEnviron(text: Text, extra: seq<Bytes>, environ: map<Bytes, Bytes>)
    returns (b: Bytes, truncated: bool)
    ensures b == ScrubbedLabel(text, extra, environ)
    ensures truncated == Incomplete(text, extra, environ)
  {
    hide Pair, Ascending, Label, Kept;
    var keys := SortedKeys(environ);
    AscendingLength(keys);
    var overflow := |keys| > MAX_ENVIRON_VARS;
    if overflow {
      keys := keys[..MAX_ENVIRON_VARS];
    }
    assert keys == EmittedKeys(environ);
    b, truncated :=
      WritePairs(keys, k requires k in environ => Pair(text, extra, k, environ[k]), Pairs(text, extra, environ));
    truncated := truncated || overflow;
  }

  lemma AscendingLength(keys: seq<Bytes>)
    requires Ascending(keys)
    ensures |Elements(keys)| == |keys|
  {
    if keys != [] {
      LessTotal(keys[0], keys[0]);
      ElementsTail(keys);
      assert keys[0] in Elements(keys);
      AscendingLength(keys[1..]);
    }
  }

  lemma PairsAreValid(text: Text, extra: seq<Bytes>, environ: map<Bytes, Bytes>)
    requires forall k :: k in environ ==> |environ[k]| <= INT64_MAX
    ensures forall i :: 0 <= i < |Pairs(text, extra, environ)| ==> Valid(Pairs(text, extra, environ)[i])
  {
    var keys := EmittedKeys(environ);
    forall i | 0 <= i < |keys| ensures Valid(Pairs(text, extra, environ)[i]) {
      PairIsValid(text, extra, keys[i], environ[keys[i]]);
    }
  }

  /** The environ label of any process: at most 8192 bytes of valid UTF-8, the
      ", "-join of the rendered pairs of a subsequence of the first 100 sorted
      keys, maximal, and flagged incomplete exactly when some variable has no pair. */
  lemma {:induction false} EnvironLabelSpec(text: Text, extra: seq<Bytes>, environ: map<Bytes, Bytes>)
    requires forall k :: k in environ ==> |environ[k]| <= INT64_MAX
    ensures var pairs, out := Pairs(text, extra, environ), ScrubbedLabel(text, extra, environ);
      var kept := Kept(pairs, |pairs|);
      && out == Join(Select(pairs, kept)) && Indices(kept, |pairs|)
      && |pairs| <= MAX_ENVIRON_VARS
      && Valid(out) && |out| <= MAX_ENVIRON_BYTES
      && (forall i :: 0 <= i < |pairs| && i !in kept ==> !Fits(out, pairs[i]))
      && (!Incomplete(text, extra, environ) <==>
           |pairs| == |environ| && forall i :: 0 <= i < |pairs| ==> i in kept)
  {
    EmittedCount(environ);
    hide Pair, Kept, Label, Fits, Select, Join, Sorted, EmittedKeys, Ascending;
    PairsAreValid(text, extra, environ);
    PackingIsMaximal(Pairs(text, extra, environ));
    LabelIsValid(Pairs(text, extra, environ), |EmittedKeys(environ)|);
  }

  lemma EmittedCount(environ: map<Bytes, Bytes>)
    ensures |EmittedKeys(environ)| <= |environ| && |EmittedKeys(environ)| <= MAX_ENVIRON_VARS
    ensures |EmittedKeys(environ)| == |environ| || |EmittedKeys(environ)| == MAX_ENVIRON_VARS
  {
    AscendingLength(Sorted(environ.Keys));
    assert Elements(Sorted(environ.Keys)) == environ.Keys;
  }

  // ----- what the label may depend on --------------------------------------------------------

  /** Two raw values an observer of the label must not be able to tell apart: equal,
      both secret, or both unclassified, over-long and of equal sanitised length. */
  predicate Indistinct(text: Text, extra: seq<Bytes>, k: Bytes, v1: Bytes, v2: Bytes) {
    || v1 == v2
    || (IsSensitivePair(text, k, v1, extra) && IsSensitivePair(text, k, v2, extra))
    || (&& !IsSensitivePair(text, k, v1, extra) && !IsSensitivePair(text, k, v2, extra)
        && |SanitizeLabelValue(v1)| == |SanitizeLabelValue(v2)| > MAX_ENVIRON_VALUE_LEN)
  }

  /** Non-interference: environments that differ only in indistinct values give the
      same label and the same flag. Nothing of a secret or over-long value but its
      class (and, unclassified, its length) reaches the label. */
  lemma {:induction false} LabelHidesValues(text: Text, extra: seq<Bytes>, e1: map<Bytes, Bytes>, e2: map<Bytes, Bytes>)
    requires e1.Keys == e2.Keys
    requires forall k :: k in e1 ==> Indistinct(text, extra, k, e1[k], e2[k])
    ensures ScrubbedLabel(text, extra, e1) == ScrubbedLabel(text, extra, e2)
    ensures Incomplete(text, extra, e1) <==> Incomplete(text, extra, e2)
  {
    var keys := EmittedKeys(e1);
    var p1, p2 := Pairs(text, extra, e1), Pairs(text, extra, e2);
    forall i | 0 <= i < |keys| ensures p1[i] == p2[i] {
      var k := keys[i];
      SanitizeKeepsClassification(text, e1[k]);
      SanitizeKeepsClassification(text, e2[k]);
      assert Indistinct(text, extra, k, e1[k], e2[k]);
    }
    assert p1 == p2;
    assert |e1| == |e1.Keys| == |e2.Keys| == |e2|;
  }

  /** The JSON path classifies the raw value under the loaded substrings; the label
      path classifies the sanitised value under the collector's re-normalised copy.
      They redact exactly the same variables. */
  lemma {:induction false} PathsAgreeOnSecrets(text: Text, configured: seq<Bytes>, environ: map<Bytes, Bytes>, k: Bytes)
    requires TextLaws(text) && k in environ
    ensures var loaded := Normalized(text, configured);
      var extra := Normalized(text, loaded);
      var secret := IsSensitivePair(text, k, environ[k], loaded);
      && IsSensitivePair(text, k, SanitizeLabelValue(environ[k]), extra) == secret
      && (secret ==> RedactedMap(text, loaded, environ)[k] == RenderedValue(text, extra, k, environ[k]) == REDACTED)
      && (!secret ==> RedactedMap(text, loaded, environ)[k] == environ[k])
  {
    NormalizeIdempotent(text, configured);
    SanitizeKeepsClassification(text, environ[k]);
  }
}

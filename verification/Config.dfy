/** exporter/config.go: decoding, validating and normalising the operator's knobs. */
module Config {
  import opened Wrappers
  import opened Utf8
  import opened Decimal
  import opened Sequences
  import opened Order
  import opened Givens
  import opened LabelBound

  datatype Config = Config(redactKeySubstrings: seq<Bytes>, maxLabelBytes: map<Bytes, int>)

  // ----- decoded YAML scalars -----------------------------------------------------

  /** What yaml.v2 resolves a scalar to: int, int64 or uint64 when it is an
      integer, something else when it is not. */
  datatype Scalar = GoInt(n: int) | GoInt64(n: int) | GoUint64(n: int) | NotInteger

  /** math.MaxInt of the target. */
  predicate IsMaxInt(maxInt: int) { maxInt == 0x7FFF_FFFF || maxInt == INT64_MAX }

  predicate InType(maxInt: int, v: Scalar) {
    match v
    case GoInt(n) => -maxInt - 1 <= n <= maxInt
    case GoInt64(n) => InInt64(n)
    case GoUint64(n) => 0 <= n <= 2 * INT64_MAX + 1
    case NotInteger => true
  }

  function LabelByteLimit(maxInt: int, v: Scalar): Option<int> {
    match v
    case GoInt(n) => Some(n)
    case GoInt64(n) => if n > maxInt then Some(maxInt) else if n < -maxInt - 1 then Some(-maxInt - 1) else Some(n)
    case GoUint64(n) => if n > maxInt then Some(maxInt) else Some(n)
    case NotInteger => None
  }

  datatype LimitError =
    | NotAnInteger(name: Bytes)
    | UnknownLabel(name: Bytes)
    | NotPositive(name: Bytes, limit: int)
    | BelowMarker(name: Bytes, limit: int)
    | AboveCeiling(name: Bytes, limit: int)

  /** What is wrong with one override, in the order the switch asks. */
  function Fault(name: Bytes, limit: int): (fault: Option<LimitError>)
    ensures fault.Some? ==> fault.value.name == name && !fault.value.NotAnInteger?
  {
    if name !in MAX_LABEL_BYTES then Some(UnknownLabel(name))
    else if limit <= 0 then Some(NotPositive(name, limit))
    else if limit < MIN_LABEL_BYTES then Some(BelowMarker(name, limit))
    else if limit > MAX_LABEL_BYTES_CEILING then Some(AboveCeiling(name, limit))
    else None
  }

  /** Rejects the first bad entry in name order; accepts when there is none. */
  method ValidateMaxLabelBytes(overrides: map<Bytes, int>) returns (err: Option<LimitError>)
    ensures err.None? <==> forall n :: n in overrides ==> Fault(n, overrides[n]).None?
    ensures err.Some? ==>
              && err.value.name in overrides
              && Fault(err.value.name, overrides[err.value.name]) == err
              && forall n :: n in overrides && Fault(n, overrides[n]).Some? ==>
                               n == err.value.name || Less(err.value.name, n)
  {
    hide Fault, Less;
    var names := SortedKeys(overrides);
    for i := 0 to |names|
      invariant forall j :: 0 <= j < i ==> names[j] in overrides && Fault(names[j], overrides[names[j]]).None?
    {
      var name := names[i];
      assert name in Elements(names);
      var limit := overrides[name];
      if Fault(name, limit).Some? {
        FirstIsLeast(names, i, overrides);
        return Fault(name, limit);
      }
    }
    forall n | n in overrides ensures Fault(n, overrides[n]).None? {
      assert n in Elements(names);
    }
    return None;
  }

  lemma FirstIsLeast(names: seq<Bytes>, i: nat, overrides: map<Bytes, int>)
    requires Ascending(names) && Elements(names) == overrides.Keys && i < |names|
    requires forall j :: 0 <= j < i ==> names[j] in overrides && Fault(names[j], overrides[names[j]]).None?
    ensures forall n :: n in overrides && Fault(n, overrides[n]).Some? ==> n == names[i] || Less(names[i], n)
  {
    forall n | n in overrides && Fault(n, overrides[n]).Some? ensures n == names[i] || Less(names[i], n) {
      assert n in Elements(names);
      var k :| 0 <= k < |names| && names[k] == n;
    }
  }

  /** LabelByteLimits.UnmarshalYAML: every scalar must be an integer; the first in
      name order that is not is reported. */
  method UnmarshalLimits(maxInt: int, raw: map<Bytes, Scalar>) returns (r: Result<map<Bytes, int>, LimitError>)
    ensures r.Ok? ==>
              && r.value.Keys == raw.Keys
              && forall n :: n in raw ==> LabelByteLimit(maxInt, raw[n]) == Some(r.value[n])
    ensures r.Err? ==>
              && r.error.NotAnInteger? && r.error.name in raw && raw[r.error.name].NotInteger?
              && forall n :: n in raw && raw[n].NotInteger? ==> n == r.error.name || Less(r.error.name, n)
  {
    var out: map<Bytes, int> := map[];
    var names := SortedKeys(raw);
    for i := 0 to |names|
      invariant out.Keys == set j | 0 <= j < i :: names[j]
      invariant out.Keys <= raw.Keys
      invariant forall n :: n in out ==> LabelByteLimit(maxInt, raw[n]) == Some(out[n])
    {
      var name := names[i];
      assert name in Elements(names);
      var limit := LabelByteLimit(maxInt, raw[name]);
      if limit.None? {
        forall n | n in raw && raw[n].NotInteger? ensures n == name || Less(name, n) {
          assert n in Elements(names);
          var k :| 0 <= k < |names| && names[k] == n;
          assert k < i ==> n in out;
        }
        return Err(NotAnInteger(name));
      }
      out := out[name := limit.value];
    }
    return Ok(out);
  }

  /** The mathematical value of an integer scalar. */
  function Written(v: Scalar): int
    requires !v.NotInteger?
  {
    v.n
  }

  ghost predicate AllUsable(raw: map<Bytes, Scalar>) {
    forall n :: n in raw ==> n in MAX_LABEL_BYTES && !raw[n].NotInteger? && UsableLimit(Written(raw[n]))
  }

  /** The max_label_bytes half of LoadConfig: decode, then validate. The load
      succeeds exactly when every name is in the contract and every value as
      written lies in 49..8143 — clamping never lets a value in or changes one —
      and merging what was loaded is then the exact overlay on the contract. */
  method LoadMaxLabelBytes(maxInt: int, raw: map<Bytes, Scalar>) returns (r: Result<map<Bytes, int>, LimitError>)
    requires IsMaxInt(maxInt) && forall n :: n in raw ==> InType(maxInt, raw[n])
    ensures r.Ok? <==> AllUsable(raw)
    ensures r.Ok? ==> r.value == (map n | n in raw :: Written(raw[n])) && Merged(r.value) == MAX_LABEL_BYTES + r.value
    ensures r.Err? && r.error.NotAnInteger? <==> exists n :: n in raw && raw[n].NotInteger?
    ensures r.Err? ==> r.error.name in raw
    ensures r.Err? && r.error.NotAnInteger? ==>
              && raw[r.error.name].NotInteger?
              && forall n :: n in raw && raw[n].NotInteger? ==> n == r.error.name || Less(r.error.name, n)
    ensures r.Err? && !r.error.NotAnInteger? ==>
              && !(r.error.name in MAX_LABEL_BYTES && UsableLimit(Written(raw[r.error.name])))
              && forall n :: n in raw && !(n in MAX_LABEL_BYTES && UsableLimit(Written(raw[n]))) ==>
                            n == r.error.name || Less(r.error.name, n)
  {
    hide LabelByteLimit, InType, Less, Merged, Fault;
    var decoded := UnmarshalLimits(maxInt, raw);
    if decoded.Err? {
      return Err(decoded.error);
    }
    ClampingIsHarmless(maxInt, raw, decoded.value);
    var err := ValidateMaxLabelBytes(decoded.value);
    if err.Some? {
      return Err(err.value);
    }
    OverlayIsExact(decoded.value);
    return Ok(decoded.value);
  }

  /** A clamped entry is faulty exactly when the value as written is out of range,
      and an entry in range is the value as written. */
  lemma ClampingIsHarmless(maxInt: int, raw: map<Bytes, Scalar>, out: map<Bytes, int>)
    requires IsMaxInt(maxInt) && out.Keys == raw.Keys
    requires forall n :: n in raw ==> InType(maxInt, raw[n]) && LabelByteLimit(maxInt, raw[n]) == Some(out[n])
    ensures forall n :: n in raw ==> !raw[n].NotInteger?
    ensures forall n :: n in raw ==>
              (Fault(n, out[n]).None? <==> n in MAX_LABEL_BYTES && UsableLimit(Written(raw[n])))
    ensures forall n :: n in raw && (UsableLimit(out[n]) || Fault(n, out[n]).None?) ==> out[n] == Written(raw[n])
  {
    forall n | n in raw
      ensures !raw[n].NotInteger?
      ensures UsableLimit(out[n]) <==> UsableLimit(Written(raw[n]))
      ensures UsableLimit(out[n]) ==> out[n] == Written(raw[n])
    {
      assert LabelByteLimit(maxInt, raw[n]) == Some(out[n]);
    }
  }

  lemma {:induction false} OverlayIsExact(overrides: map<Bytes, int>)
    requires forall n :: n in overrides ==> Fault(n, overrides[n]).None?
    ensures Merged(overrides) == MAX_LABEL_BYTES + overrides
  {
    assert (MAX_LABEL_BYTES + overrides).Keys == MAX_LABEL_BYTES.Keys;
  }

  /** A hand-built table never widens the contract: only in-range overrides of
      contract labels show, whatever else the map holds. */
  lemma {:induction false} MergeDropsUnusable(overrides: map<Bytes, int>)
    ensures var usable := map n | n in overrides && n in MAX_LABEL_BYTES && UsableLimit(overrides[n]) :: overrides[n];
      Merged(overrides) == MAX_LABEL_BYTES + usable == Merged(usable)
  {
    var usable := map n | n in overrides && n in MAX_LABEL_BYTES && UsableLimit(overrides[n]) :: overrides[n];
    OverlayIsExact(usable);
    assert Merged(overrides) == Merged(usable);
  }

  // ----- redaction substrings -----------------------------------------------------

  function Normalized(text: Text, ss: seq<Bytes>): seq<Bytes> {
    if ss == [] then []
    else
      var front, s := Normalized(text, ss[..|ss| - 1]), text.lower(text.trim(ss[|ss| - 1]));
      if s != [] then front + [s] else front
  }

  method NormalizeSubstrings(text: Text, ss: seq<Bytes>) returns (out: seq<Bytes>)
    ensures out == Normalized(text, ss)
  {
    out := [];
    for i := 0 to |ss|
      invariant out == Normalized(text, ss[..i])
    {
      NormalizedSnoc(text, ss, i);
      hide Normalized;
      var s := text.lower(text.trim(ss[i]));
      if s != [] {
        out := out + [s];
      }
    }
    assert ss[..|ss|] == ss;
  }

  lemma NormalizedSnoc(text: Text, ss: seq<Bytes>, i: nat)
    requires i < |ss|
    ensures var s, front := text.lower(text.trim(ss[i])), Normalized(text, ss[..i]);
      Normalized(text, ss[..i + 1]) == if s != [] then front + [s] else front
  {
    assert ss[..i + 1][..i] == ss[..i];
  }

  /** The normalised list holds, in order, what is left of each entry trimmed and then folded,
      without those of which nothing is left. */
  lemma {:induction false} NormalizedHolds(text: Text, ss: seq<Bytes>, s: Bytes)
    ensures s in Normalized(text, ss) <==> s != [] && exists i :: 0 <= i < |ss| && text.lower(text.trim(ss[i])) == s
  {
    if ss != [] {
      var front := ss[..|ss| - 1];
      NormalizedHolds(text, front, s);
      assert forall i :: 0 <= i < |front| ==> front[i] == ss[i];
      assert ss == front + [ss[|ss| - 1]];
    }
  }

  lemma {:induction false} NormalizedConcat(text: Text, ss: seq<Bytes>, tt: seq<Bytes>)
    ensures Normalized(text, ss + tt) == Normalized(text, ss) + Normalized(text, tt)
  {
    if tt == [] {
      assert ss + tt == ss;
    } else {
      var front := tt[..|tt| - 1];
      assert (ss + tt)[..|ss + tt| - 1] == ss + front;
      NormalizedConcat(text, ss, front);
    }
  }

  /** Normalising the loaded list again, as the collector's constructor does,
      changes nothing; and no empty substring (which every key contains) survives. */
  lemma {:induction false} NormalizeIdempotent(text: Text, ss: seq<Bytes>)
    requires TextLaws(text)
    ensures Normalized(text, Normalized(text, ss)) == Normalized(text, ss)
    ensures [] !in Normalized(text, ss)
  {
    if ss != [] {
      NormalizeIdempotent(text, ss[..|ss| - 1]);
      var front := Normalized(text, ss[..|ss| - 1]);
      var s := text.lower(text.trim(ss[|ss| - 1]));
      assert text.trim(s) == s && text.lower(s) == s;
      assert (front + [s])[..|front|] == front;
    }
  }

  // ----- the laws have an instance --------------------------------------------------

  function AsciiLower(s: Bytes): Bytes {
    seq(|s|, i requires 0 <= i < |s| => if 0x41 <= s[i] <= 0x5A then s[i] + 32 else s[i])
  }

  predicate AsciiSpace(b: byte) { b == 0x20 || 0x09 <= b <= 0x0D }

  function AsciiTrim(s: Bytes): (t: Bytes)
    ensures t == [] || (!AsciiSpace(t[0]) && !AsciiSpace(t[|t| - 1]))
    decreases |s|
  {
    if s == [] then []
    else if AsciiSpace(s[0]) then AsciiTrim(s[1..])
    else if AsciiSpace(s[|s| - 1]) then AsciiTrim(s[..|s| - 1])
    else s
  }

  /** On ASCII text folding and trimming meet the laws, so the laws are consistent. */
  lemma {:induction false} AsciiTextLaws(highEntropy: Bytes -> bool)
    ensures TextLaws(Text(AsciiLower, AsciiTrim, highEntropy))
  {
    var text := Text(AsciiLower, AsciiTrim, highEntropy);
    forall s ensures text.lower(text.lower(s)) == text.lower(s) {
      assert AsciiLower(AsciiLower(s)) == AsciiLower(s);
    }
    forall s ensures text.trim(text.lower(text.trim(s))) == text.lower(text.trim(s)) {
      var t := AsciiTrim(s);
      var l := AsciiLower(t);
      assert t != [] ==> !AsciiSpace(l[0]) && !AsciiSpace(l[|l| - 1]);
    }
  }
}

/** exporter/collector.go: what a reader of the redacted map and of the environ label sees, told
    from the bytes of each variable alone. */
module Redaction {
  import opened Wrappers
  import opened Utf8
  import opened Substrings
  import opened Decimal
  import opened Sequences
  import opened Order
  import opened Givens
  import opened LabelBound
  import opened Config
  import opened Secrets
  import opened Environ

  // ----- what gives a secret away -----------------------------------------------------------

  /** The folded name has a built-in or a configured substring in it. */
  ghost predicate NamesSecret(text: Text, extra: seq<Bytes>, k: Bytes) {
    exists p :: (p in SECRET_KEYS || p in extra) && Around(text.lower(k), p)
  }

  ghost predicate TokenShaped(v: Bytes) {
    exists p: Bytes, t: Bytes :: p in TOKEN_PREFIXES && v == p + t
  }

  /** A JWT header and two dot-separated segments. */
  ghost predicate JwtShaped(v: Bytes) {
    exists a: Bytes, b: Bytes, c: Bytes :: JwtOf(v, a, b, c)
  }

  predicate JwtOf(v: Bytes, a: Bytes, b: Bytes, c: Bytes) {
    v == Lit("eyJ") + (a + Lit(".") + (b + Lit(".") + c)) && DOT !in a && DOT !in b && DOT !in c
  }

  predicate TokenChar(b: byte) {
    || 'a' as int <= b as int <= 'z' as int
    || 'A' as int <= b as int <= 'Z' as int
    || '0' as int <= b as int <= '9' as int
    || b as int == '+' as int || b as int == '/' as int || b as int == '=' as int
    || b as int == '-' as int || b as int == '_' as int
  }

  predicate KeyShaped(text: Text, v: Bytes) {
    |v| >= 32 && (forall i :: 0 <= i < |v| ==> TokenChar(v[i])) && text.highEntropy(v)
  }

  /** The variable is a secret by its name or by the shape of its value. */
  ghost predicate Betrays(text: Text, extra: seq<Bytes>, k: Bytes, v: Bytes) {
    NamesSecret(text, extra, k) || TokenShaped(v) || JwtShaped(v) || KeyShaped(text, v)
  }

  lemma NamesSecretIff(text: Text, extra: seq<Bytes>, k: Bytes)
    ensures NamesSecret(text, extra, k) <==> IsSecretKey(text, k) || MatchesAny(text, k, extra)
  {
    forall p ensures Contains(text.lower(k), p) <==> Around(text.lower(k), p) { ContainsIffAround(text.lower(k), p); }
    hide Contains, Around;
    if p :| (p in SECRET_KEYS || p in extra) && Around(text.lower(k), p) {
      if p in SECRET_KEYS {
        var i :| 0 <= i < |SECRET_KEYS| && SECRET_KEYS[i] == p;
      } else {
        var i :| 0 <= i < |extra| && extra[i] == p;
      }
    }
  }

  lemma PrefixIff(v: Bytes, p: Bytes)
    ensures HasPrefix(v, p) <==> exists t: Bytes :: v == p + t
  {
    if HasPrefix(v, p) { assert v == p + v[|p|..]; }
    if t: Bytes :| v == p + t { assert v[..|p|] == p; }
  }

  lemma TokenShapedIff(v: Bytes)
    ensures TokenShaped(v) <==> exists i :: 0 <= i < |TOKEN_PREFIXES| && HasPrefix(v, TOKEN_PREFIXES[i])
  {
    forall p ensures HasPrefix(v, p) <==> exists t: Bytes :: v == p + t { PrefixIff(v, p); }
    if TokenShaped(v) {
      var p: Bytes, t: Bytes :| p in TOKEN_PREFIXES && v == p + t;
      var i :| 0 <= i < |TOKEN_PREFIXES| && TOKEN_PREFIXES[i] == p;
    }
  }

  /** Text up to its first dot, and what follows. */
  lemma {:induction false} FirstDot(v: Bytes) returns (a: Bytes, rest: Bytes)
    requires Count(v, DOT) > 0
    ensures v == a + [DOT] + rest && DOT !in a && Count(rest, DOT) == Count(v, DOT) - 1
  {
    if v[0] == DOT {
      a, rest := [], v[1..];
    } else {
      a, rest := FirstDot(v[1..]);
      a := [v[0]] + a;
    }
  }

  lemma {:induction false} NoDotIff(v: Bytes)
    ensures Count(v, DOT) == 0 <==> DOT !in v
  {
    if v != [] { NoDotIff(v[1..]); }
  }

  lemma HeaderHasNoDot()
    ensures Count(JWT_HEADER, DOT) == 0 && Count(Lit("."), DOT) == 1 && Lit(".") == [DOT]
  {
    NoDotIff(JWT_HEADER);
    assert Lit(".")[1..] == [];
  }

  lemma JwtShapedIff(v: Bytes)
    ensures JwtShaped(v) <==> HasPrefix(v, JWT_HEADER) && Count(v, DOT) == 2
  {
    HeaderHasNoDot();
    hide Count, HasPrefix;
    if JwtShaped(v) {
      var a: Bytes, b: Bytes, c: Bytes :| JwtOf(v, a, b, c);
      PrefixIff(v, JWT_HEADER);
      NoDotIff(a);
      NoDotIff(b);
      NoDotIff(c);
      CountConcat(b, Lit(".") + c, DOT);
      CountConcat(Lit("."), c, DOT);
      CountConcat(Lit("."), b + (Lit(".") + c), DOT);
      CountConcat(a, Lit(".") + (b + (Lit(".") + c)), DOT);
      CountConcat(JWT_HEADER, a + (Lit(".") + (b + (Lit(".") + c))), DOT);
      assert a + Lit(".") + (b + Lit(".") + c) == a + (Lit(".") + (b + (Lit(".") + c)));
    }
    if HasPrefix(v, JWT_HEADER) && Count(v, DOT) == 2 {
      PrefixIff(v, JWT_HEADER);
      var t: Bytes :| v == JWT_HEADER + t;
      CountConcat(JWT_HEADER, t, DOT);
      var a, rest := FirstDot(t);
      var b, c := FirstDot(rest);
      NoDotIff(c);
      assert JwtOf(v, a, b, c);
    }
  }

  lemma KeyShapedIff(text: Text, v: Bytes)
    ensures KeyShaped(text, v) <==> |v| >= 32 && TokenCharset(v) && text.highEntropy(v)
  {
    forall b: byte ensures TokenChar(b) <==> TokenByte(b) { SameTokenByte(b); }
    hide TokenChar, TokenByte;
  }

  lemma SameTokenByte(b: byte)
    ensures TokenChar(b) <==> TokenByte(b)
  {
  }

  /** The classification of a pair is exactly what gives it away, so any sign of a secret is
      enough and without one the pair is ordinary. */
  lemma {:induction false} BetraysIff(text: Text, extra: seq<Bytes>, k: Bytes, v: Bytes)
    ensures Betrays(text, extra, k, v) <==> IsSensitivePair(text, k, v, extra)
  {
    NamesSecretIff(text, extra, k);
    TokenShapedIff(v);
    JwtShapedIff(v);
    KeyShapedIff(text, v);
    PrefixesAreNotEmpty();
    hide NamesSecret, TokenShaped, JwtShaped, KeyShaped, MatchesAny, IsSecretKey, TokenCharset;
  }

  lemma PrefixesAreNotEmpty()
    ensures forall i :: 0 <= i < |TOKEN_PREFIXES| ==> TOKEN_PREFIXES[i] != []
    ensures JWT_HEADER != []
  {
  }

  /** What the redacted map holds: the placeholder for every variable that gives itself away by
      its name or its value, and every other value byte for byte. */
  lemma {:induction false} RedactsExactly(text: Text, extra: seq<Bytes>, m: map<Bytes, Bytes>)
    ensures RedactedMap(text, extra, m).Keys == m.Keys
    ensures forall k :: k in m ==>
      RedactedMap(text, extra, m)[k] == if Betrays(text, extra, k, m[k]) then Lit("[REDACTED]") else m[k]
  {
    hide Betrays, IsSensitivePair;
    forall k | k in m ensures Betrays(text, extra, k, m[k]) <==> IsSensitivePair(text, k, m[k], extra) {
      BetraysIff(text, extra, k, m[k]);
    }
  }

  /** A password variable gives itself away whatever its value; a home directory does not by its name. */
  lemma {:induction false} PasswordAndHome(highEntropy: Bytes -> bool, extra: seq<Bytes>, v: Bytes)
    ensures var text := Text(AsciiLower, AsciiTrim, highEntropy);
      && Betrays(text, extra, Lit("DB_PASSWORD"), v)
      && !NamesSecret(text, [], Lit("HOME"))
  {
    var text := Text(AsciiLower, AsciiTrim, highEntropy);
    assert AsciiLower(Lit("DB_PASSWORD")) == Lit("db_") + Lit("pass") + Lit("word");
    assert SECRET_KEYS[1] == Lit("pass");
    assert Around(text.lower(Lit("DB_PASSWORD")), Lit("pass"));
    NothingInHome();
  }

  lemma NothingInHome()
    ensures forall p :: p in SECRET_KEYS ==> !Around(AsciiLower(Lit("HOME")), p)
  {
    var home := Lit("home");
    assert AsciiLower(Lit("HOME")) == home;
    assert forall i :: 0 <= i < |SECRET_KEYS| ==>
      |SECRET_KEYS[i]| >= 2 && (SECRET_KEYS[i][0] !in home || SECRET_KEYS[i][1] !in home);
    forall p | p in SECRET_KEYS ensures !Around(home, p) {
      var i :| 0 <= i < |SECRET_KEYS| && SECRET_KEYS[i] == p;
      forall x: Bytes, y: Bytes ensures home != x + p + y {
        assert (x + p + y)[|x|] == p[0] && (x + p + y)[|x| + 1] == p[1];
      }
    }
  }

  // ----- what the label shows -----------------------------------------------------------------

  /** The length in "[TRUNCATED;len=<N>]". */
  function CutLength(r: Bytes): Option<nat> {
    var open := Lit("[TRUNCATED;len=");
    if |r| < |open| + 2 || r[..|open|] != open || [r[|r| - 1]] != Lit("]") || !AllDigits(r[|open|..|r| - 1]) then None
    else Some(DigitsValue(r[|open|..|r| - 1]))
  }

  lemma CutLengthReads(val: Bytes)
    ensures CutLength(EnvironTruncMarker(val)) == Some(|val|)
  {
    var r, open := EnvironTruncMarker(val), Lit("[TRUNCATED;len=");
    assert TRUNC_OPEN == open;
    assert r[..|open|] == open && r[|open|..|r| - 1] == Digits(|val|) && [r[|r| - 1]] == Lit("]");
    DigitsRoundTrip(|val|);
  }

  /** The three renderings of a value: the placeholder for one that gives itself away, a marker with
      its length for another of more than 256 bytes, and any other value as it is, sanitised. */
  ghost predicate Renders(text: Text, extra: seq<Bytes>, k: Bytes, raw: Bytes, r: Bytes) {
    var val := SanitizeLabelValue(raw);
    if Betrays(text, extra, k, raw) then r == Lit("[REDACTED]")
    else if |val| > 256 then CutLength(r) == Some(|val|)
    else r == val
  }

  lemma {:induction false} RenderedShows(text: Text, extra: seq<Bytes>, k: Bytes, raw: Bytes)
    ensures Renders(text, extra, k, raw, RenderedValue(text, extra, k, raw))
    ensures Pair(text, extra, k, raw) == SanitizeLabelValue(k) + Lit("=") + RenderedValue(text, extra, k, raw)
  {
    BetraysIff(text, extra, k, raw);
    SanitizeKeepsClassification(text, raw);
    CutLengthReads(SanitizeLabelValue(raw));
    assert Lit("=") == [EQUALS];
    hide Betrays, IsSecretKey, MatchesAny, IsSecretValue, SanitizeLabelValue, CutLength, EnvironTruncMarker;
  }

  // ----- where a pair stands in the label -------------------------------------------------------

  /** What stands before and after part i of a joined sequence. */
  function Before(parts: seq<Bytes>, i: nat): Bytes
    requires i < |parts|
  {
    if i == 0 then [] else Join(parts[..i]) + Lit(", ")
  }

  function After(parts: seq<Bytes>, i: nat): Bytes
    requires i < |parts|
  {
    if i == |parts| - 1 then [] else After(parts[..|parts| - 1], i) + Lit(", ") + parts[|parts| - 1]
  }

  lemma {:induction false} JoinAt(parts: seq<Bytes>, i: nat)
    requires i < |parts|
    ensures Join(parts) == Before(parts, i) + parts[i] + After(parts, i)
    ensures After(parts, i) == [] || HasPrefix(After(parts, i), Lit(", "))
  {
    assert SEP == Lit(", ");
    if i == |parts| - 1 {
      assert Join(parts) == Before(parts, i) + parts[i];
    } else {
      var front, last := parts[..|parts| - 1], parts[|parts| - 1];
      JoinAt(front, i);
      assert front[..i] == parts[..i];
      Regroup(Before(parts, i) + parts[i], After(front, i), Lit(", "), last);
      assert Before(front, i) == Before(parts, i);
      assert Join(parts) == Join(front) + Lit(", ") + last;
      PrefixStays(After(front, i), Lit(", "), last);
    }
  }

  lemma PrefixStays(s: Bytes, p: Bytes, t: Bytes)
    requires s == [] || HasPrefix(s, p)
    ensures HasPrefix(s + p + t, p)
  {
    assert s != [] ==> (s + p + t)[..|p|] == s[..|p|];
    assert s == [] ==> (s + p + t)[..|p|] == p;
  }

  /** Two joins that differ in one part at most are equal exactly when they do not. */
  lemma {:induction false} JoinTellsPart(s: seq<Bytes>, t: seq<Bytes>, i: nat)
    requires i < |s| == |t| && (forall j :: 0 <= j < |s| && j != i ==> s[j] == t[j])
    ensures Join(s) == Join(t) <==> s[i] == t[i]
  {
    if s[i] == t[i] {
      assert s == t;
    } else {
      JoinAt(s, i);
      JoinAt(t, i);
      assert s[..i] == t[..i];
      SameAfter(s, t, i);
      hide Join, Before, After;
      if Join(s) == Join(t) { SameMiddle(Before(s, i), s[i], t[i], After(s, i)); }
    }
  }

  lemma SameMiddle(before: Bytes, a: Bytes, b: Bytes, after: Bytes)
    requires before + a + after == before + b + after
    ensures a == b
  {
    var w := before + a + after;
    assert |a| == |b|;
    assert a == w[|before|..|before| + |a|];
  }

  lemma AfterStep(s: seq<Bytes>, i: nat)
    requires i < |s|
    ensures After(s, i) ==
      if i == |s| - 1 then [] else After(s[..|s| - 1], i) + Lit(", ") + s[|s| - 1]
  {
    hide Lit;
  }

  lemma {:induction false} SameAfter(s: seq<Bytes>, t: seq<Bytes>, i: nat)
    requires i < |s| == |t| && (forall j :: i < j < |s| ==> s[j] == t[j])
    ensures After(s, i) == After(t, i)
  {
    hide After, Lit;
    AfterStep(s, i);
    AfterStep(t, i);
    if i < |s| - 1 { SameAfter(s[..|s| - 1], t[..|t| - 1], i); }
  }

  // ----- the label ------------------------------------------------------------------------------

  predicate EndsWith(s: Bytes, p: Bytes) {
    |p| <= |s| && s[|s| - |p|..] == p
  }

  /** "name=r" stands in the label as a whole, between separators or the ends. */
  ghost predicate PairStands(whole: Bytes, name: Bytes, r: Bytes) {
    exists before: Bytes, after: Bytes :: Splits(whole, before, name + Lit("=") + r, after)
  }

  predicate Splits(whole: Bytes, before: Bytes, piece: Bytes, after: Bytes) {
    && whole == before + piece + after
    && (before == [] || EndsWith(before, Lit(", ")))
    && (after == [] || HasPrefix(after, Lit(", ")))
  }

  lemma JoinSplits(parts: seq<Bytes>, i: nat)
    requires i < |parts|
    ensures Splits(Join(parts), Before(parts, i), parts[i], After(parts, i))
  {
    JoinAt(parts, i);
    hide After, HasPrefix;
    if i > 0 {
      var front := Join(parts[..i]);
      hide Join;
      assert (front + Lit(", "))[|front|..] == Lit(", ");
    }
  }

  /** The variable of the i-th pair. */
  ghost function KeyAt(environ: map<Bytes, Bytes>, i: nat): (k: Bytes)
    requires i < |EmittedKeys(environ)|
    ensures k in environ
  {
    EmittedKeys(environ)[i]
  }

  /** The pairs are those of the first 100 variables in order. */
  lemma {:induction false} KeysAreFirst(text: Text, extra: seq<Bytes>, environ: map<Bytes, Bytes>)
    ensures |Pairs(text, extra, environ)| == if |environ| < 100 then |environ| else 100
    ensures forall i :: 0 <= i < |Pairs(text, extra, environ)| ==>
      i < |Sorted(environ.Keys)| && KeyAt(environ, i) == Sorted(environ.Keys)[i]
  {
    AscendingLength(Sorted(environ.Keys));
    assert Elements(Sorted(environ.Keys)) == environ.Keys;
    hide Pair, Ascending;
  }

  lemma PairOf(text: Text, extra: seq<Bytes>, environ: map<Bytes, Bytes>, i: nat)
    requires i < |Pairs(text, extra, environ)|
    ensures var k := KeyAt(environ, i); Pairs(text, extra, environ)[i] == Pair(text, extra, k, environ[k])
  {
    hide Pair;
  }

  /** Every variable whose pair is kept stands in the label under its sanitised name: redacted when it
      gives itself away, else with its length when it is long, else with its sanitised value. */
  lemma {:induction false} KeptPairStands(text: Text, extra: seq<Bytes>, environ: map<Bytes, Bytes>, i: nat)
    requires i in Kept(Pairs(text, extra, environ), |Pairs(text, extra, environ)|)
    ensures i < |EmittedKeys(environ)|
    ensures var k := KeyAt(environ, i);
      exists r :: Renders(text, extra, k, environ[k], r) &&
        PairStands(ScrubbedLabel(text, extra, environ), SanitizeLabelValue(k), r)
  {
    var pairs := Pairs(text, extra, environ);
    var kept := Kept(pairs, |pairs|);
    var k := KeyAt(environ, i);
    PairOf(text, extra, environ, i);
    RenderedShows(text, extra, k, environ[k]);
    LabelIsJoin(pairs, |pairs|);
    hide Kept, Label, Pair, Pairs, Join, Renders, RenderedValue, SanitizeLabelValue, Splits, EmittedKeys;
    var j :| 0 <= j < |kept| && kept[j] == i;
    JoinSplits(Select(pairs, kept), j);
    assert Select(pairs, kept)[j] == pairs[i];
    assert PairStands(ScrubbedLabel(text, extra, environ), SanitizeLabelValue(k), RenderedValue(text, extra, k,
      environ[k]));
  }

  lemma {:induction false} FullIndices(kept: seq<nat>, n: nat)
    requires Indices(kept, n) && |kept| == n
    ensures forall i :: 0 <= i < n ==> kept[i] == i
  {
    if n > 0 {
      IndicesFull(kept[..n - 1], kept[n - 1]);
      FullIndices(kept[..n - 1], n - 1);
    }
  }

  lemma CompleteLabel(text: Text, extra: seq<Bytes>, environ: map<Bytes, Bytes>)
    requires !Incomplete(text, extra, environ)
    ensures ScrubbedLabel(text, extra, environ) == Join(Pairs(text, extra, environ))
    ensures |Pairs(text, extra, environ)| == |environ|
  {
    var pairs := Pairs(text, extra, environ);
    var kept := Kept(pairs, |pairs|);
    EmittedCount(environ);
    hide Kept, Pair, Pairs, Join, Label;
    LabelIsJoin(pairs, |pairs|);
    hide Select, Indices;
    SelectAll(pairs, kept);
  }

  lemma SelectAll(pairs: seq<Bytes>, kept: seq<nat>)
    requires Indices(kept, |pairs|) && |kept| == |pairs|
    ensures Select(pairs, kept) == pairs
  {
    FullIndices(kept, |pairs|);
  }

  /** Some kept pair is this variable's. */
  ghost predicate HasPair(text: Text, extra: seq<Bytes>, environ: map<Bytes, Bytes>, k: Bytes) {
    exists i :: 0 <= i < |EmittedKeys(environ)| && KeyAt(environ, i) == k &&
      i in Kept(Pairs(text, extra, environ), |Pairs(text, extra, environ)|)
  }

  /** The label is incomplete exactly when some variable has no pair in it. */
  lemma {:induction false} IncompleteIff(text: Text, extra: seq<Bytes>, environ: map<Bytes, Bytes>)
    ensures Incomplete(text, extra, environ) <==> exists k :: k in environ && !HasPair(text, extra, environ, k)
  {
    var pairs := Pairs(text, extra, environ);
    var kept, n := Kept(pairs, |pairs|), |pairs|;
    EmittedCount(environ);
    IndicesFull(kept, n);
    hide Kept, Pairs, Pair, EmittedKeys;
    if Incomplete(text, extra, environ) {
      if n == |environ| {
        var i :| 0 <= i < n && i !in kept;
        OnlyIndex(environ, i);
        assert !HasPair(text, extra, environ, KeyAt(environ, i));
      } else {
        var k := UnemittedKey(environ);
        assert !HasPair(text, extra, environ, k);
      }
    } else {
      forall k | k in environ ensures HasPair(text, extra, environ, k) {
        var i := KeyIndex(text, extra, environ, k);
      }
    }
  }

  lemma OnlyIndex(environ: map<Bytes, Bytes>, i: nat)
    requires i < |EmittedKeys(environ)|
    ensures forall j :: 0 <= j < |EmittedKeys(environ)| && KeyAt(environ, j) == KeyAt(environ, i) ==> j == i
  {
    forall j | 0 <= j < |EmittedKeys(environ)| && j != i ensures KeyAt(environ, j) != KeyAt(environ, i) {
      OtherKeys(environ, i, j);
    }
  }

  /** With more than a hundred variables the last one in order is not emitted. */
  lemma UnemittedKey(environ: map<Bytes, Bytes>) returns (k: Bytes)
    requires |EmittedKeys(environ)| < |environ|
    ensures k in environ && forall i :: 0 <= i < |EmittedKeys(environ)| ==> KeyAt(environ, i) != k
  {
    var all := Sorted(environ.Keys);
    AscendingLength(all);
    k := all[|all| - 1];
    assert k in Elements(all);
    LessTotal(k, k);
  }

  /** The same variables with the same values, but for one. */
  predicate DifferOnlyIn(e1: map<Bytes, Bytes>, e2: map<Bytes, Bytes>, k: Bytes) {
    e1.Keys == e2.Keys && k in e1 && forall q :: q in e1 && q != k ==> e1[q] == e2[q]
  }

  lemma DifferAt(e1: map<Bytes, Bytes>, e2: map<Bytes, Bytes>, k: Bytes)
    requires DifferOnlyIn(e1, e2, k)
    ensures e1.Keys == e2.Keys && k in e1 && k in e2 && forall q :: q in e1 && q != k ==> e1[q] == e2[q]
  {
  }

  /** Every variable of both environments has its pair. */
  ghost predicate BothComplete(text: Text, extra: seq<Bytes>, e1: map<Bytes, Bytes>, e2: map<Bytes, Bytes>) {
    !Incomplete(text, extra, e1) && !Incomplete(text, extra, e2)
  }

  lemma NoneOmitted(text: Text, extra: seq<Bytes>, e1: map<Bytes, Bytes>, e2: map<Bytes, Bytes>)
    ensures BothComplete(text, extra, e1, e2) <==> !Incomplete(text, extra, e1) && !Incomplete(text, extra, e2)
  {
    hide Incomplete;
  }

  /** In complete labels of environments that differ in one variable at most, that variable
      shows: the labels are equal exactly when it is rendered the same. */
  lemma {:induction false} LabelTellsValue(
    text: Text, extra: seq<Bytes>, e1: map<Bytes, Bytes>, e2: map<Bytes, Bytes>, k: Bytes)
    requires DifferOnlyIn(e1, e2, k)
    ensures BothComplete(text, extra, e1, e2) ==>
      (ScrubbedLabel(text, extra, e1) == ScrubbedLabel(text, extra, e2) <==>
        RenderedValue(text, extra, k, e1[k]) == RenderedValue(text, extra, k, e2[k]))
  {
    hide *;
    DifferAt(e1, e2, k);
    NoneOmitted(text, extra, e1, e2);
    if !BothComplete(text, extra, e1, e2) { return; }
    var p1, p2 := Pairs(text, extra, e1), Pairs(text, extra, e2);
    CompleteLabel(text, extra, e1);
    CompleteLabel(text, extra, e2);
    var i := KeyIndex(text, extra, e1, k);
    SameKeys(e1, e2);
    forall j | 0 <= j < |p1|
      ensures j != i ==> p1[j] == p2[j]
      ensures p1[j] == Pair(text, extra, KeyAt(e1, j), e1[KeyAt(e1, j)])
      ensures p2[j] == Pair(text, extra, KeyAt(e1, j), e2[KeyAt(e1, j)])
    {
      PairOf(text, extra, e1, j);
      PairOf(text, extra, e2, j);
      if j != i { OtherKeys(e1, i, j); }
    }
    PairTellsValue(text, extra, k, e1[k], e2[k]);
    JoinTellsPart(p1, p2, i);
  }

  lemma SameKeys(e1: map<Bytes, Bytes>, e2: map<Bytes, Bytes>)
    requires e1.Keys == e2.Keys
    ensures EmittedKeys(e1) == EmittedKeys(e2) && |e1| == |e2|
    ensures forall i :: 0 <= i < |EmittedKeys(e1)| ==> KeyAt(e1, i) == KeyAt(e2, i)
  {
    hide Sorted;
    assert |e1| == |e1.Keys| == |e2.Keys| == |e2|;
  }

  lemma PairTellsValue(text: Text, extra: seq<Bytes>, k: Bytes, v: Bytes, w: Bytes)
    ensures Pair(text, extra, k, v) == Pair(text, extra, k, w) <==>
      RenderedValue(text, extra, k, v) == RenderedValue(text, extra, k, w)
  {
    hide RenderedValue, SanitizeLabelValue;
    var name := SanitizeLabelValue(k) + [EQUALS];
    assert (name + RenderedValue(text, extra, k, v))[|name|..] == RenderedValue(text, extra, k, v);
    assert (name + RenderedValue(text, extra, k, w))[|name|..] == RenderedValue(text, extra, k, w);
  }

  lemma OtherKeys(environ: map<Bytes, Bytes>, i: nat, j: nat)
    requires i < |EmittedKeys(environ)| && j < |EmittedKeys(environ)| && i != j
    ensures KeyAt(environ, i) != KeyAt(environ, j)
  {
    LessTotal(KeyAt(environ, i), KeyAt(environ, i));
  }

  lemma KeyIndex(text: Text, extra: seq<Bytes>, environ: map<Bytes, Bytes>, k: Bytes) returns (i: nat)
    requires k in environ && |Pairs(text, extra, environ)| == |environ|
    ensures i < |EmittedKeys(environ)| && KeyAt(environ, i) == k
  {
    var all := Sorted(environ.Keys);
    AscendingLength(all);
    assert k in Elements(all);
    i :| 0 <= i < |all| && all[i] == k;
    EmittedCount(environ);
  }

  /** Ordinary values of at most 256 bytes: they give nothing away. */
  ghost predicate BothPlain(text: Text, extra: seq<Bytes>, k: Bytes, v: Bytes, w: Bytes) {
    && !Betrays(text, extra, k, v) && |SanitizeLabelValue(v)| <= 256
    && !Betrays(text, extra, k, w) && |SanitizeLabelValue(w)| <= 256
  }

  /** So two plain values are told apart by their sanitised form. */
  lemma {:induction false} LabelTellsPlainValues(
    text: Text, extra: seq<Bytes>, e1: map<Bytes, Bytes>, e2: map<Bytes, Bytes>, k: Bytes)
    requires DifferOnlyIn(e1, e2, k)
    ensures BothComplete(text, extra, e1, e2) && BothPlain(text, extra, k, e1[k], e2[k]) ==>
      (ScrubbedLabel(text, extra, e1) == ScrubbedLabel(text, extra, e2) <==>
        SanitizeLabelValue(e1[k]) == SanitizeLabelValue(e2[k]))
  {
    hide Betrays, RenderedValue, SanitizeLabelValue, ScrubbedLabel, BothComplete, DifferOnlyIn;
    DifferAt(e1, e2, k);
    LabelTellsValue(text, extra, e1, e2, k);
    RenderedShows(text, extra, k, e1[k]);
    RenderedShows(text, extra, k, e2[k]);
  }

  /** The ceiling in bytes: a pair that was left out would have passed it after the final label. */
  lemma {:induction false} OmittedWouldPass(text: Text, extra: seq<Bytes>, environ: map<Bytes, Bytes>, i: nat)
    requires i < |Pairs(text, extra, environ)|
    requires i !in Kept(Pairs(text, extra, environ), |Pairs(text, extra, environ)|)
    ensures var shown := ScrubbedLabel(text, extra, environ);
      |shown| <= 8192 < |shown| + (if shown == [] then 0 else 2) + |Pairs(text, extra, environ)[i]|
  {
    PackingIsMaximal(Pairs(text, extra, environ));
    hide Kept, Label, Pairs;
  }
}

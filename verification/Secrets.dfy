/** exporter/collector.go: what counts as a secret. One classification serves the
    Prometheus label path and the JSON path; sanitising must not move anything
    across it. */
module Secrets {
  import opened Utf8
  import opened Givens

  const SECRET_KEYS: seq<Bytes> := [
    Lit("key"), Lit("pass"), Lit("passwd"), Lit("token"), Lit("secret"), Lit("auth"), Lit("pwd"), Lit("db"),
    Lit("url"), Lit("private"), Lit("crypt"), Lit("credential"), Lit("signature"), Lit("api"), Lit("cert"),
    Lit("ssh"), Lit("gpg"), Lit("jwt"), Lit("bearer"), Lit("access"), Lit("cookie"), Lit("session"),
    Lit("salt"), Lit("otp"), Lit("webhook"), Lit("dsn"), Lit("connection"), Lit("client_secret")
  ]

  const TOKEN_PREFIXES: seq<Bytes> := [
    Lit("glpat-"), Lit("gho_"), Lit("ghp_"), Lit("ghu_"), Lit("ghs_"), Lit("github_pat_"),
    Lit("AKIA"), Lit("xoxb-"), Lit("xoxp-"), Lit("xoxa-")
  ]

  const JWT_HEADER := Lit("eyJ")

  predicate MatchesAny(text: Text, key: Bytes, substrings: seq<Bytes>) {
    exists i :: 0 <= i < |substrings| && Contains(text.lower(key), substrings[i])
  }

  method KeyMatchesAny(text: Text, key: Bytes, substrings: seq<Bytes>) returns (found: bool)
    ensures found == MatchesAny(text, key, substrings)
  {
    var k := text.lower(key);
    for i := 0 to |substrings|
      invariant forall j :: 0 <= j < i ==> !Contains(k, substrings[j])
    {
      if Contains(k, substrings[i]) {
        return true;
      }
    }
    return false;
  }

  predicate IsSecretKey(text: Text, key: Bytes) {
    MatchesAny(text, key, SECRET_KEYS)
  }

  predicate TokenByte(b: byte) {
    || 0x61 <= b <= 0x7A || 0x41 <= b <= 0x5A || 0x30 <= b <= 0x39
    || b == 0x2B || b == 0x2F || b == 0x3D || b == 0x2D || b == 0x5F
  }

  predicate TokenCharset(v: Bytes) {
    forall i :: 0 <= i < |v| ==> TokenByte(v[i])
  }

  /** The rune loop of isTokenCharset decides exactly "every byte is a token byte":
      a multi-byte rune and a malformed byte (read as U+FFFD) both end it. */
  method IsTokenCharset(v: Bytes) returns (ok: bool)
    ensures ok == TokenCharset(v)
  {
    var i := 0;
    while i < |v|
      invariant 0 <= i <= |v|
      invariant forall j :: 0 <= j < i ==> TokenByte(v[j])
    {
      var w := RuneWidth(v[i..]);
      if w != 1 || !TokenByte(v[i]) {
        return false;
      }
      i := i + 1;
    }
    return true;
  }

  predicate IsSecretValue(text: Text, v: Bytes) {
    && v != []
    && (|| (exists i :: 0 <= i < |TOKEN_PREFIXES| && HasPrefix(v, TOKEN_PREFIXES[i]))
        || (HasPrefix(v, JWT_HEADER) && Count(v, DOT) == 2)
        || (|v| >= 32 && TokenCharset(v) && text.highEntropy(v)))
  }

  predicate IsSensitivePair(text: Text, key: Bytes, val: Bytes, extra: seq<Bytes>) {
    IsSecretKey(text, key) || MatchesAny(text, key, extra) || IsSecretValue(text, val)
  }

  lemma PrefixesAreAscii()
    ensures forall i, j :: 0 <= i < |TOKEN_PREFIXES| && 0 <= j < |TOKEN_PREFIXES[i]| ==> Ascii(TOKEN_PREFIXES[i][j])
    ensures forall j :: 0 <= j < |JWT_HEADER| ==> Ascii(JWT_HEADER[j])
  {
  }

  /** Sanitising never changes the classification of a value, for any bytes at all. */
  lemma {:induction false} SanitizeKeepsClassification(text: Text, v: Bytes)
    ensures IsSecretValue(text, SanitizeLabelValue(v)) <==> IsSecretValue(text, v)
  {
    var s := ToValid(v, false);
    SanitizeIsToValid(v);
    PrefixesAreAscii();
    forall i | 0 <= i < |TOKEN_PREFIXES| ensures HasPrefix(s, TOKEN_PREFIXES[i]) <==> HasPrefix(v, TOKEN_PREFIXES[i]) {
      SanitizeKeepsAsciiPrefix(v, TOKEN_PREFIXES[i]);
    }
    SanitizeKeepsAsciiPrefix(v, JWT_HEADER);
    SanitizeKeepsAsciiCount(v, false, DOT);
    if TokenCharset(v) {
      AsciiIsValid(v);
    } else {
      SanitizeKeepsTokenCharset(v);
    }
    assert v == [] <==> s == [] by { if v != [] { SanitizeHead(v, false); } }
  }

  lemma SanitizeKeepsTokenCharset(v: Bytes)
    requires !TokenCharset(v)
    ensures !TokenCharset(ToValid(v, false))
  {
    if exists i :: 0 <= i < |v| && !Ascii(v[i]) {
      SanitizeKeepsNonAscii(v);
      var s := ToValid(v, false);
      var j :| 0 <= j < |s| && !Ascii(s[j]);
      assert !TokenByte(s[j]);
    } else {
      AsciiIsValid(v);
      ToValidKeepsValid(v, false);
    }
  }
}

/** Substrings told from their surroundings. */
module Substrings {
  import opened Utf8

  /** `p` stands somewhere in `s`. */
  ghost predicate Around(s: Bytes, p: Bytes) {
    exists x: Bytes, y: Bytes :: s == x + p + y
  }

  lemma ContainsIffAround(s: Bytes, p: Bytes)
    ensures Contains(s, p) <==> Around(s, p)
  {
    if Contains(s, p) {
      var i :| 0 <= i <= |s| && HasPrefix(s[i..], p);
      assert s == s[..i] + p + s[i + |p|..] by { assert s[i..] == p + s[i..][|p|..]; }
    }
    if Around(s, p) {
      var x: Bytes, y: Bytes :| s == x + p + y;
      assert s[|x|..] == p + y && (p + y)[..|p|] == p;
      assert HasPrefix(s[|x|..], p);
    }
  }
}

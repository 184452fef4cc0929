/** Byte strings and UTF-8 as section 4 of RFC 3629 defines it: validity, rune
    boundaries, and the replacement of malformed runs that every label value
    sourced from /proc goes through. */
module Utf8 {
  newtype byte = b: int | 0 <= b < 256
  type Bytes = seq<byte>

  const HYPHEN: byte := 0x2D
  const DOT: byte := 0x2E
  const EQUALS: byte := 0x3D

  /** An ASCII literal as bytes (a non-ASCII character would read as '?'). */
  function Lit(text: string): Bytes {
    seq(|text|, i requires 0 <= i < |text| => if text[i] as int < 128 then text[i] as int as byte else 0x3F)
  }

  predicate HasPrefix(s: Bytes, p: Bytes) {
    |p| <= |s| && s[..|p|] == p
  }

  predicate Contains(s: Bytes, sub: Bytes) {
    exists i :: 0 <= i <= |s| && HasPrefix(s[i..], sub)
  }

  predicate Ascii(b: byte) { b < 0x80 }

  predicate Continuation(b: byte) { 0x80 <= b <= 0xBF }

  predicate RuneStart(b: byte) { !Continuation(b) }

  predicate ThreeByteLead(b0: byte, b1: byte) {
    || (b0 == 0xE0 && 0xA0 <= b1 <= 0xBF)
    || (0xE1 <= b0 <= 0xEC && Continuation(b1))
    || (b0 == 0xED && 0x80 <= b1 <= 0x9F)
    || (0xEE <= b0 <= 0xEF && Continuation(b1))
  }

  predicate FourByteLead(b0: byte, b1: byte) {
    || (b0 == 0xF0 && 0x90 <= b1 <= 0xBF)
    || (0xF1 <= b0 <= 0xF3 && Continuation(b1))
    || (b0 == 0xF4 && 0x80 <= b1 <= 0x8F)
  }

  /** The length of the well-formed sequence that starts `s`; 0 when `s` is
      empty or starts with a malformed byte. */
  function RuneWidth(s: Bytes): (w: nat)
    ensures w <= 4 && w <= |s|
  {
    if |s| == 0 then 0
    else if Ascii(s[0]) then 1
    else if |s| >= 2 && 0xC2 <= s[0] <= 0xDF && Continuation(s[1]) then 2
    else if |s| >= 3 && ThreeByteLead(s[0], s[1]) && Continuation(s[2]) then 3
    else if |s| >= 4 && FourByteLead(s[0], s[1]) && Continuation(s[2]) && Continuation(s[3]) then 4
    else 0
  }

  predicate Valid(s: Bytes)
    decreases |s|
  {
    s == [] || (RuneWidth(s) > 0 && Valid(s[RuneWidth(s)..]))
  }

  /** A well-formed first rune stays the first rune whatever follows it. */
  lemma RuneWidthExtends(a: Bytes, b: Bytes)
    requires RuneWidth(a) > 0
    ensures RuneWidth(a + b) == RuneWidth(a)
    ensures (a + b)[RuneWidth(a)..] == a[RuneWidth(a)..] + b
  {
  }

  /** Once a valid prefix is read, validity is the validity of what remains. */
  lemma {:induction false} ValidConcat(a: Bytes, b: Bytes)
    requires Valid(a)
    ensures Valid(a + b) <==> Valid(b)
    decreases |a|
  {
    if a == [] {
      assert a + b == b;
    } else {
      RuneWidthExtends(a, b);
      ValidConcat(a[RuneWidth(a)..], b);
    }
  }

  lemma {:induction false} AsciiIsValid(s: Bytes)
    requires forall i :: 0 <= i < |s| ==> Ascii(s[i])
    ensures Valid(s)
    decreases |s|
  {
    if s != [] {
      AsciiIsValid(s[1..]);
    }
  }

  /** Inside a rune every byte is a continuation byte and no cut is valid. */
  lemma NoCutInsideRune(s: Bytes, i: nat)
    requires 0 < i < RuneWidth(s)
    ensures Continuation(s[i]) && RuneWidth(s[..i]) == 0
  {
    var cut := s[..i];
    assert cut[0] == s[0];
    assert i == 1 || cut[1] == s[1];
    assert i <= 2 || cut[2] == s[2];
  }

  /** In valid UTF-8 the rune boundaries are exactly the positions of rune-start bytes. */
  lemma {:induction false} BoundaryIffRuneStart(s: Bytes, i: nat)
    requires Valid(s) && i <= |s|
    ensures Valid(s[..i]) <==> (i == |s| || RuneStart(s[i]))
    decreases |s|
  {
    var w := RuneWidth(s);
    if s == [] || i == 0 {
    } else if i < w {
      NoCutInsideRune(s, i);
    } else {
      BoundaryIffRuneStart(s[w..], i - w);
      CutAfterFirstRune(s, i);
    }
  }

  lemma CutAfterFirstRune(s: Bytes, i: nat)
    requires 0 < RuneWidth(s) <= i <= |s|
    ensures Valid(s[..i]) <==> Valid(s[RuneWidth(s)..][..i - RuneWidth(s)])
  {
    var w := RuneWidth(s);
    assert RuneWidth(s[..i]) == w;
    assert s[..i][w..] == s[w..][..i - w];
  }

  /** A rune start lies at most three bytes before any position. */
  lemma {:induction false} RuneStartNearby(s: Bytes, i: nat) returns (back: nat)
    requires Valid(s) && i < |s|
    ensures back <= 3 && back <= i && RuneStart(s[i - back])
    decreases |s|
  {
    var w := RuneWidth(s);
    if i < w {
      back := i;
    } else {
      back := RuneStartNearby(s[w..], i - w);
    }
  }

  // ----- replacing malformed runs ---------------------------------------------

  /** U+FFFD. */
  const REPLACEMENT: Bytes := [0xEF, 0xBF, 0xBD]

  /** strings.ToValidUTF8 with U+FFFD: every maximal run of malformed bytes
      becomes ONE replacement character. `inRun` says the previous byte was
      malformed. */
  function ToValid(s: Bytes, inRun: bool): Bytes
    decreases |s|
  {
    if s == [] then []
    else if RuneWidth(s) == 0 then (if inRun then [] else REPLACEMENT) + ToValid(s[1..], true)
    else s[..RuneWidth(s)] + ToValid(s[RuneWidth(s)..], false)
  }

  function SanitizeLabelValue(v: Bytes): Bytes {
    if Valid(v) then v else ToValid(v, false)
  }

  lemma {:induction false} ToValidKeepsValid(s: Bytes, inRun: bool)
    requires Valid(s)
    ensures ToValid(s, inRun) == s
    decreases |s|
  {
    if s != [] {
      ToValidKeepsValid(s[RuneWidth(s)..], false);
      assert s == s[..RuneWidth(s)] + s[RuneWidth(s)..];
    }
  }

  lemma {:induction false} ToValidIsValid(s: Bytes, inRun: bool)
    ensures Valid(ToValid(s, inRun))
    ensures |ToValid(s, inRun)| <= 3 * |s|
    decreases |s|
  {
    if s != [] {
      var w := RuneWidth(s);
      if w == 0 {
        ToValidIsValid(s[1..], true);
        assert Valid(REPLACEMENT) by { assert Valid(REPLACEMENT[3..]); }
        if !inRun { ValidConcat(REPLACEMENT, ToValid(s[1..], true)); }
        else { assert [] + ToValid(s[1..], true) == ToValid(s[1..], true); }
      } else {
        ToValidIsValid(s[w..], false);
        assert s[..w][w..] == [];
        assert Valid(s[..w]);
        ValidConcat(s[..w], ToValid(s[w..], false));
      }
    }
  }

  /** The sanitised value is valid UTF-8, equals the input exactly when the input
      was valid, is a fixed point, and is at most three times as long. */
  lemma {:induction false} SanitizeMakesValid(v: Bytes)
    ensures Valid(SanitizeLabelValue(v))
    ensures SanitizeLabelValue(v) == v <==> Valid(v)
    ensures SanitizeLabelValue(SanitizeLabelValue(v)) == SanitizeLabelValue(v)
    ensures |SanitizeLabelValue(v)| <= 3 * |v|
  {
    ToValidIsValid(v, false);
  }

  /** The general form and the early return of sanitizeLabelValue agree. */
  lemma SanitizeIsToValid(v: Bytes)
    ensures SanitizeLabelValue(v) == ToValid(v, false)
  {
    if Valid(v) { ToValidKeepsValid(v, false); }
  }

  /** Sanitising leaves every ASCII byte in place: a leading ASCII byte is copied,
      and a leading non-ASCII byte becomes some non-ASCII byte. */
  lemma SanitizeHead(s: Bytes, inRun: bool)
    requires s != []
    ensures Ascii(s[0]) ==> ToValid(s, inRun) == [s[0]] + ToValid(s[1..], false)
    ensures !Ascii(s[0]) && !inRun ==> ToValid(s, inRun) != [] && !Ascii(ToValid(s, inRun)[0])
  {
    if Ascii(s[0]) {
      assert s[..1] == [s[0]];
    }
  }

  /** An ASCII prefix is present after sanitising exactly when it was there before. */
  lemma {:induction false} SanitizeKeepsAsciiPrefix(s: Bytes, p: Bytes)
    requires forall i :: 0 <= i < |p| ==> Ascii(p[i])
    ensures HasPrefix(ToValid(s, false), p) <==> HasPrefix(s, p)
    decreases |s|
  {
    if s != [] && p != [] {
      SanitizeHead(s, false);
      if Ascii(s[0]) {
        SanitizeKeepsAsciiPrefix(s[1..], p[1..]);
        PrefixCons(s[0], s[1..], p);
        assert s == [s[0]] + s[1..];
        PrefixCons(s[0], ToValid(s[1..], false), p);
      }
    }
  }

  lemma PrefixCons(x: byte, t: Bytes, p: Bytes)
    requires p != []
    ensures HasPrefix([x] + t, p) <==> x == p[0] && HasPrefix(t, p[1..])
  {
    if |p| <= |t| + 1 {
      assert ([x] + t)[..|p|] == [x] + t[..|p| - 1];
      assert p == [p[0]] + p[1..];
      if ([x] + t)[..|p|] == p {
        assert x == p[0] && t[..|p| - 1] == p[1..] by {
          assert (([x] + t)[..|p|])[0] == x;
          assert (([x] + t)[..|p|])[1..] == t[..|p| - 1];
        }
      }
    }
  }

  /** How often an ASCII byte occurs (strings.Count of a one-byte separator). */
  function Count(s: Bytes, b: byte): nat {
    if s == [] then 0 else (if s[0] == b then 1 else 0) + Count(s[1..], b)
  }

  lemma {:induction false} CountConcat(s: Bytes, t: Bytes, b: byte)
    ensures Count(s + t, b) == Count(s, b) + Count(t, b)
  {
    if s == [] {
      assert s + t == t;
    } else {
      assert (s + t)[1..] == s[1..] + t;
      CountConcat(s[1..], t, b);
    }
  }

  lemma {:induction false} CountNone(s: Bytes, b: byte)
    requires b !in s
    ensures Count(s, b) == 0
  {
    if s != [] { CountNone(s[1..], b); }
  }

  /** Sanitising changes the number of occurrences of no ASCII byte. */
  lemma {:induction false} SanitizeKeepsAsciiCount(s: Bytes, inRun: bool, b: byte)
    requires Ascii(b)
    ensures Count(ToValid(s, inRun), b) == Count(s, b)
    decreases |s|
  {
    if s != [] {
      var w := RuneWidth(s);
      if w == 0 {
        SanitizeKeepsAsciiCount(s[1..], true, b);
        CountNone(REPLACEMENT, b);
        CountConcat(if inRun then [] else REPLACEMENT, ToValid(s[1..], true), b);
      } else {
        SanitizeKeepsAsciiCount(s[w..], false, b);
        CountConcat(s[..w], ToValid(s[w..], false), b);
        CountConcat(s[..w], s[w..], b);
        assert s == s[..w] + s[w..];
      }
    }
  }

  /** An all-ASCII value is untouched; any other keeps a non-ASCII byte. */
  lemma {:induction false} SanitizeKeepsNonAscii(s: Bytes)
    requires exists i :: 0 <= i < |s| && !Ascii(s[i])
    ensures exists i :: 0 <= i < |ToValid(s, false)| && !Ascii(ToValid(s, false)[i])
    decreases |s|
  {
    SanitizeHead(s, false);
    if Ascii(s[0]) {
      var i :| 0 <= i < |s| && !Ascii(s[i]);
      assert s[1..][i - 1] == s[i];
      SanitizeKeepsNonAscii(s[1..]);
      var t := ToValid(s[1..], false);
      var j :| 0 <= j < |t| && !Ascii(t[j]);
      assert ToValid(s, false)[j + 1] == t[j];
    }
  }
}

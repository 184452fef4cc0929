/** What the texts are made of: runes by the table of RFC 3629 and runs of malformed bytes,
    decimal digits, and the string order. */
module Texts {
  import opened Utf8
  import opened Decimal
  import opened Order

  // ----- runes ------------------------------------------------------------------------

  /** A Unicode scalar value (section 3 of RFC 3629: no surrogates, none past U+10FFFF). */
  predicate Scalar(c: int) { 0 <= c < 0xD800 || 0xE000 <= c <= 0x10FFFF }

  /** The table of section 3 of RFC 3629. */
  function Encoded(c: int): (s: Bytes)
    requires Scalar(c)
    ensures s != []
  {
    if c < 0x80 then [c as byte]
    else if c < 0x800 then [(0xC0 + c / 0x40) as byte, (0x80 + c % 0x40) as byte]
    else if c < 0x1_0000 then
      [(0xE0 + c / 0x1000) as byte, (0x80 + c / 0x40 % 0x40) as byte, (0x80 + c % 0x40) as byte]
    else
      [(0xF0 + c / 0x4_0000) as byte, (0x80 + c / 0x1000 % 0x40) as byte,
       (0x80 + c / 0x40 % 0x40) as byte, (0x80 + c % 0x40) as byte]
  }

  /** The scalar value that the first w bytes encode. */
  function Decoded(s: Bytes, w: nat): int
    requires 1 <= w <= 4 && w <= |s|
  {
    if w == 1 then s[0] as int
    else if w == 2 then (s[0] as int - 0xC0) * 0x40 + s[1] as int - 0x80
    else if w == 3 then (s[0] as int - 0xE0) * 0x1000 + (s[1] as int - 0x80) * 0x40 + s[2] as int - 0x80
    else
      (s[0] as int - 0xF0) * 0x4_0000 + (s[1] as int - 0x80) * 0x1000 + (s[2] as int - 0x80) * 0x40
      + s[3] as int - 0x80
  }

  /** Every encoding of a scalar value is read as one rune. */
  lemma {:induction false} EncodedIsRune(c: int, rest: Bytes)
    requires Scalar(c)
    ensures RuneWidth(Encoded(c) + rest) == |Encoded(c)|
  {
    var e, s := Encoded(c), Encoded(c) + rest;
    assert s[0] == e[0];
    assert |e| > 1 ==> s[1] == e[1];
    assert |e| > 2 ==> s[2] == e[2];
    assert |e| > 3 ==> s[3] == e[3];
    if c >= 0x1_0000 {
      EncodedFour(c);
      hide Encoded;
    } else if c >= 0x800 {
      EncodedThree(c);
      hide Encoded;
    }
  }

  lemma EncodedThree(c: int)
    requires Scalar(c) && 0x800 <= c < 0x1_0000
    ensures var e := Encoded(c); |e| == 3 && ThreeByteLead(e[0], e[1]) && Continuation(e[2])
  {
  }

  lemma EncodedFour(c: int)
    requires Scalar(c) && 0x1_0000 <= c
    ensures var e := Encoded(c); |e| == 4 && FourByteLead(e[0], e[1]) && Continuation(e[2]) && Continuation(e[3])
  {
  }

  lemma SixBits(a: nat, b: nat)
    requires b < 0x40
    ensures (a * 0x40 + b) / 0x40 == a && (a * 0x40 + b) % 0x40 == b
  {
  }

  lemma TwelveBits(c: nat)
    ensures c / 0x1000 == c / 0x40 / 0x40 && c / 0x4_0000 == c / 0x40 / 0x40 / 0x40
  {
  }

  /** Every rune is the encoding of a scalar value. */
  lemma {:induction false} RuneIsEncoded(s: Bytes)
    requires RuneWidth(s) > 0
    ensures var c := Decoded(s, RuneWidth(s)); Scalar(c) && s[..RuneWidth(s)] == Encoded(c)
  {
    var w := RuneWidth(s);
    var c := Decoded(s, w);
    if w == 1 {
      assert s[..1] == [s[0]];
    } else if w == 2 {
      SixBits(s[0] as int - 0xC0, s[1] as int - 0x80);
      assert s[..2] == [s[0], s[1]];
    } else if w == 3 {
      RuneOfThree(s);
    } else {
      RuneOfFour(s);
    }
  }

  lemma RuneOfThree(s: Bytes)
    requires RuneWidth(s) == 3
    ensures Scalar(Decoded(s, 3)) && s[..3] == Encoded(Decoded(s, 3))
  {
    var x, y, z := s[0] as int - 0xE0, s[1] as int - 0x80, s[2] as int - 0x80;
    assert s[..3] == [s[0], s[1], s[2]] && 0 <= x < 0x10 && 0 <= y < 0x40 && 0 <= z < 0x40;
    assert x > 0 || y >= 0x20;
    assert x != 0xD || y < 0x20;
    hide RuneWidth;
    SixBits(x * 0x40 + y, z);
    SixBits(x, y);
    TwelveBits(Decoded(s, 3));
  }

  lemma FourParts(w: nat, x: nat, y: nat, z: nat)
    requires x < 0x40 && y < 0x40 && z < 0x40
    ensures var c := w * 0x4_0000 + x * 0x1000 + y * 0x40 + z;
      && c / 0x4_0000 == w && c / 0x1000 % 0x40 == x && c / 0x40 % 0x40 == y && c % 0x40 == z
  {
    SixBits((w * 0x40 + x) * 0x40 + y, z);
    SixBits(w * 0x40 + x, y);
    SixBits(w, x);
    TwelveBits(w * 0x4_0000 + x * 0x1000 + y * 0x40 + z);
  }

  lemma RuneOfFour(s: Bytes)
    requires RuneWidth(s) == 4
    ensures Scalar(Decoded(s, 4)) && s[..4] == Encoded(Decoded(s, 4))
  {
    var w, x, y, z := s[0] as int - 0xF0, s[1] as int - 0x80, s[2] as int - 0x80, s[3] as int - 0x80;
    assert s[..4] == [s[0], s[1], s[2], s[3]];
    assert 0 <= w <= 4 && 0 <= x < 0x40 && 0 <= y < 0x40 && 0 <= z < 0x40;
    assert w > 0 || x >= 0x10;
    assert w < 4 || x < 0x10;
    hide RuneWidth;
    FourParts(w, x, y, z);
  }

  /** A maximal malformed run: no rune starts in it, and a rune or the end follows it. */
  ghost predicate MalformedRun(bad: Bytes, after: Bytes) {
    && bad != []
    && (forall i :: 0 <= i < |bad| ==> RuneWidth(bad[i..] + after) == 0)
    && (after == [] || RuneWidth(after) > 0)
  }

  /** Sanitising keeps what is valid before a malformed run and puts one U+FFFD for the whole run. */
  lemma {:induction false} SanitizeReplacesRun(before: Bytes, bad: Bytes, after: Bytes)
    requires Valid(before) && MalformedRun(bad, after)
    ensures SanitizeLabelValue(before + bad + after) == before + [0xEF, 0xBF, 0xBD] + SanitizeLabelValue(after)
  {
    assert REPLACEMENT == [0xEF, 0xBF, 0xBD];
    hide *;
    SanitizeIsToValid(before + bad + after);
    SanitizeIsToValid(after);
    assert before + bad + after == before + (bad + after);
    ValidPasses(before, bad + after);
    RunIsReplaced(bad, after, false);
    assert before + (REPLACEMENT + ToValid(after, false)) == before + REPLACEMENT + ToValid(after, false);
  }

  lemma FirstRunePasses(a: Bytes, b: Bytes)
    requires RuneWidth(a) > 0
    ensures var w := RuneWidth(a); ToValid(a + b, false) == a[..w] + ToValid(a[w..] + b, false)
  {
    RuneWidthExtends(a, b);
    hide RuneWidth;
    assert (a + b)[..RuneWidth(a)] == a[..RuneWidth(a)];
  }

  lemma {:induction false} ValidPasses(a: Bytes, b: Bytes)
    requires Valid(a)
    ensures ToValid(a + b, false) == a + ToValid(b, false)
    decreases |a|
  {
    hide RuneWidth, ToValid;
    if a == [] {
      assert a + b == b && a + ToValid(b, false) == ToValid(b, false);
    } else {
      var w := RuneWidth(a);
      FirstRunePasses(a, b);
      ValidPasses(a[w..], b);
      hide Valid;
      Reassemble(a, w, ToValid(b, false));
    }
  }

  lemma Reassemble(a: Bytes, w: nat, more: Bytes)
    requires w <= |a|
    ensures a[..w] + (a[w..] + more) == a + more
  {
  }

  lemma FirstByteReplaced(s: Bytes, inRun: bool)
    requires s != [] && RuneWidth(s) == 0
    ensures ToValid(s, inRun) == (if inRun then [] else REPLACEMENT) + ToValid(s[1..], true)
  {
    hide RuneWidth;
  }

  lemma RunEnds(after: Bytes)
    requires after == [] || RuneWidth(after) > 0
    ensures ToValid(after, true) == ToValid(after, false)
  {
    hide RuneWidth;
  }

  lemma RunTail(bad: Bytes, after: Bytes)
    requires MalformedRun(bad, after)
    ensures RuneWidth(bad + after) == 0 && (bad + after)[1..] == bad[1..] + after
    ensures |bad| > 1 ==> MalformedRun(bad[1..], after)
    ensures |bad| == 1 ==> bad[1..] + after == after && (after == [] || RuneWidth(after) > 0)
  {
    hide RuneWidth;
    assert bad[0..] == bad;
    forall i | 0 <= i < |bad| - 1 ensures RuneWidth(bad[1..][i..] + after) == 0 {
      assert bad[1..][i..] == bad[i + 1..];
    }
  }

  lemma {:induction false} RunIsReplaced(bad: Bytes, after: Bytes, inRun: bool)
    requires MalformedRun(bad, after)
    ensures bad != []
    ensures ToValid(bad + after, inRun) == (if inRun then [] else REPLACEMENT) + ToValid(after, false)
    decreases |bad|
  {
    assert bad != [];
    hide *;
    RunTail(bad, after);
    FirstByteReplaced(bad + after, inRun);
    if |bad| == 1 {
      RunEnds(after);
    } else {
      RunIsReplaced(bad[1..], after, true);
      assert [] + ToValid(after, false) == ToValid(after, false);
    }
  }

  // ----- numbers ----------------------------------------------------------------------

  /** No leading zero but in zero itself, and what the digits mean, place by place. */
  lemma {:induction false} DigitsForm(n: nat)
    ensures Digits(n)[0] == 0x30 <==> n == 0
    ensures n < 10 ==> Digits(n) == [(0x30 + n) as byte]
    ensures forall d: nat :: d < 10 && n > 0 ==> Digits(10 * n + d) == Digits(n) + Digits(d)
  {
    if n >= 10 { DigitsForm(n / 10); }
  }

  lemma {:induction false} SomeNumbers()
    ensures Itoa(-120) == Lit("-120") && Itoa(0) == Lit("0") && Itoa(8192) == Lit("8192")
  {
    assert Digits(12) == Lit("12") && Digits(120) == Lit("120");
    assert Digits(81) == Lit("81") && Digits(819) == Lit("819") && Digits(8192) == Lit("8192");
  }

  /** Only an optional sign followed by digits is read. */
  lemma ParsedIsDecimal(s: Bytes)
    requires ParseInt64(s).Some?
    ensures s != [] && (Digit(s[0]) || (|s| > 1 && (s[0] == '+' as int as byte || s[0] == '-' as int as byte)))
    ensures forall i :: 1 <= i < |s| ==> Digit(s[i])
    ensures InInt64(ParseInt64(s).value) && (ParseInt64(s).value < 0 ==> s[0] == '-' as int as byte)
  {
    if s[0] == PLUS || s[0] == HYPHEN {
      assert forall i :: 1 <= i < |s| ==> s[i] == s[1..][i - 1];
    }
  }

  // ----- the string order -------------------------------------------------------------

  /** `a` and `b` first differ at k: there `a` has ended, or has the smaller byte. */
  predicate SmallerAt(a: Bytes, b: Bytes, k: nat) {
    && k <= |a| && k < |b| && a[..k] == b[..k]
    && (k == |a| || a[k] < b[k])
  }

  /** The order is decided by the first byte that differs; a proper prefix comes first. */
  lemma {:induction false} LessIff(a: Bytes, b: Bytes)
    ensures Less(a, b) <==> exists k: nat :: SmallerAt(a, b, k)
  {
    if a == [] {
      assert b != [] ==> SmallerAt(a, b, 0);
    } else if b != [] {
      assert a[0] < b[0] ==> SmallerAt(a, b, 0);
      if a[0] == b[0] {
        LessIff(a[1..], b[1..]);
        SmallerTail(a, b);
      }
    }
  }

  lemma SmallerTail(a: Bytes, b: Bytes)
    requires a != [] && b != [] && a[0] == b[0]
    ensures (exists k: nat :: SmallerAt(a, b, k)) <==> exists k: nat :: SmallerAt(a[1..], b[1..], k)
  {
    if k: nat :| SmallerAt(a, b, k) {
      assert k > 0;
      assert a[1..][..k - 1] == a[..k][1..] && b[1..][..k - 1] == b[..k][1..];
      assert SmallerAt(a[1..], b[1..], k - 1);
    }
    if k: nat :| SmallerAt(a[1..], b[1..], k) {
      assert a[..k + 1] == [a[0]] + a[1..][..k] && b[..k + 1] == [b[0]] + b[1..][..k];
      assert SmallerAt(a, b, k + 1);
    }
  }
}

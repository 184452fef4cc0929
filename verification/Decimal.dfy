/** Decimal text: strconv.Itoa / fmt "%d" and strconv.ParseInt(_, 10, 64). */
module Decimal {
  import opened Wrappers
  import opened Utf8

  const PLUS: byte := 0x2B

  const INT64_MAX: int := 0x7FFF_FFFF_FFFF_FFFF
  const INT64_MIN: int := -0x8000_0000_0000_0000

  predicate InInt64(n: int) { INT64_MIN <= n <= INT64_MAX }

  predicate Digit(b: byte) { 0x30 <= b <= 0x39 }

  predicate AllDigits(s: Bytes) { forall i :: 0 <= i < |s| ==> Digit(s[i]) }

  function Digits(n: nat): (s: Bytes)
    ensures s != [] && AllDigits(s)
  {
    if n < 10 then [(0x30 + n) as byte] else Digits(n / 10) + [(0x30 + n % 10) as byte]
  }

  function Itoa(n: int): Bytes {
    if n < 0 then [HYPHEN] + Digits(-n) else Digits(n)
  }

  function DigitsValue(s: Bytes): nat
    requires AllDigits(s)
  {
    if s == [] then 0 else 10 * DigitsValue(s[..|s| - 1]) + (s[|s| - 1] as int - 0x30)
  }

  /** ParseInt in base 10: an optional sign, at least one digit, nothing else,
      and a value a 64-bit signed integer can hold. */
  function ParseInt64(s: Bytes): Option<int> {
    var signed := s != [] && (s[0] == PLUS || s[0] == HYPHEN);
    var body := if signed then s[1..] else s;
    if body == [] || !AllDigits(body) then None
    else
      var n: int := if signed && s[0] == HYPHEN then -(DigitsValue(body) as int) else DigitsValue(body);
      if InInt64(n) then Some(n) else None
  }

  lemma {:induction false} DigitsRoundTrip(n: nat)
    ensures DigitsValue(Digits(n)) == n
  {
    if n >= 10 {
      DigitsRoundTrip(n / 10);
      var s := Digits(n);
      assert s[..|s| - 1] == Digits(n / 10);
    }
  }

  /** Reading back a printed 64-bit integer yields that integer, sign included. */
  lemma {:induction false} ParseItoa(n: int)
    requires InInt64(n)
    ensures ParseInt64(Itoa(n)) == Some(n)
  {
    if n < 0 {
      DigitsRoundTrip(-n);
      assert Itoa(n)[1..] == Digits(-n);
    } else {
      DigitsRoundTrip(n);
      assert Digit(Digits(n)[0]);
    }
  }

  lemma {:induction false} ItoaInjective(m: int, n: int)
    requires Itoa(m) == Itoa(n)
    ensures m == n
  {
    assert Digit(Digits(if m < 0 then -m else m)[0]) && Digit(Digits(if n < 0 then -n else n)[0]);
    DigitsRoundTrip(if m < 0 then -m else m);
    DigitsRoundTrip(if n < 0 then -n else n);
    if m < 0 {
      assert Itoa(m)[1..] == Digits(-m) && Itoa(n)[1..] == Digits(-n);
    }
  }

  function Pow10(k: nat): nat {
    if k == 0 then 1 else 10 * Pow10(k - 1)
  }

  lemma {:induction false} DigitsLength(n: nat, k: nat)
    requires k > 0 && n < Pow10(k)
    ensures |Digits(n)| <= k
  {
    if n >= 10 {
      DigitsLength(n / 10, k - 1);
    }
  }

  /** Any length a Go string can have, even tripled by sanitising, prints in at most 20 digits. */
  lemma TwentyDigits(n: nat)
    requires n <= 3 * INT64_MAX
    ensures |Digits(n)| <= 20
  {
    Pow10Steps();
    DigitsLength(n, 20);
  }

  lemma Pow10Steps()
    ensures Pow10(20) == 100_000_000_000_000_000_000
  {
    assert Pow10(5) == 100_000;
    assert Pow10(10) == 10_000_000_000;
    assert Pow10(15) == 1_000_000_000_000_000;
  }

  /** Text up to its first separator is determined by the whole: the separator
      occurs in neither head. */
  lemma {:induction false} SplitAtFirst(h1: Bytes, h2: Bytes, sep: byte, t1: Bytes, t2: Bytes)
    requires sep !in h1 && sep !in h2
    requires h1 + [sep] + t1 == h2 + [sep] + t2
    ensures h1 == h2 && t1 == t2
  {
    var w := h1 + [sep] + t1;
    assert w[|h1|] == sep && w[|h2|] == sep;
    assert forall i :: 0 <= i < |h2| ==> w[i] == h2[i];
    assert forall i :: 0 <= i < |h1| ==> w[i] == h1[i];
    assert h1 == w[..|h1|] && h2 == w[..|h2|];
    assert t1 == w[|h1| + 1..] && t2 == w[|h2| + 1..];
  }
}

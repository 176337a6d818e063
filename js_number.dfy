/** The two operations of JavaScript numbers the search component relies on, restricted
    to integral values: the remainder operator `%` and the conversion to text done by a
    template literal. */
module JsNumber {
  import opened Wrappers

  /** Truncating quotient, `Math.trunc(a / n)`. */
  function Quot(a: int, n: int): int
    requires n > 0
  {
    if a >= 0 then a / n else -((-a) / n)
  }

  /** `a % n` in JavaScript: the remainder of truncating division, which takes the sign
      of the dividend (Dafny's own `%` is Euclidean and never negative). */
  function Rem(a: int, n: int): (r: int)
    requires n > 0
    ensures -n < r < n
    ensures a >= 0 ==> r >= 0
    ensures a <= 0 ==> r <= 0
    ensures a == Quot(a, n) * n + r
  {
    if a >= 0 then a % n else -((-a) % n)
  }

  predicate IsDigit(c: char) {
    '0' <= c <= '9'
  }

  predicate AllDigits(s: string) {
    forall i :: 0 <= i < |s| ==> IsDigit(s[i])
  }

  function DigitChar(d: nat): (c: char)
    requires d < 10
    ensures IsDigit(c)
  {
    ('0' as int + d) as char
  }

  function DigitValue(c: char): (d: nat)
    requires IsDigit(c)
    ensures d < 10 && DigitChar(d) == c
  {
    (c as int - '0' as int) as nat
  }

  /** The decimal digits of `n`, most significant first, without leading zeros. */
  function NatText(n: nat): (s: string)
    ensures |s| > 0 && AllDigits(s)
    ensures s[0] == '0' ==> n == 0
    decreases n
  {
    if n < 10 then [DigitChar(n)] else NatText(n / 10) + [DigitChar(n % 10)]
  }

  /** The value of a string of decimal digits. */
  function ParseNat(s: string): nat
    requires AllDigits(s)
  {
    if |s| == 0 then 0 else ParseNat(s[..|s| - 1]) * 10 + DigitValue(s[|s| - 1])
  }

  /** `${i}` for an integral number: its digits, after a minus sign when negative. */
  function Text(i: int): (s: string)
    ensures |s| > 0
    ensures '@' !in s && '#' !in s
    ensures s[0] == '-' || IsDigit(s[0])
    ensures s[0] == '-' ==> |s| > 1 && s[1] != '0'
    ensures s[0] == '0' ==> s == "0"
  {
    if i < 0 then "-" + NatText(-i) else NatText(i)
  }

  /** Reads an optional minus sign followed by at least one digit. */
  function ParseInt(s: string): Option<int> {
    if |s| > 1 && s[0] == '-' && AllDigits(s[1..]) then Some(-(ParseNat(s[1..]) as int))
    else if |s| > 0 && AllDigits(s) then Some(ParseNat(s))
    else None
  }

  lemma {:induction false} NatTextRoundTrip(n: nat)
    ensures ParseNat(NatText(n)) == n
    decreases n
  {
    if n >= 10 {
      var prefix := NatText(n / 10);
      var s := prefix + [DigitChar(n % 10)];
      assert s[..|s| - 1] == prefix;
      NatTextRoundTrip(n / 10);
    }
  }

  /** The text of an integer reads back as that integer. */
  lemma TextRoundTrip(i: int)
    ensures ParseInt(Text(i)) == Some(i)
  {
    if i < 0 {
      NatTextRoundTrip(-i);
      assert Text(i)[1..] == NatText(-i);
    } else {
      NatTextRoundTrip(i);
    }
  }

  /** Distinct integers have distinct texts. */
  lemma TextInjective(a: int, b: int)
    requires Text(a) == Text(b)
    ensures a == b
  {
    TextRoundTrip(a);
    TextRoundTrip(b);
  }
}

/**
 * The .NET string operations the plugin relies on: case-insensitive equality,
 * ordinal ordering of names, and `int.ToString()` with its parse-back.
 */
module Text {

  /** Case folding for the ASCII letters (upper case maps to lower case). */
  function FoldCase(c: char): char
  {
    if 'A' <= c <= 'Z' then (c as int + 32) as char else c
  }

  /** `string.Equals(a, b, StringComparison.InvariantCultureIgnoreCase)` over ASCII text. */
  predicate EqualsIgnoreCase(a: string, b: string)
  {
    |a| == |b| && forall i :: 0 <= i < |a| ==> FoldCase(a[i]) == FoldCase(b[i])
  }

  /** Ignoring case is an equivalence that contains plain equality. */
  lemma EqualsIgnoreCaseIsEquivalence(a: string, b: string, c: string)
    ensures EqualsIgnoreCase(a, a)
    ensures EqualsIgnoreCase(a, b) ==> EqualsIgnoreCase(b, a)
    ensures EqualsIgnoreCase(a, b) && EqualsIgnoreCase(b, c) ==> EqualsIgnoreCase(a, c)
  {
  }

  /** Ordinal lexicographic order, by char value: `a` sorts no later than `b`. */
  predicate OrdinalLe(a: string, b: string)
  {
    if a == [] then true
    else if b == [] then false
    else if a[0] != b[0] then a[0] < b[0]
    else OrdinalLe(a[1..], b[1..])
  }

  /** Ordinal order is total, antisymmetric and transitive. */
  lemma {:induction false} OrdinalLeIsTotalOrder(a: string, b: string, c: string)
    ensures OrdinalLe(a, b) || OrdinalLe(b, a)
    ensures OrdinalLe(a, b) && OrdinalLe(b, a) ==> a == b
    ensures OrdinalLe(a, b) && OrdinalLe(b, c) ==> OrdinalLe(a, c)
  {
    if a != [] && b != [] && c != [] {
      OrdinalLeIsTotalOrder(a[1..], b[1..], c[1..]);
      if a[0] == b[0] && OrdinalLe(a, b) && OrdinalLe(b, a) {
        assert a == [a[0]] + a[1..] && b == [b[0]] + b[1..];
      }
    } else if a != [] && b != [] {
      OrdinalLeIsTotalOrder(a[1..], b[1..], []);
      if a[0] == b[0] && OrdinalLe(a, b) && OrdinalLe(b, a) {
        assert a == [a[0]] + a[1..] && b == [b[0]] + b[1..];
      }
    }
  }

  /** The decimal digit character for `d`. */
  function Digit(d: int): char
    requires 0 <= d < 10
  {
    ('0' as int + d) as char
  }

  /** The value of a decimal digit character (meaningful for '0'..'9'). */
  function DigitValue(c: char): int
  {
    c as int - '0' as int
  }

  /** The decimal digits of `n`, most significant first, without leading zeros. */
  function NatText(n: nat): (s: string)
    ensures |s| >= 1
    ensures forall i :: 0 <= i < |s| ==> '0' <= s[i] <= '9'
  {
    if n < 10 then [Digit(n)] else NatText(n / 10) + [Digit(n % 10)]
  }

  /** `int.ToString()` under the invariant culture: a leading '-' for negatives. */
  function IntText(n: int): string
  {
    if n < 0 then "-" + NatText(-n) else NatText(n)
  }

  /** The value of a string of decimal digits. */
  function ParseDigits(s: string): int
  {
    if s == [] then 0 else ParseDigits(s[..|s| - 1]) * 10 + DigitValue(s[|s| - 1])
  }

  /** The integer a model binder reads back from a decimal text. */
  function ParseInt(s: string): int
  {
    if |s| > 0 && s[0] == '-' then -ParseDigits(s[1..]) else ParseDigits(s)
  }

  lemma {:induction false} NatTextRoundTrip(n: nat)
    ensures ParseDigits(NatText(n)) == n
  {
    if n >= 10 {
      NatTextRoundTrip(n / 10);
      var s := NatText(n / 10) + [Digit(n % 10)];
      assert s[..|s| - 1] == NatText(n / 10);
    }
  }

  /** The text `int.ToString()` produces parses back to the same integer. */
  lemma IntTextRoundTrip(n: int)
    ensures ParseInt(IntText(n)) == n
  {
    NatTextRoundTrip(if n < 0 then -n else n);
    if n < 0 {
      assert IntText(n)[1..] == NatText(-n);
    }
  }
}

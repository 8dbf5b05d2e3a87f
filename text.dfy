/**
 * The string predicates that .NET offers and the repository relies on
 * (`string.IsNullOrEmpty`, `string.IsNullOrWhiteSpace`), and the ordinal
 * order on strings used to model `OrderBy` on a text column.
 */
module Text {
  import opened Wrappers

  /** `char.IsWhiteSpace`: the Unicode White_Space characters .NET recognises. */
  predicate IsWhiteSpace(c: char) {
    var n := c as int;
    n == 0x20 || 0x09 <= n <= 0x0D || n == 0x85 || n == 0xA0 || n == 0x1680
    || 0x2000 <= n <= 0x200A || n == 0x2028 || n == 0x2029 || n == 0x202F
    || n == 0x205F || n == 0x3000
  }

  /** Every character of `s` is white space (vacuously true of the empty string). */
  predicate Blank(s: string) {
    forall i :: 0 <= i < |s| ==> IsWhiteSpace(s[i])
  }

  /** `string.IsNullOrEmpty`. */
  predicate IsNullOrEmpty(s: Option<string>) {
    s.None? || s.value == ""
  }

  /** `string.IsNullOrWhiteSpace`. */
  predicate IsNullOrWhiteSpace(s: Option<string>) {
    s.None? || Blank(s.value)
  }

  /** A null or empty string is also null or white space. */
  lemma EmptyIsWhiteSpace(s: Option<string>)
    ensures IsNullOrEmpty(s) ==> IsNullOrWhiteSpace(s)
  {
  }

  /** A string holding a character that is not white space is not blank. */
  lemma NotBlankWitness(s: string, i: int)
    requires 0 <= i < |s| && !IsWhiteSpace(s[i])
    ensures !IsNullOrWhiteSpace(Some(s)) && !IsNullOrEmpty(Some(s))
  {
  }

  const Digits: string := "0123456789"

  /** The value of a decimal digit character; other characters read as 0. */
  function DigitValue(c: char): (d: nat)
    ensures d < 10
  {
    if '0' <= c <= '9' then c as int - '0' as int else 0
  }

  /** Reads a string of decimal digits, most significant first, as a number. */
  function DigitsValue(s: string): nat
    decreases |s|
  {
    if s == [] then 0 else DigitsValue(s[..|s| - 1]) * 10 + DigitValue(s[|s| - 1])
  }

  lemma DigitRoundTrip(d: nat)
    requires d < 10
    ensures Digits[d] in Digits && DigitValue(Digits[d]) == d
  {
  }

  /** The decimal digits of `n`, most significant first, without leading zeros. */
  function NatToString(n: nat): (s: string)
    ensures |s| >= 1
    ensures forall i :: 0 <= i < |s| ==> s[i] in Digits
    ensures n >= 10 ==> s[0] != '0'
    ensures DigitsValue(s) == n
    decreases n
  {
    DigitRoundTrip(n % 10);
    if n < 10 then [Digits[n]]
    else
      var s := NatToString(n / 10) + [Digits[n % 10]];
      assert s[..|s| - 1] == NatToString(n / 10);
      s
  }

  /** `int.ToString()` in the invariant culture: a minus sign, then the digits of the magnitude. */
  function IntToString(n: int): (s: string)
    ensures |s| >= 1
    ensures n < 0 <==> s[0] == '-'
    ensures forall i :: (if n < 0 then 1 else 0) <= i < |s| ==> s[i] in Digits
    ensures n < 0 ==> |s| >= 2
    ensures (n >= 10 ==> s[0] != '0') && (n <= -10 ==> s[1] != '0')
    ensures n >= 0 ==> DigitsValue(s) == n
    ensures n < 0 ==> DigitsValue(s[1..]) == -n
  {
    if n < 0 then "-" + NatToString(-n) else NatToString(n)
  }

  /** Ordinal (code point by code point) lexicographic order: `a` sorts before or equal to `b`. */
  predicate StrLe(a: string, b: string)
    decreases |a|
  {
    a == [] || (b != [] && (a[0] < b[0] || (a[0] == b[0] && StrLe(a[1..], b[1..]))))
  }

  /** Strictly before. */
  predicate StrLt(a: string, b: string) {
    StrLe(a, b) && a != b
  }

  lemma {:induction false} StrLeReflexive(a: string)
    ensures StrLe(a, a)
    decreases |a|
  {
    if a != [] {
      StrLeReflexive(a[1..]);
    }
  }

  /** Any two strings are comparable. */
  lemma {:induction false} StrLeTotal(a: string, b: string)
    ensures StrLe(a, b) || StrLe(b, a)
    decreases |a|
  {
    if a != [] && b != [] && a[0] == b[0] {
      StrLeTotal(a[1..], b[1..]);
    }
  }

  lemma {:induction false} StrLeAntisymmetric(a: string, b: string)
    requires StrLe(a, b) && StrLe(b, a)
    ensures a == b
    decreases |a|
  {
    if a != [] {
      StrLeAntisymmetric(a[1..], b[1..]);
      assert a == [a[0]] + a[1..] && b == [b[0]] + b[1..];
    }
  }

  lemma {:induction false} StrLeTransitive(a: string, b: string, c: string)
    requires StrLe(a, b) && StrLe(b, c)
    ensures StrLe(a, c)
    decreases |a|
  {
    if a != [] && a[0] == b[0] && b[0] == c[0] {
      StrLeTransitive(a[1..], b[1..], c[1..]);
    }
  }

  /** `OrderBy(primary).ThenBy(secondary)` on two text keys: by the primary key, ties broken by the secondary. */
  predicate ThenByLe(a1: string, a2: string, b1: string, b2: string) {
    StrLe(a1, b1) && (a1 == b1 ==> StrLe(a2, b2))
  }

  lemma ThenByLeTotal(a1: string, a2: string, b1: string, b2: string)
    ensures ThenByLe(a1, a2, b1, b2) || ThenByLe(b1, b2, a1, a2)
  {
    StrLeTotal(a1, b1);
    StrLeTotal(a2, b2);
  }

  lemma ThenByLeTransitive(a1: string, a2: string, b1: string, b2: string, c1: string, c2: string)
    requires ThenByLe(a1, a2, b1, b2) && ThenByLe(b1, b2, c1, c2)
    ensures ThenByLe(a1, a2, c1, c2)
  {
    StrLeTransitive(a1, b1, c1);
    if a1 == c1 {
      StrLeAntisymmetric(a1, b1);
      StrLeTransitive(a2, b2, c2);
    }
  }
}

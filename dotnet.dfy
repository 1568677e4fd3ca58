/**
  The pieces of .NET behaviour that the controllers and the calculator rely on:
  32-bit `int` arithmetic with wrap-around, the truncating `%` operator,
  nullable strings with `string.IsNullOrEmpty` and `string.IsNullOrWhiteSpace`,
  `int.ToString()` and LINQ's `OrderBy` on a set of integer keys.
*/
module DotNet {

  datatype Option<+T> = None | Some(value: T)

  /** A C# `string`, which may be `null`. */
  type NullableString = Option<string>

  // ---------------------------------------------------------------------------
  // 32-bit signed integers (C# `int`, unchecked context)
  // ---------------------------------------------------------------------------

  const MinInt32: int := -0x8000_0000
  const MaxInt32: int := 0x7FFF_FFFF
  const Modulus32: int := 0x1_0000_0000

  type Int32 = x: int | -0x8000_0000 <= x <= 0x7FFF_FFFF

  /** Reduces a mathematical integer to the C# `int` an unchecked operation yields:
      the one value in range that is congruent to x modulo 2^32. */
  function Wrap(x: int): (r: Int32)
    ensures MinInt32 <= x <= MaxInt32 ==> r == x
    ensures (x - r) % Modulus32 == 0
  {
    var y := x + 0x8000_0000;
    assert y == (y / Modulus32) * Modulus32 + y % Modulus32;
    y % Modulus32 - 0x8000_0000
  }

  /** Wrapping an intermediate sum does not change the final wrapped result. */
  lemma WrapAddWrap(x: int, b: int)
    ensures Wrap(Wrap(x) + b) == Wrap(x + b)
  {
  }

  function Abs(x: int): nat { if x < 0 then -x else x }

  /** C#'s `/` on `int`: the quotient rounded toward zero (Dafny's own `/` is Euclidean). */
  function TruncatedQuotient(a: int, b: int): int
    requires b != 0
  {
    var q := if a >= 0 then a / Abs(b) else -((-a) / Abs(b));
    if b > 0 then q else -q
  }

  /** C#'s `%` on `int`: what is left of the dividend after the truncated quotient,
      smaller than the divisor and with the dividend's sign. */
  function Remainder(a: int, b: int): (r: int)
    requires b != 0
    ensures a == TruncatedQuotient(a, b) * b + r
    ensures Abs(r) < Abs(b)
    ensures a >= 0 ==> r >= 0
    ensures a <= 0 ==> r <= 0
  {
    var m := Abs(b);
    assert a == (a / m) * m + a % m;
    assert -a == ((-a) / m) * m + (-a) % m;
    if a >= 0 then a % m else -((-a) % m)
  }

  // ---------------------------------------------------------------------------
  // Strings
  // ---------------------------------------------------------------------------

  /** `char.IsWhiteSpace`: the Unicode space, line and paragraph separators,
      the control characters U+0009 to U+000D, and U+0085. */
  predicate IsWhiteSpace(c: char)
  {
    var n := c as int;
    || (0x09 <= n <= 0x0D) || n == 0x20 || n == 0x85 || n == 0xA0 || n == 0x1680
    || (0x2000 <= n <= 0x200A) || n == 0x2028 || n == 0x2029 || n == 0x202F
    || n == 0x205F || n == 0x3000
  }

  /** `string.IsNullOrEmpty`. */
  predicate IsNullOrEmpty(s: NullableString)
  {
    s.None? || s.value == ""
  }

  /** `string.IsNullOrWhiteSpace`: null, empty, or white space only. */
  predicate IsNullOrWhiteSpace(s: NullableString)
  {
    match s
    case None => true
    case Some(t) => forall i :: 0 <= i < |t| ==> IsWhiteSpace(t[i])
  }

  predicate IsDigit(c: char) { '0' <= c <= '9' }

  predicate AllDigits(s: string) { forall i :: 0 <= i < |s| ==> IsDigit(s[i]) }

  function DigitChar(d: int): (c: char)
    requires 0 <= d < 10
    ensures IsDigit(c)
  {
    ('0' as int + d) as char
  }

  function DigitValue(c: char): (d: int)
    requires IsDigit(c)
    ensures 0 <= d < 10
  {
    c as int - '0' as int
  }

  /** The decimal digits of n, most significant first, without leading zeros. */
  function NatToString(n: nat): (s: string)
    ensures |s| >= 1 && AllDigits(s)
    ensures |s| > 1 ==> s[0] != '0'
    decreases n
  {
    if n < 10 then [DigitChar(n)] else NatToString(n / 10) + [DigitChar(n % 10)]
  }

  /** The value of a string of decimal digits. */
  function ParseNat(s: string): nat
    requires AllDigits(s)
    decreases |s|
  {
    if s == [] then 0 else 10 * ParseNat(s[..|s| - 1]) + DigitValue(s[|s| - 1])
  }

  lemma {:induction false} ParseNatToString(n: nat)
    ensures ParseNat(NatToString(n)) == n
    decreases n
  {
    if n >= 10 {
      var s := NatToString(n);
      assert s[..|s| - 1] == NatToString(n / 10);
      ParseNatToString(n / 10);
    }
  }

  /** `int.ToString()`: a leading '-' for negative numbers, then the decimal digits. */
  function IntToString(i: int): (s: string)
    ensures |s| >= 1
    ensures (s[0] == '-') <==> (i < 0)
  {
    if i < 0 then "-" + NatToString(-i) else NatToString(i)
  }

  /** Reads back what `IntToString` writes. */
  function ParseInt(s: string): Option<int>
  {
    if |s| >= 2 && s[0] == '-' && AllDigits(s[1..]) then Some(0 - ParseNat(s[1..]) as int)
    else if |s| >= 1 && AllDigits(s) then Some(ParseNat(s))
    else None
  }

  lemma ParseIntToString(i: int)
    ensures ParseInt(IntToString(i)) == Some(i)
  {
    var s := IntToString(i);
    if i < 0 {
      assert s[1..] == NatToString(-i);
      ParseNatToString(-i);
    } else {
      assert !IsDigit('-');
      ParseNatToString(i);
    }
  }

  /** Different numbers print differently. */
  lemma IntToStringInjective(i: int, j: int)
    ensures IntToString(i) == IntToString(j) ==> i == j
  {
    ParseIntToString(i);
    ParseIntToString(j);
  }

  // ---------------------------------------------------------------------------
  // Ordering the keys of a dictionary (LINQ `OrderBy(k => k)`)
  // ---------------------------------------------------------------------------

  predicate StrictlyIncreasing(s: seq<int>)
  {
    forall i, j :: 0 <= i < j < |s| ==> s[i] < s[j]
  }

  lemma HasElement(s: set<int>)
    requires s != {}
    ensures exists z :: z in s
  {
    if forall z :: z !in s { assert false; }
  }

  /** A finite set of integers has a least element. */
  lemma HasLeast(s: set<int>)
    requires s != {}
    ensures exists m :: m in s && forall x :: x in s ==> m <= x
  {
    HasElement(s);
    var y :| y in s;
    HasLeastBelow(s, y);
  }

  lemma {:induction false} HasLeastBelow(s: set<int>, y: int)
    requires y in s
    ensures exists m :: m in s && forall x :: x in s ==> m <= x
    decreases |s|
  {
    if z :| z in s && z < y {
      var rest := s - {y};
      HasLeastBelow(rest, z);
      var m :| m in rest && forall x :: x in rest ==> m <= x;
      forall x | x in s
        ensures m <= x
      {
        if x != y { assert x in rest; } else { assert m <= z; }
      }
    } else {
      assert forall x :: x in s ==> y <= x;
    }
  }

  function Least(s: set<int>): (m: int)
    requires s != {}
    ensures m in s && forall x :: x in s ==> m <= x
  {
    HasLeast(s);
    var m :| m in s && forall x :: x in s ==> m <= x; m
  }

  /** The elements of s in ascending order. */
  function Ascending(s: set<int>): (r: seq<int>)
    ensures |r| == |s|
    ensures forall x :: x in r <==> x in s
    ensures StrictlyIncreasing(r)
    decreases |s|
  {
    if s == {} then []
    else
      var m := Least(s);
      var rest := Ascending(s - {m});
      PrependSmaller(m, rest);
      [m] + rest
  }

  /** Putting a value below every element in front keeps a sequence strictly increasing. */
  lemma PrependSmaller(m: int, rest: seq<int>)
    requires StrictlyIncreasing(rest)
    requires forall x :: x in rest ==> m < x
    ensures StrictlyIncreasing([m] + rest)
    ensures forall x :: x in [m] + rest <==> x == m || x in rest
  {
    var r := [m] + rest;
    forall i, j | 0 <= i < j < |r|
      ensures r[i] < r[j]
    {
      assert r[j] == rest[j - 1] && rest[j - 1] in rest;
      if i > 0 {
        assert r[i] == rest[i - 1];
      }
    }
  }
}

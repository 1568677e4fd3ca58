/**
  The calculator library: `int` addition, subtraction and multiplication
  (unchecked, so they wrap at 32 bits), evenness through C#'s truncating `%`,
  the maximum of two numbers, and division with its divide-by-zero guard.
  The unit tests' concrete cases are stated as lemmas at the end.
*/
module Calculator {
  import opened DotNet

  /** `Add`: the sum when it fits in an `int`; otherwise the sum wrapped to 32 bits. */
  function Add(a: Int32, b: Int32): (r: Int32)
    ensures MinInt32 <= a + b <= MaxInt32 ==> r == a + b
    ensures (a + b - r) % Modulus32 == 0
  {
    Wrap(a + b)
  }

  /** `Subtract`: the difference when it fits; otherwise the difference wrapped to 32 bits. */
  function Subtract(a: Int32, b: Int32): (r: Int32)
    ensures MinInt32 <= a - b <= MaxInt32 ==> r == a - b
    ensures (a - b - r) % Modulus32 == 0
  {
    Wrap(a - b)
  }

  /** `Multiply`: the product when it fits; otherwise the product wrapped to 32 bits. */
  function Multiply(a: Int32, b: Int32): (r: Int32)
    ensures MinInt32 <= a * b <= MaxInt32 ==> r == a * b
    ensures (a * b - r) % Modulus32 == 0
  {
    Wrap(a * b)
  }

  /** The outcome of `Divide`: the quotient, or the exception it throws. */
  datatype Division = Quotient(value: real) | DivideByZeroException(message: string)

  /** `Divide`: throws on a zero divisor; otherwise the exact quotient a / b. */
  function Divide(a: Int32, b: Int32): (r: Division)
    ensures r.DivideByZeroException? <==> b == 0
    ensures r.DivideByZeroException? ==> r.message == "Cannot divide by zero"
    ensures r.Quotient? ==> r.value * (b as real) == a as real
  {
    if b == 0 then DivideByZeroException("Cannot divide by zero")
    else Quotient((a as real) / (b as real))
  }

  /** `IsEven`: `number % 2 == 0` with C#'s truncating remainder. */
  function IsEven(number: Int32): (even: bool)
    ensures even <==> number % 2 == 0
  {
    Remainder(number, 2) == 0
  }

  /** `Max` (`Math.Max`): an upper bound of both arguments that is one of them. */
  function Max(a: Int32, b: Int32): (r: Int32)
    ensures r >= a && r >= b
    ensures r == a || r == b
  {
    if a >= b then a else b
  }

  // ---------------------------------------------------------------------------
  // Properties
  // ---------------------------------------------------------------------------

  /** C#'s `%` and the Euclidean `%` disagree on negative odd numbers: the truncating
      remainder is -1 there, so `IsEven` does not test for a remainder of 1. */
  lemma RemainderOfNegativeOdd(n: Int32)
    ensures n < 0 && n % 2 == 1 ==> Remainder(n, 2) == -1
  {
  }

  /** Addition is unchecked: one past `int.MaxValue` is `int.MinValue`. */
  lemma AddWrapsAround()
    ensures Add(MaxInt32, 1) == MinInt32
    ensures Subtract(MinInt32, 1) == MaxInt32
  {
  }

  /** Subtracting a number from itself gives zero, for every `int`. */
  lemma SubtractSelfIsZero(a: Int32)
    ensures Subtract(a, a) == 0
  {
  }

  /** Zero annihilates and one is neutral for `Multiply`. */
  lemma MultiplyByZeroAndOne(a: Int32)
    ensures Multiply(a, 0) == 0 && Multiply(0, a) == 0
    ensures Multiply(a, 1) == a && Multiply(1, a) == a
  {
  }

  /** The sign rules of multiplication, whenever the product fits in an `int`. */
  lemma MultiplySigns(a: Int32, b: Int32)
    requires MinInt32 <= a * b <= MaxInt32
    ensures (a < 0 && b > 0) || (a > 0 && b < 0) ==> Multiply(a, b) < 0
    ensures (a < 0 && b < 0) || (a > 0 && b > 0) ==> Multiply(a, b) > 0
    ensures Multiply(a, b) == Multiply(b, a)
  {
  }

  // ---------------------------------------------------------------------------
  // The unit tests' cases
  // ---------------------------------------------------------------------------

  /** The plain addition test: 5 + 3 = 8. */
  lemma AddTwoPositiveNumbers()
    ensures Add(5, 3) == 8
  {
  }

  /** The parameterised addition cases, up to the largest `int`. */
  lemma AddTestCases()
    ensures Add(1, 2) == 3 && Add(-1, -2) == -3 && Add(10, -5) == 5
    ensures Add(0, 5) == 5 && Add(0, 0) == 0 && Add(100, 200) == 300
    ensures Add(MaxInt32 - 1, 1) == MaxInt32
  {
  }

  lemma SubtractTestCases()
    ensures Subtract(5, 3) == 2 && Subtract(3, 5) == -2 && Subtract(10, 10) == 0
    ensures Subtract(0, 5) == -5 && Subtract(5, 0) == 5
  {
  }

  lemma MultiplyTestCases()
    ensures Multiply(2, 3) == 6 && Multiply(-2, 3) == -6 && Multiply(-2, -3) == 6
    ensures Multiply(0, 5) == 0 && Multiply(1, 5) == 5
  {
  }

  lemma DivideTestCases()
    ensures Divide(6, 2) == Quotient(3.0) && Divide(7, 2) == Quotient(3.5)
    ensures Divide(-6, 2) == Quotient(-3.0) && Divide(0, 5) == Quotient(0.0)
    ensures Divide(10, 0) == DivideByZeroException("Cannot divide by zero")
  {
  }

  lemma IsEvenTestCases()
    ensures IsEven(2) && !IsEven(3) && IsEven(0) && IsEven(-2) && !IsEven(-3)
  {
  }

  lemma MaxTestCases()
    ensures Max(5, 3) == 5 && Max(3, 5) == 5 && Max(5, 5) == 5 && Max(-3, -5) == -3
  {
  }

  /** Several operations in a row: 5 + 3 = 8, 8 - 3 = 5, 5 * 2 = 10, 10 / 2 = 5. */
  lemma ChainedOperations()
    ensures Add(5, 3) == 8
    ensures Subtract(Add(5, 3), 3) == 5
    ensures Multiply(Subtract(Add(5, 3), 3), 2) == 10
    ensures Divide(Multiply(Subtract(Add(5, 3), 3), 2), 2) == Quotient(5.0)
  {
  }
}

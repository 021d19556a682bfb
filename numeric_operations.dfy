/**
  The single-number operations of the calculator: the four arithmetic
  operations, the square root, the logarithm and the factorial, each with the
  domain check it performs before computing. The arithmetic is exact over
  `real`; where the value comes from the host's floating-point library (square
  root, logarithm) that function is a parameter, and the properties that need
  it to be a true square root or logarithm assume so explicitly.
 */
module NumericOperations {
  import opened Options

  /** Why an operation refused its arguments; each is a ValueError in the calculator. */
  datatype DomainError =
    | ZeroDivisor                // divide with b == 0
    | NegativeRadicand           // sqrt with x < 0
    | NonPositiveArgument        // log with x <= 0
    | InvalidBase                // log with base <= 0 or base == 1
    | NegativeFactorialArgument  // factorial with n < 0

  datatype Result<T> = Ok(value: T) | Fail(error: DomainError)

  /** The sum is the number from which taking away either argument leaves the other. */
  function Add(a: real, b: real): (r: real)
    ensures r - b == a && r - a == b
  {
    a + b
  }

  /** The difference is the number that, added to b, gives back a. */
  function Subtract(a: real, b: real): (r: real)
    ensures r + b == a
    ensures r == 0.0 <==> a == b
  {
    a - b
  }

  /** The product vanishes exactly when a factor does; otherwise it divides back to either factor. */
  function Multiply(a: real, b: real): (r: real)
    ensures r == 0.0 <==> a == 0.0 || b == 0.0
    ensures b != 0.0 ==> r / b == a
    ensures a != 0.0 ==> r / a == b
  {
    if a != 0.0 && b != 0.0 then QuotientOfProduct(a, b); QuotientOfProduct(b, a); a * b
    else a * b
  }

  /** Subtracting b undoes adding it. */
  lemma SubtractUndoesAdd(a: real, b: real)
    ensures Subtract(Add(a, b), b) == a
    ensures Add(Subtract(a, b), b) == a
  {
  }

  /** Addition and multiplication do not depend on the order of their arguments. */
  lemma Commutative(a: real, b: real)
    ensures Add(a, b) == Add(b, a)
    ensures Multiply(a, b) == Multiply(b, a)
  {
  }

  /** The arithmetic test vectors; add(0.1, 0.2) is the exact 0.3 over the reals. */
  lemma ArithmeticExamples()
    ensures Add(5.0, 3.0) == 8.0 && Add(-1.0, 1.0) == 0.0 && Add(0.1, 0.2) == 0.3
    ensures Subtract(10.0, 4.0) == 6.0 && Subtract(0.0, 5.0) == -5.0 && Subtract(-1.0, -1.0) == 0.0
    ensures Multiply(7.0, 6.0) == 42.0 && Multiply(-3.0, 4.0) == -12.0 && Multiply(0.0, 100.0) == 0.0
  {
  }

  /** Division fails exactly on a zero divisor; otherwise it is the inverse of multiplication. */
  function Divide(a: real, b: real): (r: Result<real>)
    ensures r.Fail? <==> b == 0.0
    ensures r.Fail? ==> r.error == ZeroDivisor
    ensures r.Ok? ==> Multiply(r.value, b) == a
  {
    if b == 0.0 then Fail(ZeroDivisor) else Ok(a / b)
  }

  /** Dividing a product by a non-zero factor gives back the other factor. */
  lemma DivideUndoesMultiply(a: real, b: real)
    requires b != 0.0
    ensures Divide(Multiply(a, b), b) == Ok(a)
  {
    QuotientOfProduct(a, b);
  }

  lemma QuotientOfProduct(p: real, q: real)
    requires q != 0.0
    ensures (p * q) / q == p
  {
    var d := (p * q) / q;
    assert d * q == p * q;
    assert (d - p) * q == 0.0;
  }

  lemma QuotientOfSum(a: real, b: real, q: real)
    requires q != 0.0
    ensures (a + b) / q == a / q + b / q
  {
    var x, y := a / q, b / q;
    assert (x + y) * q == x * q + y * q == a + b;
    QuotientOfProduct(x + y, q);
  }

  /** What the host's square root must satisfy for the value properties below. */
  ghost predicate IsSquareRoot(root: real -> real) {
    forall y :: 0.0 <= y ==> 0.0 <= root(y) && root(y) * root(y) == y
  }

  /** The square root refuses exactly the negative numbers; the value is the host's. */
  function Sqrt(x: real, root: real -> real): (r: Result<real>)
    ensures r.Fail? <==> x < 0.0
    ensures r.Fail? ==> r.error == NegativeRadicand
    ensures r.Ok? ==> r.value == root(x)
  {
    if x < 0.0 then Fail(NegativeRadicand) else Ok(root(x))
  }

  /** With a true square root as host, an accepted x gets the non-negative root. */
  lemma SqrtIsRoot(x: real, root: real -> real)
    requires IsSquareRoot(root)
    ensures Sqrt(x, root).Ok? ==> 0.0 <= Sqrt(x, root).value && Sqrt(x, root).value * Sqrt(x, root).value == x
  {
  }

  /** A non-negative number whose square is a square is that square's root. */
  lemma SquareRootUnique(v: real, w: real)
    requires 0.0 <= v && 0.0 <= w && v * v == w * w
    ensures v == w
  {
    if v < w {
      SquareLess(v, w);
    } else if w < v {
      SquareLess(w, v);
    }
  }

  lemma SquareLess(v: real, w: real)
    requires 0.0 <= v < w
    ensures v * v < w * w
  {
    var d := w - v;
    assert w * w == (v + d) * (v + d) == v * v + 2.0 * v * d + d * d;
    assert v * d >= 0.0;
    assert d * d > 0.0;
  }

  /** What the host's logarithm must satisfy for Log to be defined: only 1 has logarithm 0. */
  ghost predicate ZeroOnlyAtOne(ln: real -> real) {
    forall y :: 0.0 < y && y != 1.0 ==> ln(y) != 0.0
  }

  /** A logarithm in the mathematical sense, as needed by the value properties below. */
  ghost predicate IsLogarithm(ln: real -> real) {
    && ZeroOnlyAtOne(ln)
    && forall y, z :: 0.0 < y && 0.0 < z ==> ln(y * z) == ln(y) + ln(z)
  }

  /**
    The logarithm of x to `base`, where None stands for the default base e. The
    argument is checked before the base, so a bad argument is reported even when
    the base is bad too.
   */
  function Log(x: real, base: Option<real>, ln: real -> real): (r: Result<real>)
    requires ZeroOnlyAtOne(ln)
    ensures r.Fail? <==> x <= 0.0 || (base.Some? && (base.value <= 0.0 || base.value == 1.0))
    ensures r.Fail? ==> (r.error == NonPositiveArgument <==> x <= 0.0)
    ensures r.Fail? ==> r.error == NonPositiveArgument || r.error == InvalidBase
    ensures r.Ok? && base.Some? ==> r.value * ln(base.value) == ln(x)
    ensures r.Ok? && base.None? ==> r.value == ln(x)
  {
    if x <= 0.0 then Fail(NonPositiveArgument)
    else if base.Some? && (base.value <= 0.0 || base.value == 1.0) then Fail(InvalidBase)
    else if base.None? then Ok(ln(x))
    else Ok(ln(x) / ln(base.value))
  }

  /** Every valid base has logarithm 1 to itself. */
  lemma LogOfBase(b: real, ln: real -> real)
    requires ZeroOnlyAtOne(ln)
    requires 0.0 < b && b != 1.0
    ensures Log(b, Some(b), ln) == Ok(1.0)
  {
    QuotientOfProduct(1.0, ln(b));
  }

  /** To any base, the logarithm turns a product into a sum. */
  lemma LogOfProduct(x: real, y: real, base: Option<real>, ln: real -> real)
    requires IsLogarithm(ln)
    requires 0.0 < x && 0.0 < y
    requires base.None? || (0.0 < base.value && base.value != 1.0)
    ensures Log(x * y, base, ln).Ok?
    ensures Log(x * y, base, ln).value == Log(x, base, ln).value + Log(y, base, ln).value
  {
    assert ln(x * y) == ln(x) + ln(y);
    if base.Some? {
      var lb := ln(base.value);
      assert lb != 0.0;
      QuotientOfSum(ln(x), ln(y), lb);
    }
  }

  /** log(100, 10) == 2 and log(8, 2) == 3 for a true logarithm. */
  lemma LogExamples(ln: real -> real)
    requires IsLogarithm(ln)
    ensures Log(100.0, Some(10.0), ln) == Ok(2.0)
    ensures Log(8.0, Some(2.0), ln) == Ok(3.0)
  {
    assert ln(10.0 * 10.0) == ln(10.0) + ln(10.0);
    QuotientOfProduct(2.0, ln(10.0));
    assert ln(2.0 * 2.0) == ln(2.0) + ln(2.0);
    assert ln(4.0 * 2.0) == ln(4.0) + ln(2.0);
    QuotientOfProduct(3.0, ln(2.0));
  }

  /** n! as in mathematics. */
  function Fact(n: nat): (r: nat)
    ensures 1 <= r
  {
    if n == 0 then 1 else n * Fact(n - 1)
  }

  /** The factorial refuses exactly the negative integers. */
  function Factorial(n: int): (r: Result<nat>)
    ensures r.Fail? <==> n < 0
    ensures r.Fail? ==> r.error == NegativeFactorialArgument
    ensures r.Ok? ==> r.value == Fact(n)
  {
    if n < 0 then Fail(NegativeFactorialArgument) else Ok(Fact(n))
  }

  /** factorial(0) == 1 and factorial(n) == n * factorial(n - 1) for n > 0. */
  lemma FactorialRecurrence(n: int)
    requires n > 0
    ensures Factorial(0) == Ok(1)
    ensures Factorial(n).value == n * Factorial(n - 1).value
  {
  }

  /** n! is a multiple of every k from 1 to n. */
  lemma {:induction false} FactDivisible(n: nat, k: nat)
    requires 1 <= k <= n
    ensures Fact(n) % k == 0
  {
    if k == n {
      assert Fact(n) == k * Fact(n - 1);
      ModOfMultiple(k, Fact(n - 1));
    } else {
      FactDivisible(n - 1, k);
      var q := Fact(n - 1) / k;
      assert Fact(n - 1) == k * q;
      assert Fact(n) == k * (n * q);
      ModOfMultiple(k, n * q);
    }
  }

  lemma ModOfMultiple(k: int, m: int)
    requires k > 0
    ensures (k * m) % k == 0
  {
    var a := k * m;
    var q, r := a / k, a % k;
    assert a == k * q + r;
    assert k * (m - q) == r by { assert k * m - k * q == k * (m - q); }
    if m - q >= 1 {
    } else if m - q <= -1 {
    }
  }

  /** The factorial never decreases. */
  lemma {:induction false} FactMonotone(m: nat, n: nat)
    requires m <= n
    ensures Fact(m) <= Fact(n)
  {
    if m < n {
      FactMonotone(m, n - 1);
      assert Fact(n) == n * Fact(n - 1);
    }
  }

  /** 0! == 1, 1! == 1, 5! == 120, 10! == 3628800, and -1 is refused. */
  lemma FactorialExamples()
    ensures Factorial(0) == Ok(1) && Factorial(1) == Ok(1)
    ensures Factorial(5) == Ok(120) && Factorial(10) == Ok(3628800)
    ensures Factorial(-1) == Fail(NegativeFactorialArgument)
  {
    assert Fact(5) == 120;
    assert Fact(10) == 3628800;
  }

  /** divide(15, 3) == 5, divide(10, 4) == 2.5, divide(-6, 2) == -3; divide(10, 0) is refused. */
  lemma DivideExamples()
    ensures Divide(15.0, 3.0) == Ok(5.0)
    ensures Divide(10.0, 4.0) == Ok(2.5)
    ensures Divide(-6.0, 2.0) == Ok(-3.0)
    ensures Divide(10.0, 0.0) == Fail(ZeroDivisor)
  {
  }

  /**
    sqrt(16) == 4 and sqrt(0) == 0 for a true square root, sqrt(2) lies strictly
    between 1.414 and 1.415 (so within a relative 1e-3 of 1.414), and sqrt(-1)
    is refused.
   */
  lemma SqrtExamples(root: real -> real)
    requires IsSquareRoot(root)
    ensures Sqrt(16.0, root) == Ok(4.0)
    ensures Sqrt(0.0, root) == Ok(0.0)
    ensures Sqrt(2.0, root).Ok? && 1.414 < Sqrt(2.0, root).value < 1.415
    ensures Sqrt(-1.0, root) == Fail(NegativeRadicand)
  {
    SquareRootUnique(root(16.0), 4.0);
    SquareRootUnique(root(0.0), 0.0);
    var v := root(2.0);
    assert 0.0 <= v && v * v == 2.0;
    if v < 1.414 {
      SquareLess(v, 1.414);
    }
    if v > 1.415 {
      SquareLess(1.415, v);
    }
  }

  /** log(-1), log(10, 1) and log(10, -1) are refused, each for its own reason. */
  lemma LogErrorExamples(ln: real -> real)
    requires ZeroOnlyAtOne(ln)
    ensures Log(-1.0, None, ln) == Fail(NonPositiveArgument)
    ensures Log(10.0, Some(1.0), ln) == Fail(InvalidBase)
    ensures Log(10.0, Some(-1.0), ln) == Fail(InvalidBase)
  {
  }
}

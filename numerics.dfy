/**
 * The numerical vocabulary the modelled code borrows from numpy and scipy:
 * transcendental functions and fitted splines as uninterpreted real functions,
 * the laws some properties need about them, and sums, means and argmax.
 */
module Numerics {

  import opened Wrappers

  /**
   * numpy's exp, log, log10, the power 10**x and sqrt, as opaque real functions.
   * Nothing is assumed about them except where a member asks for a law below.
   */
  datatype Elementary = Elementary(
    exp: real -> real,
    ln: real -> real,
    log10: real -> real,
    pow10: real -> real,
    sqrt: real -> real)

  ghost predicate ExpPositive(E: Elementary)
  {
    forall x :: E.exp(x) > 0.0
  }

  ghost predicate Pow10Positive(E: Elementary)
  {
    forall x :: E.pow10(x) > 0.0
  }

  ghost predicate Pow10Increasing(E: Elementary)
  {
    forall x, y :: x < y ==> E.pow10(x) < E.pow10(y)
  }

  /** 10**x * 10**-x == 1 */
  ghost predicate Pow10Reciprocal(E: Elementary)
  {
    forall x :: E.pow10(x) * E.pow10(-x) == 1.0
  }

  /** log10(10**x) == x */
  ghost predicate Log10InvertsPow10(E: Elementary)
  {
    forall x :: E.log10(E.pow10(x)) == x
  }

  ghost predicate Log10Increasing(E: Elementary)
  {
    forall x, y :: 0.0 < x < y ==> E.log10(x) < E.log10(y)
  }

  ghost predicate SqrtLaws(E: Elementary)
  {
    E.sqrt(0.0) == 0.0 && forall x :: x > 0.0 ==> E.sqrt(x) > 0.0
  }

  /** sqrt(x * x) == x for x >= 0 */
  ghost predicate SqrtOfSquare(E: Elementary)
  {
    forall x :: x >= 0.0 ==> E.sqrt(Product(x, x)) == x
  }

  /**
   * A fitted scipy UnivariateSpline: its value at a wavelength, and the value of
   * the spline returned by its derivative() method.
   */
  datatype Spline = Spline(at: real -> real, derivative: real -> real)

  /**
   * numpy's broadcasting of two one-dimensional shapes: equal lengths pair up
   * element by element, a length-1 operand is repeated, anything else raises.
   */
  function Broadcast(n: nat, k: nat): (r: Option<nat>)
    ensures r.Some? <==> (n == k || n == 1 || k == 1)
    ensures r.Some? ==> (n == r.value || n == 1) && (k == r.value || k == 1)
    ensures r.Some? && n != 1 ==> r.value == n
    ensures r.Some? && k != 1 ==> r.value == k
  {
    if n == k || k == 1 then Some(n) else if n == 1 then Some(k) else None
  }

  /** Element i of an operand after broadcasting: a length-1 array repeats its element. */
  function At(s: seq<real>, i: nat): (r: real)
    requires |s| == 1 || i < |s|
    ensures |s| == 1 ==> r == s[0]
    ensures i < |s| ==> r == s[i]
  {
    if |s| == 1 then s[0] else s[i]
  }

  /** The spline evaluated at every point of a grid, as numpy broadcasting does. */
  function EvalAt(f: real -> real, xs: seq<real>): (r: seq<real>)
    ensures |r| == |xs|
    ensures forall i :: 0 <= i < |xs| ==> r[i] == f(xs[i])
  {
    seq(|xs|, i requires 0 <= i < |xs| => f(xs[i]))
  }

  function Sum(s: seq<real>): real
  {
    if s == [] then 0.0 else Sum(s[..|s| - 1]) + s[|s| - 1]
  }

  /** numpy's mean; defined only for a non-empty array. */
  function Mean(s: seq<real>): real
    requires |s| > 0
  {
    Sum(s) / (|s| as real)
  }

  /** numpy's argmax: the index of the first occurrence of the maximum. */
  function ArgMax(s: seq<real>): (k: nat)
    requires |s| > 0
    ensures k < |s|
    ensures forall j :: 0 <= j < |s| ==> s[j] <= s[k]
    ensures forall j :: 0 <= j < k ==> s[j] < s[k]
  {
    if |s| == 1 then 0
    else
      var k := ArgMax(s[..|s| - 1]);
      if s[|s| - 1] > s[k] then |s| - 1 else k
  }

  /** The error math.log10 raises for an argument that is not positive. */
  const MathDomainError: Exception := ValueError("math domain error")

  /**
   * unp.log10 of a nominal value: math.log10, which raises the math domain
   * error unless its argument is positive.
   */
  function CheckedLog10(E: Elementary, x: real): (r: Result<real>)
    ensures r.Err? <==> x <= 0.0
    ensures r.Err? ==> r.error == MathDomainError
    ensures r.Ok? ==> r.value == E.log10(x)
  {
    if x <= 0.0 then Err(MathDomainError) else Ok(E.log10(x))
  }

  /** Over a positive denominator a quotient is positive exactly when its numerator is. */
  lemma QuotientSign(n: real, d: real)
    requires d > 0.0
    ensures n / d > 0.0 <==> n > 0.0
  {
    if n > 0.0 {
      assert n / d > 0.0;
    } else {
      assert (n / d) * d == n;
    }
  }

  /** Multiplication with its sign rules; squares are written as Product(d, d). */
  function Product(x: real, y: real): (r: real)
    ensures x > 0.0 && y > 0.0 ==> r > 0.0
    ensures x < 0.0 && y < 0.0 ==> r > 0.0
    ensures x == 0.0 || y == 0.0 ==> r == 0.0
  {
    x * y
  }

  /** Python's builtin max of two reals. */
  function Max(x: real, y: real): (r: real)
    ensures r >= x && r >= y && (r == x || r == y)
  {
    if x >= y then x else y
  }

  lemma {:induction false} SumOfConstant(s: seq<real>, c: real)
    requires forall i :: 0 <= i < |s| ==> s[i] == c
    ensures Sum(s) == (|s| as real) * c
  {
    if s != [] {
      SumOfConstant(s[..|s| - 1], c);
    }
  }

  lemma MeanOfConstant(s: seq<real>, c: real)
    requires |s| > 0
    requires forall i :: 0 <= i < |s| ==> s[i] == c
    ensures Mean(s) == c
  {
    SumOfConstant(s, c);
  }

  lemma {:induction false} SumNonNegative(s: seq<real>)
    requires forall i :: 0 <= i < |s| ==> s[i] >= 0.0
    ensures Sum(s) >= 0.0
  {
    if s != [] {
      SumNonNegative(s[..|s| - 1]);
    }
  }

  /** u / s - v / s == (u - v) / s */
  lemma DivDifference(u: real, v: real, s: real)
    requires s != 0.0
    ensures u / s - v / s == (u - v) / s
  {
  }

  /** (h * x) / s == h * (x / s) */
  lemma DivScale(h: real, x: real, s: real)
    requires s != 0.0
    ensures (h * x) / s == h * (x / s)
  {
  }

  /** Division by a positive number keeps order; a larger positive divisor gives a smaller quotient. */
  lemma DivMonotone(a: real, b: real, c: real)
    requires c > 0.0 && a < b
    ensures a / c < b / c
  {
  }

  lemma DivAntitone(d: real, h1: real, h2: real)
    requires d > 0.0 && 0.0 < h1 < h2
    ensures d / h2 < d / h1
  {
  }
}

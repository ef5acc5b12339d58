/**
 * `solveQuadratic` of main.cpp: the wire length at which one buffering stage meets its budget,
 * as a root of `A l^2 + B l + C`. `std::sqrt` is a parameter; the facts that need it assume
 * only what `SqrtSpec` says of it.
 */
module Solver {

  /** What the solver relies on from `std::sqrt`: on non-negative inputs, the non-negative root. */
  ghost predicate SqrtSpec(sqrt: real -> real)
  {
    forall x :: x >= 0.0 ==> sqrt(x) >= 0.0 && sqrt(x) * sqrt(x) == x
  }

  /** `(B*B) - (4*A*C)`. */
  function Discriminant(a: real, b: real, c: real): real
  {
    b * b - 4.0 * a * c
  }

  /** `A*(l*l) + B*l + C`, the form of every stage delay. */
  function Poly(a: real, b: real, c: real, x: real): real
  {
    a * (x * x) + b * x + c
  }

  predicate IsRoot(a: real, b: real, c: real, x: real)
  {
    Poly(a, b, c, x) == 0.0
  }

  /**
   * `solveQuadratic(A, B, C)`: -1 for a negative discriminant; the double root, whatever its
   * sign, for a zero discriminant; otherwise the larger of the two roots, or -1 when that root
   * is negative. `A` must be non-zero: the source divides by `2*A`.
   */
  function SolveQuadratic(sqrt: real -> real, a: real, b: real, c: real): (r: real)
    requires a != 0.0
    ensures Discriminant(a, b, c) < 0.0 ==> r == -1.0
    ensures Discriminant(a, b, c) > 0.0 && r != -1.0 ==> r >= 0.0
  {
    var disc := Discriminant(a, b, c);
    if disc < 0.0 then -1.0
    else if disc == 0.0 then (0.0 - b) / (2.0 * a)
    else
      var first := (-b + sqrt(disc)) / (2.0 * a);
      var second := (-b - sqrt(disc)) / (2.0 * a);
      if first > second then
        if first < 0.0 then -1.0 else first
      else
        if second < 0.0 then -1.0 else second
  }

  /** A product of reals is zero only if a factor is. */
  lemma ZeroProduct(u: real, v: real)
    requires u * v == 0.0
    ensures u == 0.0 || v == 0.0
  {
    if u != 0.0 {
      assert v == (u * v) / u;
    }
  }

  /** With a zero discriminant the solver returns a genuine root (but does not check its sign). */
  lemma DoubleRoot(sqrt: real -> real, a: real, b: real, c: real)
    requires a != 0.0 && Discriminant(a, b, c) == 0.0
    ensures IsRoot(a, b, c, SolveQuadratic(sqrt, a, b, c))
  {
    var r := (0.0 - b) / (2.0 * a);
    assert 2.0 * a * r == -b;
    calc {
      4.0 * a * Poly(a, b, c, r);
      (2.0 * a * r) * (2.0 * a * r) + 2.0 * b * (2.0 * a * r) + 4.0 * a * c;
      b * b - 2.0 * b * b + 4.0 * a * c;
      -Discriminant(a, b, c);
    }
    ZeroProduct(4.0 * a, Poly(a, b, c, r));
  }

  /** With `s` a square root of the discriminant, `A x^2 + B x + C` is `A (x - r1) (x - r2)`. */
  lemma Factored(a: real, b: real, c: real, s: real, x: real)
    requires a != 0.0 && s * s == Discriminant(a, b, c)
    ensures var r1, r2 := (-b + s) / (2.0 * a), (-b - s) / (2.0 * a);
            Poly(a, b, c, x) == a * ((x - r1) * (x - r2))
  {
    var r1, r2 := (-b + s) / (2.0 * a), (-b - s) / (2.0 * a);
    assert 2.0 * a * r1 == -b + s && 2.0 * a * r2 == -b - s;
    assert (2.0 * a * r1) * (2.0 * a * r2) == b * b - s * s;
    assert 4.0 * a * (a * (r1 * r2)) == 4.0 * a * c;
    assert a * (r1 * r2) == c;
    assert a * (r1 + r2) == -b;
    calc {
      Poly(a, b, c, x);
      a * (x * x) - a * (r1 + r2) * x + a * (r1 * r2);
      a * ((x - r1) * (x - r2));
    }
  }

  /** With a positive discriminant the two values the solver computes are the only roots. */
  lemma TwoRoots(a: real, b: real, c: real, s: real, x: real)
    requires a != 0.0 && s >= 0.0 && s * s == Discriminant(a, b, c)
    ensures IsRoot(a, b, c, x) <==> x == (-b + s) / (2.0 * a) || x == (-b - s) / (2.0 * a)
  {
    var r1, r2 := (-b + s) / (2.0 * a), (-b - s) / (2.0 * a);
    Factored(a, b, c, s, x);
    if IsRoot(a, b, c, x) {
      ZeroProduct(a, (x - r1) * (x - r2));
      ZeroProduct(x - r1, x - r2);
    } else {
      Factored(a, b, c, s, r1);
      Factored(a, b, c, s, r2);
    }
  }

  /**
   * With a positive discriminant, a result other than -1 is the largest root and is
   * non-negative, and -1 means every root is negative.
   */
  lemma LargerRoot(sqrt: real -> real, a: real, b: real, c: real)
    requires SqrtSpec(sqrt) && a != 0.0 && Discriminant(a, b, c) > 0.0
    ensures var r := SolveQuadratic(sqrt, a, b, c);
            r != -1.0 ==> IsRoot(a, b, c, r) && r >= 0.0 && forall x :: IsRoot(a, b, c, x) ==> x <= r
    ensures SolveQuadratic(sqrt, a, b, c) == -1.0 ==> forall x :: IsRoot(a, b, c, x) ==> x < 0.0
  {
    var d := Discriminant(a, b, c);
    var s := sqrt(d);
    var r1, r2 := (-b + s) / (2.0 * a), (-b - s) / (2.0 * a);
    var r := SolveQuadratic(sqrt, a, b, c);
    var m := if r1 > r2 then r1 else r2;
    assert r == (if m < 0.0 then -1.0 else m);
    TwoRoots(a, b, c, s, r1);
    TwoRoots(a, b, c, s, r2);
    forall x | IsRoot(a, b, c, x)
      ensures x <= m
    {
      TwoRoots(a, b, c, s, x);
    }
  }

  /** Every result from the zero- or positive-discriminant branch, other than -1, is a root. */
  lemma SolutionIsRoot(sqrt: real -> real, a: real, b: real, c: real)
    requires SqrtSpec(sqrt) && a != 0.0 && Discriminant(a, b, c) >= 0.0
    ensures var r := SolveQuadratic(sqrt, a, b, c);
            Discriminant(a, b, c) == 0.0 || r != -1.0 ==> IsRoot(a, b, c, r)
  {
    if Discriminant(a, b, c) == 0.0 {
      DoubleRoot(sqrt, a, b, c);
    } else {
      LargerRoot(sqrt, a, b, c);
    }
  }

  /** `x^2 + 2x + 1`: the genuine double root -1 is the value that also reports failure. */
  lemma SentinelCollision(sqrt: real -> real)
    ensures SolveQuadratic(sqrt, 1.0, 2.0, 1.0) == -1.0 && IsRoot(1.0, 2.0, 1.0, -1.0)
  {
    assert Discriminant(1.0, 2.0, 1.0) == 0.0;
  }

  /** `x^2 + 4x + 4`: the zero-discriminant branch hands back the negative length -2. */
  lemma NegativeDoubleRoot(sqrt: real -> real)
    ensures SolveQuadratic(sqrt, 1.0, 4.0, 4.0) == -2.0
  {
    assert Discriminant(1.0, 4.0, 4.0) == 0.0;
  }

  /** `x^2 - 3x + 2` has roots 1 and 2: the larger is returned; `x^2 + 1` has none. */
  lemma SolverExamples(sqrt: real -> real)
    requires SqrtSpec(sqrt)
    ensures SolveQuadratic(sqrt, 1.0, -3.0, 2.0) == 2.0
    ensures SolveQuadratic(sqrt, 1.0, 0.0, 1.0) == -1.0
  {
    assert Discriminant(1.0, -3.0, 2.0) == 1.0;
    var s := sqrt(1.0);
    assert (s - 1.0) * (s + 1.0) == s * s - 1.0 == 0.0;
    ZeroProduct(s - 1.0, s + 1.0);
    assert Discriminant(1.0, 0.0, 1.0) == -4.0;
  }
}

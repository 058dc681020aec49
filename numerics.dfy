/**
 * Numeric helpers the renderer takes from its utility header: pi, degree conversion,
 * the integer casts, uniform random draws, and the C math functions, which are left
 * uninterpreted and passed around as a record of function values.
 */
module Numerics {

  /** The constant pi as the renderer's utility header spells it. */
  const Pi: real := 3.1415926535897932385

  /**
   * The transcendental functions of <cmath> the renderer calls. They are uninterpreted:
   * every fact the model uses about them is stated as one of the predicates below and
   * required where it is needed.
   */
  datatype Libm = Libm(sqrt: real -> real, tan: real -> real, sin: real -> real, cos: real -> real, log: real -> real)
  {
    /** sqrt is nonnegative on nonnegative inputs, positive on positive ones, and fixes 0 and 1. */
    ghost predicate SqrtLaws()
    {
      && (forall x :: 0.0 <= x ==> 0.0 <= sqrt(x))
      && (forall x :: 0.0 < x ==> 0.0 < sqrt(x))
      && sqrt(0.0) == 0.0
      && sqrt(1.0) == 1.0
    }

    /** sqrt is monotone on the nonnegative reals. */
    ghost predicate SqrtMonotone()
    {
      forall x, y :: 0.0 <= x <= y ==> sqrt(x) <= sqrt(y)
    }

    /** sqrt is the exact nonnegative square root on the nonnegative reals. */
    ghost predicate SqrtExact()
    {
      && SqrtLaws()
      && forall x :: 0.0 <= x ==> 0.0 <= sqrt(x) && sqrt(x) * sqrt(x) == x
    }

    /** tan(0) = 0. */
    ghost predicate TanZero()
    {
      tan(0.0) == 0.0
    }
  }

  /** fmin and fmax on reals (no NaN operands in this model). */
  function Fmin(a: real, b: real): real { if a <= b then a else b }
  function Fmax(a: real, b: real): real { if a >= b then a else b }

  /** fabs. */
  function Abs(x: real): real { if x < 0.0 then -x else x }

  /** degrees_to_radians. */
  function DegreesToRadians(degrees: real): real { degrees * Pi / 180.0 }

  /**
   * An integer as a real. Products of a converted integer and a real are always written through
   * this function, which keeps the solver's arithmetic purely real.
   */
  function Real(n: int): real { n as real }

  /** static_cast<int> of a double: truncation toward zero (overflow is not modelled). */
  function Trunc(x: real): int
  {
    if x >= 0.0 then x.Floor else -((-x).Floor)
  }

  lemma TruncBounds(x: real)
    ensures 0.0 <= x ==> 0 <= Trunc(x) && Trunc(x) as real <= x < Trunc(x) as real + 1.0
    ensures x < 0.0 ==> Trunc(x) <= 0 && x <= Trunc(x) as real
  {
  }

  /** A stream of uniform draws from [0, 1), the model of random_double(). */
  type Stream = nat -> real

  ghost predicate Uniform(s: Stream)
  {
    forall i :: 0.0 <= s(i) < 1.0
  }

  /** The stream that remains after n draws. */
  function Drop(s: Stream, n: nat): Stream
  {
    (i: nat) => s(i + n)
  }

  /** random_int(lo, hi): the truncation of a uniform draw scaled to [lo, hi + 1). */
  function RandomInt(lo: int, hi: int, u: real): int
  {
    Trunc(Real(lo) + Real(hi + 1 - lo) * u)
  }

  /** A draw u in [0, 1) makes random_int(0, n - 1) an index of a sequence of length n. */
  lemma {:induction false} RandomIntInRange(n: int, u: real)
    requires 1 <= n && 0.0 <= u < 1.0
    ensures 0 <= RandomInt(0, n - 1, u) < n
  {
    var x := Real(0) + Real(n - 1 + 1 - 0) * u;
    assert 0.0 <= x < Real(n) by {
      assert x == Real(n) * u;
      assert Real(n) * u < Real(n) * 1.0;
    }
    TruncBounds(x);
  }

  /** Every index is reachable: the draw k / n makes random_int(0, n - 1) return k. */
  lemma RandomIntHits(n: int, k: int)
    requires 0 <= k < n
    ensures 0.0 <= Real(k) / Real(n) < 1.0
    ensures RandomInt(0, n - 1, Real(k) / Real(n)) == k
  {
    var u := Real(k) / Real(n);
    assert 0.0 < Real(n) && 0.0 <= Real(k) < Real(n);
    assert Real(n) * u == Real(k);
    assert 0.0 <= u by {
      if u < 0.0 {
        MulMono(Real(n), u, 0.0);
      }
    }
    assert u < 1.0 by {
      if 1.0 <= u {
        MulMono(Real(n), 1.0, u);
      }
    }
    assert Real(0) + Real(n - 1 + 1 - 0) * u == Real(k);
  }

  /** The product of two nonnegative reals is nonnegative. */
  lemma NonnegProduct(a: real, b: real)
    requires 0.0 <= a && 0.0 <= b
    ensures 0.0 <= a * b
  {
  }

  /** Multiplying by a nonnegative factor preserves order. */
  lemma MulMono(a: real, b: real, c: real)
    requires 0.0 <= a && b <= c
    ensures a * b <= a * c
  {
    NonnegProduct(a, c - b);
    assert a * (c - b) == a * c - a * b;
  }

  /** Scaling a nonnegative y by a factor in [0, 1] gives a value in [0, y]. */
  lemma UnitProduct(x: real, y: real)
    requires 0.0 <= x <= 1.0 && 0.0 <= y
    ensures 0.0 <= y * x <= y
  {
    NonnegProduct(y, x);
    MulMono(y, x, 1.0);
  }
}

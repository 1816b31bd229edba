/**
  * Small facts of ordered-field arithmetic, each proved in isolation so that the
  * solver's non-linear reasoning stays local.
  */
module RealArith {

  lemma MulPos(a: real, b: real)
    requires a > 0.0 && b > 0.0
    ensures a * b > 0.0
  {
    assert a * b > 0.0 * b;
  }

  lemma MulMono(a: real, b: real, k: real)
    requires a <= b && k >= 0.0
    ensures k * a <= k * b
  {
    assert k * b - k * a == k * (b - a);
    assert k * (b - a) >= 0.0 * (b - a);
  }

  lemma MulStrictMono(a: real, b: real, k: real)
    requires a < b && k > 0.0
    ensures a * k < b * k
  {
    MulPos(b - a, k);
    assert (b - a) * k == b * k - a * k;
  }

  lemma SquareNonNegative(x: real)
    ensures x * x >= 0.0
  {
    if x > 0.0 {
      MulPos(x, x);
    } else if x < 0.0 {
      MulPos(-x, -x);
      assert (-x) * (-x) == x * x;
    }
  }

  lemma SquareStrictMono(lo: real, hi: real)
    requires 0.0 <= lo < hi
    ensures lo * lo < hi * hi
  {
    calc {
      lo * lo;
    <= { MulMono(lo, hi, lo); }
      lo * hi;
    < { MulStrictMono(lo, hi, hi); }
      hi * hi;
    }
  }

  /** A non-negative number is determined by its square. */
  lemma SqrtUnique(s: real, t: real)
    requires 0.0 <= s && 0.0 <= t && s * s == t * t
    ensures s == t
  {
    if s < t {
      SquareStrictMono(s, t);
    } else if t < s {
      SquareStrictMono(t, s);
    }
  }

  /** `n * len^2 == len^2` with `len > 0` forces `n == 1`. */
  lemma CancelSquare(n: real, len: real)
    requires len > 0.0 && n * (len * len) == len * len
    ensures n == 1.0
  {
  }

  /** Squares bounded by 1 bound the number: `x * x <= 1` gives `-1 <= x <= 1`. */
  lemma SquareAtMostOne(x: real)
    requires x * x <= 1.0
    ensures -1.0 <= x <= 1.0
  {
    if x > 1.0 {
      SquareStrictMono(1.0, x);
    } else if x < -1.0 {
      SquareStrictMono(1.0, -x);
    }
  }

  /** A square below 1 puts the number strictly inside `(-1, 1)`. */
  lemma SquareBelowOne(x: real)
    requires x * x < 1.0
    ensures -1.0 < x < 1.0
  {
    if x >= 1.0 {
      MulMono(1.0, x, x);
    } else if x <= -1.0 {
      MulMono(1.0, -x, -x);
    }
  }

  /** Multiplying by a positive number keeps the sign. */
  lemma PositiveFactorKeepsSign(k: real, x: real)
    requires k > 0.0
    ensures k * x < 0.0 <==> x < 0.0
    ensures k * x > 0.0 <==> x > 0.0
  {
    if x < 0.0 {
      MulStrictMono(x, 0.0, k);
    } else if x > 0.0 {
      MulStrictMono(0.0, x, k);
    }
  }

  /** The unit interval is closed under multiplication. */
  lemma UnitProduct(a: real, b: real)
    requires 0.0 <= a <= 1.0 && 0.0 <= b <= 1.0
    ensures 0.0 <= a * b <= 1.0
  {
    calc {
      0.0;
      a * 0.0;
    <= { MulMono(0.0, b, a); }
      a * b;
    <= { MulMono(b, 1.0, a); }
      a * 1.0;
      a;
    <=
      1.0;
    }
  }

  lemma ZeroProduct(x: real, y: real)
    ensures x * y == 0.0 <==> (x == 0.0 || y == 0.0)
  {
  }

  lemma DivIff(a: real, t: real, v: real)
    requires a != 0.0
    ensures a * t == v <==> t == v / a
  {
  }

  /** `a (a t^2 + 2 b t + c)` factors through the roots once `s^2` is the discriminant. */
  lemma QuadraticFactor(a: real, b: real, c: real, s: real, t: real)
    requires s * s == b * b - a * c
    ensures a * (a * t * t + 2.0 * b * t + c) == (a * t + b - s) * (a * t + b + s)
  {
  }

  lemma DivMono(x: real, y: real, a: real)
    requires x <= y && a > 0.0
    ensures x / a <= y / a
  {
  }
}

/** Sums over vectors of reals. The source works in float64; rounding is not
    modelled anywhere in this project. */
module RealSums {

  function Sum(xs: seq<real>): real {
    if |xs| == 0 then 0.0 else Sum(xs[..|xs| - 1]) + xs[|xs| - 1]
  }

  function Dot(xs: seq<real>, ys: seq<real>): real
    requires |xs| == |ys|
  {
    if |xs| == 0 then 0.0
    else
      var n := |xs| - 1;
      Dot(xs[..n], ys[..n]) + xs[n] * ys[n]
  }

  /** A square root on the nonnegative reals. */
  ghost predicate IsSqrt(sqrt: real -> real) {
    forall x :: x >= 0.0 ==> sqrt(x) >= 0.0 && Times(sqrt(x), sqrt(x)) == x
  }

  // ---- products ------------------------------------------------------------------

  /** A product under a name, so that a fact about it stays a fact about one term. */
  function Times(x: real, y: real): real {
    x * y
  }

  lemma PositiveTimes(x: real, y: real)
    requires x > 0.0 && y > 0.0
    ensures Times(x, y) > 0.0
  {
  }

  lemma NonNegativeTimes(x: real, y: real)
    requires x >= 0.0 && y >= 0.0
    ensures Times(x, y) >= 0.0
  {
  }

  lemma PositiveSquare(x: real)
    requires x != 0.0
    ensures Times(x, x) > 0.0
  {
    if x > 0.0 {
      PositiveTimes(x, x);
    } else {
      PositiveTimes(-x, -x);
      assert Times(-x, -x) == Times(x, x);
    }
  }

  lemma SquareNonNegative(x: real)
    ensures Times(x, x) >= 0.0
  {
    if x != 0.0 {
      PositiveSquare(x);
    }
  }

  lemma TimesZero(x: real, y: real)
    requires Times(x, y) == 0.0
    ensures x == 0.0 || y == 0.0
  {
    assert Times(Times(x, x), Times(y, y)) == Times(Times(x, y), Times(x, y));
    if x != 0.0 && y != 0.0 {
      PositiveSquare(x);
      PositiveSquare(y);
      PositiveTimes(Times(x, x), Times(y, y));
    }
  }

  lemma NonNegativeFactor(q: real, r: real)
    requires q > 0.0 && Times(q, r) >= 0.0
    ensures r >= 0.0
  {
    assert Times(q, -r) == -Times(q, r);
    if r < 0.0 {
      PositiveTimes(q, -r);
    }
  }

  lemma SquareZero(x: real, rest: real)
    requires rest >= 0.0 && rest + x * x == 0.0
    ensures x == 0.0 && rest == 0.0
  {
    if x != 0.0 {
      PositiveSquare(x);
    }
  }

  lemma SquareGrows(x: real, y: real)
    requires 0.0 <= y < x
    ensures Times(y, y) < Times(x, x)
  {
    PositiveTimes(x - y, x + y);
    assert Times(x - y, x + y) == Times(x, x) - Times(y, y);
  }

  lemma SqrtUnique(sqrt: real -> real, x: real, r: real)
    requires IsSqrt(sqrt) && r >= 0.0 && Times(r, r) == x
    ensures sqrt(x) == r
  {
    SquareNonNegative(r);
    if sqrt(x) < r {
      SquareGrows(r, sqrt(x));
    } else if r < sqrt(x) {
      SquareGrows(sqrt(x), r);
    }
  }

  lemma SqrtPositive(sqrt: real -> real, x: real)
    requires IsSqrt(sqrt) && x > 0.0
    ensures sqrt(x) > 0.0
  {
    assert Times(0.0, 0.0) == 0.0;
  }

  // ---- dot products ---------------------------------------------------------------

  lemma SumStep(xs: seq<real>, i: nat)
    requires i < |xs|
    ensures Sum(xs[..i + 1]) == Sum(xs[..i]) + xs[i]
  {
    assert xs[..i + 1][..i] == xs[..i];
  }

  lemma DotStep(xs: seq<real>, ys: seq<real>, i: nat)
    requires i < |xs| == |ys|
    ensures Dot(xs[..i + 1], ys[..i + 1]) == Dot(xs[..i], ys[..i]) + xs[i] * ys[i]
  {
    assert xs[..i + 1][..i] == xs[..i] && ys[..i + 1][..i] == ys[..i];
  }

  lemma {:induction false} DotSelfNonNegative(xs: seq<real>)
    ensures Dot(xs, xs) >= 0.0
  {
    if |xs| > 0 {
      DotSelfNonNegative(xs[..|xs| - 1]);
      SquareNonNegative(xs[|xs| - 1]);
    }
  }

  /** A vector of length zero is the zero vector. */
  lemma {:induction false} DotSelfZero(xs: seq<real>)
    requires Dot(xs, xs) == 0.0
    ensures forall i :: 0 <= i < |xs| ==> xs[i] == 0.0
  {
    if |xs| > 0 {
      var n := |xs| - 1;
      DotSelfNonNegative(xs[..n]);
      SquareZero(xs[n], Dot(xs[..n], xs[..n]));
      DotSelfZero(xs[..n]);
      forall i | 0 <= i < |xs| ensures xs[i] == 0.0 {
        if i < n {
          assert xs[i] == xs[..n][i];
        }
      }
    }
  }

  lemma DotSymmetric(xs: seq<real>, ys: seq<real>)
    requires |xs| == |ys|
    ensures Dot(xs, ys) == Dot(ys, xs)
  {
  }

  lemma {:induction false} DotWithZeros(xs: seq<real>, ys: seq<real>)
    requires |xs| == |ys| && forall i :: 0 <= i < |ys| ==> ys[i] == 0.0
    ensures Dot(xs, ys) == 0.0
  {
    if |xs| > 0 {
      DotWithZeros(xs[..|xs| - 1], ys[..|xs| - 1]);
    }
  }

  function Scaled(k: real, xs: seq<real>): (r: seq<real>)
    ensures |r| == |xs|
  {
    if |xs| == 0 then [] else Scaled(k, xs[..|xs| - 1]) + [Times(k, xs[|xs| - 1])]
  }

  lemma {:induction false} ScaledSnoc(k: real, xs: seq<real>, x: real)
    ensures Scaled(k, xs + [x]) == Scaled(k, xs) + [Times(k, x)]
  {
    assert (xs + [x])[..|xs|] == xs;
  }

  lemma ScaleStep(k: real, x: real, y: real, d: real, d': real)
    requires d' == d + x * y
    ensures Times(k, d) + Times(k, x) * y == Times(k, d')
  {
  }

  lemma {:induction false} DotScaled(k: real, xs: seq<real>, ys: seq<real>)
    requires |xs| == |ys|
    ensures Dot(Scaled(k, xs), ys) == Times(k, Dot(xs, ys))
  {
    if |xs| > 0 {
      var n := |xs| - 1;
      assert Scaled(k, xs)[..n] == Scaled(k, xs[..n]);
      DotScaled(k, xs[..n], ys[..n]);
      ScaleStep(k, xs[n], ys[n], Dot(xs[..n], ys[..n]), Dot(xs, ys));
    }
  }

  /** a*xs + b*ys, the vector of a linear combination. */
  function Combined(a: real, xs: seq<real>, b: real, ys: seq<real>): (r: seq<real>)
    requires |xs| == |ys|
    ensures |r| == |xs|
  {
    if |xs| == 0 then []
    else
      var n := |xs| - 1;
      Combined(a, xs[..n], b, ys[..n]) + [a * xs[n] + b * ys[n]]
  }

  /** The quadratic form a^2 p + 2ab d + b^2 q. */
  function Form(a: real, b: real, p: real, d: real, q: real): real {
    a * a * p + 2.0 * (a * b) * d + b * b * q
  }

  lemma FormStep(a: real, b: real, x: real, y: real,
                 p: real, d: real, q: real, p': real, d': real, q': real)
    requires p' == p + x * x && d' == d + x * y && q' == q + y * y
    ensures Form(a, b, p, d, q) + (a * x + b * y) * (a * x + b * y) == Form(a, b, p', d', q')
  {
  }

  lemma {:induction false} DotCombined(a: real, xs: seq<real>, b: real, ys: seq<real>)
    requires |xs| == |ys|
    ensures Dot(Combined(a, xs, b, ys), Combined(a, xs, b, ys)) == Form(a, b, Dot(xs, xs), Dot(xs, ys), Dot(ys, ys))
  {
    if |xs| > 0 {
      var n := |xs| - 1;
      var p, q := xs[..n], ys[..n];
      assert Combined(a, xs, b, ys)[..n] == Combined(a, p, b, q);
      DotCombined(a, p, b, q);
      FormStep(a, b, xs[n], ys[n], Dot(p, p), Dot(p, q), Dot(q, q), Dot(xs, xs), Dot(xs, ys), Dot(ys, ys));
    }
  }

  lemma FormAtMinimum(p: real, d: real, q: real)
    ensures Form(q, -d, p, d, q) == Times(q, q * p - d * d)
  {
  }

  /** Cauchy-Schwarz. */
  lemma CauchySchwarz(xs: seq<real>, ys: seq<real>)
    requires |xs| == |ys|
    ensures Times(Dot(xs, ys), Dot(xs, ys)) <= Times(Dot(xs, xs), Dot(ys, ys))
  {
    var d, p, q := Dot(xs, ys), Dot(xs, xs), Dot(ys, ys);
    DotSelfNonNegative(xs);
    DotSelfNonNegative(ys);
    if q == 0.0 {
      DotSelfZero(ys);
      DotWithZeros(xs, ys);
    } else {
      DotCombined(q, xs, -d, ys);
      DotSelfNonNegative(Combined(q, xs, -d, ys));
      FormAtMinimum(p, d, q);
      NonNegativeFactor(q, q * p - d * d);
    }
  }
}

/** cosine in internal/ai/embeddings.go, over reals. */
module CosineSimilarity {
  import opened RealSums

  ghost function CosineOf(sqrt: real -> real, a: seq<real>, b: seq<real>): real {
    if |a| != |b| || |a| == 0 || Dot(a, a) == 0.0 || Dot(b, b) == 0.0
       || Times(sqrt(Dot(a, a)), sqrt(Dot(b, b))) == 0.0
    then 0.0
    else Dot(a, b) / Times(sqrt(Dot(a, a)), sqrt(Dot(b, b)))
  }

  method Cosine(sqrt: real -> real, a: seq<real>, b: seq<real>) returns (score: real)
    requires IsSqrt(sqrt)
    ensures score == CosineOf(sqrt, a, b)
    ensures -1.0 <= score <= 1.0
  {
    if |a| != |b| || |a| == 0 {
      return 0.0;
    }
    var dot, na, nb := 0.0, 0.0, 0.0;
    for i := 0 to |a|
      invariant dot == Dot(a[..i], b[..i]) && na == Dot(a[..i], a[..i]) && nb == Dot(b[..i], b[..i])
    {
      DotStep(a, b, i);
      DotStep(a, a, i);
      DotStep(b, b, i);
      dot := dot + a[i] * b[i];
      na := na + a[i] * a[i];
      nb := nb + b[i] * b[i];
    }
    assert a[..|a|] == a && b[..|b|] == b;
    if na == 0.0 || nb == 0.0 {
      return 0.0;
    }
    NormPositive(sqrt, a, b);
    score := dot / (sqrt(na) * sqrt(nb));
    CosineBounded(sqrt, a, b);
  }

  lemma NormPositive(sqrt: real -> real, a: seq<real>, b: seq<real>)
    requires IsSqrt(sqrt) && Dot(a, a) != 0.0 && Dot(b, b) != 0.0
    ensures Times(sqrt(Dot(a, a)), sqrt(Dot(b, b))) > 0.0
  {
    DotSelfNonNegative(a);
    DotSelfNonNegative(b);
    SqrtPositive(sqrt, Dot(a, a));
    SqrtPositive(sqrt, Dot(b, b));
    PositiveTimes(sqrt(Dot(a, a)), sqrt(Dot(b, b)));
  }

  lemma SquareBound(d: real, n: real)
    requires n > 0.0 && Times(d, d) <= Times(n, n)
    ensures -n <= d <= n
  {
    assert Times(-d, -d) == Times(d, d);
    if d > n {
      SquareGrows(d, n);
    }
    if -d > n {
      SquareGrows(-d, n);
    }
  }

  lemma QuotientBound(d: real, n: real)
    requires n > 0.0 && -n <= d <= n
    ensures -1.0 <= d / n <= 1.0
  {
    assert d / n * n == d;
  }

  /** The score lies in [-1, 1] for all vectors. */
  lemma CosineBounded(sqrt: real -> real, a: seq<real>, b: seq<real>)
    requires IsSqrt(sqrt)
    ensures -1.0 <= CosineOf(sqrt, a, b) <= 1.0
  {
    if |a| == |b| && Dot(a, a) != 0.0 && Dot(b, b) != 0.0 {
      NormPositive(sqrt, a, b);
      DotSelfNonNegative(a);
      DotSelfNonNegative(b);
      CauchySchwarz(a, b);
      RatioBound(Dot(a, b), sqrt(Dot(a, a)), sqrt(Dot(b, b)), Dot(a, a), Dot(b, b));
    }
  }

  lemma RatioBound(d: real, s: real, t: real, p: real, q: real)
    requires Times(s, t) > 0.0 && Times(s, s) == p && Times(t, t) == q && Times(d, d) <= Times(p, q)
    ensures -1.0 <= d / Times(s, t) <= 1.0
  {
    SquareOfProduct(s, t, p, q);
    SquareBound(d, Times(s, t));
    QuotientBound(d, Times(s, t));
  }

  lemma SquareOfProduct(s: real, t: real, p: real, q: real)
    requires Times(s, s) == p && Times(t, t) == q
    ensures Times(Times(s, t), Times(s, t)) == Times(p, q)
  {
    assert Times(Times(s, t), Times(s, t)) == Times(Times(s, s), Times(t, t));
  }

  lemma CosineSymmetric(sqrt: real -> real, a: seq<real>, b: seq<real>)
    ensures CosineOf(sqrt, a, b) == CosineOf(sqrt, b, a)
  {
    if |a| == |b| {
      DotSymmetric(a, b);
      assert Times(sqrt(Dot(a, a)), sqrt(Dot(b, b))) == Times(sqrt(Dot(b, b)), sqrt(Dot(a, a)));
    }
  }

  lemma ScaledDot(k: real, a: seq<real>)
    ensures Dot(Scaled(k, a), Scaled(k, a)) == Times(Times(k, k), Dot(a, a))
  {
    var ka := Scaled(k, a);
    DotScaled(k, a, ka);
    DotSymmetric(a, ka);
    DotScaled(k, a, a);
    assert Times(k, Times(k, Dot(a, a))) == Times(Times(k, k), Dot(a, a));
  }

  lemma ScaledRoot(sqrt: real -> real, k: real, p: real, x: real)
    requires IsSqrt(sqrt) && k > 0.0 && p >= 0.0 && x == Times(Times(k, k), p)
    ensures sqrt(x) == Times(k, sqrt(p))
  {
    SquareOfProduct(k, sqrt(p), Times(k, k), p);
    NonNegativeTimes(k, sqrt(p));
    SqrtUnique(sqrt, x, Times(k, sqrt(p)));
  }

  lemma CancelScale(k: real, d: real, s: real, t: real)
    requires k > 0.0 && Times(s, t) > 0.0
    ensures Times(Times(k, s), t) > 0.0
    ensures Times(k, d) / Times(Times(k, s), t) == d / Times(s, t)
  {
    var n := Times(s, t);
    PositiveTimes(k, n);
    assert Times(Times(k, s), t) == Times(k, n);
    QuotientOf(d / n, Times(k, n), Times(k, d));
  }

  lemma QuotientOf(z: real, n: real, d: real)
    requires n > 0.0 && Times(z, n) == d
    ensures d / n == z
  {
  }

  lemma ScaledNonzero(sqrt: real -> real, k: real, a: seq<real>, b: seq<real>)
    requires IsSqrt(sqrt) && k > 0.0 && |a| == |b| && Dot(a, a) != 0.0 && Dot(b, b) != 0.0
    ensures CosineOf(sqrt, Scaled(k, a), b) == CosineOf(sqrt, a, b)
  {
    ScaledDot(k, a);
    DotSelfNonNegative(a);
    ScaledRoot(sqrt, k, Dot(a, a), Dot(Scaled(k, a), Scaled(k, a)));
    PositiveSquare(k);
    PositiveTimes(Times(k, k), Dot(a, a));
    NormPositive(sqrt, a, b);
    DotScaled(k, a, b);
    CancelScale(k, Dot(a, b), sqrt(Dot(a, a)), sqrt(Dot(b, b)));
  }

  /** Scaling a vector by a positive factor does not change the score. */
  lemma CosineScaleInvariant(sqrt: real -> real, k: real, a: seq<real>, b: seq<real>)
    requires IsSqrt(sqrt) && k > 0.0
    ensures CosineOf(sqrt, Scaled(k, a), b) == CosineOf(sqrt, a, b)
    ensures CosineOf(sqrt, b, Scaled(k, a)) == CosineOf(sqrt, b, a)
  {
    if |a| == |b| {
      if Dot(a, a) != 0.0 && Dot(b, b) != 0.0 {
        ScaledNonzero(sqrt, k, a, b);
      } else {
        ScaledDot(k, a);
      }
    }
    CosineSymmetric(sqrt, Scaled(k, a), b);
    CosineSymmetric(sqrt, a, b);
  }

  lemma SelfRatio(s: real, p: real)
    requires Times(s, s) == p && p != 0.0
    ensures p / Times(s, s) == 1.0
  {
  }

  /** A nonzero vector scores 1 with every positive multiple of itself. */
  lemma CosineOfMultiple(sqrt: real -> real, k: real, a: seq<real>)
    requires IsSqrt(sqrt) && k > 0.0 && exists i :: 0 <= i < |a| && a[i] != 0.0
    ensures CosineOf(sqrt, a, Scaled(k, a)) == 1.0
  {
    CosineScaleInvariant(sqrt, k, a, a);
    if Dot(a, a) == 0.0 {
      DotSelfZero(a);
    }
    DotSelfNonNegative(a);
    SelfRatio(sqrt(Dot(a, a)), Dot(a, a));
  }
}

/** internal/api/cost_forecast.go: ordinary least squares and the projected
    cost, over reals. */
module CostForecast {
  import opened RealSums

  // ---- sums of squared residuals ------------------------------------------------

  function Residual(x: real, y: real, slope: real, intercept: real): real {
    y - (slope * x + intercept)
  }

  function Residuals(xs: seq<real>, ys: seq<real>, slope: real, intercept: real): (r: seq<real>)
    requires |xs| == |ys|
    ensures |r| == |xs|
  {
    if |xs| == 0 then []
    else
      var n := |xs| - 1;
      Residuals(xs[..n], ys[..n], slope, intercept) + [Residual(xs[n], ys[n], slope, intercept)]
  }

  function Ssr(xs: seq<real>, ys: seq<real>, slope: real, intercept: real): real
    requires |xs| == |ys|
  {
    Dot(Residuals(xs, ys, slope, intercept), Residuals(xs, ys, slope, intercept))
  }

  lemma ResidualsPrefix(xs: seq<real>, ys: seq<real>, m: real, c: real, i: nat)
    requires i < |xs| == |ys|
    ensures Residuals(xs[..i + 1], ys[..i + 1], m, c)
         == Residuals(xs[..i], ys[..i], m, c) + [Residual(xs[i], ys[i], m, c)]
  {
    assert xs[..i + 1][..i] == xs[..i] && ys[..i + 1][..i] == ys[..i];
  }

  lemma {:induction false} DotSnoc(a: seq<real>, x: real, b: seq<real>, y: real)
    requires |a| == |b|
    ensures Dot(a + [x], b + [y]) == Dot(a, b) + x * y
  {
    assert (a + [x])[..|a|] == a && (b + [y])[..|b|] == b;
  }

  lemma {:induction false} SumSnoc(a: seq<real>, x: real)
    ensures Sum(a + [x]) == Sum(a) + x
  {
    assert (a + [x])[..|a|] == a;
  }

  /** The moments a least-squares fit needs. */
  datatype Moments = Moments(n: real, sx: real, sy: real, sxx: real, sxy: real)

  function MomentsOf(xs: seq<real>, ys: seq<real>): Moments
    requires |xs| == |ys|
  {
    Moments(|xs| as real, Sum(xs), Sum(ys), Dot(xs, xs), Dot(xs, ys))
  }

  /** Sum of residuals, and of residuals weighted by x, from the moments. */
  function ResidualSum(q: Moments, m: real, c: real): real {
    q.sy - m * q.sx - q.n * c
  }

  function WeightedSum(q: Moments, m: real, c: real): real {
    q.sxy - m * q.sxx - c * q.sx
  }

  lemma MomentStep(q: Moments, q': Moments, x: real, y: real, m: real, c: real)
    requires q' == Moments(q.n + 1.0, q.sx + x, q.sy + y, q.sxx + x * x, q.sxy + x * y)
    ensures ResidualSum(q', m, c) == ResidualSum(q, m, c) + Residual(x, y, m, c)
    ensures WeightedSum(q', m, c) == WeightedSum(q, m, c) + x * Residual(x, y, m, c)
  {
  }

  lemma MomentsSnoc(a: seq<real>, b: seq<real>, x: real, y: real)
    requires |a| == |b|
    ensures var q := MomentsOf(a, b);
            MomentsOf(a + [x], b + [y]) == Moments(q.n + 1.0, q.sx + x, q.sy + y, q.sxx + x * x, q.sxy + x * y)
  {
    SumSnoc(a, x);
    SumSnoc(b, y);
    DotSnoc(a, x, a, x);
    DotSnoc(a, x, b, y);
  }

  lemma {:induction false} ResidualSumIs(xs: seq<real>, ys: seq<real>, m: real, c: real)
    requires |xs| == |ys|
    ensures Sum(Residuals(xs, ys, m, c)) == ResidualSum(MomentsOf(xs, ys), m, c)
  {
    if |xs| > 0 {
      var n := |xs| - 1;
      var a, b, x, y := xs[..n], ys[..n], xs[n], ys[n];
      ResidualSumIs(a, b, m, c);
      assert xs == a + [x] && ys == b + [y];
      MomentsSnoc(a, b, x, y);
      MomentStep(MomentsOf(a, b), MomentsOf(xs, ys), x, y, m, c);
      SumSnoc(Residuals(a, b, m, c), Residual(x, y, m, c));
    }
  }

  lemma {:induction false} WeightedSumIs(xs: seq<real>, ys: seq<real>, m: real, c: real)
    requires |xs| == |ys|
    ensures Dot(xs, Residuals(xs, ys, m, c)) == WeightedSum(MomentsOf(xs, ys), m, c)
  {
    hide WeightedSum, Residual, MomentsOf, Dot;
    if |xs| == 0 {
      NoWeightedSum(m, c);
      assert xs == [] && ys == [];
    } else {
      var n := |xs| - 1;
      var a, b, x, y := xs[..n], ys[..n], xs[n], ys[n];
      WeightedSumIs(a, b, m, c);
      assert xs == a + [x] && ys == b + [y];
      MomentsSnoc(a, b, x, y);
      MomentStep(MomentsOf(a, b), MomentsOf(xs, ys), x, y, m, c);
      DotSnoc(a, x, Residuals(a, b, m, c), Residual(x, y, m, c));
    }
  }

  lemma NoWeightedSum(m: real, c: real)
    ensures Dot([], Residuals([], [], m, c)) == WeightedSum(MomentsOf([], []), m, c)
  {
  }

  // ---- optimality -----------------------------------------------------------------

  function Lift(x: real, a: real, b: real): real {
    a * x + b
  }

  /** The values a line takes at the xs. */
  function Line(xs: seq<real>, a: real, b: real): (r: seq<real>)
    ensures |r| == |xs|
  {
    if |xs| == 0 then [] else Line(xs[..|xs| - 1], a, b) + [Lift(xs[|xs| - 1], a, b)]
  }

  /** sum r(a x + b) = a sum(x r) + b sum(r) */
  lemma {:induction false} DotLine(xs: seq<real>, rs: seq<real>, a: real, b: real)
    requires |xs| == |rs|
    ensures Dot(Line(xs, a, b), rs) == Times(a, Dot(xs, rs)) + Times(b, Sum(rs))
  {
    if |xs| > 0 {
      var n := |xs| - 1;
      DotLine(xs[..n], rs[..n], a, b);
      DotSnoc(Line(xs[..n], a, b), Lift(xs[n], a, b), rs[..n], rs[n]);
      assert rs == rs[..n] + [rs[n]];
      LineStep(a, b, xs[n], rs[n], Dot(xs[..n], rs[..n]), Sum(rs[..n]), Dot(xs, rs), Sum(rs));
    }
  }

  lemma LineStep(a: real, b: real, x: real, r: real, d: real, s: real, d': real, s': real)
    requires d' == d + x * r && s' == s + r
    ensures Times(a, d) + Times(b, s) + Lift(x, a, b) * r == Times(a, d') + Times(b, s')
  {
  }

  /** Another line's residuals differ by a line. */
  lemma {:induction false} SsrOfOtherLine(xs: seq<real>, ys: seq<real>, m: real, c: real, m': real, c': real)
    requires |xs| == |ys|
    ensures var r, l := Residuals(xs, ys, m, c), Line(xs, m - m', c - c');
            Ssr(xs, ys, m', c') == Dot(r, r) + 2.0 * Dot(l, r) + Dot(l, l)
  {
    hide Residual, Lift;
    if |xs| > 0 {
      var n := |xs| - 1;
      var a, b := xs[..n], ys[..n];
      SsrOfOtherLine(a, b, m, c, m', c');
      var r, l := Residuals(a, b, m, c), Line(a, m - m', c - c');
      var r', x, y := Residuals(a, b, m', c'), xs[n], ys[n];
      DotSnoc(r, Residual(x, y, m, c), r, Residual(x, y, m, c));
      DotSnoc(l, Lift(x, m - m', c - c'), r, Residual(x, y, m, c));
      DotSnoc(l, Lift(x, m - m', c - c'), l, Lift(x, m - m', c - c'));
      DotSnoc(r', Residual(x, y, m', c'), r', Residual(x, y, m', c'));
      OtherResidual(x, y, m, c, m', c');
    }
  }

  lemma OtherResidual(x: real, y: real, m: real, c: real, m': real, c': real)
    ensures var r, l, r' := Residual(x, y, m, c), Lift(x, m - m', c - c'), Residual(x, y, m', c');
            r' * r' == r * r + 2.0 * (l * r) + l * l
  {
    var r, l := Residual(x, y, m, c), Lift(x, m - m', c - c');
    assert Residual(x, y, m', c') == r + l;
    SquareOfSum(r, l);
  }

  lemma SquareOfSum(r: real, l: real)
    ensures (r + l) * (r + l) == r * r + 2.0 * (l * r) + l * l
  {
  }

  /** The normal equations: residuals sum to zero and are orthogonal to xs. */
  ghost predicate NormalEquations(xs: seq<real>, ys: seq<real>, slope: real, intercept: real)
    requires |xs| == |ys|
  {
    Sum(Residuals(xs, ys, slope, intercept)) == 0.0 && Dot(xs, Residuals(xs, ys, slope, intercept)) == 0.0
  }

  lemma {:induction false} LineAt(xs: seq<real>, a: real, b: real, i: nat)
    requires i < |xs|
    ensures Line(xs, a, b)[i] == Lift(xs[i], a, b)
  {
    if i < |xs| - 1 {
      LineAt(xs[..|xs| - 1], a, b, i);
    }
  }

  /** A line meeting the normal equations has the least sum of squares, and is
      the only such line unless all xs coincide. */
  lemma NormalEquationsAreOptimal(xs: seq<real>, ys: seq<real>, m: real, c: real, m': real, c': real)
    requires |xs| == |ys| && NormalEquations(xs, ys, m, c)
    ensures Ssr(xs, ys, m, c) <= Ssr(xs, ys, m', c')
    ensures Ssr(xs, ys, m, c) == Ssr(xs, ys, m', c') && !AllEqual(xs) ==> m == m' && c == c'
  {
    var r, l := Residuals(xs, ys, m, c), Line(xs, m - m', c - c');
    SsrOfOtherLine(xs, ys, m, c, m', c');
    DotLine(xs, r, m - m', c - c');
    DotSelfNonNegative(l);
    assert Dot(l, r) == 0.0;
    if Ssr(xs, ys, m, c) == Ssr(xs, ys, m', c') && !AllEqual(xs) {
      DotSelfZero(l);
      var i, j :| 0 <= i < |xs| && 0 <= j < |xs| && xs[i] != xs[j];
      LineAt(xs, m - m', c - c', i);
      LineAt(xs, m - m', c - c', j);
      SameLine(m - m', c - c', xs[i], xs[j]);
    }
  }

  lemma SameLine(a: real, b: real, x: real, y: real)
    requires Lift(x, a, b) == 0.0 && Lift(y, a, b) == 0.0 && x != y
    ensures a == 0.0 && b == 0.0
  {
    assert Times(a, x - y) == Lift(x, a, b) - Lift(y, a, b);
    TimesZero(a, x - y);
  }

  // ---- the denominator ------------------------------------------------------------

  ghost predicate AllEqual(xs: seq<real>) {
    forall i, j :: 0 <= i < |xs| && 0 <= j < |xs| ==> xs[i] == xs[j]
  }

  function Denominator(q: Moments): real {
    q.n * q.sxx - q.sx * q.sx
  }

  lemma {:induction false} ConstantMoments(xs: seq<real>, ys: seq<real>, v: real)
    requires |xs| == |ys| && forall i :: 0 <= i < |xs| ==> xs[i] == v
    ensures Sum(xs) == Times(|xs| as real, v)
    ensures Dot(xs, xs) == Times(v, Sum(xs)) && Dot(xs, ys) == Times(v, Sum(ys))
  {
    if |xs| > 0 {
      var n := |xs| - 1;
      ConstantMoments(xs[..n], ys[..n], v);
      assert xs[n] == v;
      ConstantStep(v, n as real, Sum(xs[..n]));
      ConstantTimes(v, Sum(xs[..n]), v, Sum(xs));
      ConstantTimes(v, Sum(ys[..n]), ys[n], Sum(ys));
      assert (n + 1) as real == n as real + 1.0;
    }
  }

  lemma ConstantStep(v: real, n: real, s: real)
    requires s == Times(n, v)
    ensures s + v == Times(n + 1.0, v)
  {
  }

  lemma ConstantTimes(v: real, s: real, y: real, s': real)
    requires s' == s + y
    ensures Times(v, s) + v * y == Times(v, s')
  {
  }

  lemma {:induction false} SumLine(xs: seq<real>, a: real, b: real)
    ensures Sum(Line(xs, a, b)) == Times(a, Sum(xs)) + Times(b, |xs| as real)
  {
    if |xs| > 0 {
      var n := |xs| - 1;
      SumLine(xs[..n], a, b);
      SumSnoc(Line(xs[..n], a, b), Lift(xs[n], a, b));
      SumLineStep(a, b, xs[n], Sum(xs[..n]), Sum(xs), n as real, |xs| as real);
    }
  }

  lemma SumLineStep(a: real, b: real, x: real, s: real, s': real, n: real, n': real)
    requires s' == s + x && n' == n + 1.0
    ensures Times(a, s) + Times(b, n) + Lift(x, a, b) == Times(a, s') + Times(b, n')
  {
  }

  lemma CentredSquares(xs: seq<real>, mean: real)
    ensures Dot(Line(xs, 1.0, -mean), Line(xs, 1.0, -mean))
         == Dot(xs, xs) - 2.0 * Times(mean, Sum(xs)) + Times(Times(mean, mean), |xs| as real)
  {
    var l := Line(xs, 1.0, -mean);
    DotLine(xs, l, 1.0, -mean);
    DotSymmetric(xs, l);
    DotLine(xs, xs, 1.0, -mean);
    SumLine(xs, 1.0, -mean);
    CentredForm(mean, Dot(xs, xs), Sum(xs), |xs| as real, Dot(xs, l), Sum(l));
  }

  lemma CentredForm(mean: real, d: real, s: real, n: real, dl: real, sl: real)
    requires dl == Times(1.0, d) + Times(-mean, s) && sl == Times(1.0, s) + Times(-mean, n)
    ensures Times(1.0, dl) + Times(-mean, sl) == d - 2.0 * Times(mean, s) + Times(Times(mean, mean), n)
  {
  }

  lemma CentredFromDenominator(q: Moments, mean: real)
    requires q.n > 0.0 && Times(mean, q.n) == q.sx
    ensures Times(q.n, q.sxx - 2.0 * Times(mean, q.sx) + Times(Times(mean, mean), q.n)) == Denominator(q)
  {
    var t := q.n * mean;
    assert t == q.sx;
    assert q.n * (q.sxx - 2.0 * (mean * q.sx) + mean * mean * q.n) == q.n * q.sxx - 2.0 * (t * q.sx) + t * t;
  }

  /** The denominator vanishes exactly when all xs coincide. */
  lemma DenominatorZero(xs: seq<real>, ys: seq<real>)
    requires |xs| == |ys| && |xs| > 0
    ensures Denominator(MomentsOf(xs, ys)) == 0.0 <==> AllEqual(xs)
  {
    var q := MomentsOf(xs, ys);
    if AllEqual(xs) {
      ConstantMoments(xs, ys, xs[0]);
      ConstantDenominator(q, xs[0]);
    }
    if Denominator(q) == 0.0 {
      var mean := q.sx / q.n;
      MeanTimes(q.sx, q.n);
      CentredSquares(xs, mean);
      CentredFromDenominator(q, mean);
      TimesZero(q.n, Dot(Line(xs, 1.0, -mean), Line(xs, 1.0, -mean)));
      DotSelfZero(Line(xs, 1.0, -mean));
      forall i | 0 <= i < |xs| ensures xs[i] == mean {
        LineAt(xs, 1.0, -mean, i);
      }
    }
  }

  lemma MeanTimes(s: real, n: real)
    requires n > 0.0
    ensures Times(s / n, n) == s
  {
  }

  lemma ConstantDenominator(q: Moments, v: real)
    requires q.sx == Times(q.n, v) && q.sxx == Times(v, q.sx)
    ensures Denominator(q) == 0.0
  {
    assert q.n * (v * q.sx) == (q.n * v) * q.sx;
  }

  // ---- the fit --------------------------------------------------------------------

  lemma SolvesNormalEquations(q: Moments, m: real, c: real)
    requires q.n > 0.0 && Denominator(q) != 0.0
    requires Times(m, Denominator(q)) == q.n * q.sxy - q.sx * q.sy
    requires Times(c, q.n) == q.sy - m * q.sx
    ensures ResidualSum(q, m, c) == 0.0 && WeightedSum(q, m, c) == 0.0
  {
    assert Times(q.n, WeightedSum(q, m, c)) == 0.0 by {
      var s := c * q.n;
      assert s == q.sy - m * q.sx;
      assert q.n * (q.sxy - m * q.sxx - c * q.sx) == q.n * q.sxy - m * (q.n * q.sxx) - s * q.sx;
      assert s * q.sx == q.sy * q.sx - m * (q.sx * q.sx);
      assert m * (q.n * q.sxx) - m * (q.sx * q.sx) == Times(m, Denominator(q));
    }
    TimesZero(q.n, WeightedSum(q, m, c));
  }

  lemma ConstantSolves(q: Moments, v: real, c: real)
    requires q.n > 0.0 && q.sx == Times(q.n, v) && q.sxy == Times(v, q.sy)
    requires Times(c, q.n) == q.sy
    ensures ResidualSum(q, 0.0, c) == 0.0 && WeightedSum(q, 0.0, c) == 0.0
  {
    assert c * (q.n * v) == v * (c * q.n);
  }

  /** No line does better, and the normal equations hold. */
  ghost predicate LeastSquares(xs: seq<real>, ys: seq<real>, slope: real, intercept: real)
    requires |xs| == |ys|
  {
    NormalEquations(xs, ys, slope, intercept)
    && forall m, c :: Ssr(xs, ys, slope, intercept) <= Ssr(xs, ys, m, c)
  }

  method Accumulate(xs: seq<real>, ys: seq<real>) returns (sx: real, sy: real, sxx: real, sxy: real)
    requires |xs| == |ys|
    ensures Moments(|xs| as real, sx, sy, sxx, sxy) == MomentsOf(xs, ys)
  {
    sx, sy, sxx, sxy := 0.0, 0.0, 0.0, 0.0;
    for i := 0 to |xs|
      invariant sx == Sum(xs[..i]) && sy == Sum(ys[..i])
      invariant sxx == Dot(xs[..i], xs[..i]) && sxy == Dot(xs[..i], ys[..i])
    {
      SumStep(xs, i);
      SumStep(ys, i);
      DotStep(xs, xs, i);
      DotStep(xs, ys, i);
      sx := sx + xs[i];
      sy := sy + ys[i];
      sxx := sxx + xs[i] * xs[i];
      sxy := sxy + xs[i] * ys[i];
    }
    assert xs[..|xs|] == xs && ys[..|xs|] == ys;
  }

  /** Main result: the fitted line meets the normal equations, degenerate branch
      included, so no line has a smaller sum of squared residuals. The residual
      deviation is the root of SSR/(n-2), or zero when n < 3 or the xs coincide. */
  method LinearRegression(sqrt: real -> real, xs: seq<real>, ys: seq<real>)
      returns (slope: real, intercept: real, residStd: real)
    requires IsSqrt(sqrt)
    ensures |xs| == 0 || |xs| != |ys| ==> slope == intercept == residStd == 0.0
    ensures |xs| == |ys| && |xs| > 0 ==>
      LeastSquares(xs, ys, slope, intercept) && (AllEqual(xs) ==> slope == 0.0)
    ensures residStd >= 0.0
    ensures |xs| == |ys| && |xs| >= 3 && !AllEqual(xs) ==>
      Times(Times(residStd, residStd), (|xs| - 2) as real) == Ssr(xs, ys, slope, intercept)
    ensures |xs| == |ys| && (|xs| < 3 || AllEqual(xs)) ==> residStd == 0.0
  {
    var n := |xs|;
    if n == 0 || n != |ys| {
      return 0.0, 0.0, 0.0;
    }
    var sx, sy, sxx, sxy := Accumulate(xs, ys);
    var q := Moments(n as real, sx, sy, sxx, sxy);
    DenominatorZero(xs, ys);
    if Denominator(q) == 0.0 {
      intercept := q.sy / q.n;
      FitDegenerate(xs, ys, intercept);
      return 0.0, intercept, 0.0;
    }
    slope, intercept := Solve(q);
    FitRegular(xs, ys, slope, intercept);
    if n < 3 {
      return slope, intercept, 0.0;
    }
    var ssr := SumSquares(xs, ys, slope, intercept);
    residStd := Deviation(sqrt, ssr, n);
  }

  method Solve(q: Moments) returns (slope: real, intercept: real)
    requires q.n > 0.0 && Denominator(q) != 0.0
    ensures IsFit(q, slope, intercept)
  {
    slope := (q.n * q.sxy - q.sx * q.sy) / Denominator(q);
    intercept := (q.sy - slope * q.sx) / q.n;
  }

  method SumSquares(xs: seq<real>, ys: seq<real>, slope: real, intercept: real) returns (ssr: real)
    requires |xs| == |ys|
    ensures ssr == Ssr(xs, ys, slope, intercept) && ssr >= 0.0
  {
    ssr := 0.0;
    for i := 0 to |xs|
      invariant ssr == Ssr(xs[..i], ys[..i], slope, intercept)
    {
      var r := ys[i] - (slope * xs[i] + intercept);
      ResidualsPrefix(xs, ys, slope, intercept, i);
      ghost var rs := Residuals(xs[..i], ys[..i], slope, intercept);
      DotSnoc(rs, Residual(xs[i], ys[i], slope, intercept), rs, Residual(xs[i], ys[i], slope, intercept));
      ssr := ssr + r * r;
    }
    assert xs[..|xs|] == xs && ys[..|ys|] == ys;
    DotSelfNonNegative(Residuals(xs, ys, slope, intercept));
  }

  method Deviation(sqrt: real -> real, ssr: real, n: nat) returns (d: real)
    requires IsSqrt(sqrt) && ssr >= 0.0 && n >= 3
    ensures d >= 0.0 && Times(Times(d, d), (n - 2) as real) == ssr
  {
    QuotientNonNegative(ssr, (n - 2) as real);
    d := sqrt(ssr / (n - 2) as real);
    MeanTimes(ssr, (n - 2) as real);
  }

  lemma QuotientNonNegative(s: real, n: real)
    requires s >= 0.0 && n > 0.0
    ensures s / n >= 0.0
  {
  }

  lemma FitDegenerate(xs: seq<real>, ys: seq<real>, intercept: real)
    requires |xs| == |ys| && |xs| > 0 && AllEqual(xs) && intercept == Sum(ys) / (|xs| as real)
    ensures LeastSquares(xs, ys, 0.0, intercept)
  {
    ConstantMoments(xs, ys, xs[0]);
    MeanTimes(Sum(ys), |xs| as real);
    ConstantSolves(MomentsOf(xs, ys), xs[0], intercept);
    ResidualSumIs(xs, ys, 0.0, intercept);
    WeightedSumIs(xs, ys, 0.0, intercept);
    LeastOfAll(xs, ys, 0.0, intercept);
  }

  ghost predicate IsFit(q: Moments, slope: real, intercept: real) {
    q.n > 0.0 && Denominator(q) != 0.0
    && slope == (q.n * q.sxy - q.sx * q.sy) / Denominator(q)
    && intercept == (q.sy - slope * q.sx) / q.n
  }

  lemma FitSolves(q: Moments, slope: real, intercept: real)
    requires IsFit(q, slope, intercept)
    ensures ResidualSum(q, slope, intercept) == 0.0 && WeightedSum(q, slope, intercept) == 0.0
  {
    QuotientTimes(q.n * q.sxy - q.sx * q.sy, Denominator(q));
    QuotientTimes(q.sy - slope * q.sx, q.n);
    SolvesNormalEquations(q, slope, intercept);
  }

  lemma FitRegular(xs: seq<real>, ys: seq<real>, slope: real, intercept: real)
    requires |xs| == |ys| && IsFit(MomentsOf(xs, ys), slope, intercept)
    ensures LeastSquares(xs, ys, slope, intercept)
  {
    FitSolves(MomentsOf(xs, ys), slope, intercept);
    ResidualSumIs(xs, ys, slope, intercept);
    WeightedSumIs(xs, ys, slope, intercept);
    LeastOfAll(xs, ys, slope, intercept);
  }

  lemma QuotientTimes(a: real, b: real)
    requires b != 0.0
    ensures Times(a / b, b) == a
  {
  }

  lemma LeastOfAll(xs: seq<real>, ys: seq<real>, slope: real, intercept: real)
    requires |xs| == |ys| && NormalEquations(xs, ys, slope, intercept)
    ensures LeastSquares(xs, ys, slope, intercept)
  {
    forall m, c ensures Ssr(xs, ys, slope, intercept) <= Ssr(xs, ys, m, c) {
      NormalEquationsAreOptimal(xs, ys, slope, intercept, m, c);
    }
  }

  // ---- the projection -------------------------------------------------------------

  /** The line i days after the last sample. */
  function Prediction(slope: real, intercept: real, lastX: real, i: nat): real {
    slope * (lastX + i as real) + intercept
  }

  function ClampAtZero(x: real): real {
    if x < 0.0 then 0.0 else x
  }

  function ProjectedCost(slope: real, intercept: real, lastX: real, days: nat): real {
    if days == 0 then 0.0
    else ProjectedCost(slope, intercept, lastX, days - 1) + ClampAtZero(Prediction(slope, intercept, lastX, days))
  }

  /** n predictions without clamping. */
  function LinearTotal(slope: real, intercept: real, lastX: real, days: nat): real {
    days as real * (slope * lastX + intercept) + slope * (days as real * (days as real + 1.0) / 2.0)
  }

  lemma LinearTotalStep(slope: real, intercept: real, lastX: real, days: nat)
    requires days > 0
    ensures LinearTotal(slope, intercept, lastX, days)
         == LinearTotal(slope, intercept, lastX, days - 1) + Prediction(slope, intercept, lastX, days)
  {
    var n := days as real;
    assert (days - 1) as real == n - 1.0;
    TriangleStep(n, slope, lastX, intercept);
  }

  lemma TriangleStep(n: real, m: real, x: real, c: real)
    ensures n * (m * x + c) + m * (n * (n + 1.0) / 2.0)
         == (n - 1.0) * (m * x + c) + m * ((n - 1.0) * (n - 1.0 + 1.0) / 2.0) + (m * (x + n) + c)
  {
  }

  /** The projected cost is never below the line's own total, and equals it
      exactly when no day of the horizon was clamped. */
  lemma {:induction false} ProjectedCostBounds(slope: real, intercept: real, lastX: real, days: nat)
    ensures ProjectedCost(slope, intercept, lastX, days) >= 0.0
    ensures ProjectedCost(slope, intercept, lastX, days) >= LinearTotal(slope, intercept, lastX, days)
    ensures ProjectedCost(slope, intercept, lastX, days) == LinearTotal(slope, intercept, lastX, days)
       <==> forall i: nat :: 0 < i <= days ==> Prediction(slope, intercept, lastX, i) >= 0.0
  {
    if days > 0 {
      ProjectedCostBounds(slope, intercept, lastX, days - 1);
      LinearTotalStep(slope, intercept, lastX, days);
    } else {
      assert LinearTotal(slope, intercept, lastX, 0) == 0.0;
    }
  }

  datatype ForecastResp = ForecastResp(
    forecast: real, low: real, high: real, method_: string, samples: nat)

  function HorizonDays(days: int): nat {
    if days <= 0 then 30 else if days > 365 then 365 else days
  }

  /** The response after the samples were read: a clamped projection of the
      least-squares line, inside a band of two deviations times the root of the
      horizon, cut off at zero. */
  method Forecast(sqrt: real -> real, xs: seq<real>, ys: seq<real>, days0: int)
      returns (resp: ForecastResp, ghost slope: real, ghost intercept: real, ghost deviation: real, ghost band: real)
    requires IsSqrt(sqrt) && |xs| == |ys|
    ensures resp.samples == |xs|
    ensures |xs| < 2 ==> resp == ForecastResp(0.0, 0.0, 0.0, "insufficient", |xs|)
    ensures |xs| >= 2 ==>
      var n := if days0 <= 0 then 30 else if days0 > 365 then 365 else days0;
      LeastSquares(xs, ys, slope, intercept)
      && resp.forecast == ProjectedCost(slope, intercept, xs[|xs| - 1], n)
      && (if |xs| >= 3 && !AllEqual(xs)
          then Times(Times(deviation, deviation), (|xs| - 2) as real) == Ssr(xs, ys, slope, intercept)
          else deviation == 0.0)
      && deviation >= 0.0 && band >= 0.0
      && Times(band, band) == Times(4.0 * Times(deviation, deviation), n as real)
      && resp.low == ClampAtZero(resp.forecast - band) && resp.high == resp.forecast + band
    ensures 0.0 <= resp.low <= resp.forecast <= resp.high
  {
    if |xs| < 2 {
      return ForecastResp(0.0, 0.0, 0.0, "insufficient", |xs|), 0.0, 0.0, 0.0, 0.0;
    }
    var m, c, residStd := LinearRegression(sqrt, xs, ys);
    slope, intercept, deviation := m, c, residStd;
    var days := HorizonDays(days0);
    var total := Project(m, c, xs[|xs| - 1], days);
    ProjectedCostBounds(m, c, xs[|xs| - 1], days);
    var width := Band(sqrt, residStd, days);
    band := width;
    resp := ForecastResp(total, ClampAtZero(total - width), total + width, "ols-linear-60d", |xs|);
  }

  method Band(sqrt: real -> real, residStd: real, days: nat) returns (band: real)
    requires IsSqrt(sqrt) && residStd >= 0.0
    ensures band >= 0.0 && Times(band, band) == Times(4.0 * Times(residStd, residStd), days as real)
  {
    var root := sqrt(days as real);
    NonNegativeTimes(2.0 * residStd, root);
    band := 2.0 * residStd * root;
    BandSquare(residStd, root, days as real);
  }

  lemma BandSquare(s: real, root: real, n: real)
    requires Times(root, root) == n
    ensures Times(2.0 * s * root, 2.0 * s * root) == Times(4.0 * Times(s, s), n)
  {
    assert (2.0 * s * root) * (2.0 * s * root) == (4.0 * (s * s)) * (root * root);
  }

  method Project(slope: real, intercept: real, lastX: real, days: nat) returns (total: real)
    ensures total == ProjectedCost(slope, intercept, lastX, days)
  {
    total := 0.0;
    for i := 1 to days + 1
      invariant total == ProjectedCost(slope, intercept, lastX, i - 1)
    {
      var yhat := slope * (lastX + i as real) + intercept;
      if yhat < 0.0 {
        yhat := 0.0;
      }
      total := total + yhat;
    }
  }
}

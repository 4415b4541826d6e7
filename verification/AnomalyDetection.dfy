/** internal/anomaly/anomaly.go: sliding z-scores, over reals. */
module AnomalyDetection {
  import opened RealSums

  datatype Point = Point(timestamp: int, value: real)
  datatype Anomaly = Anomaly(point: Point, z: real, reason: string)

  function WindowSize(minPoints: int): nat {
    if minPoints < 5 then 14 else minPoints
  }

  function Threshold(threshold: real): real {
    if threshold == 0.0 then 3.0 else threshold
  }

  function Reason(z: real): string {
    if z < 0.0 then "drop" else "spike"
  }

  function Abs(x: real): real {
    if x < 0.0 then -x else x
  }

  // ---- window statistics -----------------------------------------------------------

  function Values(pts: seq<Point>): (vs: seq<real>)
    ensures |vs| == |pts|
  {
    if |pts| == 0 then [] else Values(pts[..|pts| - 1]) + [pts[|pts| - 1].value]
  }

  /** Distance of each value from a centre. */
  function Deviations(pts: seq<Point>, centre: real): (ds: seq<real>)
    ensures |ds| == |pts|
  {
    if |pts| == 0 then [] else Deviations(pts[..|pts| - 1], centre) + [pts[|pts| - 1].value - centre]
  }

  function Mean(pts: seq<Point>): real
    requires |pts| > 0
  {
    Sum(Values(pts)) / |pts| as real
  }

  function Variance(pts: seq<Point>): real
    requires |pts| > 0
  {
    Dot(Deviations(pts, Mean(pts)), Deviations(pts, Mean(pts))) / |pts| as real
  }

  function StdDev(sqrt: real -> real, pts: seq<Point>): real
    requires |pts| > 0
  {
    sqrt(Variance(pts))
  }

  lemma SnocSums(pts: seq<Point>, i: nat, centre: real)
    requires i < |pts|
    ensures Sum(Values(pts[..i + 1])) == Sum(Values(pts[..i])) + pts[i].value
    ensures var d := Deviations(pts[..i], centre);
            Dot(Deviations(pts[..i + 1], centre), Deviations(pts[..i + 1], centre))
            == Dot(d, d) + (pts[i].value - centre) * (pts[i].value - centre)
  {
    assert pts[..i + 1][..i] == pts[..i];
    var v, d := Values(pts[..i]), Deviations(pts[..i], centre);
    assert (v + [pts[i].value])[..i] == v;
    assert (d + [pts[i].value - centre])[..i] == d;
  }

  method SumValues(pts: seq<Point>) returns (sum: real)
    ensures sum == Sum(Values(pts))
  {
    sum := 0.0;
    for i := 0 to |pts|
      invariant sum == Sum(Values(pts[..i]))
    {
      SnocSums(pts, i, 0.0);
      sum := sum + pts[i].value;
    }
    assert pts[..|pts|] == pts;
  }

  method SumSquares(pts: seq<Point>, mean: real) returns (ssq: real)
    ensures ssq == Dot(Deviations(pts, mean), Deviations(pts, mean))
  {
    ssq := 0.0;
    for i := 0 to |pts|
      invariant ssq == Dot(Deviations(pts[..i], mean), Deviations(pts[..i], mean))
    {
      SnocSums(pts, i, mean);
      var d := pts[i].value - mean;
      ssq := ssq + d * d;
    }
    assert pts[..|pts|] == pts;
  }

  method Stats(sqrt: real -> real, pts: seq<Point>) returns (mean: real, stddev: real)
    requires |pts| > 0
    ensures mean == Mean(pts) && stddev == StdDev(sqrt, pts)
  {
    var n := |pts| as real;
    var sum := SumValues(pts);
    mean := sum / n;
    var ssq := SumSquares(pts, mean);
    stddev := sqrt(ssq / n);
  }

  // ---- detection --------------------------------------------------------------------

  /** z-score of point i against the w points before it. */
  function ZScore(sqrt: real -> real, series: seq<Point>, w: nat, i: nat): real
    requires 0 < w <= i < |series| && StdDev(sqrt, series[i - w..i]) != 0.0
  {
    (series[i].value - Mean(series[i - w..i])) / StdDev(sqrt, series[i - w..i])
  }

  predicate Flagged(sqrt: real -> real, series: seq<Point>, w: nat, threshold: real, i: nat)
    requires 0 < w <= i < |series|
  {
    StdDev(sqrt, series[i - w..i]) != 0.0 && Abs(ZScore(sqrt, series, w, i)) > threshold
  }

  function AnomalyAt(sqrt: real -> real, series: seq<Point>, w: nat, i: nat): Anomaly
    requires 0 < w <= i < |series| && StdDev(sqrt, series[i - w..i]) != 0.0
  {
    var z := ZScore(sqrt, series, w, i);
    Anomaly(series[i], z, Reason(z))
  }

  function Found(sqrt: real -> real, series: seq<Point>, w: nat, threshold: real, i: nat): seq<Anomaly>
    requires 0 < w <= i < |series|
  {
    if Flagged(sqrt, series, w, threshold, i) then [AnomalyAt(sqrt, series, w, i)] else []
  }

  function Finder(sqrt: real -> real, series: seq<Point>, w: nat, threshold: real): nat -> seq<Anomaly>
    requires w > 0
  {
    (i: nat) => if w <= i < |series| then Found(sqrt, series, w, threshold, i) else []
  }

  /** Everything a finder yields for lo, lo + 1, ..., n - 1, in order. */
  function Collect(found: nat -> seq<Anomaly>, lo: nat, n: nat): seq<Anomaly> {
    if n <= lo then [] else Collect(found, lo, n - 1) + found(n - 1)
  }

  lemma CollectStep(found: nat -> seq<Anomaly>, lo: nat, n: nat)
    requires lo <= n
    ensures Collect(found, lo, n + 1) == Collect(found, lo, n) + found(n)
  {
  }

  function Anomalies(sqrt: real -> real, series: seq<Point>, minPoints: int, threshold: real): seq<Anomaly> {
    var w := WindowSize(minPoints);
    Collect(Finder(sqrt, series, w, Threshold(threshold)), w, |series|)
  }

  method Detect(sqrt: real -> real, series: seq<Point>, minPoints: int, threshold: real) returns (out: seq<Anomaly>)
    ensures out == Anomalies(sqrt, series, minPoints, threshold)
  {
    var w, t := WindowSize(minPoints), Threshold(threshold);
    if |series| < w + 1 {
      return [];
    }
    out := Slide(sqrt, series, w, t);
  }

  method Slide(sqrt: real -> real, series: seq<Point>, w: nat, t: real) returns (out: seq<Anomaly>)
    requires 0 < w <= |series|
    ensures out == Collect(Finder(sqrt, series, w, t), w, |series|)
  {
    ghost var f := Finder(sqrt, series, w, t);
    out := [];
    for i := w to |series|
      invariant out == Collect(f, w, i)
    {
      CollectStep(f, w, i);
      var found := Inspect(sqrt, series, w, t, i);
      out := out + found;
    }
  }

  /** The body of the loop. */
  method Inspect(sqrt: real -> real, series: seq<Point>, w: nat, t: real, i: nat) returns (found: seq<Anomaly>)
    requires 0 < w <= i < |series|
    ensures found == Finder(sqrt, series, w, t)(i)
  {
    var mean, stddev := Stats(sqrt, series[i - w..i]);
    if stddev == 0.0 {
      return [];
    }
    var z := (series[i].value - mean) / stddev;
    if Abs(z) > t {
      var reason := "spike";
      if z < 0.0 {
        reason := "drop";
      }
      return [Anomaly(series[i], z, reason)];
    }
    found := [];
  }

  // ---- affine maps --------------------------------------------------------------------

  function Moved(p: Point, a: real, b: real): Point {
    Point(p.timestamp, Times(a, p.value) + b)
  }

  function Affine(pts: seq<Point>, a: real, b: real): (r: seq<Point>)
    ensures |r| == |pts|
  {
    if |pts| == 0 then [] else Affine(pts[..|pts| - 1], a, b) + [Moved(pts[|pts| - 1], a, b)]
  }

  lemma {:induction false} AffineAt(pts: seq<Point>, a: real, b: real, i: nat)
    requires i < |pts|
    ensures Affine(pts, a, b)[i] == Moved(pts[i], a, b)
  {
    if i < |pts| - 1 {
      AffineAt(pts[..|pts| - 1], a, b, i);
    }
  }

  lemma AffineSlice(pts: seq<Point>, a: real, b: real, lo: nat, hi: nat)
    requires lo <= hi <= |pts|
    ensures Affine(pts, a, b)[lo..hi] == Affine(pts[lo..hi], a, b)
  {
    forall i | 0 <= i < hi - lo ensures Affine(pts, a, b)[lo..hi][i] == Affine(pts[lo..hi], a, b)[i] {
      AffineAt(pts, a, b, lo + i);
      AffineAt(pts[lo..hi], a, b, i);
    }
  }

  lemma {:induction false} AffineSum(pts: seq<Point>, a: real, b: real)
    ensures Sum(Values(Affine(pts, a, b))) == Times(a, Sum(Values(pts))) + Times(b, |pts| as real)
  {
    if |pts| > 0 {
      var n := |pts| - 1;
      AffineSum(pts[..n], a, b);
      SnocValue(pts);
      SnocValue(Affine(pts, a, b));
      assert Affine(pts, a, b)[..n] == Affine(pts[..n], a, b);
      AffineStep(a, b, Sum(Values(pts[..n])), pts[n].value, Sum(Values(pts)), n as real, |pts| as real);
    }
  }

  lemma SnocValue(pts: seq<Point>)
    requires |pts| > 0
    ensures Sum(Values(pts)) == Sum(Values(pts[..|pts| - 1])) + pts[|pts| - 1].value
  {
    var v := Values(pts);
    assert v[..|pts| - 1] == Values(pts[..|pts| - 1]);
  }

  lemma AffineStep(a: real, b: real, s: real, v: real, s': real, n: real, n': real)
    requires s' == s + v && n' == n + 1.0
    ensures Times(a, s) + Times(b, n) + (Times(a, v) + b) == Times(a, s') + Times(b, n')
  {
  }

  lemma AffineMean(pts: seq<Point>, a: real, b: real)
    requires |pts| > 0
    ensures Mean(Affine(pts, a, b)) == Times(a, Mean(pts)) + b
  {
    AffineSum(pts, a, b);
    MeanStep(a, b, Sum(Values(pts)), |pts| as real);
  }

  lemma MeanStep(a: real, b: real, s: real, n: real)
    requires n > 0.0
    ensures (Times(a, s) + Times(b, n)) / n == Times(a, s / n) + b
  {
    var q := s / n;
    assert q * n == s;
    assert Times(a, s) + Times(b, n) == (a * q + b) * n;
  }

  lemma {:induction false} DeviationsSnoc(pts: seq<Point>, p: Point, c: real)
    ensures Deviations(pts + [p], c) == Deviations(pts, c) + [p.value - c]
  {
    assert (pts + [p])[..|pts|] == pts;
  }

  lemma {:induction false} AffineSnoc(pts: seq<Point>, p: Point, a: real, b: real)
    ensures Affine(pts + [p], a, b) == Affine(pts, a, b) + [Moved(p, a, b)]
  {
    assert (pts + [p])[..|pts|] == pts;
  }

  lemma {:induction false} AffineDeviations(pts: seq<Point>, a: real, b: real, c: real, c': real)
    requires c' == Times(a, c) + b
    ensures Deviations(Affine(pts, a, b), c') == Scaled(a, Deviations(pts, c))
  {
    if |pts| > 0 {
      var q, p := pts[..|pts| - 1], pts[|pts| - 1];
      assert pts == q + [p];
      AffineDeviations(q, a, b, c, c');
      AffineSnoc(q, p, a, b);
      DeviationsSnoc(q, p, c);
      DeviationsSnoc(Affine(q, a, b), Moved(p, a, b), c');
      ScaledSnoc(a, Deviations(q, c), p.value - c);
      DeviationStep(a, b, p.value, c, c');
    }
  }

  lemma DeviationStep(a: real, b: real, v: real, c: real, c': real)
    requires c' == Times(a, c) + b
    ensures (Times(a, v) + b) - c' == Times(a, v - c)
  {
  }

  lemma ScaledSquare(k: real, ds: seq<real>)
    ensures Dot(Scaled(k, ds), Scaled(k, ds)) == Times(Times(k, k), Dot(ds, ds))
  {
    DotScaled(k, ds, Scaled(k, ds));
    DotSymmetric(ds, Scaled(k, ds));
    DotScaled(k, ds, ds);
    assert Times(k, Times(k, Dot(ds, ds))) == Times(Times(k, k), Dot(ds, ds));
  }

  lemma AffineVariance(pts: seq<Point>, a: real, b: real)
    requires |pts| > 0
    ensures Variance(Affine(pts, a, b)) == Times(Times(a, a), Variance(pts)) && Variance(pts) >= 0.0
  {
    var c := Mean(pts);
    AffineMean(pts, a, b);
    AffineDeviations(pts, a, b, c, Mean(Affine(pts, a, b)));
    ScaledSquare(a, Deviations(pts, c));
    DotSelfNonNegative(Deviations(pts, c));
    VarianceStep(Times(a, a), Dot(Deviations(pts, c), Deviations(pts, c)), |pts| as real);
  }

  lemma VarianceStep(k: real, d: real, n: real)
    requires n > 0.0 && d >= 0.0
    ensures Times(k, d) / n == Times(k, d / n) && d / n >= 0.0
  {
    var q := d / n;
    assert q * n == d;
    assert Times(k, d) == Times(k, q) * n;
  }

  /** The deviation scales by |a|. */
  lemma AffineStdDev(sqrt: real -> real, pts: seq<Point>, a: real, b: real)
    requires IsSqrt(sqrt) && |pts| > 0
    ensures StdDev(sqrt, Affine(pts, a, b)) == Times(Abs(a), StdDev(sqrt, pts))
    ensures StdDev(sqrt, pts) >= 0.0
  {
    AffineVariance(pts, a, b);
    ScaledRoot(sqrt, a, Variance(pts), Variance(Affine(pts, a, b)));
  }

  lemma ScaledRoot(sqrt: real -> real, a: real, v: real, v': real)
    requires IsSqrt(sqrt) && v >= 0.0 && v' == Times(Times(a, a), v)
    ensures sqrt(v') == Times(Abs(a), sqrt(v))
  {
    var k, r := Abs(a), sqrt(v);
    assert Times(Times(k, r), Times(k, r)) == Times(Times(a, a), Times(r, r));
    NonNegativeTimes(k, r);
    SqrtUnique(sqrt, v', Times(k, r));
  }

  function Sign(a: real): real {
    if a < 0.0 then -1.0 else 1.0
  }

  lemma RatioStep(a: real, b: real, v: real, m: real, s: real)
    requires a != 0.0 && s > 0.0
    ensures Times(Abs(a), s) > 0.0
    ensures ((Times(a, v) + b) - (Times(a, m) + b)) / Times(Abs(a), s) == Times(Sign(a), (v - m) / s)
  {
    var z, k := (v - m) / s, Abs(a);
    PositiveTimes(k, s);
    assert z * s == v - m;
    assert (a * v + b) - (Times(a, m) + b) == a * (v - m);
    assert a == k * Sign(a);
    assert a * (z * s) == (Sign(a) * z) * (k * s);
    QuotientIs(Times(Sign(a), z), Times(k, s), (a * v + b) - (Times(a, m) + b));
  }

  lemma QuotientIs(z: real, n: real, d: real)
    requires n > 0.0 && z * n == d
    ensures d / n == z
  {
  }

  /** The window of one point: flat stays flat, the mean moves along. */
  lemma AffineWindow(sqrt: real -> real, series: seq<Point>, w: nat, i: nat, a: real, b: real)
    requires IsSqrt(sqrt) && 0 < w <= i < |series| && a != 0.0
    ensures var pts, moved := series[i - w..i], Affine(series, a, b)[i - w..i];
            Mean(moved) == Times(a, Mean(pts)) + b
            && StdDev(sqrt, moved) == Times(Abs(a), StdDev(sqrt, pts))
            && StdDev(sqrt, pts) >= 0.0
            && (StdDev(sqrt, moved) == 0.0 <==> StdDev(sqrt, pts) == 0.0)
  {
    var pts := series[i - w..i];
    AffineSlice(series, a, b, i - w, i);
    AffineMean(pts, a, b);
    AffineStdDev(sqrt, pts, a, b);
    if StdDev(sqrt, pts) != 0.0 {
      PositiveTimes(Abs(a), StdDev(sqrt, pts));
    }
  }

  /** Its z-score takes the sign of a. */
  lemma AffinePoint(sqrt: real -> real, series: seq<Point>, w: nat, i: nat, a: real, b: real)
    requires IsSqrt(sqrt) && 0 < w <= i < |series| && a != 0.0
    requires StdDev(sqrt, series[i - w..i]) != 0.0
    ensures StdDev(sqrt, Affine(series, a, b)[i - w..i]) != 0.0
    ensures ZScore(sqrt, Affine(series, a, b), w, i) == Times(Sign(a), ZScore(sqrt, series, w, i))
  {
    var pts := series[i - w..i];
    AffineWindow(sqrt, series, w, i, a, b);
    AffineAt(series, a, b, i);
    RatioStep(a, b, series[i].value, Mean(pts), StdDev(sqrt, pts));
  }

  ghost predicate Follows(x: Anomaly, y: Anomaly, a: real, b: real) {
    y.point == Moved(x.point, a, b) && y.z == Times(Sign(a), x.z)
  }

  /** The anomaly list of the moved series against that of the original. */
  ghost predicate SameWith(before: seq<Anomaly>, after: seq<Anomaly>, a: real, b: real) {
    |before| == |after| && forall k :: 0 <= k < |before| ==> Follows(before[k], after[k], a, b)
  }

  lemma {:induction false} CollectFollows(f: nat -> seq<Anomaly>, g: nat -> seq<Anomaly>,
                                          lo: nat, n: nat, a: real, b: real)
    requires forall i: nat :: lo <= i < n ==> SameWith(f(i), g(i), a, b)
    ensures SameWith(Collect(f, lo, n), Collect(g, lo, n), a, b)
  {
    if n > lo {
      CollectFollows(f, g, lo, n - 1, a, b);
      assert SameWith(f(n - 1), g(n - 1), a, b);
    }
  }

  lemma AffineAnomalies(sqrt: real -> real, series: seq<Point>, w: nat, t: real, a: real, b: real)
    requires IsSqrt(sqrt) && 0 < w && a != 0.0
    ensures SameWith(Collect(Finder(sqrt, series, w, t), w, |series|),
                     Collect(Finder(sqrt, Affine(series, a, b), w, t), w, |series|), a, b)
  {
    var f, g := Finder(sqrt, series, w, t), Finder(sqrt, Affine(series, a, b), w, t);
    forall i: nat | w <= i < |series| ensures SameWith(f(i), g(i), a, b) {
      AffineFound(sqrt, series, w, t, i, a, b);
    }
    CollectFollows(f, g, w, |series|, a, b);
  }

  lemma AffineFound(sqrt: real -> real, series: seq<Point>, w: nat, t: real, i: nat, a: real, b: real)
    requires IsSqrt(sqrt) && 0 < w <= i < |series| && a != 0.0
    ensures SameWith(Found(sqrt, series, w, t, i), Found(sqrt, Affine(series, a, b), w, t, i), a, b)
  {
    AffineWindow(sqrt, series, w, i, a, b);
    if StdDev(sqrt, series[i - w..i]) != 0.0 {
      AffinePoint(sqrt, series, w, i, a, b);
      AffineAt(series, a, b, i);
      SignKeepsSize(a, ZScore(sqrt, series, w, i));
    }
  }

  /** Point by point: what is flagged stays flagged, and nothing else is. */
  lemma AffineFlags(sqrt: real -> real, series: seq<Point>, w: nat, t: real, a: real, b: real)
    requires IsSqrt(sqrt) && 0 < w && a != 0.0
    ensures |Affine(series, a, b)| == |series|
    ensures forall i: nat :: w <= i < |series| ==>
              (Flagged(sqrt, series, w, t, i) <==> Flagged(sqrt, Affine(series, a, b), w, t, i))
  {
    forall i: nat | w <= i < |series|
      ensures Flagged(sqrt, series, w, t, i) <==> Flagged(sqrt, Affine(series, a, b), w, t, i)
    {
      hide Flagged;
      AffineFound(sqrt, series, w, t, i, a, b);
      assert |Found(sqrt, series, w, t, i)| == |Found(sqrt, Affine(series, a, b), w, t, i)|;
    }
  }

  lemma SignKeepsSize(a: real, z: real)
    ensures Abs(Times(Sign(a), z)) == Abs(z)
  {
  }

  /** Main result, any a != 0: the same indices are flagged, in the same order,
      each z-score keeping its size and taking the sign of a; for a > 0 nothing
      changes but the values. */
  lemma AffineInvariance(sqrt: real -> real, series: seq<Point>, minPoints: int, threshold: real, a: real, b: real)
    requires IsSqrt(sqrt) && a != 0.0
    ensures var w, t := WindowSize(minPoints), Threshold(threshold);
            |Affine(series, a, b)| == |series|
            && forall i: nat :: w <= i < |series| ==>
                 (Flagged(sqrt, series, w, t, i) <==> Flagged(sqrt, Affine(series, a, b), w, t, i))
    ensures var before := Anomalies(sqrt, series, minPoints, threshold);
            var after := Anomalies(sqrt, Affine(series, a, b), minPoints, threshold);
            SameWith(before, after, a, b)
            && (a > 0.0 ==> forall k :: 0 <= k < |before| ==>
                  after[k].z == before[k].z && after[k].reason == before[k].reason)
  {
    AffineFlags(sqrt, series, WindowSize(minPoints), Threshold(threshold), a, b);
    AffineAnomalies(sqrt, series, WindowSize(minPoints), Threshold(threshold), a, b);
    ReasonsFollow(sqrt, series, minPoints, threshold);
    ReasonsFollow(sqrt, Affine(series, a, b), minPoints, threshold);
    var before := Anomalies(sqrt, series, minPoints, threshold);
    var after := Anomalies(sqrt, Affine(series, a, b), minPoints, threshold);
    if a > 0.0 {
      forall k | 0 <= k < |before| ensures after[k].z == before[k].z && after[k].reason == before[k].reason {
        assert Follows(before[k], after[k], a, b) && Proper(before[k], Threshold(threshold));
        assert Proper(after[k], Threshold(threshold));
      }
    }
  }

  /** An anomaly's reason is read off its z-score, which exceeds the threshold. */
  ghost predicate Proper(x: Anomaly, t: real) {
    x.reason == Reason(x.z) && Abs(x.z) > t
  }

  lemma {:induction false} CollectProper(f: nat -> seq<Anomaly>, lo: nat, n: nat, t: real)
    requires forall i: nat, x :: lo <= i < n && x in f(i) ==> Proper(x, t)
    ensures forall x :: x in Collect(f, lo, n) ==> Proper(x, t)
  {
    if n > lo {
      CollectProper(f, lo, n - 1, t);
    }
  }

  lemma ReasonsFollow(sqrt: real -> real, series: seq<Point>, minPoints: int, threshold: real)
    ensures var list := Anomalies(sqrt, series, minPoints, threshold);
            forall k :: 0 <= k < |list| ==> Proper(list[k], Threshold(threshold))
  {
    var w, t := WindowSize(minPoints), Threshold(threshold);
    CollectProper(Finder(sqrt, series, w, t), w, |series|, t);
    var list := Anomalies(sqrt, series, minPoints, threshold);
    assert forall k :: 0 <= k < |list| ==> list[k] in list;
  }

  function Opposite(reason: string): string {
    if reason == "spike" then "drop" else "spike"
  }

  /** Reversing the sign of the series exchanges spike and drop. */
  ghost predicate Exchanged(sqrt: real -> real, series: seq<Point>, minPoints: int, threshold: real, a: real, b: real) {
    var before := Anomalies(sqrt, series, minPoints, threshold);
    var after := Anomalies(sqrt, Affine(series, a, b), minPoints, threshold);
    |before| == |after| && forall k :: 0 <= k < |before| ==> after[k].reason == Opposite(before[k].reason)
  }

  lemma ExchangedWhenNonNegative(sqrt: real -> real, series: seq<Point>, minPoints: int, threshold: real,
                                 a: real, b: real)
    requires IsSqrt(sqrt) && a < 0.0 && threshold >= 0.0
    ensures Exchanged(sqrt, series, minPoints, threshold, a, b)
  {
    AffineInvariance(sqrt, series, minPoints, threshold, a, b);
    ReasonsFollow(sqrt, series, minPoints, threshold);
    ReasonsFollow(sqrt, Affine(series, a, b), minPoints, threshold);
    var before := Anomalies(sqrt, series, minPoints, threshold);
    var after := Anomalies(sqrt, Affine(series, a, b), minPoints, threshold);
    forall k | 0 <= k < |before| ensures after[k].reason == Opposite(before[k].reason) {
      assert Follows(before[k], after[k], a, b) && Proper(before[k], Threshold(threshold));
      assert Proper(after[k], Threshold(threshold));
    }
  }

  /** 1, -1, 0, 0, ... : mean zero, not flat, and the last point on the mean. */
  ghost function Centred(n: nat): (s: seq<Point>)
    ensures |s| == n
  {
    seq(n, i requires 0 <= i < n => Point(i, if i == 0 then 1.0 else if i == 1 then -1.0 else 0.0))
  }

  lemma CentredPair()
    ensures Sum(Values(Centred(2))) == 0.0
    ensures Dot(Deviations(Centred(2), 0.0), Deviations(Centred(2), 0.0)) == 2.0
  {
    var s := Centred(2);
    assert s[..0] == [] && s[..2] == s;
    SnocSums(s, 0, 0.0);
    SnocSums(s, 1, 0.0);
  }

  lemma {:induction false} CentredSums(n: nat)
    requires n >= 2
    ensures Sum(Values(Centred(n))) == 0.0
    ensures Dot(Deviations(Centred(n), 0.0), Deviations(Centred(n), 0.0)) == 2.0
  {
    if n == 2 {
      CentredPair();
    } else {
      CentredSums(n - 1);
      var s := Centred(n);
      assert s[..n - 1] == Centred(n - 1) && s[..n - 1 + 1] == s;
      SnocSums(s, n - 1, 0.0);
    }
  }

  lemma CentredPointFlagged(sqrt: real -> real, minPoints: int, t: real)
    requires IsSqrt(sqrt) && t < 0.0
    ensures var w := WindowSize(minPoints);
            Anomalies(sqrt, Centred(w + 1), minPoints, t) == [Anomaly(Centred(w + 1)[w], 0.0, "spike")]
  {
    var w := WindowSize(minPoints);
    var s := Centred(w + 1);
    assert s[0..w] == Centred(w);
    CentredSums(w);
    assert Mean(Centred(w)) == 0.0;
    QuotientPositive(2.0, w as real);
    SqrtPositive(sqrt, Variance(Centred(w)));
    assert ZScore(sqrt, s, w, w) == 0.0;
    var f := Finder(sqrt, s, w, Threshold(t));
    assert Collect(f, w, w) == [];
    assert f(w) == [Anomaly(s[w], 0.0, "spike")];
  }

  lemma QuotientPositive(d: real, n: real)
    requires d > 0.0 && n > 0.0
    ensures d / n > 0.0
  {
  }

  lemma NotExchangedWhenNegative(sqrt: real -> real, minPoints: int, threshold: real)
    requires IsSqrt(sqrt) && threshold < 0.0
    ensures !Exchanged(sqrt, Centred(WindowSize(minPoints) + 1), minPoints, threshold, -1.0, 0.0)
  {
    var s := Centred(WindowSize(minPoints) + 1);
    CentredPointFlagged(sqrt, minPoints, threshold);
    AffineInvariance(sqrt, s, minPoints, threshold, -1.0, 0.0);
    ReasonsFollow(sqrt, Affine(s, -1.0, 0.0), minPoints, threshold);
    var before := Anomalies(sqrt, s, minPoints, threshold);
    var after := Anomalies(sqrt, Affine(s, -1.0, 0.0), minPoints, threshold);
    assert Follows(before[0], after[0], -1.0, 0.0) && Proper(after[0], Threshold(threshold));
    assert after[0].reason == "spike" && Opposite(before[0].reason) == "drop";
  }

  /** Main result, a < 0: spike and drop are exchanged on every series exactly
      when the threshold is not negative. A negative threshold also flags points
      on the mean, which are called spikes either way. */
  lemma ExchangeCondition(sqrt: real -> real, minPoints: int, threshold: real)
    requires IsSqrt(sqrt)
    ensures (forall series, a, b :: a < 0.0 ==> Exchanged(sqrt, series, minPoints, threshold, a, b))
       <==> threshold >= 0.0
  {
    if threshold >= 0.0 {
      forall series, a, b | a < 0.0 ensures Exchanged(sqrt, series, minPoints, threshold, a, b) {
        ExchangedWhenNonNegative(sqrt, series, minPoints, threshold, a, b);
      }
    } else {
      NotExchangedWhenNegative(sqrt, minPoints, threshold);
    }
  }

  // ---- what is flagged, from the series -----------------------------------------------------

  /** The sum of the values from lo up to hi, and of their squared distances from c. */
  ghost function ValueSum(series: seq<Point>, lo: nat, hi: nat): real
    requires lo <= hi <= |series|
    decreases hi
  {
    if lo == hi then 0.0 else ValueSum(series, lo, hi - 1) + series[hi - 1].value
  }

  ghost function SquareSum(series: seq<Point>, lo: nat, hi: nat, c: real): real
    requires lo <= hi <= |series|
    decreases hi
  {
    if lo == hi then 0.0
    else SquareSum(series, lo, hi - 1, c) + Times(series[hi - 1].value - c, series[hi - 1].value - c)
  }

  /** mean and std are those of the w points before i, i not among them. */
  ghost predicate WindowStats(series: seq<Point>, w: nat, i: nat, mean: real, std: real)
    requires 0 < w <= i < |series|
  {
    Times(w as real, mean) == ValueSum(series, i - w, i)
    && std >= 0.0 && Times(w as real, Times(std, std)) == SquareSum(series, i - w, i, mean)
  }

  /** Point i is z deviations from the mean of the w points before it, beyond t. */
  ghost predicate Outlies(series: seq<Point>, w: nat, t: real, i: nat, z: real)
    requires 0 < w <= i < |series|
  {
    exists mean, std ::
      WindowStats(series, w, i, mean, std) && std > 0.0 && Times(z, std) == series[i].value - mean && Abs(z) > t
  }

  lemma SnocProduct(pts: seq<Point>, i: nat, c: real)
    requires i < |pts|
    ensures Sum(Values(pts[..i + 1])) == Sum(Values(pts[..i])) + pts[i].value
    ensures Dot(Deviations(pts[..i + 1], c), Deviations(pts[..i + 1], c))
         == Dot(Deviations(pts[..i], c), Deviations(pts[..i], c)) + Times(pts[i].value - c, pts[i].value - c)
  {
    SnocSums(pts, i, c);
  }

  lemma {:induction false} SumOfSlice(series: seq<Point>, lo: nat, hi: nat, c: real)
    requires lo <= hi <= |series|
    ensures Sum(Values(series[lo..hi])) == ValueSum(series, lo, hi)
    ensures Dot(Deviations(series[lo..hi], c), Deviations(series[lo..hi], c)) == SquareSum(series, lo, hi, c)
    decreases hi
  {
    hide Sum, Dot, Values, Deviations, Times;
    if lo == hi {
      EmptySums(c);
      assert series[lo..hi] == [];
    } else {
      var pts, n := series[lo..hi], hi - 1 - lo;
      SumOfSlice(series, lo, hi - 1, c);
      SnocProduct(pts, n, c);
      assert pts[..n] == series[lo..hi - 1] && pts[..n + 1] == pts && pts[n] == series[hi - 1];
    }
  }

  lemma EmptySums(c: real)
    ensures Sum(Values([])) == 0.0 && Dot(Deviations([], c), Deviations([], c)) == 0.0
  {
  }

  lemma IsQuotient(a: real, n: real, q: real)
    requires n > 0.0
    ensures q == a / n <==> Times(n, q) == a
  {
  }

  lemma QuotientNotNegative(d: real, n: real)
    requires d >= 0.0 && n > 0.0
    ensures d / n >= 0.0
  {
  }

  lemma RootIs(sqrt: real -> real, std: real, v: real)
    requires IsSqrt(sqrt) && std >= 0.0 && v >= 0.0
    ensures std == sqrt(v) <==> Times(std, std) == v
  {
    if Times(std, std) == v {
      SameSquare(std, sqrt(v));
    }
  }

  lemma SameSquare(a: real, b: real)
    requires a >= 0.0 && b >= 0.0 && Times(a, a) == Times(b, b)
    ensures a == b
  {
    assert Times(a - b, a + b) == Times(a, a) - Times(b, b);
    TimesZero(a - b, a + b);
  }

  /** The statistics are those of the window, and no others are. */
  lemma StatsAreWindowStats(sqrt: real -> real, series: seq<Point>, w: nat, i: nat, mean: real, std: real)
    requires IsSqrt(sqrt) && 0 < w <= i < |series|
    ensures WindowStats(series, w, i, mean, std)
       <==> mean == Mean(series[i - w..i]) && std == StdDev(sqrt, series[i - w..i])
  {
    var pts, n := series[i - w..i], w as real;
    SumOfSlice(series, i - w, i, mean);
    IsQuotient(Sum(Values(pts)), n, mean);
    if mean == Mean(pts) {
      DotSelfNonNegative(Deviations(pts, mean));
      IsQuotient(Dot(Deviations(pts, mean), Deviations(pts, mean)), n, Variance(pts));
      QuotientNotNegative(Dot(Deviations(pts, mean), Deviations(pts, mean)), n);
      if std >= 0.0 {
        RootIs(sqrt, std, Variance(pts));
        IsQuotient(Dot(Deviations(pts, mean), Deviations(pts, mean)), n, Times(std, std));
      }
    }
  }

  lemma FlaggedOutlies(sqrt: real -> real, series: seq<Point>, w: nat, t: real, i: nat, z: real)
    requires IsSqrt(sqrt) && 0 < w <= i < |series|
    ensures Outlies(series, w, t, i, z)
       <==> Flagged(sqrt, series, w, t, i) && z == ZScore(sqrt, series, w, i)
  {
    var mean, std := Mean(series[i - w..i]), StdDev(sqrt, series[i - w..i]);
    StatsAreWindowStats(sqrt, series, w, i, mean, std);
    if Flagged(sqrt, series, w, t, i) && z == ZScore(sqrt, series, w, i) {
      IsQuotient(series[i].value - mean, std, z);
      assert WindowStats(series, w, i, mean, std);
    }
    if m, s :| WindowStats(series, w, i, m, s) && s > 0.0 && Times(z, s) == series[i].value - m && Abs(z) > t {
      StatsAreWindowStats(sqrt, series, w, i, m, s);
      IsQuotient(series[i].value - mean, std, z);
    }
  }

  ghost predicate Ascending(s: seq<nat>) {
    forall j, k :: 0 <= j < k < |s| ==> s[j] < s[k]
  }

  /** Anomaly k is about point at[k]. */
  ghost predicate IsAbout(series: seq<Point>, w: nat, t: real, out: seq<Anomaly>, at: seq<nat>, n: nat)
    requires 0 < w <= n <= |series|
  {
    |at| == |out| && Ascending(at)
    && (forall k :: 0 <= k < |at| ==>
          w <= at[k] < n && out[k].point == series[at[k]] && Outlies(series, w, t, at[k], out[k].z)
          && out[k].reason == if out[k].z < 0.0 then "drop" else "spike")
    && forall i: nat, z :: w <= i < n && Outlies(series, w, t, i, z) ==> i in at
  }

  lemma {:induction false} CollectedIsAbout(sqrt: real -> real, series: seq<Point>, w: nat, t: real, n: nat)
      returns (at: seq<nat>)
    requires IsSqrt(sqrt) && 0 < w <= n <= |series|
    ensures IsAbout(series, w, t, Collect(Finder(sqrt, series, w, t), w, n), at, n)
    decreases n
  {
    hide IsAbout, Found;
    if n == w {
      at := [];
      NothingYet(series, w, t);
    } else {
      var before := CollectedIsAbout(sqrt, series, w, t, n - 1);
      var out := Collect(Finder(sqrt, series, w, t), w, n - 1);
      assert Collect(Finder(sqrt, series, w, t), w, n) == out + Found(sqrt, series, w, t, n - 1);
      at := OneMoreIsAbout(sqrt, series, w, t, out, before, n - 1);
    }
  }

  lemma NothingYet(series: seq<Point>, w: nat, t: real)
    requires 0 < w <= |series|
    ensures IsAbout(series, w, t, [], [], w)
  {
  }

  lemma OneMoreIsAbout(sqrt: real -> real, series: seq<Point>, w: nat, t: real, out: seq<Anomaly>,
                       before: seq<nat>, last: nat) returns (at: seq<nat>)
    requires IsSqrt(sqrt) && 0 < w <= last < |series| && IsAbout(series, w, t, out, before, last)
    ensures IsAbout(series, w, t, out + Found(sqrt, series, w, t, last), at, last + 1)
  {
    hide Outlies, ZScore, StdDev, Flagged;
    if Flagged(sqrt, series, w, t, last) {
      at := before + [last];
      FoundOutlies(sqrt, series, w, t, last);
      forall i: nat, z | w <= i < last + 1 && Outlies(series, w, t, i, z) ensures i in at {
        assert i < last ==> i in before;
      }
    } else {
      at := before;
      assert out + [] == out;
      NotFlaggedNotOut(sqrt, series, w, t, last);
    }
  }

  lemma FoundOutlies(sqrt: real -> real, series: seq<Point>, w: nat, t: real, i: nat)
    requires IsSqrt(sqrt) && 0 < w <= i < |series| && Flagged(sqrt, series, w, t, i)
    ensures var found := Found(sqrt, series, w, t, i);
            |found| == 1 && found[0].point == series[i] && Outlies(series, w, t, i, found[0].z)
            && found[0].reason == if found[0].z < 0.0 then "drop" else "spike"
  {
    hide Outlies;
    FlaggedOutlies(sqrt, series, w, t, i, ZScore(sqrt, series, w, i));
  }

  lemma NotFlaggedNotOut(sqrt: real -> real, series: seq<Point>, w: nat, t: real, i: nat)
    requires IsSqrt(sqrt) && 0 < w <= i < |series| && !Flagged(sqrt, series, w, t, i)
    ensures Found(sqrt, series, w, t, i) == [] && forall z :: !Outlies(series, w, t, i, z)
  {
    hide Outlies, Flagged;
    forall z ensures !Outlies(series, w, t, i, z) {
      FlaggedOutlies(sqrt, series, w, t, i, z);
    }
  }

  /** Main result: what is detected, from the series alone. The anomalies are, in
      order of time, the points further than t deviations from the mean of the w
      points just before them, w at least five and otherwise 14, t 3 when it is
      0; below the mean a drop, else a spike. A window without spread flags none. */
  lemma DetectsOutliers(sqrt: real -> real, series: seq<Point>, minPoints: int, threshold: real)
      returns (at: seq<nat>)
    requires IsSqrt(sqrt)
    ensures var w: nat := if minPoints < 5 then 14 else minPoints;
            var out := Anomalies(sqrt, series, minPoints, threshold);
            if |series| < w then out == []
            else IsAbout(series, w, if threshold == 0.0 then 3.0 else threshold, out, at, |series|)
  {
    var w := WindowSize(minPoints);
    if |series| < w {
      at := [];
    } else {
      at := CollectedIsAbout(sqrt, series, w, Threshold(threshold), |series|);
    }
  }
}

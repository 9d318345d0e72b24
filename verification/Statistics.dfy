/** Sums over real series: means, variances, extremes and the line of least squares. */
module Statistics {
  function Sum(v: seq<real>): real {
    if v == [] then 0.0 else Sum(v[..|v| - 1]) + v[|v| - 1]
  }

  function Times(a: real, b: real): real {
    a * b
  }

  /** sum(x * y) over two series. */
  function Dot(x: seq<real>, y: seq<real>): real
    requires |x| == |y|
  {
    if x == [] then 0.0 else Dot(x[..|x| - 1], y[..|y| - 1]) + Times(x[|x| - 1], y[|y| - 1])
  }

  /** sum((x - p) * (y - q)) over two series. */
  function CoDeviation(x: seq<real>, p: real, y: seq<real>, q: real): real
    requires |x| == |y|
  {
    if x == [] then 0.0
    else CoDeviation(x[..|x| - 1], p, y[..|y| - 1], q) + Times(x[|x| - 1] - p, y[|y| - 1] - q)
  }

  function Mean(v: seq<real>): real
    requires v != []
  {
    Sum(v) / |v| as real
  }

  function Min(v: seq<real>): real
    requires v != []
  {
    if |v| == 1 then v[0] else
      var m, last := Min(v[..|v| - 1]), v[|v| - 1];
      if last < m then last else m
  }

  function Max(v: seq<real>): real
    requires v != []
  {
    if |v| == 1 then v[0] else
      var m, last := Max(v[..|v| - 1]), v[|v| - 1];
      if last > m then last else m
  }

  // ---- expansions ---------------------------------------------------------------------

  /** A sum of products (x - p) * (y - q), written with the plain sums. */
  function CoExpanded(n: real, p: real, q: real, sx: real, sy: real, xy: real): real {
    xy - p * sy - q * sx + n * (p * q)
  }

  lemma CoExpandedStep(n: real, p: real, q: real, sx: real, sy: real, xy: real, x: real, y: real)
    ensures CoExpanded(n, p, q, sx, sy, xy) + Times(x - p, y - q)
            == CoExpanded(n + 1.0, p, q, sx + x, sy + y, xy + Times(x, y))
  {}

  lemma {:induction false} CoDeviationExpands(x: seq<real>, p: real, y: seq<real>, q: real)
    requires |x| == |y|
    ensures CoDeviation(x, p, y, q) == CoExpanded(|x| as real, p, q, Sum(x), Sum(y), Dot(x, y))
  {
    if x != [] {
      hide Times, CoExpanded;
      var n := |x| - 1;
      CoDeviationExpands(x[..n], p, y[..n], q);
      CoExpandedStep(n as real, p, q, Sum(x[..n]), Sum(y[..n]), Dot(x[..n], y[..n]), x[n], y[n]);
    }
  }

  lemma MeanTimesCount(v: seq<real>)
    requires v != []
    ensures Times(|v| as real, Mean(v)) == Sum(v)
  {}

  lemma CoExpandedAtMeans(n: real, p: real, q: real, xy: real)
    ensures CoExpanded(n, p, q, Times(n, p), Times(n, q), xy) == xy - Times(n, Times(p, q))
  {}

  /** About the means: n times the covariance is sum(xy) - n * mean(x) * mean(y). */
  lemma CoDeviationAboutMeans(x: seq<real>, y: seq<real>)
    requires |x| == |y| > 0
    ensures CoDeviation(x, Mean(x), y, Mean(y)) == Dot(x, y) - Times(|x| as real, Times(Mean(x), Mean(y)))
  {
    hide *;
    CoDeviationExpands(x, Mean(x), y, Mean(y));
    MeanTimesCount(x);
    MeanTimesCount(y);
    CoExpandedAtMeans(|x| as real, Mean(x), Mean(y), Dot(x, y));
  }

  // ---- variance -------------------------------------------------------------------------

  /** The two-pass form: the mean of the squared distances to the mean. */
  function Variance(v: seq<real>): real
    requires v != []
  {
    CoDeviation(v, Mean(v), v, Mean(v)) / |v| as real
  }

  /** The one-pass form: the mean of the squares minus the square of the mean. */
  function OnePassVariance(v: seq<real>): real
    requires v != []
  {
    Dot(v, v) / |v| as real - Mean(v) * Mean(v)
  }

  lemma PositiveSquare(d: real)
    requires d > 0.0
    ensures Times(d, d) > 0.0
  {
    Positive(d, d);
    assert (d * d) / d == d;
    assert 0.0 / d == 0.0;
  }

  lemma NegatedSquare(d: real)
    ensures Times(-d, -d) == Times(d, d)
  {}

  lemma SquareSign(d: real)
    ensures Times(d, d) >= 0.0 && (d != 0.0 ==> Times(d, d) > 0.0)
  {
    NegatedSquare(d);
    if d > 0.0 {
      PositiveSquare(d);
    } else if d < 0.0 {
      PositiveSquare(-d);
    }
  }

  lemma {:induction false} SquaresAreNonNegative(v: seq<real>, m: real)
    ensures CoDeviation(v, m, v, m) >= 0.0
    ensures forall i :: 0 <= i < |v| && v[i] != m ==> CoDeviation(v, m, v, m) > 0.0
  {
    if v != [] {
      hide Times;
      var n := |v| - 1;
      SquaresAreNonNegative(v[..n], m);
      SquareSign(v[n] - m);
      assert CoDeviation(v, m, v, m) == CoDeviation(v[..n], m, v[..n], m) + Times(v[n] - m, v[n] - m);
      forall i | 0 <= i < |v| && v[i] != m
        ensures CoDeviation(v, m, v, m) > 0.0
      {
        if i < n {
          assert v[..n][i] == v[i];
        }
      }
    }
  }

  /** Both forms agree, and neither is negative. */
  lemma VarianceFormsAgree(v: seq<real>)
    requires v != []
    ensures Variance(v) == OnePassVariance(v) >= 0.0
    ensures |v| == 1 ==> Variance(v) == 0.0
  {
    hide CoDeviation, Dot, Sum, Mean;
    CoDeviationAboutMeans(v, v);
    SquaresAreNonNegative(v, Mean(v));
    SplitQuotient(Dot(v, v), |v| as real, Times(Mean(v), Mean(v)));
    if |v| == 1 {
      SingleValue(v);
    }
  }

  lemma SplitQuotient(a: real, n: real, b: real)
    requires n > 0.0
    ensures (a - Times(n, b)) / n == a / n - b
  {
    assert (n * b) / n == b;
  }

  lemma SingleValue(v: seq<real>)
    requires |v| == 1
    ensures Mean(v) == v[0] && CoDeviation(v, Mean(v), v, Mean(v)) == 0.0
  {
    var none := v[..0];
    assert none == [];
    assert Sum(v) == Sum(none) + v[0];
    assert CoDeviation(v, v[0], v, v[0]) == CoDeviation(none, v[0], none, v[0]) + Times(v[0] - v[0], v[0] - v[0]);
  }

  // ---- extremes ---------------------------------------------------------------------------

  lemma {:induction false} MinIsLeast(v: seq<real>)
    requires v != []
    ensures Min(v) in v && forall x :: x in v ==> Min(v) <= x
  {
    if |v| > 1 {
      MinIsLeast(v[..|v| - 1]);
      assert v == v[..|v| - 1] + [v[|v| - 1]];
    }
  }

  lemma {:induction false} MaxIsGreatest(v: seq<real>)
    requires v != []
    ensures Max(v) in v && forall x :: x in v ==> x <= Max(v)
  {
    if |v| > 1 {
      MaxIsGreatest(v[..|v| - 1]);
      assert v == v[..|v| - 1] + [v[|v| - 1]];
    }
  }

  lemma {:induction false} SumWithin(v: seq<real>, low: real, high: real)
    requires forall x :: x in v ==> low <= x <= high
    ensures (|v| as real) * low <= Sum(v) <= (|v| as real) * high
  {
    if v != [] {
      var n := |v| - 1;
      assert v[n] in v && forall x :: x in v[..n] ==> x in v;
      SumWithin(v[..n], low, high);
      assert (n as real + 1.0) * low == (n as real) * low + low;
      assert (n as real + 1.0) * high == (n as real) * high + high;
    }
  }

  lemma MeanBetweenExtremes(v: seq<real>)
    requires v != []
    ensures Min(v) <= Mean(v) <= Max(v)
  {
    MinIsLeast(v);
    MaxIsGreatest(v);
    SumWithin(v, Min(v), Max(v));
    hide Sum, Min, Max;
    QuotientWithin(|v| as real, Min(v), Sum(v), Max(v));
  }

  lemma QuotientWithin(n: real, low: real, sum: real, high: real)
    requires n > 0.0 && n * low <= sum <= n * high
    ensures low <= sum / n <= high
  {
    assert (n * low) / n == low && (n * high) / n == high;
  }

  // ---- concatenation ------------------------------------------------------------------------

  lemma {:induction false} SumConcat(a: seq<real>, b: seq<real>)
    ensures Sum(a + b) == Sum(a) + Sum(b)
  {
    if b == [] {
      assert a + b == a;
    } else {
      SumConcat(a, b[..|b| - 1]);
      assert (a + b)[..|a + b| - 1] == a + b[..|b| - 1];
    }
  }

  lemma ExtremesConcat(a: seq<real>, b: seq<real>)
    requires a != [] && b != []
    ensures Min(a + b) == if Min(b) < Min(a) then Min(b) else Min(a)
    ensures Max(a + b) == if Max(b) > Max(a) then Max(b) else Max(a)
  {
    hide Min, Max;
    MinIsLeast(a);
    MinIsLeast(b);
    MinIsLeast(a + b);
    MaxIsGreatest(a);
    MaxIsGreatest(b);
    MaxIsGreatest(a + b);
    assert Min(a) in a + b && Min(b) in a + b && Max(a) in a + b && Max(b) in a + b;
  }

  // ---- least squares ---------------------------------------------------------------------------

  /** The slope the regression reports: sum((x-mx)(y-my)) / sum((x-mx)^2). */
  function Slope(x: seq<real>, y: seq<real>): real
    requires |x| == |y| > 0
  {
    var den := CoDeviation(x, Mean(x), x, Mean(x));
    if den != 0.0 then CoDeviation(x, Mean(x), y, Mean(y)) / den else 0.0
  }

  function Intercept(x: seq<real>, y: seq<real>): real
    requires |x| == |y| > 0
  {
    Mean(y) - Times(Slope(x, y), Mean(x))
  }

  /** The squared error of the line y = a + b * x. */
  function SquaredError(x: seq<real>, y: seq<real>, a: real, b: real): real
    requires |x| == |y|
  {
    if x == [] then 0.0 else
      var n := |x| - 1;
      SquaredError(x[..n], y[..n], a, b) + Residual(x[n], y[n], a, b)
  }

  /** The squared distance of one point to the line. */
  function Residual(x: real, y: real, a: real, b: real): real {
    (y - a - b * x) * (y - a - b * x)
  }

  function ErrorExpanded(n: real, a: real, b: real, sx: real, sy: real, xx: real, xy: real, yy: real): real {
    yy - 2.0 * (a * sy) - 2.0 * (b * xy) + n * (a * a) + 2.0 * (a * b * sx) + b * b * xx
  }

  lemma ErrorStep(n: real, a: real, b: real, sx: real, sy: real, xx: real, xy: real, yy: real, x: real, y: real)
    ensures ErrorExpanded(n, a, b, sx, sy, xx, xy, yy) + Residual(x, y, a, b)
            == ErrorExpanded(n + 1.0, a, b, sx + x, sy + y, xx + Times(x, x), xy + Times(x, y), yy + Times(y, y))
  {}

  lemma {:induction false} SquaredErrorExpands(x: seq<real>, y: seq<real>, a: real, b: real)
    requires |x| == |y|
    ensures SquaredError(x, y, a, b)
            == ErrorExpanded(|x| as real, a, b, Sum(x), Sum(y), Dot(x, x), Dot(x, y), Dot(y, y))
  {
    if x != [] {
      hide Times, Residual, ErrorExpanded;
      var n := |x| - 1;
      SquaredErrorExpands(x[..n], y[..n], a, b);
      ErrorStep(n as real, a, b, Sum(x[..n]), Sum(y[..n]),
                Dot(x[..n], x[..n]), Dot(x[..n], y[..n]), Dot(y[..n], y[..n]), x[n], y[n]);
    }
  }

  /** The error of slope b when the line goes through the mean point. */
  function Unexplained(yy: real, xy: real, xx: real, b: real): real {
    yy - 2.0 * (b * xy) + b * b * xx
  }

  /** Completing the squares: the error of any line is what slope b leaves unexplained,
      plus n times the squared distance of the mean point. */
  lemma ErrorAboutMeans(x: seq<real>, y: seq<real>, a: real, b: real)
    requires |x| == |y| > 0
    ensures var n, p, q := |x| as real, Mean(x), Mean(y);
            SquaredError(x, y, a, b)
            == Unexplained(CoDeviation(y, q, y, q), CoDeviation(x, p, y, q), CoDeviation(x, p, x, p), b)
               + Times(n, Residual(p, q, a, b))
  {
    hide *;
    SquaredErrorExpands(x, y, a, b);
    CoDeviationAboutMeans(x, x);
    CoDeviationAboutMeans(x, y);
    CoDeviationAboutMeans(y, y);
    MeanTimesCount(x);
    MeanTimesCount(y);
    MeanPoint(|x| as real, Mean(x), Mean(y), a, b, Dot(x, x), Dot(x, y), Dot(y, y));
  }

  lemma MeanPoint(n: real, p: real, q: real, a: real, b: real, xx: real, xy: real, yy: real)
    ensures ErrorExpanded(n, a, b, Times(n, p), Times(n, q), xx, xy, yy)
            == Unexplained(yy - Times(n, Times(q, q)), xy - Times(n, Times(p, q)), xx - Times(n, Times(p, p)), b)
               + Times(n, Residual(p, q, a, b))
  {}

  /** A time axis with two different values has strictly positive spread. */
  lemma SpreadIsPositive(x: seq<real>)
    requires |x| > 0 && x[|x| - 1] != x[0]
    ensures CoDeviation(x, Mean(x), x, Mean(x)) > 0.0
  {
    hide CoDeviation, Mean;
    SquaresAreNonNegative(x, Mean(x));
    assert x[0] != Mean(x) || x[|x| - 1] != Mean(x);
  }

  /** With spread `xx` and slope s = xy / xx, no slope leaves less unexplained. */
  lemma BestSlope(yy: real, xx: real, s: real, b: real)
    requires xx > 0.0
    ensures Unexplained(yy, Times(s, xx), xx, s) <= Unexplained(yy, Times(s, xx), xx, b)
  {
    SquareSign(b - s);
    Positive(xx, Times(b - s, b - s));
    SlopeGap(yy, xx, s, b);
  }

  lemma Positive(a: real, b: real)
    requires a >= 0.0 && b >= 0.0
    ensures Times(a, b) >= 0.0
  {}

  lemma SlopeGap(yy: real, xx: real, s: real, b: real)
    ensures Unexplained(yy, s * xx, xx, b) - Unexplained(yy, s * xx, xx, s) == xx * Times(b - s, b - s)
  {}

  /** Whenever the span is positive no line fits better than the reported one. */
  lemma LeastSquares(x: seq<real>, y: seq<real>, a: real, b: real)
    requires |x| == |y| > 0 && x[|x| - 1] > x[0]
    ensures SquaredError(x, y, Intercept(x, y), Slope(x, y)) <= SquaredError(x, y, a, b)
  {
    hide CoDeviation, Mean;
    var n, p, q, s := |x| as real, Mean(x), Mean(y), Slope(x, y);
    SpreadIsPositive(x);
    var xx, xy := CoDeviation(x, p, x, p), CoDeviation(x, p, y, q);
    assert xy == Times(s, xx);
    assert Intercept(x, y) == q - Times(s, p);
    hide *;
    ErrorAboutMeans(x, y, a, b);
    ErrorAboutMeans(x, y, Intercept(x, y), s);
    ResidualSign(n, p, q, a, b, s);
    BestSlope(CoDeviation(y, q, y, q), xx, s, b);
  }

  lemma ResidualSign(n: real, p: real, q: real, a: real, b: real, s: real)
    requires n > 0.0
    ensures Times(n, Residual(p, q, a, b)) >= 0.0
    ensures Times(n, Residual(p, q, q - Times(s, p), s)) == 0.0
  {
    SquareSign(q - a - b * p);
    Positive(n, Residual(p, q, a, b));
    assert q - (q - s * p) - s * p == 0.0;
  }

  /** c * ones + m * x: the line at x, or the sum of it over `ones` points. */
  function OnLine(m: real, c: real, x: real, ones: real): real {
    c * ones + m * x
  }

  /** On points that lie on a line the slope is that line's. */
  lemma ExactOnALine(x: seq<real>, y: seq<real>, m: real, c: real)
    requires |x| == |y| > 0 && x[|x| - 1] > x[0]
    requires forall i :: 0 <= i < |x| ==> y[i] == OnLine(m, c, x[i], 1.0)
    ensures Slope(x, y) == m
  {
    SpreadIsPositive(x);
    LineSums(x, y, m, c);
    hide CoDeviation, Sum, Dot, OnLine;
    var n, p, q := |x| as real, Mean(x), Mean(y);
    CoDeviationExpands(x, p, x, p);
    CoDeviationExpands(x, p, y, q);
    MeanTimesCount(x);
    hide CoExpanded, Times;
    assert q == Sum(y) / n;
    hide Mean;
    LineMean(n, p, q, Sum(y), m, c);
    LineCovariance(n, p, Dot(x, x), m, c);
    CancelSpread(m, CoDeviation(x, p, x, p));
  }

  lemma CancelSpread(m: real, xx: real)
    requires xx > 0.0
    ensures Times(m, xx) / xx == m
  {}

  lemma LineMean(n: real, p: real, q: real, sy: real, m: real, c: real)
    requires n > 0.0 && sy == OnLine(m, c, Times(n, p), n) && q == sy / n
    ensures q == OnLine(m, c, p, 1.0)
  {
    var v := c + m * p;
    assert sy == n * v;
    assert (n * v) / n == v;
  }

  lemma LineCovariance(n: real, p: real, xx: real, m: real, c: real)
    ensures var np := Times(n, p);
            CoExpanded(n, p, OnLine(m, c, p, 1.0), np, OnLine(m, c, np, n), OnLine(m, c, xx, np))
            == Times(m, CoExpanded(n, p, p, np, np, xx))
  {}

  lemma LineStep(m: real, c: real, n: real, x: real, sx: real, xx: real)
    ensures OnLine(m, c, sx, n) + OnLine(m, c, x, 1.0) == OnLine(m, c, sx + x, n + 1.0)
    ensures OnLine(m, c, xx, sx) + Times(x, OnLine(m, c, x, 1.0)) == OnLine(m, c, xx + Times(x, x), sx + x)
  {}

  lemma {:induction false} LineSums(x: seq<real>, y: seq<real>, m: real, c: real)
    requires |x| == |y| && forall i :: 0 <= i < |x| ==> y[i] == OnLine(m, c, x[i], 1.0)
    ensures Sum(y) == OnLine(m, c, Sum(x), |x| as real)
    ensures Dot(x, y) == OnLine(m, c, Dot(x, x), Sum(x))
  {
    if x == [] {
      assert c * 0.0 + m * 0.0 == 0.0;
    } else {
      hide Times, OnLine;
      var n := |x| - 1;
      LineSums(x[..n], y[..n], m, c);
      LineStep(m, c, n as real, x[n], Sum(x[..n]), Dot(x[..n], x[..n]));
    }
  }

  function Shifted(x: seq<real>, d: real): seq<real> {
    seq(|x|, i requires 0 <= i < |x| => x[i] - d)
  }

  lemma ShiftStep(n: real, d: real)
    ensures (n + 1.0) * d == n * d + d
  {}

  lemma {:induction false} ShiftedSum(x: seq<real>, d: real)
    ensures Sum(Shifted(x, d)) == Sum(x) - Times(|x| as real, d)
  {
    if x != [] {
      var n := |x| - 1;
      ShiftedSum(x[..n], d);
      assert Shifted(x, d)[..n] == Shifted(x[..n], d);
      ShiftStep(n as real, d);
    }
  }

  lemma {:induction false} ShiftedDeviations(x: seq<real>, p: real, y: seq<real>, q: real, d: real)
    requires |x| == |y|
    ensures CoDeviation(Shifted(x, d), p - d, y, q) == CoDeviation(x, p, y, q)
    ensures CoDeviation(Shifted(x, d), p - d, Shifted(x, d), p - d) == CoDeviation(x, p, x, p)
  {
    hide Times;
    if x != [] {
      var n := |x| - 1;
      ShiftedDeviations(x[..n], p, y[..n], q, d);
      assert Shifted(x, d)[..n] == Shifted(x[..n], d);
      assert (x[n] - d) - (p - d) == x[n] - p;
    }
  }

  /** Where the clock starts does not matter to the slope. */
  lemma SlopeIgnoresOrigin(x: seq<real>, y: seq<real>, d: real)
    requires |x| == |y| > 0
    ensures Slope(Shifted(x, d), y) == Slope(x, y)
  {
    hide CoDeviation, Sum;
    ShiftedSum(x, d);
    SplitQuotient(Sum(x), |x| as real, d);
    assert Mean(Shifted(x, d)) == Mean(x) - d;
    hide Mean;
    ShiftedDeviations(x, Mean(x), y, Mean(y), d);
  }
}

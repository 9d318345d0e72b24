/** What the trend of a metric says when the metric grows evenly: from the samples through the downsampling to
    the reported slope. */
module SampledLines {
  import opened Analyzer
  import opened Downsampling
  import opened Statistics

  /** Samples at even distances d from t0 on, of a metric that is a + m * t at time t. */
  ghost predicate Sampled(values: seq<real>, times: seq<real>, t0: real, d: real, a: real, m: real) {
    && |values| == |times|
    && forall i :: 0 <= i < |times| ==> times[i] == Along(t0, d, i as real) && values[i] == Along(a, m, times[i])
  }

  function Along(start: real, step: real, x: real): real {
    start + step * x
  }

  // ---- one bucket's point ------------------------------------------------------------------

  lemma {:induction false} SumOfRun(v: seq<real>, first: real, step: real)
    requires forall i :: 0 <= i < |v| ==> v[i] == Along(first, step, i as real)
    ensures 2.0 * Sum(v) == RunSum(|v| as real, first, step)
  {
    if v == [] {
      RunSumStep(0.0, first, step);
    } else {
      hide Along, RunSum;
      var k := |v| - 1;
      SumOfRun(v[..k], first, step);
      RunSumStep(k as real, first, step);
      assert k as real + 1.0 == |v| as real;
    }
  }

  function RunSum(n: real, first: real, step: real): real {
    n * (2.0 * first + step * (n - 1.0))
  }

  lemma RunSumStep(k: real, first: real, step: real)
    ensures RunSum(k, first, step) + 2.0 * Along(first, step, k) == RunSum(k + 1.0, first, step)
    ensures RunSum(0.0, first, step) == 0.0
  {}

  /** Half of what a run of n values rises. */
  function HalfRise(step: real, n: real): real {
    step * (n - 1.0) / 2.0
  }

  /** The mean of an even run lies half its rise above its first value. */
  lemma MeanOfRun(v: seq<real>, first: real, step: real)
    requires v != [] && forall i :: 0 <= i < |v| ==> v[i] == Along(first, step, i as real)
    ensures Mean(v) == first + HalfRise(step, |v| as real)
  {
    SumOfRun(v, first, step);
    hide Along, Sum;
    HalfOf(|v| as real, Sum(v), first, step);
  }

  lemma HalfOf(n: real, sum: real, first: real, step: real)
    requires n > 0.0 && 2.0 * sum == RunSum(n, first, step)
    ensures sum / n == first + HalfRise(step, n)
  {
    var mean := first + HalfRise(step, n);
    assert sum == n * mean;
    assert (n * mean) / n == mean;
  }

  /** How much a point of `count` samples lies above the line at its time, which is its first sample's. */
  function Lift(m: real, d: real, count: real): real {
    HalfRise(m * d, count)
  }

  /** The point of a bucket that starts at rank f and holds `count` samples of the line. */
  ghost predicate LinePoint(p: Point, f: nat, count: nat, t0: real, d: real, a: real, m: real) {
    p.count == count && p.time == Along(t0, d, f as real) && p.mean == Along(a, m, p.time) + Lift(m, d, count as real)
  }

  lemma AlongFrom(t0: real, d: real, a: real, m: real, f: real, i: real)
    ensures Along(t0, d, f + i) == Along(Along(t0, d, f), d, i)
    ensures Along(a, m, Along(t0, d, f + i)) == Along(Along(a, m, Along(t0, d, f)), m * d, i)
    ensures d > 0.0 && i >= 0.0 ==> Along(t0, d, f) <= Along(t0, d, f + i)
  {
    if d > 0.0 && i >= 0.0 {
      Positive(d, i);
    }
  }

  lemma PointOfLine(values: seq<real>, times: seq<real>, t0: real, d: real, a: real, m: real, f: nat, to: nat)
    requires Sampled(values, times, t0, d, a, m) && d > 0.0 && f < to <= |values|
    ensures Mean(values[f..to]) == Along(a, m, Along(t0, d, f as real)) + Lift(m, d, (to - f) as real)
    ensures Min(times[f..to]) == Along(t0, d, f as real)
  {
    hide Along, Min, Mean, HalfRise;
    var vs, ts := values[f..to], times[f..to];
    forall i | 0 <= i < to - f
      ensures ts[i] == Along(t0, d, (f + i) as real) && ts[i] >= Along(t0, d, f as real)
      ensures vs[i] == Along(Along(a, m, Along(t0, d, f as real)), m * d, i as real)
    {
      assert ts[i] == times[f + i] && vs[i] == values[f + i];
      assert (f + i) as real == f as real + i as real;
      AlongFrom(t0, d, a, m, f as real, i as real);
    }
    MeanOfRun(vs, Along(a, m, Along(t0, d, f as real)), m * d);
    MinIsLeast(ts);
    assert ts[0] == times[f] == Along(t0, d, f as real) && ts[0] in ts;
    var i :| 0 <= i < |ts| && ts[i] == Min(ts);
  }

  // ---- all points ------------------------------------------------------------------------------

  /** Every point stands above the line by what its count lifts it, and they rise in time. */
  ghost predicate LinePoints(points: seq<Point>, t0: real, d: real, a: real, m: real, next: nat) {
    && (forall i :: 0 <= i < |points| ==>
          points[i].mean == Along(a, m, points[i].time) + Lift(m, d, points[i].count as real))
    && (forall i :: 0 <= i < |points| ==> points[i].time < Along(t0, d, next as real))
    && (forall i, j :: 0 <= i < j < |points| ==> points[i].time < points[j].time)
  }

  lemma LaterRank(t0: real, d: real, f: nat, g: nat)
    requires d > 0.0 && f <= g
    ensures Along(t0, d, f as real) <= Along(t0, d, g as real)
    ensures f < g ==> Along(t0, d, f as real) < Along(t0, d, g as real)
  {
    var gap := g as real - f as real;
    assert d * (g as real) == d * (f as real) + d * gap;
    Positive(d, gap);
    if f < g {
      assert gap >= 1.0;
      Positive(d, gap - 1.0);
      assert d * gap == d * (gap - 1.0) + d;
    }
  }

  lemma OneMorePoint(points: seq<Point>, p: Point, f: nat, to: nat, t0: real, d: real, a: real, m: real)
    requires LinePoints(points, t0, d, a, m, f) && d > 0.0 && f < to && LinePoint(p, f, to - f, t0, d, a, m)
    ensures LinePoints(points + [p], t0, d, a, m, to)
  {
    LaterRank(t0, d, f, to);
    hide Along, Lift;
  }

  lemma {:induction false} PointsOfLine(
      values: seq<real>, times: seq<real>, t0: real, d: real, a: real, m: real, buckets: nat, b: nat)
    requires Sampled(values, times, t0, d, a, m) && d > 0.0 && b <= buckets && buckets > 0
    ensures LinePoints(PointsBelow(values, times, buckets, b), t0, d, a, m, FirstRank(b, buckets, |values|))
  {
    hide *;
    SameLength(values, times, t0, d, a, m);
    NextPoints(values, times, buckets, if b == 0 then 0 else b - 1);
    if b == 0 {
      NoPoints(t0, d, a, m, FirstRank(b, buckets, |values|));
    } else {
      PointsOfLine(values, times, t0, d, a, m, buckets, b - 1);
      FirstRanks(b - 1, buckets, |values|);
      var f, to := FirstRank(b - 1, buckets, |values|), FirstRank(b, buckets, |values|);
      GroupedIsSlice(values, times, buckets, b - 1, f, to);
      if f < to {
        PointOfLine(values, times, t0, d, a, m, f, to);
        var vs := values[f..to];
        var p := Point(b - 1, to - f, Mean(vs), Min(vs), Max(vs), Min(times[f..to]));
        IsLinePoint(p, f, to - f, t0, d, a, m);
        OneMorePoint(PointsBelow(values, times, buckets, b - 1), p, f, to, t0, d, a, m);
      } else {
        Nothing(PointsBelow(values, times, buckets, b - 1));
      }
    }
  }

  lemma SameLength(values: seq<real>, times: seq<real>, t0: real, d: real, a: real, m: real)
    requires Sampled(values, times, t0, d, a, m)
    ensures |values| == |times|
  {}

  lemma NoPoints(t0: real, d: real, a: real, m: real, next: nat)
    ensures LinePoints([], t0, d, a, m, next)
  {}

  lemma IsLinePoint(p: Point, f: nat, count: nat, t0: real, d: real, a: real, m: real)
    requires p.count == count && p.time == Along(t0, d, f as real)
    requires p.mean == Along(a, m, Along(t0, d, f as real)) + Lift(m, d, count as real)
    ensures LinePoint(p, f, count, t0, d, a, m)
  {}

  // ---- equal counts: exact ------------------------------------------------------------------------

  lemma EnoughPoints(values: seq<real>, times: seq<real>, buckets: nat)
    requires |values| == |times| >= 2 && buckets >= 2
    ensures |Downsample(values, times, buckets)| >= 2
    ensures forall p :: p in Downsample(values, times, buckets) ==> FairPoint(p, |values|, buckets)
  {
    var points, n := Downsample(values, times, buckets), |values|;
    PointsInOrder(values, times, buckets, buckets);
    DownsamplePreserves(values, times, buckets);
    hide PointsBelow, Min, Max, WeightedSum, Mean;
    if |points| == 1 {
      assert TotalCount(points[..0]) == 0;
      SharesAreSmall(n, buckets);
    }
  }

  lemma SharesAreSmall(n: nat, buckets: nat)
    requires n >= 2 && buckets >= 2
    ensures n / buckets + (if n % buckets == 0 then 0 else 1) < n
    ensures n < buckets ==> n / buckets == 0 && n % buckets != 0
    ensures n == buckets ==> n / buckets == 1 && n % buckets == 0
  {
    DivBounds(n, buckets);
    MulMono(2, buckets, n / buckets);
    if n < buckets {
      QuotientIs(n, buckets, 0);
    }
    if n == buckets {
      QuotientIs(n, buckets, 1);
    }
  }

  lemma SpanOfPoints(name: string, points: seq<Point>, t0: real, d: real, a: real, m: real, next: nat, fraction: real)
    requires LinePoints(points, t0, d, a, m, next) && |points| >= 2
    ensures AsRows(name, points) != [] && TrendOf(AsRows(name, points), fraction).span > 0.0
  {
    hide Slope, Mean, Edge;
    assert points[0].time < points[|points| - 1].time;
  }

  /** Points that stand for equally many samples lie on a line of the same slope. */
  lemma EqualCounts(name: string, points: seq<Point>, t0: real, d: real, a: real, m: real, next: nat, count: nat,
                    fraction: real)
    requires LinePoints(points, t0, d, a, m, next) && |points| >= 2
    requires forall p :: p in points ==> p.count == count
    ensures AsRows(name, points) != [] && TrendOf(AsRows(name, points), fraction).slope == m
  {
    hide TrendOf, Along, Lift;
    SpanOfPoints(name, points, t0, d, a, m, next, fraction);
    var rows, lift := AsRows(name, points), Lift(m, d, count as real);
    forall i | 0 <= i < |rows|
      ensures rows[i].mean == a + lift + m * rows[i].hours
    {
      assert points[i] in points;
      LiftedLine(a, m, points[i].time, lift);
    }
    hide LinePoints;
    TrendOfALine(rows, fraction, m, a + lift);
  }

  lemma LiftedLine(a: real, m: real, time: real, lift: real)
    ensures Along(a, m, time) + lift == a + lift + m * time
  {}

  // ---- unequal counts: too flat -------------------------------------------------------------------

  function Starts(buckets: nat, n: nat, k: nat): seq<real>
    requires buckets > 0
  {
    seq(k, b requires 0 <= b < k => FirstRank(b, buckets, n) as real)
  }

  function Counts(buckets: nat, n: nat, k: nat): seq<real>
    requires buckets > 0
  {
    seq(k, b requires 0 <= b < k => (FirstRank(b + 1, buckets, n) - FirstRank(b, buckets, n)) as real)
  }

  /** The counts add up, and with the ranks they start at to a difference of squares. */
  lemma {:induction false} CountsTelescope(buckets: nat, n: nat, k: nat)
    requires k <= buckets && buckets > 0
    ensures var f, starts, counts := FirstRank(k, buckets, n) as real, Starts(buckets, n, k), Counts(buckets, n, k);
            Sum(counts) == f && 2.0 * Dot(starts, counts) + Dot(counts, counts) == Times(f, f)
  {
    hide FirstRank, Times;
    FirstRanks(0, buckets, n);
    if k == 0 {
      NoSquare();
    } else {
      CountsTelescope(buckets, n, k - 1);
      var starts, counts := Starts(buckets, n, k), Counts(buckets, n, k);
      assert starts[..k - 1] == Starts(buckets, n, k - 1) && counts[..k - 1] == Counts(buckets, n, k - 1);
      SquareOfSum(FirstRank(k - 1, buckets, n) as real, counts[k - 1]);
    }
  }

  lemma NoSquare()
    ensures Times(0.0, 0.0) == 0.0
  {}

  lemma SquareOfSum(f: real, c: real)
    ensures Times(f + c, f + c) == Times(f, f) + 2.0 * Times(f, c) + Times(c, c)
  {}

  /** Buckets start no earlier than evenly spaced ones, and the second one later when n is no multiple. */
  lemma StartsLate(b: nat, buckets: nat, n: nat)
    requires buckets > 0
    ensures b * n <= FirstRank(b, buckets, n) * buckets
    ensures b == 1 && n % buckets != 0 ==> n < FirstRank(b, buckets, n) * buckets
  {
    var f := FirstRank(b, buckets, n);
    CeilingIsLeast(b * n, buckets, f);
    hide FirstRank;
    if b == 1 && n == f * buckets {
      Multiple(f, buckets);
    }
  }

  lemma Multiple(q: nat, d: nat)
    requires d > 0
    ensures q * d % d == 0
  {
    QuotientIs(q * d, d, q);
  }

  /** 2 * buckets times the ranks that k buckets start at, against n * k * (k - 1) for evenly spaced ones. */
  lemma {:induction false} StartsAreLate(buckets: nat, n: nat, k: nat)
    requires buckets > 0
    ensures 2.0 * Times(buckets as real, Sum(Starts(buckets, n, k))) >= Even(n as real, k as real)
    ensures k >= 2 && n % buckets != 0 ==>
              2.0 * Times(buckets as real, Sum(Starts(buckets, n, k))) > Even(n as real, k as real)
  {
    hide FirstRank, Times, Even;
    EvenStep(n as real, k as real - 1.0, buckets as real, 0.0, 0.0);
    if k > 0 {
      StartsAreLate(buckets, n, k - 1);
      StartsLate(k - 1, buckets, n);
      var starts, f := Starts(buckets, n, k), FirstRank(k - 1, buckets, n);
      assert starts[..k - 1] == Starts(buckets, n, k - 1);
      EvenStep(n as real, k as real - 1.0, buckets as real, Sum(starts[..k - 1]), f as real);
      AsReals((k - 1) * n, k - 1, n);
      AsReals(f * buckets, f, buckets);
    }
  }

  function Even(n: real, k: real): real {
    n * k * (k - 1.0)
  }

  lemma EvenStep(n: real, k: real, buckets: real, sum: real, f: real)
    ensures Even(n, k + 1.0) == Even(n, k) + 2.0 * Times(k, n) && Even(n, 0.0) == 0.0
    ensures Times(buckets, sum + f) == Times(buckets, sum) + Times(f, buckets) && Times(buckets, 0.0) == 0.0
  {}

  lemma AsReals(x: nat, a: nat, b: nat)
    requires x == a * b
    ensures x as real == Times(a as real, b as real)
  {}

  /** So in buckets of unequal size, those that start early hold more. */
  lemma CountsFall(buckets: nat, n: nat)
    requires buckets >= 2 && n > 0 && n % buckets != 0
    ensures var starts, counts := Starts(buckets, n, buckets), Counts(buckets, n, buckets);
            CoDeviation(starts, Mean(starts), counts, Mean(counts)) < 0.0
  {
    var starts, counts := Starts(buckets, n, buckets), Counts(buckets, n, buckets);
    assert |starts| == |counts| == buckets;
    hide FirstRank, Dot, Sum, CoDeviation, Times, Even, Starts, Counts, Mean;
    CountsTelescope(buckets, n, buckets);
    StartsAreLate(buckets, n, buckets);
    FirstRanks(0, buckets, n);
    CoDeviationAboutMeans(starts, counts);
    SquaresExceed(counts);
    MeanTimesCount(starts);
    MeanTimesCount(counts);
    BelowZero(buckets as real, n as real, Mean(starts), Mean(counts), Dot(starts, counts), Dot(counts, counts));
  }

  lemma SquaresExceed(v: seq<real>)
    requires v != []
    ensures Dot(v, v) / |v| as real - Times(Mean(v), Mean(v)) >= 0.0
  {
    hide Dot, Mean, Variance;
    VarianceFormsAgree(v);
  }

  lemma BelowZero(k: real, n: real, p: real, q: real, fc: real, cc: real)
    requires k > 0.0 && n > 0.0 && Times(k, q) == n
    requires 2.0 * fc + cc == Times(n, n)
    requires 2.0 * Times(k, Times(k, p)) > Even(n, k) && cc / k - Times(q, q) >= 0.0
    ensures fc - Times(k, Times(p, q)) < 0.0
  {
    var mean := cc / k;
    assert cc == k * mean;
    Positive(k, mean - q * q);
    assert cc >= k * (q * q);
    assert k * (q * q) == n * q;
    assert k * (k * p) > k * (n * (k - 1.0) / 2.0);
    Cancel(k, k * p, n * (k - 1.0) / 2.0);
    Larger(q, k * p, n * (k - 1.0) / 2.0, k, n);
  }

  lemma Cancel(k: real, x: real, y: real)
    requires k > 0.0 && k * x > k * y
    ensures x > y
  {
    if x <= y {
      Positive(k, y - x);
    }
  }

  lemma Larger(q: real, x: real, y: real, k: real, n: real)
    requires k > 0.0 && n > 0.0 && k * q == n && x > y
    ensures q > 0.0 && q * x > q * y
  {
    if q <= 0.0 {
      Positive(k, -q);
    }
    if q * x <= q * y {
      Scaled(q, x, y);
    }
  }

  lemma Scaled(q: real, x: real, y: real)
    requires q > 0.0 && x > y
    ensures q * x > q * y
  {
    var gap := x - y;
    var rise := Times(q, gap);
    Positive(q, gap);
    QuotientIsFactor(q, gap);
    if rise == 0.0 {
      assert 0.0 / q == 0.0;
    }
    Distributes(q, x, y);
  }

  lemma Distributes(q: real, x: real, y: real)
    ensures Times(q, x - y) == q * x - q * y
  {}

  lemma QuotientIsFactor(x: real, y: real)
    requires x > 0.0
    ensures Times(x, y) / x == y
  {}

  // ---- the slope of lifted points ------------------------------------------------------------------

  function Combined(c: real, m: real, x: real, h: real, k: real): real {
    c + m * x + h * k
  }

  lemma CombinedStep(z: real, c: real, m: real, h: real, x: real, p: real, k: real, r: real, xx: real, xk: real)
    ensures Times(m, xx) + Times(h, xk) + Times(z, Combined(c, m, x, h, k) - Combined(c, m, p, h, r))
            == Times(m, xx + Times(z, x - p)) + Times(h, xk + Times(z, k - r))
    ensures Times(m, 0.0) == Times(h, 0.0) == 0.0
  {}

  /** Covariance is linear. */
  lemma {:induction false} CoDeviationIsLinear(
      z: seq<real>, s: real, y: seq<real>, x: seq<real>, p: real, k: seq<real>, r: real, c: real, m: real, h: real)
    requires |z| == |y| == |x| == |k|
    requires forall i :: 0 <= i < |y| ==> y[i] == Combined(c, m, x[i], h, k[i])
    ensures CoDeviation(z, s, y, Combined(c, m, p, h, r)) 
            == Times(m, CoDeviation(z, s, x, p)) + Times(h, CoDeviation(z, s, k, r))
  {
    hide Combined, Times;
    if z == [] {
      CombinedStep(0.0, c, m, h, 0.0, 0.0, 0.0, 0.0, 0.0, 0.0);
    } else {
      var n := |z| - 1;
      CoDeviationIsLinear(z[..n], s, y[..n], x[..n], p, k[..n], r, c, m, h);
      CombinedStep(z[n] - s, c, m, h, x[n], p, k[n], r, CoDeviation(z[..n], s, x[..n], p),
                   CoDeviation(z[..n], s, k[..n], r));
    }
  }

  lemma {:induction false} CoDeviationIsSymmetric(x: seq<real>, p: real, y: seq<real>, q: real)
    requires |x| == |y|
    ensures CoDeviation(x, p, y, q) == CoDeviation(y, q, x, p)
  {
    if x != [] {
      var n := |x| - 1;
      CoDeviationIsSymmetric(x[..n], p, y[..n], q);
    }
  }

  lemma {:induction false} SumIsLinear(
      y: seq<real>, x: seq<real>, k: seq<real>, c: real, m: real, h: real)
    requires |y| == |x| == |k| && forall i :: 0 <= i < |y| ==> y[i] == Combined(c, m, x[i], h, k[i])
    ensures Sum(y) == c * |y| as real + m * Sum(x) + h * Sum(k)
  {
    if y != [] {
      var n := |y| - 1;
      hide Combined;
      SumIsLinear(y[..n], x[..n], k[..n], c, m, h);
      CombinedSum(c, m, h, n as real, Sum(x[..n]), Sum(k[..n]), x[n], k[n]);
    }
  }

  lemma CombinedSum(c: real, m: real, h: real, n: real, sx: real, sk: real, x: real, k: real)
    ensures c * n + m * sx + h * sk + Combined(c, m, x, h, k) == c * (n + 1.0) + m * (sx + x) + h * (sk + k)
  {}

  lemma MeanIsLinear(y: seq<real>, x: seq<real>, k: seq<real>, c: real, m: real, h: real)
    requires |y| == |x| == |k| > 0 && forall i :: 0 <= i < |y| ==> y[i] == Combined(c, m, x[i], h, k[i])
    ensures Mean(y) == Combined(c, m, Mean(x), h, Mean(k))
  {
    SumIsLinear(y, x, k, c, m, h);
    hide Sum, Combined;
    MeanOfSum(|y| as real, Sum(y), Sum(x), Sum(k), c, m, h);
  }

  lemma MeanOfSum(n: real, sy: real, sx: real, sk: real, c: real, m: real, h: real)
    requires n > 0.0 && sy == c * n + m * sx + h * sk
    ensures sy / n == Combined(c, m, sx / n, h, sk / n)
  {
    var p, r := sx / n, sk / n;
    assert sx == n * p && sk == n * r;
    assert sy == n * (c + m * p + h * r);
    assert (n * (c + m * p + h * r)) / n == c + m * p + h * r;
  }

  /** The slope of y = c + m * x + h * k over x = t0 + d * f: m, and what k has to do with f. */
  lemma LiftedSlope(
      y: seq<real>, x: seq<real>, f: seq<real>, k: seq<real>, t0: real, d: real, c: real, m: real, h: real)
    requires |y| == |x| == |f| == |k| > 0 && x[|x| - 1] > x[0]
    requires forall i :: 0 <= i < |y| ==>
               x[i] == Combined(t0, d, f[i], 0.0, k[i]) && y[i] == Combined(c, m, x[i], h, k[i])
    ensures var xx := CoDeviation(x, Mean(x), x, Mean(x));
            xx > 0.0
            && Slope(x, y) == (Times(m, xx) + Times(h, Times(d, CoDeviation(f, Mean(f), k, Mean(k))))) / xx
  {
    SpreadIsPositive(x);
    hide Mean, CoDeviation, Combined, Times;
    MeanIsLinear(y, x, k, c, m, h);
    MeanIsLinear(x, f, k, t0, d, 0.0);
    CoDeviationIsLinear(x, Mean(x), y, x, Mean(x), k, Mean(k), c, m, h);
    CoDeviationIsSymmetric(x, Mean(x), k, Mean(k));
    CoDeviationIsLinear(k, Mean(k), x, f, Mean(f), k, Mean(k), t0, d, 0.0);
    CoDeviationIsSymmetric(f, Mean(f), k, Mean(k));
    NoShare(CoDeviation(k, Mean(k), k, Mean(k)));
  }

  lemma NoShare(x: real)
    ensures Times(0.0, x) == 0.0
  {}

  lemma TooFlat(m: real, xx: real, d: real, fk: real)
    requires xx > 0.0 && d > 0.0 && fk < 0.0
    ensures var slope := (Times(m, xx) + Times(m * d / 2.0, Times(d, fk))) / xx;
            (m > 0.0 ==> slope < m) && (m < 0.0 ==> slope > m) && (m == 0.0 ==> slope == 0.0)
  {
    var share := d / 2.0 * (d * -fk) / xx;
    ShareIsPositive(d, -fk, xx);
    assert Times(m * d / 2.0, Times(d, fk)) == -(m * (d / 2.0 * (d * -fk)));
    assert d / 2.0 * (d * -fk) == xx * share;
    SlopeIsLess(m, xx, share);
  }

  lemma ShareIsPositive(d: real, k: real, xx: real)
    requires xx > 0.0 && d > 0.0 && k > 0.0
    ensures d / 2.0 * (d * k) / xx > 0.0
  {
    Scaled(d, k, 0.0);
    var loss := d / 2.0 * (d * k);
    Scaled(d / 2.0, d * k, 0.0);
    var share := loss / xx;
    assert loss == xx * share;
    if share <= 0.0 {
      Positive(xx, -share);
    }
  }

  lemma SlopeIsLess(m: real, xx: real, share: real)
    requires xx > 0.0 && share > 0.0
    ensures var slope := (m * xx - m * (xx * share)) / xx;
            (m > 0.0 ==> slope < m) && (m < 0.0 ==> slope > m) && (m == 0.0 ==> slope == 0.0)
  {
    var loss, rise := m * share, m * xx - m * (xx * share);
    assert rise == xx * (m - loss);
    QuotientIsFactor(xx, m - loss);
    if m > 0.0 {
      Scaled(m, share, 0.0);
      assert loss > 0.0;
    } else if m < 0.0 {
      Scaled(-m, share, 0.0);
      assert -loss == -m * share > 0.0;
    }
  }

  // ---- end to end -------------------------------------------------------------------------------------

  /** With no more buckets than samples, point b is bucket b's. */
  lemma {:induction false} PointsAtRanks(
      values: seq<real>, times: seq<real>, t0: real, d: real, a: real, m: real, buckets: nat, b: nat)
    requires Sampled(values, times, t0, d, a, m) && d > 0.0 && b <= buckets && 0 < buckets <= |values|
    ensures |PointsBelow(values, times, buckets, b)| == b
    ensures forall i :: 0 <= i < b ==>
              var f, to := FirstRank(i, buckets, |values|), FirstRank(i + 1, buckets, |values|);
              f < to && LinePoint(PointsBelow(values, times, buckets, b)[i], f, to - f, t0, d, a, m)
  {
    hide *;
    SameLength(values, times, t0, d, a, m);
    NextPoints(values, times, buckets, if b == 0 then 0 else b - 1);
    if b > 0 {
      PointsAtRanks(values, times, t0, d, a, m, buckets, b - 1);
      FirstRanks(b - 1, buckets, |values|);
      BucketSizes(b - 1, buckets, |values|);
      var f, to := FirstRank(b - 1, buckets, |values|), FirstRank(b, buckets, |values|);
      GroupedIsSlice(values, times, buckets, b - 1, f, to);
      PointOfLine(values, times, t0, d, a, m, f, to);
      var vs := values[f..to];
      IsLinePoint(Point(b - 1, to - f, Mean(vs), Min(vs), Max(vs), Min(times[f..to])), f, to - f, t0, d, a, m);
    }
  }

  lemma UnequalCounts(name: string, values: seq<real>, times: seq<real>, t0: real, d: real, a: real, m: real,
                      buckets: nat, fraction: real)
    requires Sampled(values, times, t0, d, a, m) && d > 0.0 && 2 <= buckets < |values| && |values| % buckets != 0
    ensures var rows := AsRows(name, Downsample(values, times, buckets));
            && rows != []
            && var slope := TrendOf(rows, fraction).slope;
               (m > 0.0 ==> slope < m) && (m < 0.0 ==> slope > m) && (m == 0.0 ==> slope == 0.0)
  {
    hide *;
    SameLength(values, times, t0, d, a, m);
    var points, n := PointsBelow(values, times, buckets, buckets), |values|;
    PointsAtRanks(values, times, t0, d, a, m, buckets, buckets);
    PointsOfLine(values, times, t0, d, a, m, buckets, buckets);
    DownsampleIsPoints(values, times, buckets);
    SpanOfPoints(name, points, t0, d, a, m, FirstRank(buckets, buckets, n), fraction);
    FlatSlope(name, points, t0, d, a, m, buckets, n, fraction);
  }

  lemma FlatSlope(name: string, points: seq<Point>, t0: real, d: real, a: real, m: real, buckets: nat, n: nat,
                  fraction: real)
    requires |points| == buckets >= 2 && n > 0 && n % buckets != 0 && d > 0.0
    requires forall i :: 0 <= i < buckets ==>
               var f, to := FirstRank(i, buckets, n), FirstRank(i + 1, buckets, n);
               f < to && LinePoint(points[i], f, to - f, t0, d, a, m)
    requires AsRows(name, points) != [] && TrendOf(AsRows(name, points), fraction).span > 0.0
    ensures var slope := TrendOf(AsRows(name, points), fraction).slope;
            (m > 0.0 ==> slope < m) && (m < 0.0 ==> slope > m) && (m == 0.0 ==> slope == 0.0)
  {
    hide LinePoint, Combined, Slope, Mean, CoDeviation, TrendOf, FirstRank, Times;
    var rows := AsRows(name, points);
    var starts, counts := Starts(buckets, n, buckets), Counts(buckets, n, buckets);
    assert |rows| == |starts| == |counts| == buckets;
    hide Starts, Counts, AsRows;
    forall i | 0 <= i < buckets
      ensures Hours(rows)[i] == Combined(t0, d, starts[i], 0.0, counts[i])
      ensures Means(rows)[i] == Combined(a - m * d / 2.0, m, Hours(rows)[i], m * d / 2.0, counts[i])
    {
      RowIsCombined(name, points, t0, d, a, m, buckets, n, i);
    }
    hide Hours, Means;
    SlopeIsOfAbsoluteTimes(rows, fraction);
    LiftedSlope(Means(rows), Hours(rows), starts, counts, t0, d, a - m * d / 2.0, m, m * d / 2.0);
    CountsFall(buckets, n);
    TooFlat(m, CoDeviation(Hours(rows), Mean(Hours(rows)), Hours(rows), Mean(Hours(rows))), d,
            CoDeviation(starts, Mean(starts), counts, Mean(counts)));
  }

  lemma RowIsCombined(name: string, points: seq<Point>, t0: real, d: real, a: real, m: real, buckets: nat, n: nat,
                      i: nat)
    requires i < |points| == buckets
    requires var f, to := FirstRank(i, buckets, n), FirstRank(i + 1, buckets, n);
             f < to && LinePoint(points[i], f, to - f, t0, d, a, m)
    ensures var hours, f, count := Hours(AsRows(name, points))[i], Starts(buckets, n, buckets)[i],
                                   Counts(buckets, n, buckets)[i];
            && hours == Combined(t0, d, f, 0.0, count)
            && Means(AsRows(name, points))[i] == Combined(a - m * d / 2.0, m, hours, m * d / 2.0, count)
  {
    hide FirstRank, Along, Lift, Combined;
    LiftIsCombined(t0, d, a, m, Starts(buckets, n, buckets)[i], Counts(buckets, n, buckets)[i], points[i].time);
  }

  lemma LiftIsCombined(t0: real, d: real, a: real, m: real, f: real, count: real, time: real)
    ensures Along(t0, d, f) == Combined(t0, d, f, 0.0, count)
    ensures Along(a, m, time) + Lift(m, d, count) == Combined(a - m * d / 2.0, m, time, m * d / 2.0, count)
  {}

  /** A metric that grows by m an hour and is sampled evenly is reported with slope m if and only if every bucket
      holds the same number of samples, or the metric does not grow at all. In all other cases the slope that
      is reported is too flat: the early buckets are the larger ones, and a larger bucket's mean is taken
      later after the time it is put at. */
  lemma GrowthIsReportedIff(name: string, values: seq<real>, times: seq<real>, t0: real, d: real, a: real, m: real,
                            buckets: nat, fraction: real)
    requires Sampled(values, times, t0, d, a, m) && d > 0.0 && |values| >= 2 && buckets >= 2
    ensures var rows, n := AsRows(name, Downsample(values, times, buckets)), |values|;
            var even := n % buckets == 0 || n <= buckets;
            && rows != []
            && var slope := TrendOf(rows, fraction).slope;
               && (slope == m <==> even || m == 0.0)
               && (!even && m > 0.0 ==> slope < m) && (!even && m < 0.0 ==> slope > m)
  {
    hide TrendOf, AsRows, LinePoints, FirstRank, Sampled, Downsample;
    SameLength(values, times, t0, d, a, m);
    var points, n := Downsample(values, times, buckets), |values|;
    if n % buckets == 0 || n <= buckets {
      DownsampleIsPoints(values, times, buckets);
      PointsOfLine(values, times, t0, d, a, m, buckets, buckets);
      EnoughPoints(values, times, buckets);
      SharesAreSmall(n, buckets);
      EqualCounts(name, points, t0, d, a, m, FirstRank(buckets, buckets, n), if n < buckets then 1 else n / buckets,
                  fraction);
    } else {
      UnequalCounts(name, values, times, t0, d, a, m, buckets, fraction);
    }
  }

  lemma DownsampleIsPoints(values: seq<real>, times: seq<real>, buckets: nat)
    requires |values| == |times| && buckets >= 1
    ensures Downsample(values, times, buckets) == PointsBelow(values, times, buckets, buckets)
  {}
}

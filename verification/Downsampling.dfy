/** Cutting a metric's series into at most `buckets` points by sample rank. */
module Downsampling {
  import opened Statistics

  // ---- bucket arithmetic ------------------------------------------------------------

  /** (ROW_NUMBER() - 1) * buckets / COUNT(*), in SQLite's integer division. */
  function BucketOf(i: nat, buckets: nat, n: nat): nat
    requires n > 0
  {
    i * buckets / n
  }

  /** The first rank of bucket `b`: b * n / buckets, rounded up. */
  function FirstRank(b: nat, buckets: nat, n: nat): nat
    requires buckets > 0
  {
    (b * n + buckets - 1) / buckets
  }

  lemma MulMono(a: int, b: int, c: int)
    requires a <= b && 0 <= c
    ensures a * c <= b * c
  {}

  lemma DivBounds(a: nat, d: nat)
    requires d > 0
    ensures a / d * d <= a < a / d * d + d
  {}

  lemma CeilingIsLeast(a: nat, d: nat, i: nat)
    requires d > 0
    ensures (a + d - 1) / d <= i <==> a <= i * d
  {
    var q := (a + d - 1) / d;
    DivBounds(a + d - 1, d);
    if q <= i {
      MulMono(q, i, d);
    } else {
      MulMono(i + 1, q, d);
      assert (i + 1) * d == i * d + d;
    }
  }

  lemma DivAtLeast(a: nat, d: nat, q: nat)
    requires d > 0 && q * d <= a
    ensures q <= a / d
  {
    DivBounds(a, d);
    if a / d + 1 <= q {
      MulMono(a / d + 1, q, d);
      Successor(a / d, d);
    }
  }

  lemma DivBelow(a: nat, d: nat, q: nat)
    requires d > 0 && a < q * d
    ensures a / d < q
  {
    DivBounds(a, d);
    if q <= a / d {
      MulMono(q, a / d, d);
    }
  }

  lemma Successor(q: nat, d: nat)
    ensures (q + 1) * d == q * d + d
  {}

  lemma QuotientIs(a: nat, d: nat, q: nat)
    requires d > 0
    ensures a / d == q <==> q * d <= a < q * d + d
  {
    DivBounds(a, d);
    Successor(q, d);
    if q * d <= a < q * d + d {
      DivAtLeast(a, d, q);
      DivBelow(a, d, q + 1);
    }
  }

  /** Bucket b is the ranks from FirstRank(b) up to FirstRank(b + 1). */
  lemma BucketIsInterval(i: nat, b: nat, buckets: nat, n: nat)
    requires buckets > 0 && n > 0
    ensures BucketOf(i, buckets, n) == b <==> FirstRank(b, buckets, n) <= i < FirstRank(b + 1, buckets, n)
  {
    QuotientIs(i * buckets, n, b);
    CeilingIsLeast(b * n, buckets, i);
    CeilingIsLeast((b + 1) * n, buckets, i);
    assert (b + 1) * n == b * n + n;
  }

  lemma FirstRanks(b: nat, buckets: nat, n: nat)
    requires buckets > 0 && b < buckets
    ensures FirstRank(0, buckets, n) == 0 && FirstRank(buckets, buckets, n) == n
    ensures FirstRank(b, buckets, n) <= FirstRank(b + 1, buckets, n) <= n
  {
    CeilingIsLeast(0, buckets, 0);
    CeilingIsLeast(buckets * n, buckets, n);
    if n > 0 {
      CeilingIsLeast(buckets * n, buckets, n - 1);
      assert (n - 1) * buckets == buckets * n - buckets;
    }
    MulMono(b + 1, buckets, n);
    CeilingIsLeast((b + 1) * n, buckets, n);
    assert (b + 1) * n == b * n + n;
    CeilingIsLeast(b * n, buckets, FirstRank(b + 1, buckets, n));
    CeilingIsLeast((b + 1) * n, buckets, FirstRank(b + 1, buckets, n));
  }

  /** Ranks map to buckets in order, and every bucket number is below `buckets`. */
  lemma BucketsInOrder(i: nat, j: nat, buckets: nat, n: nat)
    requires i <= j < n && buckets > 0
    ensures BucketOf(i, buckets, n) <= BucketOf(j, buckets, n) < buckets
  {
    MulMono(i, j, buckets);
    DivBounds(i * buckets, n);
    DivAtLeast(j * buckets, n, i * buckets / n);
    MulMono(j + 1, n, buckets);
    Successor(j, buckets);
    DivBelow(j * buckets, n, buckets);
  }

  lemma AddQuotient(x: nat, n: nat, d: nat)
    requires d > 0
    ensures n / d <= (x + n) / d - x / d <= n / d + (if n % d == 0 then 0 else 1)
  {
    var q, p := n / d, x / d;
    DivBounds(n, d);
    DivBounds(x, d);
    SumOfMultiples(p, q, d);
    DivAtLeast(x + n, d, p + q);
    Successor(p + q, d);
    Successor(p + q + 1, d);
    DivBelow(x + n, d, p + q + 2);
    if n % d == 0 {
      DivBelow(x + n, d, p + q + 1);
    }
  }

  lemma SumOfMultiples(p: nat, q: nat, d: nat)
    ensures (p + q) * d == p * d + q * d
  {}

  /** Every bucket holds n / buckets samples, rounded down or up; with no more buckets than
      samples none is empty. */
  lemma BucketSizes(b: nat, buckets: nat, n: nat)
    requires b < buckets
    ensures var size := FirstRank(b + 1, buckets, n) - FirstRank(b, buckets, n);
            && n / buckets <= size <= n / buckets + (if n % buckets == 0 then 0 else 1)
            && (buckets <= n ==> size >= 1)
  {
    AddQuotient(b * n + buckets - 1, n, buckets);
    assert (b + 1) * n == b * n + n;
    if buckets <= n {
      QuotientIs(n, buckets, n / buckets);
      assert n / buckets >= 1;
    }
  }

  /** With at least as many buckets as samples, every sample keeps its own point. */
  lemma SparseIsInjective(i: nat, j: nat, buckets: nat, n: nat)
    requires i < j < n <= buckets
    ensures BucketOf(i, buckets, n) < BucketOf(j, buckets, n)
  {
    MulMono(i + 1, j, buckets);
    Successor(i, buckets);
    DivBounds(i * buckets, n);
    QuotientAbove(i * buckets, j * buckets, n, i * buckets / n);
  }

  lemma QuotientAbove(x: nat, y: nat, d: nat, q: nat)
    requires d > 0 && q * d <= x && x + d <= y
    ensures q < y / d
  {
    NextMultiple(x, y, d, q);
    DivAtLeast(y, d, q + 1);
  }

  lemma NextMultiple(x: nat, y: nat, d: nat, q: nat)
    requires q * d <= x && x + d <= y
    ensures (q + 1) * d <= y
  {}

  // ---- the points --------------------------------------------------------------------

  datatype Point = Point(bucket: nat, count: nat, mean: real, minimum: real, maximum: real, time: real)

  /** The entries whose rank falls into bucket b, among the first `upto`. */
  function Ranked(v: seq<real>, buckets: nat, b: nat, upto: nat): seq<real>
    requires upto <= |v|
  {
    if upto == 0 then []
    else Ranked(v, buckets, b, upto - 1) + if BucketOf(upto - 1, buckets, |v|) == b then [v[upto - 1]] else []
  }

  /** The group of bucket b, if any sample falls into it. */
  function Grouped(values: seq<real>, times: seq<real>, buckets: nat, b: nat): seq<Point>
    requires |values| == |times|
  {
    var vs, ts := Ranked(values, buckets, b, |values|), Ranked(times, buckets, b, |times|);
    if vs == [] || ts == [] then [] else [Point(b, |vs|, Mean(vs), Min(vs), Max(vs), Min(ts))]
  }

  /** GROUP BY bucket ORDER BY bucket, for the buckets below `b`. */
  function PointsBelow(values: seq<real>, times: seq<real>, buckets: nat, b: nat): seq<Point>
    requires |values| == |times|
  {
    if b == 0 then [] else PointsBelow(values, times, buckets, b - 1) + Grouped(values, times, buckets, b - 1)
  }

  /** The downsampled series of one metric; fewer than one bucket counts as one. */
  function Downsample(values: seq<real>, times: seq<real>, buckets: int): seq<Point>
    requires |values| == |times|
  {
    var count := if buckets < 1 then 1 else buckets;
    PointsBelow(values, times, count, count)
  }

  lemma {:induction false} RankedIsSlice(v: seq<real>, buckets: nat, b: nat, upto: nat, from: nat, to: nat)
    requires b < buckets && upto <= |v|
    requires from == FirstRank(b, buckets, |v|) && to == FirstRank(b + 1, buckets, |v|) && from <= to <= |v|
    ensures Ranked(v, buckets, b, upto)
            == if upto <= from then [] else if upto <= to then v[from..upto] else v[from..to]
  {
    hide FirstRank, BucketOf;
    if upto > 0 {
      RankedIsSlice(v, buckets, b, upto - 1, from, to);
      BucketIsInterval(upto - 1, b, buckets, |v|);
    }
  }

  function TotalCount(points: seq<Point>): nat {
    if points == [] then 0 else TotalCount(points[..|points| - 1]) + points[|points| - 1].count
  }

  /** The sum of the bucket means, each weighted by its count. */
  function WeightedSum(points: seq<Point>): real {
    if points == [] then 0.0 else
      var last := points[|points| - 1];
      WeightedSum(points[..|points| - 1]) + Times(last.count as real, last.mean)
  }

  function Minima(points: seq<Point>): seq<real> {
    seq(|points|, i requires 0 <= i < |points| => points[i].minimum)
  }

  function Maxima(points: seq<Point>): seq<real> {
    seq(|points|, i requires 0 <= i < |points| => points[i].maximum)
  }

  lemma SumsOfPoint(points: seq<Point>, last: Point)
    ensures TotalCount(points + [last]) == TotalCount(points) + last.count
    ensures WeightedSum(points + [last]) == WeightedSum(points) + Times(last.count as real, last.mean)
    ensures Minima(points + [last]) == Minima(points) + [last.minimum]
    ensures Maxima(points + [last]) == Maxima(points) + [last.maximum]
  {
    assert (points + [last])[..|points|] == points;
  }

  lemma MinOfOne(x: real)
    ensures Min([x]) == x && Max([x]) == x
  {}

  /** Adding a non-empty slice to what the points say about the prefix before it. */
  lemma PointSays(prefix: seq<real>, slice: seq<real>, points: seq<Point>, p: Point)
    requires slice != [] && p.count == |slice|
    requires p.mean == Mean(slice) && p.minimum == Min(slice) && p.maximum == Max(slice)
    requires Says(points, prefix)
    ensures Says(points + [p], prefix + slice)
  {
    hide Sum, Min, Max, Mean, Times, TotalCount, WeightedSum, Minima, Maxima;
    SumsOfPoint(points, p);
    MeanTimesCount(slice);
    SumConcat(prefix, slice);
    MinOfOne(p.minimum);
    MinOfOne(p.maximum);
    NoExtremes();
    if prefix == [] {
      assert prefix + slice == slice;
      assert [] + [p.minimum] == [p.minimum] && [] + [p.maximum] == [p.maximum];
    } else {
      SomeExtremes(points);
      ExtremesConcat(prefix, slice);
      ExtremesConcat(Minima(points), [p.minimum]);
      ExtremesConcat(Maxima(points), [p.maximum]);
    }
  }

  lemma NoExtremes()
    ensures Minima([]) == [] && Maxima([]) == []
  {}

  lemma SomeExtremes(points: seq<Point>)
    requires points != []
    ensures Minima(points) != [] && Maxima(points) != []
  {}

  /** The points say of the values: how many, their sum, their least and their greatest. */
  ghost predicate Says(points: seq<Point>, values: seq<real>) {
    && TotalCount(points) == |values|
    && WeightedSum(points) == Sum(values)
    && (points == [] <==> values == [])
    && (values != [] ==> Min(Minima(points)) == Min(values) && Max(Maxima(points)) == Max(values))
  }

  lemma AtTheEnd(v: seq<real>, from: nat, to: nat)
    requires from <= to <= |v|
    ensures v[from..to] == if |v| <= from then [] else if |v| <= to then v[from..|v|] else v[from..to]
  {}

  /** A bucket's point is made of the samples between its first rank and the next one's. */
  lemma GroupedIsSlice(values: seq<real>, times: seq<real>, buckets: nat, b: nat, from: nat, to: nat)
    requires |values| == |times| && b < buckets
    requires from == FirstRank(b, buckets, |values|) && to == FirstRank(b + 1, buckets, |values|)
             && from <= to <= |values|
    ensures from == to ==> Grouped(values, times, buckets, b) == []
    ensures from < to ==>
              var vs := values[from..to];
              Grouped(values, times, buckets, b)
              == [Point(b, to - from, Mean(vs), Min(vs), Max(vs), Min(times[from..to]))]
  {
    hide FirstRank, BucketOf, Ranked, Mean, Min, Max;
    RankedIsSlice(values, buckets, b, |values|, from, to);
    RankedIsSlice(times, buckets, b, |times|, from, to);
    AtTheEnd(values, from, to);
    AtTheEnd(times, from, to);
  }

  lemma Prefixes(v: seq<real>, from: nat, to: nat)
    requires from <= to <= |v|
    ensures v[..from] + v[from..to] == v[..to] && v[..0] == []
  {}

  lemma NextPoints(values: seq<real>, times: seq<real>, buckets: nat, b: nat)
    requires |values| == |times|
    ensures PointsBelow(values, times, buckets, 0) == []
    ensures PointsBelow(values, times, buckets, b + 1)
            == PointsBelow(values, times, buckets, b) + Grouped(values, times, buckets, b)
  {
    hide Grouped;
  }

  lemma Nothing(points: seq<Point>)
    ensures points + [] == points
  {}

  lemma SaysNothing(values: seq<real>)
    ensures Says([], values[..0])
  {}

  lemma {:induction false} PointsSayPrefix(values: seq<real>, times: seq<real>, buckets: nat, b: nat)
    requires |values| == |times| && b <= buckets && buckets > 0
    ensures FirstRank(b, buckets, |values|) <= |values|
    ensures Says(PointsBelow(values, times, buckets, b), values[..FirstRank(b, buckets, |values|)])
  {
    hide *;
    if b == 0 {
      NextPoints(values, times, buckets, 0);
      FirstRanks(0, buckets, |values|);
      SaysNothing(values);
    } else {
      FirstRanks(b - 1, buckets, |values|);
      var from, to := FirstRank(b - 1, buckets, |values|), FirstRank(b, buckets, |values|);
      PointsSayPrefix(values, times, buckets, b - 1);
      NextPoints(values, times, buckets, b - 1);
      GroupedIsSlice(values, times, buckets, b - 1, from, to);
      Prefixes(values, from, to);
      if from < to {
        PointSays(values[..from], values[from..to], PointsBelow(values, times, buckets, b - 1),
                  Grouped(values, times, buckets, b - 1)[0]);
      } else {
        Nothing(PointsBelow(values, times, buckets, b - 1));
        assert values[..from] == values[..to];
      }
    }
  }

  /** Nothing that the aggregate of the whole series says is lost: the counts add up to
      the number of samples, the weighted bucket means give its mean, and the bucket
      minima and maxima its minimum and maximum. */
  lemma DownsamplePreserves(values: seq<real>, times: seq<real>, buckets: int)
    requires |values| == |times| && values != []
    ensures var points := Downsample(values, times, buckets);
            && points != [] && TotalCount(points) == |values|
            && WeightedSum(points) / |values| as real == Mean(values)
            && Min(Minima(points)) == Min(values) && Max(Maxima(points)) == Max(values)
  {
    var count := if buckets < 1 then 1 else buckets;
    PointsSayPrefix(values, times, count, count);
    FirstRanks(0, count, |values|);
    hide Min, Max, Sum, PointsBelow;
    assert values[..|values|] == values;
  }

  /** A point stands for n / buckets samples, rounded down or up. */
  predicate FairPoint(p: Point, n: nat, buckets: nat)
    requires buckets > 0
  {
    p.count >= 1 && n / buckets <= p.count <= n / buckets + (if n % buckets == 0 then 0 else 1)
  }

  /** At most `buckets` points, in bucket order, each standing for its fair share; with no
      more buckets than samples, one for every bucket. */
  lemma {:induction false} PointsInOrder(values: seq<real>, times: seq<real>, buckets: nat, b: nat)
    requires |values| == |times| && b <= buckets && buckets > 0
    ensures var points, n := PointsBelow(values, times, buckets, b), |values|;
            && |points| <= b && (buckets <= n ==> |points| == b)
            && (forall i :: 0 <= i < |points| ==> points[i].bucket < b && FairPoint(points[i], n, buckets))
            && (forall i, j :: 0 <= i < j < |points| ==> points[i].bucket < points[j].bucket)
  {
    hide *;
    NextPoints(values, times, buckets, if b == 0 then 0 else b - 1);
    if b > 0 {
      PointsInOrder(values, times, buckets, b - 1);
      GroupIsFair(values, times, buckets, b - 1);
    }
  }

  lemma GroupIsFair(values: seq<real>, times: seq<real>, buckets: nat, b: nat)
    requires |values| == |times| && b < buckets
    ensures var group := Grouped(values, times, buckets, b);
            && |group| <= 1 && (buckets <= |values| ==> |group| == 1)
            && (|group| == 1 ==> group[0].bucket == b && FairPoint(group[0], |values|, buckets))
  {
    hide FirstRank, Grouped, Min, Max, Mean;
    FirstRanks(b, buckets, |values|);
    BucketSizes(b, buckets, |values|);
    GroupedIsSlice(values, times, buckets, b, FirstRank(b, buckets, |values|), FirstRank(b + 1, buckets, |values|));
  }
}

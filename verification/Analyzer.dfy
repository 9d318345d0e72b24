/** Per-metric statistics, trends and comparisons of a run's samples. */
module Analyzer {
  import opened Downsampling
  import opened Sorting
  import opened Statistics
  import opened Wrappers

  // ---- grouping -------------------------------------------------------------------

  /** The rows of one metric, in their order. */
  function Of<T>(rows: seq<T>, name: string, nameOf: T -> string): seq<T> {
    if rows == [] then [] else
      var last := rows[|rows| - 1];
      Of(rows[..|rows| - 1], name, nameOf) + if nameOf(last) == name then [last] else []
  }

  function Names<T>(rows: seq<T>, nameOf: T -> string): set<string> {
    set i | 0 <= i < |rows| :: nameOf(rows[i])
  }

  /** Every name is listed once, with all of its rows. */
  ghost predicate Grouped<T>(names: seq<string>, grouped: map<string, seq<T>>, rows: seq<T>, nameOf: T -> string) {
    && grouped.Keys == Names(rows, nameOf)
    && (forall name :: name in grouped ==> grouped[name] == Of(rows, name, nameOf) != [])
    && (forall name :: name !in grouped ==> Of(rows, name, nameOf) == [])
    && (forall name :: name in names <==> name in grouped)
    && (forall i, j :: 0 <= i < j < |names| ==> names[i] != names[j])
  }

  lemma GroupedNext<T>(
      names: seq<string>, grouped: map<string, seq<T>>, rows: seq<T>, k: nat, nameOf: T -> string)
    requires k < |rows| && Grouped(names, grouped, rows[..k], nameOf)
    ensures var name := nameOf(rows[k]);
            var sofar := if name in grouped then grouped[name] else [];
            Grouped(if name in grouped then names else names + [name], grouped[name := sofar + [rows[k]]],
                    rows[..k + 1], nameOf)
  {
    hide Of, Names;
    NextRow(rows, k, nameOf);
    var name := nameOf(rows[k]);
    var sofar := if name in grouped then grouped[name] else [];
    assert sofar == Of(rows[..k], name, nameOf);
    forall other | other != name
      ensures Of(rows[..k + 1], other, nameOf) == Of(rows[..k], other, nameOf)
    {
      assert Of(rows[..k], other, nameOf) + [] == Of(rows[..k], other, nameOf);
    }
  }

  lemma NoGroups<T>(rows: seq<T>, nameOf: T -> string)
    ensures Grouped([], map[], rows[..0], nameOf)
  {}

  /** The distinct names in the order they first appear, and each name's rows. */
  method Group<T>(rows: seq<T>, nameOf: T -> string) returns (names: seq<string>, grouped: map<string, seq<T>>)
    ensures Grouped(names, grouped, rows, nameOf)
  {
    hide Grouped;
    names, grouped := [], map[];
    NoGroups(rows, nameOf);
    for k := 0 to |rows|
      invariant Grouped(names, grouped, rows[..k], nameOf)
    {
      var name := nameOf(rows[k]);
      GroupedNext(names, grouped, rows, k, nameOf);
      ghost var before := grouped;
      if name !in grouped {
        names := names + [name];
        grouped := grouped[name := []];
      }
      grouped := grouped[name := grouped[name] + [rows[k]]];
      assert grouped == before[name := (if name in before then before[name] else []) + [rows[k]]];
    }
    assert rows[..|rows|] == rows;
  }

  lemma NextRow<T>(rows: seq<T>, k: nat, nameOf: T -> string)
    requires k < |rows|
    ensures Names(rows[..k + 1], nameOf) == Names(rows[..k], nameOf) + {nameOf(rows[k])}
    ensures forall name :: Of(rows[..k + 1], name, nameOf)
                           == Of(rows[..k], name, nameOf) + if nameOf(rows[k]) == name then [rows[k]] else []
  {
    assert rows[..k + 1][..k] == rows[..k];
    forall name
      ensures name in Names(rows[..k + 1], nameOf) <==> name in Names(rows[..k], nameOf) + {nameOf(rows[k])}
    {
      if name in Names(rows[..k], nameOf) {
        var i :| 0 <= i < k && nameOf(rows[..k][i]) == name;
        assert rows[..k + 1][i] == rows[..k][i];
      }
      if name in Names(rows[..k + 1], nameOf) {
        var i :| 0 <= i < k + 1 && nameOf(rows[..k + 1][i]) == name;
        assert i < k ==> rows[..k][i] == rows[..k + 1][i];
      }
      assert rows[..k + 1][k] == rows[k];
    }
  }

  // ---- statistics -------------------------------------------------------------------

  datatype Sample = Sample(name: string, value: real)

  /** The population variance stands for the standard deviation, its square root. */
  datatype MetricStats = MetricStats(count: nat, mean: real, variance: real, minimum: real, maximum: real)

  const SAMPLE_NAME := (s: Sample) => s.name

  function Values(samples: seq<Sample>): (v: seq<real>)
    ensures |v| == |samples|
  {
    seq(|samples|, i requires 0 <= i < |samples| => samples[i].value)
  }

  /** The variance is the exact one of the values, in the form that needs one pass. */
  function StatsOf(v: seq<real>): MetricStats
    requires v != []
  {
    MetricStats(|v|, Mean(v), if |v| > 1 then OnePassVariance(v) else 0.0, Min(v), Max(v))
  }

  ghost predicate AreStats(stats: map<string, MetricStats>, samples: seq<Sample>) {
    && stats.Keys == Names(samples, SAMPLE_NAME)
    && forall name :: name in stats ==>
         Of(samples, name, SAMPLE_NAME) != [] && stats[name] == StatsOf(Values(Of(samples, name, SAMPLE_NAME)))
  }

  method ComputeStats(samples: seq<Sample>) returns (stats: map<string, MetricStats>)
    ensures AreStats(stats, samples)
  {
    var names, grouped := Group(samples, SAMPLE_NAME);
    stats := map[];
    for k := 0 to |names|
      invariant forall name :: name in stats <==> name in names[..k]
      invariant forall name :: name in stats ==> stats[name] == StatsOf(Values(grouped[name]))
    {
      stats := stats[names[k] := StatsOf(Values(grouped[names[k]]))];
    }
  }

  /** A row of the aggregate query; SQL's AVG may be NULL. */
  datatype Row = Row(name: string, count: nat, mean: real, minimum: real, maximum: real, variance: Option<real>)

  /** What GROUP BY name yields for one metric: the variance is taken in a second pass,
      about the mean the join brings in. */
  function AggregateOf(name: string, v: seq<real>): Row
    requires v != []
  {
    Row(name, |v|, Mean(v), Min(v), Max(v), Some(Variance(v)))
  }

  /** The answer of the aggregate query: one row per metric, in any order. */
  ghost predicate IsAnswer(rows: seq<Row>, samples: seq<Sample>) {
    && (forall i, j :: 0 <= i < j < |rows| ==> rows[i].name != rows[j].name)
    && (forall name :: name in Names(samples, SAMPLE_NAME) ==> exists i :: 0 <= i < |rows| && rows[i].name == name)
    && forall i :: 0 <= i < |rows| ==>
         && rows[i].name in Names(samples, SAMPLE_NAME)
         && Of(samples, rows[i].name, SAMPLE_NAME) != []
         && rows[i] == AggregateOf(rows[i].name, Values(Of(samples, rows[i].name, SAMPLE_NAME)))
  }

  function StatsOfRow(row: Row): MetricStats {
    var variance := if row.variance.Some? then row.variance.value else 0.0;
    MetricStats(row.count, row.mean, if row.count > 1 then (if variance > 0.0 then variance else 0.0) else 0.0,
                row.minimum, row.maximum)
  }

  /** Every row fills the entry of its name; of two with one name the later stays. */
  function FromRows(rows: seq<Row>): map<string, MetricStats> {
    if rows == [] then map[] else
      var last := rows[|rows| - 1];
      FromRows(rows[..|rows| - 1])[last.name := StatsOfRow(last)]
  }

  method StatsFromAggregates(rows: seq<Row>) returns (stats: map<string, MetricStats>)
    ensures stats == FromRows(rows)
  {
    stats := map[];
    for k := 0 to |rows|
      invariant stats == FromRows(rows[..k])
    {
      assert rows[..k + 1][..k] == rows[..k];
      stats := stats[rows[k].name := StatsOfRow(rows[k])];
    }
    assert rows[..|rows|] == rows;
  }

  lemma {:induction false} DistinctRows(rows: seq<Row>)
    requires forall i, j :: 0 <= i < j < |rows| ==> rows[i].name != rows[j].name
    ensures forall name :: name in FromRows(rows) <==> exists i :: 0 <= i < |rows| && rows[i].name == name
    ensures forall i :: 0 <= i < |rows| ==>
              rows[i].name in FromRows(rows) && FromRows(rows)[rows[i].name] == StatsOfRow(rows[i])
  {
    if rows != [] {
      hide StatsOfRow;
      var front, last := rows[..|rows| - 1], rows[|rows| - 1];
      DistinctRows(front);
      forall i | 0 <= i < |rows|
        ensures rows[i].name in FromRows(rows) && FromRows(rows)[rows[i].name] == StatsOfRow(rows[i])
      {
        if i < |front| {
          assert rows[i] == front[i];
        }
      }
      forall name | name in FromRows(rows)
        ensures exists i :: 0 <= i < |rows| && rows[i].name == name
      {
        if name != last.name {
          assert name in FromRows(front);
          var i :| 0 <= i < |front| && front[i].name == name;
          assert rows[i].name == name;
        } else {
          assert rows[|front|].name == name;
        }
      }
    }
  }

  lemma RowAgrees(name: string, v: seq<real>)
    requires v != []
    ensures StatsOfRow(AggregateOf(name, v)) == StatsOf(v)
  {
    hide Mean, Min, Max, Variance, OnePassVariance;
    VarianceFormsAgree(v);
  }

  /** The reduction in SQL and the one in memory report the same statistics, however the
      metrics interleave in the samples and in whatever order the rows come. */
  lemma AggregatesAgree(samples: seq<Sample>, rows: seq<Row>)
    requires IsAnswer(rows, samples)
    ensures AreStats(FromRows(rows), samples)
  {
    hide Names, Of, Values, FromRows, StatsOf, StatsOfRow, AggregateOf;
    DistinctRows(rows);
    var stats := FromRows(rows);
    forall name | name in stats
      ensures Of(samples, name, SAMPLE_NAME) != [] && stats[name] == StatsOf(Values(Of(samples, name, SAMPLE_NAME)))
    {
      var i :| 0 <= i < |rows| && rows[i].name == name;
      RowAgrees(name, Values(Of(samples, name, SAMPLE_NAME)));
    }
  }

  /** A row without a variance, of a single sample, or whose variance rounding has made negative, has none; any other
      keeps its own. */
  lemma RowGuards(row: Row)
    ensures var s := StatsOfRow(row);
            && s.count == row.count && s.mean == row.mean && s.minimum == row.minimum && s.maximum == row.maximum
            && s.variance == match row.variance
                             case None => 0.0
                             case Some(v) => if row.count > 1 && v >= 0.0 then v else 0.0
  {}

  /** What either path reports for a metric is sound: the mean lies between the extremes,
      the variance is not negative and is E[x * x] - mean * mean. */
  lemma StatsAreSound(samples: seq<Sample>, stats: map<string, MetricStats>, name: string)
    requires AreStats(stats, samples) && name in stats
    ensures var s, v := stats[name], Values(Of(samples, name, SAMPLE_NAME));
            && s.count == |v| > 0
            && s.minimum <= s.mean <= s.maximum
            && s.variance == Dot(v, v) / |v| as real - s.mean * s.mean
            && s.variance >= 0.0
            && s.minimum in v && s.maximum in v
            && forall x :: x in v ==> s.minimum <= x <= s.maximum
  {
    var v := Values(Of(samples, name, SAMPLE_NAME));
    hide Names, Of, Values, Mean, Min, Max, Variance, Dot;
    VarianceFormsAgree(v);
    MeanBetweenExtremes(v);
    MinIsLeast(v);
    MaxIsGreatest(v);
  }

  // ---- trends ------------------------------------------------------------------------

  /** A downsampled row; the timestamp is in absolute hours. */
  datatype Bucket = Bucket(name: string, bucket: int, mean: real, hours: real)

  datatype Trend = Trend(
    slope: real, startMean: real, endMean: real, driftPct: Option<real>, span: real, points: nat)

  const BUCKET_NAME := (b: Bucket) => b.name
  const BUCKET_RANK := (b: Bucket) => b.bucket as real

  function Means(rows: seq<Bucket>): (v: seq<real>)
    ensures |v| == |rows|
  {
    seq(|rows|, i requires 0 <= i < |rows| => rows[i].mean)
  }

  function Hours(rows: seq<Bucket>): (v: seq<real>)
    ensures |v| == |rows|
  {
    seq(|rows|, i requires 0 <= i < |rows| => rows[i].hours)
  }

  /** How many points make an edge: the fraction's share of them in whole points, but at least one and no more
      than there are. */
  function Edge(points: nat, fraction: real): (edge: nat)
    requires points > 0
    ensures 1 <= edge <= points
    ensures edge > 1 ==> edge as real <= points as real * fraction
    ensures edge < points ==> points as real * fraction < edge as real + 1.0
  {
    var wanted := (points as real * fraction).Floor;
    if wanted < 1 then 1 else if wanted > points then points else wanted
  }

  function TrendOf(sorted: seq<Bucket>, fraction: real): Trend
    requires sorted != []
  {
    var n, values, times := |sorted|, Means(sorted), Hours(sorted);
    var hours := Shifted(times, times[0]);
    var span := hours[n - 1] - hours[0];
    var edge := Edge(n, fraction);
    var startMean, endMean := Mean(values[..edge]), Mean(values[n - edge..]);
    Trend(
      if n < 2 || span <= 0.0 then 0.0 else Slope(hours, values),
      startMean, endMean,
      if startMean != 0.0 then Some((endMean - startMean) / startMean * 100.0) else None,
      span, n)
  }

  method ComputeTrend(buckets: seq<Bucket>, fraction: real) returns (trends: map<string, Trend>)
    ensures trends.Keys == Names(buckets, BUCKET_NAME)
    ensures forall name :: name in trends ==>
              var rows := SortBy(Of(buckets, name, BUCKET_NAME), BUCKET_RANK);
              rows != [] && trends[name] == TrendOf(rows, fraction)
  {
    hide TrendOf;
    var names, grouped := Group(buckets, BUCKET_NAME);
    trends := map[];
    for k := 0 to |names|
      invariant forall name :: name in trends <==> name in names[..k]
      invariant forall name :: name in trends ==>
                  var rows := SortBy(grouped[name], BUCKET_RANK);
                  rows != [] && trends[name] == TrendOf(rows, fraction)
    {
      var rows := SortBy(grouped[names[k]], BUCKET_RANK);
      SortedIsThere(grouped[names[k]]);
      trends := trends[names[k] := TrendOf(rows, fraction)];
    }
  }

  lemma SortedIsThere(rows: seq<Bucket>)
    requires rows != []
    ensures SortBy(rows, BUCKET_RANK) != []
  {
    SortByOrders(rows, BUCKET_RANK);
    assert rows[0] in multiset(rows);
  }

  /** No line through the points, on the absolute time axis, has a smaller squared error than the
      one with the reported slope through the mean point, whenever the span is positive. */
  lemma TrendIsBestFit(sorted: seq<Bucket>, fraction: real, a: real, b: real)
    requires sorted != [] && TrendOf(sorted, fraction).span > 0.0
    ensures var x, y, slope := Hours(sorted), Means(sorted), TrendOf(sorted, fraction).slope;
            SquaredError(x, y, Mean(y) - Times(slope, Mean(x)), slope) <= SquaredError(x, y, a, b)
  {
    hide Mean, Slope, SquaredError, Edge;
    SlopeIsOfAbsoluteTimes(sorted, fraction);
    LeastSquares(Hours(sorted), Means(sorted), a, b);
  }

  lemma SlopeIsOfAbsoluteTimes(sorted: seq<Bucket>, fraction: real)
    requires sorted != [] && TrendOf(sorted, fraction).span > 0.0
    ensures TrendOf(sorted, fraction).slope == Slope(Hours(sorted), Means(sorted))
    ensures Hours(sorted)[|sorted| - 1] > Hours(sorted)[0]
  {
    hide Mean, Slope, Edge;
    SlopeIgnoresOrigin(Hours(sorted), Means(sorted), Hours(sorted)[0]);
  }

  /** A metric that grows by m an hour is reported with slope m. */
  lemma TrendOfALine(sorted: seq<Bucket>, fraction: real, m: real, c: real)
    requires sorted != [] && TrendOf(sorted, fraction).span > 0.0
    requires forall i :: 0 <= i < |sorted| ==> sorted[i].mean == c + m * sorted[i].hours
    ensures TrendOf(sorted, fraction).slope == m
  {
    hide Mean, Slope, Edge;
    SlopeIsOfAbsoluteTimes(sorted, fraction);
    ExactOnALine(Hours(sorted), Means(sorted), m, c);
  }

  lemma MeanOfConstant(v: seq<real>, c: real)
    requires v != [] && forall i :: 0 <= i < |v| ==> v[i] == c
    ensures Mean(v) == c
  {
    hide Mean, Min, Max;
    MeanBetweenExtremes(v);
    MinIsLeast(v);
    MaxIsGreatest(v);
  }

  /** A metric that does not move has no slope and no drift. */
  lemma TrendOfConstant(sorted: seq<Bucket>, fraction: real, c: real)
    requires sorted != [] && forall i :: 0 <= i < |sorted| ==> sorted[i].mean == c
    ensures var t := TrendOf(sorted, fraction);
            && t.slope == 0.0 && t.startMean == c && t.endMean == c
            && t.driftPct == if c == 0.0 then None else Some(0.0)
  {
    var n, values, edge := |sorted|, Means(sorted), Edge(|sorted|, fraction);
    MeanOfConstant(values[..edge], c);
    MeanOfConstant(values[n - edge..], c);
    hide Mean, Slope, Edge;
    if TrendOf(sorted, fraction).span > 0.0 {
      TrendOfALine(sorted, fraction, 0.0, c);
    }
    if c != 0.0 {
      assert 0.0 / c == 0.0;
    }
  }

  /** The first and the last so many rows of a metric. */
  function FirstRows(sorted: seq<Bucket>, edge: nat): seq<Bucket>
    requires edge <= |sorted|
  {
    sorted[..edge]
  }

  function LastRows(sorted: seq<Bucket>, edge: nat): seq<Bucket>
    requires edge <= |sorted|
  {
    sorted[|sorted| - edge..]
  }

  /** The drift is what takes the mean of the first edge to that of the last. */
  lemma DriftTakesStartToEnd(sorted: seq<Bucket>, fraction: real)
    requires sorted != []
    ensures var t, edge := TrendOf(sorted, fraction), Edge(|sorted|, fraction);
            && Means(FirstRows(sorted, edge)) != [] && Means(LastRows(sorted, edge)) != []
            && t.startMean == Mean(Means(FirstRows(sorted, edge)))
            && t.endMean == Mean(Means(LastRows(sorted, edge)))
            && (t.driftPct == None <==> t.startMean == 0.0)
            && (t.driftPct.Some? ==> t.startMean + t.startMean * (t.driftPct.value / 100.0) == t.endMean)
            && t.points == |sorted| && t.span == sorted[|sorted| - 1].hours - sorted[0].hours
  {
    hide Mean, Slope, Edge;
    var t, edge := TrendOf(sorted, fraction), Edge(|sorted|, fraction);
    assert Means(FirstRows(sorted, edge)) == Means(sorted)[..edge];
    assert Means(LastRows(sorted, edge)) == Means(sorted)[|sorted| - edge..];
    if t.startMean != 0.0 {
      PercentOf(t.startMean, t.endMean);
    }
  }

  /** A metric that never falls is not reported to have fallen. */
  lemma RisingDriftsUp(sorted: seq<Bucket>, fraction: real)
    requires sorted != []
    requires forall i, j :: 0 <= i < j < |sorted| ==> sorted[i].mean <= sorted[j].mean
    ensures var t := TrendOf(sorted, fraction);
            && t.startMean <= t.endMean && sorted[0].mean <= t.startMean && t.endMean <= sorted[|sorted| - 1].mean
            && (t.startMean > 0.0 ==> t.driftPct.Some? && t.driftPct.value >= 0.0)
  {
    hide Mean, Slope, Edge, TrendOf;
    var edge, values := Edge(|sorted|, fraction), Means(sorted);
    DriftTakesStartToEnd(sorted, fraction);
    EdgesInOrder(values, edge);
    assert Means(FirstRows(sorted, edge)) == values[..edge];
    assert Means(LastRows(sorted, edge)) == values[|sorted| - edge..];
    var t := TrendOf(sorted, fraction);
    if t.startMean > 0.0 {
      SignOfShare(t.startMean, t.driftPct.value / 100.0);
    }
  }

  lemma EdgesInOrder(values: seq<real>, edge: nat)
    requires 1 <= edge <= |values| && forall i, j :: 0 <= i < j < |values| ==> values[i] <= values[j]
    ensures values[0] <= Mean(values[..edge]) <= Mean(values[|values| - edge..]) <= values[|values| - 1]
  {
    var start, end := values[..edge], values[|values| - edge..];
    hide Mean, Min, Max;
    MeansInOrder(start, end);
    MeanBetweenExtremes(start);
    MeanBetweenExtremes(end);
    MinIsLeast(start);
    MaxIsGreatest(end);
  }

  lemma SignOfShare(start: real, share: real)
    requires start > 0.0
    ensures start + start * share >= start ==> share >= 0.0
  {
    if share < 0.0 {
      var loss := start * -share;
      Positive(start, -share);
      assert loss / start == -share;
      if loss == 0.0 {
        assert 0.0 / start == 0.0;
      }
    }
  }

  lemma {:induction false} SumsInOrder(a: seq<real>, b: seq<real>)
    requires |a| == |b| && forall i :: 0 <= i < |a| ==> a[i] <= b[i]
    ensures Sum(a) <= Sum(b)
  {
    if a != [] {
      SumsInOrder(a[..|a| - 1], b[..|b| - 1]);
    }
  }

  lemma MeansInOrder(a: seq<real>, b: seq<real>)
    requires |a| == |b| > 0 && forall i :: 0 <= i < |a| ==> a[i] <= b[i]
    ensures Mean(a) <= Mean(b)
  {
    SumsInOrder(a, b);
    hide Sum;
    QuotientGrows(|a| as real, Sum(a), Sum(b));
  }

  lemma QuotientGrows(n: real, a: real, b: real)
    requires n > 0.0 && a <= b
    ensures a / n <= b / n
  {
    var p, q := a / n, b / n;
    assert a == n * p && b == n * q;
  }

  function Backwards<T>(rows: seq<T>): seq<T> {
    seq(|rows|, i requires 0 <= i < |rows| => rows[|rows| - 1 - i])
  }

  lemma {:induction false} SumBackwards(v: seq<real>)
    ensures Sum(Backwards(v)) == Sum(v)
  {
    if v != [] {
      var n := |v| - 1;
      SumBackwards(v[..n]);
      assert Backwards(v) == [v[n]] + Backwards(v[..n]);
      SumConcat([v[n]], Backwards(v[..n]));
      assert [v[n]][..0] == [];
      assert Sum([v[n]]) == v[n];
    }
  }

  lemma MeanBackwards(v: seq<real>)
    requires v != []
    ensures Mean(Backwards(v)) == Mean(v)
  {
    SumBackwards(v);
  }

  lemma EdgesBackwards(sorted: seq<Bucket>, edge: nat)
    requires edge <= |sorted|
    ensures Means(FirstRows(Backwards(sorted), edge)) == Backwards(Means(LastRows(sorted, edge)))
    ensures Means(LastRows(Backwards(sorted), edge)) == Backwards(Means(FirstRows(sorted, edge)))
  {}

  /** Told backwards, a metric starts where it ended. */
  lemma BackwardsSwapsEdges(sorted: seq<Bucket>, fraction: real)
    requires sorted != []
    ensures var t, back := TrendOf(sorted, fraction), TrendOf(Backwards(sorted), fraction);
            back.startMean == t.endMean && back.endMean == t.startMean
  {
    var edge, back := Edge(|sorted|, fraction), Backwards(sorted);
    DriftTakesStartToEnd(sorted, fraction);
    DriftTakesStartToEnd(back, fraction);
    hide Slope, Edge, TrendOf, Mean, Means, FirstRows, LastRows;
    EdgesBackwards(sorted, edge);
    MeanBackwards(Means(LastRows(sorted, edge)));
    MeanBackwards(Means(FirstRows(sorted, edge)));
  }

  lemma PercentOf(a: real, b: real)
    requires a != 0.0
    ensures a + a * ((b - a) / a * 100.0 / 100.0) == b
  {
    var q := (b - a) / a;
    assert q * 100.0 / 100.0 == q;
    assert a * q == b - a;
  }

  function Later(rows: seq<Bucket>, d: real): seq<Bucket> {
    seq(|rows|, i requires 0 <= i < |rows| => rows[i].(hours := rows[i].hours - d))
  }

  /** Moving the whole run along the clock changes nothing that is reported. */
  lemma TrendIgnoresOrigin(sorted: seq<Bucket>, fraction: real, d: real)
    requires sorted != []
    ensures Later(sorted, d) != [] && TrendOf(Later(sorted, d), fraction) == TrendOf(sorted, fraction)
  {
    hide Mean, Slope, Edge;
    var moved := Later(sorted, d);
    assert Means(moved) == Means(sorted);
    assert Shifted(Hours(moved), Hours(moved)[0]) == Shifted(Hours(sorted), Hours(sorted)[0]);
  }

  /** The rows the downsampling query yields for a metric. */
  function AsRows(name: string, points: seq<Point>): seq<Bucket> {
    seq(|points|, i requires 0 <= i < |points| => Bucket(name, points[i].bucket, points[i].mean, points[i].time))
  }

  /** Sorting the rows of the downsampling query by bucket leaves them as they came. */
  lemma DownsampledIsSorted(name: string, values: seq<real>, times: seq<real>, buckets: int)
    requires |values| == |times|
    ensures var rows := AsRows(name, Downsample(values, times, buckets)); SortBy(rows, BUCKET_RANK) == rows
  {
    var count := if buckets < 1 then 1 else buckets;
    PointsInOrder(values, times, count, count);
    hide PointsBelow, FairPoint, SortBy;
    SortByOrders(AsRows(name, Downsample(values, times, buckets)), BUCKET_RANK);
  }

  // ---- comparison -----------------------------------------------------------------------

  datatype Comparison = Comparison(
    name: string, baselineMean: real, candidateMean: real, deltaPct: Option<real>, regressed: bool)

  function Abs(x: real): real {
    if x < 0.0 then -x else x
  }

  function ComparisonOf(name: string, baseline: real, candidate: real, threshold: real): Comparison {
    if baseline == 0.0 then Comparison(name, baseline, candidate, None, candidate != 0.0)
    else
      var delta := (candidate - baseline) / baseline * 100.0;
      Comparison(name, baseline, candidate, Some(delta), Abs(delta) > threshold)
  }

  /** The metrics of `names`, the baseline's, that the candidate has too. */
  function Shared(names: seq<string>, candidate: map<string, MetricStats>): seq<string> {
    if names == [] then [] else
      var last := names[|names| - 1];
      Shared(names[..|names| - 1], candidate) + if last in candidate then [last] else []
  }

  method Compare(
      names: seq<string>, baseline: map<string, MetricStats>, candidate: map<string, MetricStats>, threshold: real)
    returns (comparisons: seq<Comparison>)
    requires forall name :: name in names ==> name in baseline
    ensures |comparisons| == |Shared(names, candidate)|
    ensures forall i :: 0 <= i < |comparisons| ==>
              var name := Shared(names, candidate)[i];
              && name in baseline && name in candidate
              && comparisons[i] == ComparisonOf(name, baseline[name].mean, candidate[name].mean, threshold)
  {
    hide ComparisonOf;
    comparisons := [];
    for k := 0 to |names|
      invariant |comparisons| == |Shared(names[..k], candidate)|
      invariant forall i :: 0 <= i < |comparisons| ==>
                  var name := Shared(names[..k], candidate)[i];
                  && name in baseline && name in candidate
                  && comparisons[i] == ComparisonOf(name, baseline[name].mean, candidate[name].mean, threshold)
    {
      var name := names[k];
      assert names[..k + 1][..k] == names[..k];
      if name in candidate {
        comparisons := comparisons + [ComparisonOf(name, baseline[name].mean, candidate[name].mean, threshold)];
      }
    }
    assert names[..|names|] == names;
  }

  lemma QuotientSize(x: real, b: real, q: real, scale: real)
    requires b != 0.0 && q == x / b && scale > 0.0
    ensures Abs(q * scale) * Abs(b) == Abs(x) * scale
  {
    assert q * b == x;
    assert Abs(q * scale) * Abs(b) == Abs(q * b) * scale;
  }

  lemma ScaleBoth(a: real, t: real, b: real)
    requires b > 0.0
    ensures a > t <==> a * b > t * b
  {}

  /** A metric is flagged exactly when its mean moved, either way, by more than the threshold's share
      of the baseline mean; from a zero baseline any move counts. */
  lemma RegressedIff(name: string, baseline: real, candidate: real, threshold: real)
    ensures ComparisonOf(name, baseline, candidate, threshold).regressed
            <==> if baseline == 0.0 then candidate != 0.0
                 else Abs(candidate - baseline) * 100.0 > threshold * Abs(baseline)
  {
    if baseline != 0.0 {
      var q := (candidate - baseline) / baseline;
      QuotientSize(candidate - baseline, baseline, q, 100.0);
      ScaleBoth(Abs(q * 100.0), threshold, Abs(baseline));
    }
  }

  /** The percentage is what takes the baseline's mean to the candidate's, growth of a positive mean counting up;
      there is none from a baseline of zero. */
  lemma DeltaTakesBaselineToCandidate(name: string, baseline: real, candidate: real, threshold: real)
    ensures var c := ComparisonOf(name, baseline, candidate, threshold);
            && c.name == name && c.baselineMean == baseline && c.candidateMean == candidate
            && (c.deltaPct == None <==> baseline == 0.0)
            && (c.deltaPct.Some? ==> baseline + baseline * (c.deltaPct.value / 100.0) == candidate)
  {
    if baseline != 0.0 {
      PercentOf(baseline, candidate);
    }
  }

  /** Whether a metric is flagged does not depend on the unit its samples are in. */
  lemma UnitDoesNotMatter(name: string, baseline: real, candidate: real, threshold: real, unit: real)
    requires unit != 0.0
    ensures ComparisonOf(name, unit * baseline, unit * candidate, threshold).regressed
            == ComparisonOf(name, baseline, candidate, threshold).regressed
    ensures ComparisonOf(name, unit * baseline, unit * candidate, threshold).deltaPct
            == ComparisonOf(name, baseline, candidate, threshold).deltaPct
  {
    if baseline != 0.0 {
      CancelUnit(candidate, baseline, unit);
    } else if candidate != 0.0 {
      NonZeroProduct(unit, candidate);
    }
  }

  lemma NonZeroProduct(u: real, x: real)
    requires u != 0.0 && x != 0.0
    ensures u * x != 0.0
  {
    assert (u * x) / u == x;
  }

  lemma CancelUnit(c: real, b: real, u: real)
    requires u != 0.0 && b != 0.0
    ensures u * b != 0.0 && (u * c - u * b) / (u * b) == (c - b) / b
  {
    NonZeroProduct(u, b);
    var q := (c - b) / b;
    assert q * b == c - b;
    assert q * (u * b) == u * c - u * b;
    assert (q * (u * b)) / (u * b) == q;
  }
}

/**
 * The data the incident dashboard derives before drawing: bar widths of the
 * two distribution charts, the mean + 2σ anomaly flag on the time series,
 * the 12 × 30 heatmap grid and the top-five sector list.
 */
module DashboardCharts {
  import opened Wrappers
  import opened Sequences
  import opened JsValues

  // ---------------------------------------------------------------------------
  // Bar chart

  /** A `{key, count}` entry of a distribution; counts come from `count(*)`. */
  datatype Item = Item(key: string, count: nat)

  datatype Bar = Bar(key: string, width: int)

  /** What the bar chart shows: the "Немає даних" placeholder, or one bar per entry. */
  datatype BarChart = NoData | Bars(bars: seq<Bar>)

  /** The drawable bar length: width 900 less two paddings of 10, the label (110) and the value (60) columns. */
  const BarSpan: nat := 900 - 2 * 10 - 110 - 60

  /** `Math.max(...items.map(x => x.count))`. */
  function MaxCount(items: seq<Item>): (m: nat)
    requires items != []
    ensures forall i :: 0 <= i < |items| ==> items[i].count <= m
    ensures exists i :: 0 <= i < |items| && items[i].count == m
  {
    if |items| == 1 then items[0].count
    else
      var rest := MaxCount(items[1..]);
      assert forall i :: 1 <= i < |items| ==> items[i] == items[1..][i - 1];
      if items[0].count >= rest then items[0].count else rest
  }

  /** `max ? Math.round(710 * (count / max)) : 0`. */
  function BarWidth(count: nat, max: nat): (r: int)
    ensures max == 0 ==> r == 0
    ensures max > 0 ==> (BarSpan * count) as real / max as real - 0.5 < r as real <= (BarSpan * count) as real / max as real + 0.5
  {
    if max == 0 then 0 else Round((BarSpan * count) as real / max as real)
  }

  /** Bars stay within the drawable span, and the largest count fills it. */
  lemma BarWidthBounds(count: nat, max: nat)
    requires count <= max
    ensures 0 <= BarWidth(count, max) <= BarSpan
    ensures max > 0 && count == max ==> BarWidth(count, max) == BarSpan
    ensures count == 0 ==> BarWidth(count, max) == 0
  {
    if max > 0 {
      var x := (BarSpan * count) as real / max as real;
      assert x <= BarSpan as real by {
        assert (BarSpan * count) as real <= (BarSpan * max) as real;
        assert (BarSpan * max) as real / max as real == BarSpan as real;
      }
      if count == max {
        RoundInt(BarSpan);
      }
    }
  }

  /** A larger count never gets a shorter bar. */
  lemma BarWidthMonotone(c1: nat, c2: nat, max: nat)
    requires c1 <= c2
    ensures BarWidth(c1, max) <= BarWidth(c2, max)
  {
    if max > 0 {
      var m := max as real;
      assert (BarSpan * c1) as real <= (BarSpan * c2) as real;
      assert (BarSpan * c1) as real / m <= (BarSpan * c2) as real / m;
      RoundMonotone((BarSpan * c1) as real / m, (BarSpan * c2) as real / m);
    }
  }

  /** `renderBarChart`: the placeholder for no entries, otherwise one bar per entry scaled to the largest count. */
  function RenderBarChart(items: seq<Item>): (chart: BarChart)
    ensures chart.NoData? <==> items == []
    ensures chart.Bars? ==> |chart.bars| == |items|
    ensures chart.Bars? ==> forall i :: 0 <= i < |items| ==>
              chart.bars[i].key == items[i].key && 0 <= chart.bars[i].width <= BarSpan
    ensures chart.Bars? ==> forall i :: 0 <= i < |items| ==>
              chart.bars[i].width == BarWidth(items[i].count, MaxCount(items))
    ensures chart.Bars? ==> exists i :: 0 <= i < |items| && (chart.bars[i].width == BarSpan || items[i].count == 0)
  {
    if items == [] then NoData
    else
      var max := MaxCount(items);
      var bars := seq(|items|, i requires 0 <= i < |items| => Bar(items[i].key, BarWidth(items[i].count, max)));
      forall i | 0 <= i < |items| ensures 0 <= bars[i].width <= BarSpan {
        BarWidthBounds(items[i].count, max);
      }
      var k :| 0 <= k < |items| && items[k].count == max;
      BarWidthBounds(items[k].count, max);
      Bars(bars)
  }

  /** Bars are ordered as their counts are. */
  lemma RenderBarChartMonotone(items: seq<Item>, i: nat, j: nat)
    requires i < |items| && j < |items| && items[i].count <= items[j].count
    ensures RenderBarChart(items).bars[i].width <= RenderBarChart(items).bars[j].width
  {
    BarWidthMonotone(items[i].count, items[j].count, MaxCount(items));
  }

  /** Counts 10 and 5 give bars of 710 and 355: the second exactly half the first. */
  lemma HalfBarExample()
    ensures RenderBarChart([Item("a", 10), Item("b", 5)]) == Bars([Bar("a", 710), Bar("b", 355)])
  {
    var items := [Item("a", 10), Item("b", 5)];
    assert MaxCount(items) == 10;
    assert BarWidth(10, 10) == 710 by { RoundInt(710); }
    assert BarWidth(5, 10) == 355 by { RoundInt(355); }
  }

  // ---------------------------------------------------------------------------
  // Anomaly detection

  /** A time-series point `{period_start, count}`. */
  datatype Point = Point(period: string, count: int)

  function Sum(s: seq<Point>): int {
    if s == [] then 0 else Sum(s[..|s| - 1]) + s[|s| - 1].count
  }

  function Mean(s: seq<Point>): real
    requires s != []
  {
    Sum(s) as real / |s| as real
  }

  /** The mean times the number of points gives back the sum. */
  lemma MeanTimesLength(s: seq<Point>)
    requires s != []
    ensures Mean(s) * |s| as real == Sum(s) as real
  {
    var n, total := |s| as real, Sum(s) as real;
    assert Mean(s) == total / n;
  }

  /** The sum of squared deviations from m. */
  function SquaredDeviation(s: seq<Point>, m: real): (r: real)
    ensures r >= 0.0
  {
    if s == [] then 0.0
    else
      var d := s[|s| - 1].count as real - m;
      SquaredDeviation(s[..|s| - 1], m) + d * d
  }

  /** The sample variance, with the n − 1 divisor. */
  function Variance(s: seq<Point>): (v: real)
    requires |s| >= 2
    ensures v >= 0.0
  {
    SquaredDeviation(s, Mean(s)) / (|s| - 1) as real
  }

  /**
   * `count > mean + 2 * sd` without the square root: since sd ≥ 0, the count
   * exceeds the threshold exactly when it lies above the mean and its squared
   * deviation exceeds four times the variance.
   */
  predicate AboveThreshold(count: int, mean: real, variance: real) {
    var d := count as real - mean;
    d > 0.0 && d * d > 4.0 * variance
  }

  /** The rewriting is exact for the standard deviation `sd = sqrt(variance)`. */
  lemma AboveThresholdIsMeanPlusTwoSd(count: int, mean: real, variance: real, sd: real)
    requires sd >= 0.0 && sd * sd == variance
    ensures AboveThreshold(count, mean, variance) <==> count as real > mean + 2.0 * sd
  {
    var d := count as real - mean;
    var t := 2.0 * sd;
    assert 4.0 * variance == t * t;
    if d > t {
      SquareStrict(t, d);
    } else if d > 0.0 {
      SquareMono(d, t);
    }
  }

  lemma SquareStrict(a: real, b: real)
    requires 0.0 <= a < b
    ensures a * a < b * b
  {
    var aa, ab, bb := a * a, a * b, b * b;
    assert aa <= ab;
    assert ab < bb;
  }

  lemma SquareMono(a: real, b: real)
    requires 0.0 <= a <= b
    ensures a * a <= b * b
  {
    assert a * a <= a * b;
    assert a * b <= b * b;
  }

  /** `computeAnomalies`: insufficient data below two points, otherwise the statistics and the flagged points. */
  datatype AnomalyReport = Insufficient | Report(mean: real, variance: real, anomalies: seq<Point>)

  function ComputeAnomalies(series: seq<Point>): (r: AnomalyReport)
    ensures r.Insufficient? <==> |series| < 2
    ensures r.Report? ==> r.mean == Mean(series) && r.variance == Variance(series)
    ensures r.Report? ==> r.variance >= 0.0
    ensures r.Report? ==> forall i :: 0 <= i < |r.anomalies| ==>
              r.anomalies[i] in series && AboveThreshold(r.anomalies[i].count, r.mean, r.variance)
    ensures r.Report? ==> forall i :: 0 <= i < |series| && AboveThreshold(series[i].count, r.mean, r.variance) ==>
              series[i] in r.anomalies
  {
    if |series| < 2 then Insufficient
    else
      var mean := Mean(series);
      var variance := Variance(series);
      Report(mean, variance, Filter(series, (p: Point) => AboveThreshold(p.count, mean, variance)))
  }

  /** The anomalies keep the series order: the report of a concatenation is the concatenation of the flags. */
  lemma AnomaliesInOrder(series: seq<Point>, xs: seq<Point>, ys: seq<Point>)
    requires series == xs + ys && |series| >= 2
    ensures var r := ComputeAnomalies(series);
      var p := (q: Point) => AboveThreshold(q.count, r.mean, r.variance);
      r.anomalies == Filter(xs, p) + Filter(ys, p)
  {
    var r := ComputeAnomalies(series);
    FilterConcat(xs, ys, (q: Point) => AboveThreshold(q.count, r.mean, r.variance));
  }

  /** Every point not flagged lies at or below `mean + 2 * sd`. */
  lemma ExcludedBelowThreshold(series: seq<Point>, sd: real, i: nat)
    requires |series| >= 2 && i < |series|
    requires sd >= 0.0 && sd * sd == Variance(series)
    requires series[i] !in ComputeAnomalies(series).anomalies
    ensures series[i].count as real <= Mean(series) + 2.0 * sd
  {
    AboveThresholdIsMeanPlusTwoSd(series[i].count, Mean(series), Variance(series), sd);
  }

  /** A point is flagged exactly when its count lies above `mean + 2 * sd`, with the sample standard deviation. */
  lemma FlaggedAboveThreshold(series: seq<Point>, sd: real, i: nat)
    requires |series| >= 2 && i < |series|
    requires sd >= 0.0 && sd * sd == Variance(series)
    ensures series[i] in ComputeAnomalies(series).anomalies <==> series[i].count as real > Mean(series) + 2.0 * sd
  {
    var r := ComputeAnomalies(series);
    AboveThresholdIsMeanPlusTwoSd(series[i].count, Mean(series), Variance(series), sd);
    if series[i] in r.anomalies {
      var j :| 0 <= j < |r.anomalies| && r.anomalies[j] == series[i];
      assert AboveThreshold(r.anomalies[j].count, r.mean, r.variance);
    }
  }

  function Series(counts: seq<int>): (s: seq<Point>)
    ensures |s| == |counts| && forall i :: 0 <= i < |s| ==> s[i].count == counts[i]
  {
    seq(|counts|, i requires 0 <= i < |counts| => Point("", counts[i]))
  }

  /** One more point adds its count and its squared deviation. */
  lemma PrefixStep(s: seq<Point>, k: nat, m: real)
    requires k < |s|
    ensures Sum(s[..k + 1]) == Sum(s[..k]) + s[k].count
    ensures SquaredDeviation(s[..k + 1], m) == SquaredDeviation(s[..k], m) + (s[k].count as real - m) * (s[k].count as real - m)
  {
    PrefixSum(s, k);
    PrefixSquares(s, k, m);
  }

  lemma PrefixSum(s: seq<Point>, k: nat)
    requires k < |s|
    ensures Sum(s[..k + 1]) == Sum(s[..k]) + s[k].count
  {
    assert s[..k + 1][..k] == s[..k];
  }

  lemma PrefixSquares(s: seq<Point>, k: nat, m: real)
    requires k < |s|
    ensures SquaredDeviation(s[..k + 1], m) == SquaredDeviation(s[..k], m) + (s[k].count as real - m) * (s[k].count as real - m)
  {
    assert s[..k + 1][..k] == s[..k];
  }

  /** [10, 12, 11, 13, 50]: mean 19.2, sample variance 297.7, so 50 stays below the threshold (about 53.7). */
  lemma NoAnomalyExample()
    ensures ComputeAnomalies(Series([10, 12, 11, 13, 50])).anomalies == []
  {
    var s := Series([10, 12, 11, 13, 50]);
    NoAnomalyStatistics(s);
    FilterNone(s, (q: Point) => AboveThreshold(q.count, 19.2, 297.7));
  }

  lemma NoAnomalyStatistics(s: seq<Point>)
    requires s == Series([10, 12, 11, 13, 50])
    ensures Mean(s) == 19.2 && Variance(s) == 297.7
  {
    var m := 19.2;
    PrefixStep(s, 0, m); PrefixStep(s, 1, m); PrefixStep(s, 2, m); PrefixStep(s, 3, m); PrefixStep(s, 4, m);
    assert s[..5] == s;
    assert Sum(s) == 96;
    assert SquaredDeviation(s, m) == 1190.8;
  }

  /**
   * [10, 10, 10, 10, 100]: mean 28, sample variance 1620, so 100 does not exceed
   * the threshold (about 108.5).
   */
  lemma FivePointOutlierNotFlagged()
    ensures ComputeAnomalies(Series([10, 10, 10, 10, 100])).anomalies == []
  {
    var s := Series([10, 10, 10, 10, 100]);
    FivePointStatistics(s);
    FilterNone(s, (q: Point) => AboveThreshold(q.count, 28.0, 1620.0));
  }

  lemma FivePointStatistics(s: seq<Point>)
    requires s == Series([10, 10, 10, 10, 100])
    ensures Mean(s) == 28.0 && Variance(s) == 1620.0
  {
    var m := 28.0;
    PrefixStep(s, 0, m); PrefixStep(s, 1, m); PrefixStep(s, 2, m); PrefixStep(s, 3, m); PrefixStep(s, 4, m);
    assert s[..5] == s;
    assert Sum(s) == 140;
    assert SquaredDeviation(s, m) == 6480.0;
  }

  lemma EightPointStatistics(s: seq<Point>)
    requires s == Series([10, 10, 10, 10, 10, 10, 10, 100])
    ensures Mean(s) == 21.25 && Variance(s) == 1012.5
  {
    EightPointSum(s);
    EightPointSquares(s);
  }

  lemma EightPointSum(s: seq<Point>)
    requires s == Series([10, 10, 10, 10, 10, 10, 10, 100])
    ensures Sum(s) == 170
  {
    assert s[..0] == [];
    PrefixSum(s, 0); assert Sum(s[..1]) == 10;
    PrefixSum(s, 1); assert Sum(s[..2]) == 20;
    PrefixSum(s, 2); assert Sum(s[..3]) == 30;
    PrefixSum(s, 3); assert Sum(s[..4]) == 40;
    PrefixSum(s, 4); assert Sum(s[..5]) == 50;
    PrefixSum(s, 5); assert Sum(s[..6]) == 60;
    PrefixSum(s, 6); assert Sum(s[..7]) == 70;
    PrefixSum(s, 7);
    assert s[..8] == s;
  }

  lemma EightPointSquares(s: seq<Point>)
    requires s == Series([10, 10, 10, 10, 10, 10, 10, 100])
    ensures SquaredDeviation(s, 21.25) == 7087.5
  {
    var m := 21.25;
    assert s[..0] == [];
    PrefixSquares(s, 0, m); assert SquaredDeviation(s[..1], m) == 126.5625;
    PrefixSquares(s, 1, m); assert SquaredDeviation(s[..2], m) == 253.125;
    PrefixSquares(s, 2, m); assert SquaredDeviation(s[..3], m) == 379.6875;
    PrefixSquares(s, 3, m); assert SquaredDeviation(s[..4], m) == 506.25;
    PrefixSquares(s, 4, m); assert SquaredDeviation(s[..5], m) == 632.8125;
    PrefixSquares(s, 5, m); assert SquaredDeviation(s[..6], m) == 759.375;
    PrefixSquares(s, 6, m); assert SquaredDeviation(s[..7], m) == 885.9375;
    PrefixSquares(s, 7, m);
    assert s[..8] == s;
  }

  /** [10 × 7, 100]: mean 21.25, sample variance 1012.5, and 100 is flagged. */
  lemma EightPointOutlierFlagged()
    ensures ComputeAnomalies(Series([10, 10, 10, 10, 10, 10, 10, 100])).anomalies == [Point("", 100)]
  {
    var counts := seq(7, _ => 10) + [100];
    assert counts == [10, 10, 10, 10, 10, 10, 10, 100];
    var s := Series(counts);
    EightPointStatistics(s);
    var p := (q: Point) => AboveThreshold(q.count, 21.25, 1012.5);
    var init := s[..7];
    assert s == init + [s[7]];
    FilterConcat(init, [s[7]], p);
    forall i | 0 <= i < |init| ensures !p(init[i]) {
      assert init[i].count == counts[i] == 10;
    }
    FilterNone(init, p);
    assert p(s[7]);
    assert Filter([s[7]], p) == [s[7]];
  }

  // ---------------------------------------------------------------------------
  // Heatmap

  /** A heatmap cell `{sector_code, period_start, count}`; the period is its ISO timestamp string. */
  datatype Cell = Cell(sector: string, period: string, count: nat)

  /** The value map's key `${sector}__${period}`. */
  function HeatKey(sector: string, period: string): string {
    sector + "__" + period
  }

  predicate NoUnderscore(s: string) {
    '_' !in s
  }

  /** ISO timestamps hold no underscore, and then the key determines sector and period. */
  lemma HeatKeyInjective(s1: string, p1: string, s2: string, p2: string)
    requires NoUnderscore(p1) && NoUnderscore(p2)
    requires HeatKey(s1, p1) == HeatKey(s2, p2)
    ensures s1 == s2 && p1 == p2
  {
    var k := HeatKey(s1, p1);
    assert k == HeatKey(s2, p2);
    assert k[|k| - |p1| - 1] == '_';
    assert k[|k| - |p2| - 1] == '_';
    assert |p1| == |p2|;
    assert p1 == k[|k| - |p1|..] == p2;
    assert s1 == k[..|s1|] == s2;
  }

  /** The value map after the loop: each cell in turn writes its count under its key, the last write winning. */
  function CellMap(cells: seq<Cell>): map<string, nat> {
    if cells == [] then map[]
    else
      var c := cells[|cells| - 1];
      CellMap(cells[..|cells| - 1])[HeatKey(c.sector, c.period) := c.count]
  }

  /** The running maximum, started at 1. */
  function ScaleMax(cells: seq<Cell>): (m: nat)
    ensures m >= 1
    ensures forall i :: 0 <= i < |cells| ==> cells[i].count <= m
    ensures m == 1 || exists i :: 0 <= i < |cells| && cells[i].count == m
  {
    if cells == [] then 1
    else
      var init := cells[..|cells| - 1];
      var m := ScaleMax(init);
      assert forall i :: 0 <= i < |init| ==> cells[i] == init[i];
      if cells[|cells| - 1].count > m then cells[|cells| - 1].count else m
  }

  /** The independent reading of a grid cell: the count of the last input cell for that sector and period, else 0. */
  function CellValue(cells: seq<Cell>, sector: string, period: string): nat {
    if cells == [] then 0
    else
      var c := cells[|cells| - 1];
      if c.sector == sector && c.period == period then c.count
      else CellValue(cells[..|cells| - 1], sector, period)
  }

  /** `map.get(key) || 0`. */
  function Lookup(m: map<string, nat>, key: string): nat {
    if key in m then m[key] else 0
  }

  predicate IsoPeriods(cells: seq<Cell>) {
    forall i :: 0 <= i < |cells| ==> NoUnderscore(cells[i].period)
  }

  /** Reading the value map gives the last write for that sector and period, and 0 when there is none. */
  lemma {:induction false} CellMapLookup(cells: seq<Cell>, sector: string, period: string)
    requires IsoPeriods(cells) && NoUnderscore(period)
    ensures Lookup(CellMap(cells), HeatKey(sector, period)) == CellValue(cells, sector, period)
  {
    if cells != [] {
      var init := cells[..|cells| - 1];
      var c := cells[|cells| - 1];
      assert IsoPeriods(init) by {
        forall i | 0 <= i < |init| ensures NoUnderscore(init[i].period) {
          assert init[i] == cells[i];
        }
      }
      CellMapLookup(init, sector, period);
      if HeatKey(c.sector, c.period) == HeatKey(sector, period) {
        HeatKeyInjective(c.sector, c.period, sector, period);
      }
    }
  }

  /** `map.set(key, count)` over every cell, tracking `max`. */
  method FillCellMap(cells: seq<Cell>) returns (m: map<string, nat>, max: nat)
    ensures m == CellMap(cells) && max == ScaleMax(cells)
  {
    m, max := map[], 1;
    var i := 0;
    while i < |cells|
      invariant 0 <= i <= |cells|
      invariant m == CellMap(cells[..i]) && max == ScaleMax(cells[..i])
    {
      var c := cells[i];
      assert cells[..i + 1][..i] == cells[..i];
      m := m[HeatKey(c.sector, c.period) := c.count];
      if c.count > max {
        max := c.count;
      }
      i := i + 1;
    }
    assert cells[..i] == cells;
  }

  function Periods(cells: seq<Cell>): (r: seq<string>)
    ensures |r| == |cells| && forall i :: 0 <= i < |cells| ==> r[i] == cells[i].period
  {
    seq(|cells|, i requires 0 <= i < |cells| => cells[i].period)
  }

  function Sectors(cells: seq<Cell>): (r: seq<string>)
    ensures |r| == |cells| && forall i :: 0 <= i < |cells| ==> r[i] == cells[i].sector
  {
    seq(|cells|, i requires 0 <= i < |cells| => cells[i].sector)
  }

  /** The grid the heatmap shows, or the placeholder. */
  datatype Heatmap = NoHeat | Grid(rows: seq<string>, cols: seq<string>, values: seq<seq<nat>>, max: nat)

  const MaxColumns: nat := 12
  const MaxRows: nat := 30

  /**
   * `renderHeatmap`: rows are the first 30 distinct sorted sectors, columns the
   * last 12 distinct sorted periods, every row × column cell present with the
   * last count written for it or 0, and one scale maximum over all cells.
   */
  method RenderHeatmap(cells: seq<Cell>) returns (h: Heatmap)
    ensures h.NoHeat? <==> cells == []
    ensures h.Grid? ==>
      && h.rows == Take(SortedDistinct(Sectors(cells)), MaxRows)
      && h.cols == TakeLast(SortedDistinct(Periods(cells)), MaxColumns)
      && h.max == ScaleMax(cells)
      && |h.values| == |h.rows|
      && forall i :: 0 <= i < |h.rows| ==> |h.values[i]| == |h.cols|
    ensures h.Grid? ==> forall i, j :: 0 <= i < |h.rows| && 0 <= j < |h.cols| ==>
      h.values[i][j] == Lookup(CellMap(cells), HeatKey(h.rows[i], h.cols[j])) && h.values[i][j] <= h.max
  {
    if cells == [] {
      return NoHeat;
    }
    var periods := SortedDistinct(Periods(cells));
    var sectors := SortedDistinct(Sectors(cells));
    var m, max := FillCellMap(cells);
    var cols := TakeLast(periods, MaxColumns);
    var rows := Take(sectors, MaxRows);
    forall key | key in m ensures m[key] <= max {
      CellMapBounded(cells, key);
    }
    var values := GridValues(rows, cols, m);
    GridBounded(rows, cols, m, max);
    h := Grid(rows, cols, values, max);
  }

  /** One row per sector, one entry per period, each read from the value map. */
  function GridValues(rows: seq<string>, cols: seq<string>, m: map<string, nat>): (v: seq<seq<nat>>)
    ensures |v| == |rows| && forall i :: 0 <= i < |rows| ==> |v[i]| == |cols|
    ensures forall i, j :: 0 <= i < |rows| && 0 <= j < |cols| ==> v[i][j] == Lookup(m, HeatKey(rows[i], cols[j]))
  {
    seq(|rows|, i requires 0 <= i < |rows| =>
      seq(|cols|, j requires 0 <= j < |cols| => Lookup(m, HeatKey(rows[i], cols[j]))))
  }

  /** When every stored count is at most `max`, so is every grid entry. */
  lemma GridBounded(rows: seq<string>, cols: seq<string>, m: map<string, nat>, max: nat)
    requires forall key :: key in m ==> m[key] <= max
    ensures forall i, j :: 0 <= i < |rows| && 0 <= j < |cols| ==> GridValues(rows, cols, m)[i][j] <= max
  {
    var v := GridValues(rows, cols, m);
    forall i, j | 0 <= i < |rows| && 0 <= j < |cols| ensures v[i][j] <= max {
      assert v[i][j] == Lookup(m, HeatKey(rows[i], cols[j]));
    }
  }

  /** Every stored count is at most the scale maximum. */
  lemma {:induction false} CellMapBounded(cells: seq<Cell>, key: string)
    requires key in CellMap(cells)
    ensures CellMap(cells)[key] <= ScaleMax(cells)
  {
    var init := cells[..|cells| - 1];
    var c := cells[|cells| - 1];
    if key != HeatKey(c.sector, c.period) {
      CellMapBounded(init, key);
    }
  }

  /** Every grid cell's opacity factor `v / max` lies in [0, 1], and missing cells read 0. */
  lemma HeatmapOpacity(cells: seq<Cell>, sector: string, period: string)
    requires IsoPeriods(cells) && NoUnderscore(period)
    ensures 0.0 <= CellValue(cells, sector, period) as real / ScaleMax(cells) as real <= 1.0
    ensures (forall i :: 0 <= i < |cells| ==> cells[i].sector != sector || cells[i].period != period) ==>
              CellValue(cells, sector, period) == 0
  {
    CellMapLookup(cells, sector, period);
    var key := HeatKey(sector, period);
    if key in CellMap(cells) {
      CellMapBounded(cells, key);
    }
    UnitRatio(CellValue(cells, sector, period), ScaleMax(cells));
    CellValueAbsent(cells, sector, period);
  }

  lemma UnitRatio(v: nat, max: nat)
    requires 1 <= max && v <= max
    ensures 0.0 <= v as real / max as real <= 1.0
  {
  }

  lemma {:induction false} CellValueAbsent(cells: seq<Cell>, sector: string, period: string)
    ensures (forall i :: 0 <= i < |cells| ==> cells[i].sector != sector || cells[i].period != period) ==>
              CellValue(cells, sector, period) == 0
  {
    if cells != [] {
      var init := cells[..|cells| - 1];
      CellValueAbsent(init, sector, period);
      assert forall i :: 0 <= i < |init| ==> init[i] == cells[i];
    }
  }

  /** The grid shows min(12, distinct periods) columns and min(30, distinct sectors) rows. */
  lemma HeatmapDimensions(cells: seq<Cell>)
    ensures |TakeLast(SortedDistinct(Periods(cells)), MaxColumns)| == Min(|set p | p in Periods(cells)|, MaxColumns)
    ensures |Take(SortedDistinct(Sectors(cells)), MaxRows)| == Min(|set s | s in Sectors(cells)|, MaxRows)
  {
    var ps := SortedDistinct(Periods(cells));
    var ss := SortedDistinct(Sectors(cells));
    StrictlySortedCard(ps);
    StrictlySortedCard(ss);
    assert (set p | p in ps) == (set p | p in Periods(cells));
    assert (set s | s in ss) == (set s | s in Sectors(cells));
  }

  // ---------------------------------------------------------------------------
  // Top sectors

  type Total = (string, int)

  /** `acc.get(key)` on an insertion-ordered Map held as its entry list. */
  function MapGet(entries: seq<Total>, key: string): Option<int> {
    if entries == [] then None
    else if entries[0].0 == key then Some(entries[0].1)
    else MapGet(entries[1..], key)
  }

  /** `acc.set(key, v)`: an existing entry keeps its place, a new one goes last. */
  function MapSet(entries: seq<Total>, key: string, v: int): (r: seq<Total>)
    ensures forall k :: MapGet(r, k) == if k == key then Some(v) else MapGet(entries, k)
  {
    if entries == [] then [(key, v)]
    else if entries[0].0 == key then [(key, v)] + entries[1..]
    else [entries[0]] + MapSet(entries[1..], key, v)
  }

  /** The sum of the counts of one sector's cells. */
  function SectorSum(cells: seq<Cell>, sector: string): int {
    if cells == [] then 0
    else
      var c := cells[|cells| - 1];
      SectorSum(cells[..|cells| - 1], sector) + (if c.sector == sector then c.count else 0)
  }

  /** The Map after the accumulation loop. */
  function Totals(cells: seq<Cell>): seq<Total> {
    if cells == [] then []
    else
      var acc := Totals(cells[..|cells| - 1]);
      var c := cells[|cells| - 1];
      MapSet(acc, c.sector, MapGet(acc, c.sector).GetOr(0) + c.count)
  }

  predicate KeysDistinct(entries: seq<Total>) {
    forall i, j :: 0 <= i < j < |entries| ==> entries[i].0 != entries[j].0
  }

  lemma {:induction false} MapSetDistinct(entries: seq<Total>, key: string, v: int)
    requires KeysDistinct(entries)
    ensures KeysDistinct(MapSet(entries, key, v))
    ensures forall k :: k in KeysOf(MapSet(entries, key, v)) <==> k == key || k in KeysOf(entries)
  {
    var r := MapSet(entries, key, v);
    if entries == [] {
      assert r[0].0 == key;
    } else {
      var rest := entries[1..];
      KeysOfCons(entries[0], rest);
      assert [entries[0]] + rest == entries;
      assert entries[0].0 !in KeysOf(rest) by {
        forall i | 0 <= i < |rest| ensures rest[i].0 != entries[0].0 {
          assert rest[i] == entries[i + 1];
        }
      }
      if entries[0].0 != key {
        MapSetDistinct(rest, key, v);
        var r' := MapSet(rest, key, v);
        KeysOfCons(entries[0], r');
        forall i, j | 0 <= i < j < |r| ensures r[i].0 != r[j].0 {
          assert r[j] == r'[j - 1];
          if i > 0 {
            assert r[i] == r'[i - 1];
          } else {
            assert r'[j - 1].0 in KeysOf(r');
          }
        }
      } else {
        KeysOfCons((key, v), rest);
        forall i, j | 0 <= i < j < |r| ensures r[i].0 != r[j].0 {
          assert r[j] == entries[j];
          assert r[i].0 == entries[i].0;
        }
      }
    }
  }

  lemma KeysOfCons(e: Total, rest: seq<Total>)
    ensures KeysOf([e] + rest) == {e.0} + KeysOf(rest)
  {
    var xs := [e] + rest;
    forall k | k in KeysOf(rest) ensures k in KeysOf(xs) {
      var i :| 0 <= i < |rest| && rest[i].0 == k;
      assert xs[i + 1].0 == k;
    }
    assert xs[0].0 == e.0;
  }

  function KeysOf(entries: seq<Total>): set<string> {
    set i | 0 <= i < |entries| :: entries[i].0
  }

  /** Distinct keys: as many keys as entries. */
  lemma {:induction false} KeysCard(entries: seq<Total>)
    requires KeysDistinct(entries)
    ensures |KeysOf(entries)| == |entries|
  {
    if entries != [] {
      var rest := entries[1..];
      assert [entries[0]] + rest == entries;
      KeysOfCons(entries[0], rest);
      assert entries[0].0 !in KeysOf(rest) by {
        forall i | 0 <= i < |rest| ensures rest[i].0 != entries[0].0 {
          assert rest[i] == entries[i + 1];
        }
      }
      assert KeysDistinct(rest) by {
        forall i, j | 0 <= i < j < |rest| ensures rest[i].0 != rest[j].0 {
          assert rest[i] == entries[i + 1] && rest[j] == entries[j + 1];
        }
      }
      KeysCard(rest);
    }
  }

  /** With distinct keys, `get` finds the value stored beside each key. */
  lemma {:induction false} MapGetAt(entries: seq<Total>, i: nat)
    requires KeysDistinct(entries) && i < |entries|
    ensures MapGet(entries, entries[i].0) == Some(entries[i].1)
  {
    if i > 0 {
      assert entries[0].0 != entries[i].0;
      MapGetAt(entries[1..], i - 1);
    }
  }

  /**
   * The accumulated Map has one entry per sector of the cells, each holding
   * that sector's total.
   */
  lemma {:induction false} TotalsCorrect(cells: seq<Cell>)
    ensures KeysDistinct(Totals(cells))
    ensures forall s :: s in KeysOf(Totals(cells)) <==> s in Sectors(cells)
    ensures forall s :: MapGet(Totals(cells), s) == if s in Sectors(cells) then Some(SectorSum(cells, s)) else None
  {
    if cells != [] {
      var init := cells[..|cells| - 1];
      var c := cells[|cells| - 1];
      var acc := Totals(init);
      var v := MapGet(acc, c.sector).GetOr(0) + c.count;
      var r := Totals(cells);
      assert r == MapSet(acc, c.sector, v);
      assert Sectors(cells) == Sectors(init) + [c.sector];
      TotalsCorrect(init);
      MapSetDistinct(acc, c.sector, v);
      SectorSumAbsent(init, c.sector);
      forall s ensures s in KeysOf(r) <==> s in Sectors(cells) {
        assert s in Sectors(cells) <==> s == c.sector || s in Sectors(init);
      }
      forall s ensures MapGet(r, s) == if s in Sectors(cells) then Some(SectorSum(cells, s)) else None {
        assert SectorSum(cells, s) == SectorSum(init, s) + (if c.sector == s then c.count else 0);
      }
    }
  }

  lemma {:induction false} SectorSumAbsent(cells: seq<Cell>, sector: string)
    ensures sector !in Sectors(cells) ==> SectorSum(cells, sector) == 0
  {
    if cells != [] {
      var init := cells[..|cells| - 1];
      SectorSumAbsent(init, sector);
      assert Sectors(cells) == Sectors(init) + [cells[|cells| - 1].sector];
    }
  }

  /** `[...by.entries()].sort((a, b) => b[1] - a[1]).slice(0, 5)`. */
  function TopSectors(cells: seq<Cell>): seq<Total> {
    Take(SortDesc(Totals(cells), TotalKey), 5)
  }

  function TotalKey(e: Total): real {
    e.1 as real
  }

  /**
   * At most five sectors, largest total first, each with its own total, no
   * sector twice, and every sector left out no larger than the last one shown.
   */
  lemma TopSectorsCorrect(cells: seq<Cell>)
    ensures var top := TopSectors(cells);
      && |top| <= 5
      && |top| == Min(5, |set s | s in Sectors(cells)|)
      && NonIncreasing(top, TotalKey)
      && (forall i :: 0 <= i < |top| ==> top[i].0 in Sectors(cells) && top[i].1 == SectorSum(cells, top[i].0))
      && (forall i, j :: 0 <= i < j < |top| ==> top[i].0 != top[j].0)
      && (forall s :: s in Sectors(cells) ==>
            (exists i :: 0 <= i < |top| && top[i].0 == s) || SectorSum(cells, s) <= top[|top| - 1].1)
  {
    TopSectorsTotals(cells);
    TopSectorsDistinct(cells);
    TopSectorsCutoff(cells);
    TopSectorsCount(cells);
  }

  /** Five entries are shown, or one per sector when there are fewer sectors. */
  lemma TopSectorsCount(cells: seq<Cell>)
    ensures |TopSectors(cells)| == Min(5, |set s | s in Sectors(cells)|)
  {
    var acc := Totals(cells);
    TotalsCorrect(cells);
    KeysCard(acc);
    assert KeysOf(acc) == set s | s in Sectors(cells);
  }

  /** Each shown entry is a sector of the cells with that sector's total. */
  lemma TopSectorsTotals(cells: seq<Cell>)
    ensures var top := TopSectors(cells);
      forall i :: 0 <= i < |top| ==> top[i].0 in Sectors(cells) && top[i].1 == SectorSum(cells, top[i].0)
  {
    var acc := Totals(cells);
    var sorted := SortDesc(acc, TotalKey);
    var top := Take(sorted, 5);
    TotalsCorrect(cells);
    forall k | 0 <= k < |top| ensures top[k].0 in Sectors(cells) && top[k].1 == SectorSum(cells, top[k].0) {
      assert top[k] == sorted[k];
      assert sorted[k] in multiset(acc);
      var j :| 0 <= j < |acc| && acc[j] == top[k];
      MapGetAt(acc, j);
      assert acc[j].0 in KeysOf(acc);
    }
  }

  /** No sector is shown twice. */
  lemma TopSectorsDistinct(cells: seq<Cell>)
    ensures var top := TopSectors(cells);
      forall i, j :: 0 <= i < j < |top| ==> top[i].0 != top[j].0
  {
    var acc := Totals(cells);
    var top := TopSectors(cells);
    TotalsCorrect(cells);
    forall a, b | 0 <= a < b < |top| ensures top[a].0 != top[b].0 {
      DistinctAfterSort(acc, TotalKey, a, b);
    }
  }

  /** A sector that is not shown totals no more than the last one shown. */
  lemma TopSectorsCutoff(cells: seq<Cell>)
    ensures var top := TopSectors(cells);
      forall s :: s in Sectors(cells) ==>
        (exists i :: 0 <= i < |top| && top[i].0 == s) || SectorSum(cells, s) <= top[|top| - 1].1
  {
    var acc := Totals(cells);
    var top := TopSectors(cells);
    TotalsCorrect(cells);
    forall s | s in Sectors(cells)
      ensures (exists i :: 0 <= i < |top| && top[i].0 == s) || SectorSum(cells, s) <= top[|top| - 1].1
    {
      CutoffOne(acc, s);
    }
  }

  lemma CutoffOne(acc: seq<Total>, s: string)
    requires KeysDistinct(acc) && s in KeysOf(acc)
    ensures var top := Take(SortDesc(acc, TotalKey), 5);
      top != [] && ((exists i :: 0 <= i < |top| && top[i].0 == s) || MapGet(acc, s).GetOr(0) <= top[|top| - 1].1)
  {
    var top := Take(SortDesc(acc, TotalKey), 5);
    var j :| 0 <= j < |acc| && acc[j].0 == s;
    MapGetAt(acc, j);
    TopK(acc, TotalKey, 5, acc[j]);
    if acc[j] in top {
      var k :| 0 <= k < |top| && top[k] == acc[j];
    }
  }

  /** `renderTopSectors`: `by.set(sector, (by.get(sector) || 0) + count)` over every cell, then the five largest totals. */
  method RenderTopSectors(cells: seq<Cell>) returns (top: seq<Total>)
    ensures top == TopSectors(cells)
  {
    var acc: seq<Total> := [];
    var i := 0;
    while i < |cells|
      invariant 0 <= i <= |cells|
      invariant acc == Totals(cells[..i])
    {
      var c := cells[i];
      assert cells[..i + 1][..i] == cells[..i];
      acc := MapSet(acc, c.sector, MapGet(acc, c.sector).GetOr(0) + c.count);
      i := i + 1;
    }
    assert cells[..i] == cells;
    top := Take(SortDesc(acc, TotalKey), 5);
  }

  /** Sorting a Map's entries keeps their keys distinct. */
  lemma DistinctAfterSort(acc: seq<Total>, key: Total -> real, a: nat, b: nat)
    requires KeysDistinct(acc)
    requires a < b < |SortDesc(acc, key)|
    ensures SortDesc(acc, key)[a].0 != SortDesc(acc, key)[b].0
  {
    var sorted := SortDesc(acc, key);
    assert sorted[a] in multiset(acc) && sorted[b] in multiset(acc);
    var i :| 0 <= i < |acc| && acc[i] == sorted[a];
    var j :| 0 <= j < |acc| && acc[j] == sorted[b];
    if sorted[a].0 == sorted[b].0 {
      assert i == j;
      assert sorted[a] == sorted[b];
      SortedMultiplicity(acc, key, a, b);
    }
  }

  /** An entry of a list with distinct keys occurs once, so it cannot sit at two places after a sort. */
  lemma SortedMultiplicity(acc: seq<Total>, key: Total -> real, a: nat, b: nat)
    requires KeysDistinct(acc)
    requires a < b < |SortDesc(acc, key)|
    ensures SortDesc(acc, key)[a] != SortDesc(acc, key)[b]
  {
    var sorted := SortDesc(acc, key);
    OnceInDistinct(acc, sorted[a]);
    if sorted[a] == sorted[b] {
      TwiceCounted(sorted, a, b);
    }
  }

  /** An element at two positions counts at least twice. */
  lemma TwiceCounted<T>(xs: seq<T>, a: nat, b: nat)
    requires a < b < |xs| && xs[a] == xs[b]
    ensures multiset(xs)[xs[a]] >= 2
  {
    assert xs == xs[..b] + xs[b..];
    assert xs[..b][a] == xs[a];
    assert xs[b..][0] == xs[a];
  }

  lemma {:induction false} OnceInDistinct(acc: seq<Total>, e: Total)
    requires KeysDistinct(acc)
    ensures multiset(acc)[e] <= 1
  {
    if acc != [] {
      OnceInDistinct(acc[1..], e);
      assert acc == [acc[0]] + acc[1..];
      if acc[0] == e {
        assert e !in acc[1..] by {
          forall i | 0 <= i < |acc[1..]| ensures acc[1..][i] != e {
            assert acc[i + 1].0 != acc[0].0;
          }
        }
      }
    }
  }
}

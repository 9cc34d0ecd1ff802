/**
 * The weekly-metrics dashboard's arithmetic: reading one value out of a
 * metric, summing or averaging a metric over its entries, the change badge
 * and the trend wording, the risk band, the three highest-risk alerts and the
 * sector filter. Numbers are exact reals.
 */
module WeeklyMetrics {
  import opened Wrappers
  import opened Text
  import opened JsValues
  import opened Sequences

  // ---------------------------------------------------------------------------
  // Data

  /** One entry of a metric: the unit it describes and its two weekly values (None when absent or null). */
  datatype Entry = Entry(
    sectorId: Option<string>, brigadeId: Option<string>,
    currentWeek: Option<real>, prevWeek: Option<real>)

  /** A metric as loaded: its id and its `values` list (None when the list is absent). */
  datatype Metric = Metric(id: string, values: Option<seq<Entry>>)

  datatype Sector = Sector(id: string, name: string)

  /** Which id an entry is looked up by (`'sector_id'` or `'brigade_id'`). */
  datatype Key = SectorKey | BrigadeKey

  /** Which weekly value is read (`'current_week'` or `'prev_week'`). */
  datatype Field = CurrentWeek | PrevWeek

  function KeyOf(e: Entry, key: Key): Option<string> {
    match key
    case SectorKey => e.sectorId
    case BrigadeKey => e.brigadeId
  }

  function FieldOf(e: Entry, field: Field): Option<real> {
    match field
    case CurrentWeek => e.currentWeek
    case PrevWeek => e.prevWeek
  }

  /** `x || 0` for a number that may be absent. */
  function OrZero(x: Option<real>): real {
    x.GetOr(0.0)
  }

  /** `metrics.reduce((acc, m) => ({ ...acc, [m.id]: m }), {})`. */
  function MetricMap(metrics: seq<Metric>): (m: map<string, Metric>)
    ensures forall id :: id in m ==> m[id].id == id
  {
    if metrics == [] then map[]
    else
      var last := metrics[|metrics| - 1];
      MetricMap(metrics[..|metrics| - 1])[last.id := last]
  }

  // ---------------------------------------------------------------------------
  // findValue

  /** The position of the first entry whose key is id, or the length when there is none. */
  function FirstEntry(values: seq<Entry>, key: Key, id: string): (k: nat)
    ensures k <= |values|
    ensures k < |values| ==> KeyOf(values[k], key) == Some(id)
    ensures forall j :: 0 <= j < k ==> KeyOf(values[j], key) != Some(id)
  {
    if values == [] then 0
    else if KeyOf(values[0], key) == Some(id) then 0
    else 1 + FirstEntry(values[1..], key, id)
  }

  /**
   * `findValue(metricId, key, id, field)`: the field of the first entry whose
   * key is id, 0 for a missing metric, a missing entry or a falsy field.
   * None stands for the TypeError a metric without a values list raises.
   */
  function FindValue(metrics: map<string, Metric>, metricId: string, key: Key, id: string, field: Field)
    : (r: Option<real>)
    ensures r.None? <==> metricId in metrics && metrics[metricId].values.None?
    ensures metricId !in metrics ==> r == Some(0.0)
  {
    if metricId !in metrics then Some(0.0)
    else if metrics[metricId].values.None? then None
    else
      var vs := metrics[metricId].values.value;
      var k := FirstEntry(vs, key, id);
      if k < |vs| then Some(OrZero(FieldOf(vs[k], field))) else Some(0.0)
  }

  // ---------------------------------------------------------------------------
  // aggregateMetric

  /** `vals.reduce((acc, v) => acc + (v[field] || 0), 0)`. */
  function Sum(vals: seq<Entry>, field: Field): real {
    if vals == [] then 0.0 else Sum(vals[..|vals| - 1], field) + OrZero(FieldOf(vals[|vals| - 1], field))
  }

  datatype Aggregate = Aggregate(current: real, prev: real)

  /** `aggregateMetric(metricId, mode)`: the two weekly totals, divided by the entry count unless mode is 'sum'. */
  function AggregateMetric(metrics: map<string, Metric>, metricId: string, mode: string): (r: Aggregate)
    ensures metricId !in metrics ==> r == Aggregate(0.0, 0.0)
  {
    if metricId !in metrics then Aggregate(0.0, 0.0)
    else
      var vals := metrics[metricId].values.GetOr([]);
      var divisor := if mode == "sum" then 1 else if |vals| > 1 then |vals| else 1;
      Aggregate(Sum(vals, CurrentWeek) / divisor as real, Sum(vals, PrevWeek) / divisor as real)
  }

  // ---------------------------------------------------------------------------
  // deltaBadge and trendText

  datatype Badge = Badge(text: string, cls: string, icon: string)

  const NewBadge: Badge := Badge("нова", "warn", "•")

  function Abs(n: int): nat {
    if n < 0 then -n else n
  }

  /**
   * `deltaBadge(current, prev, invert)`: a previous value of 0 gives the
   * "new" badge; otherwise the rounded percentage change, an arrow for its
   * direction, and 'good' when it rises (falls, when inverted).
   */
  function DeltaBadge(current: real, prev: real, invert: bool): (r: Badge)
    ensures prev == 0.0 ==> r == NewBadge
  {
    if prev == 0.0 then NewBadge
    else
      var diff := current - prev;
      BadgeOf(Round(diff / prev * 100.0), diff > 0.0, diff < 0.0, invert)
  }

  /** The badge for a rounded percentage and the direction of the change. */
  function BadgeOf(pct: int, rising: bool, falling: bool, invert: bool): Badge {
    var good := if invert then !rising else rising;
    Badge(IntToString(Abs(pct)) + "%", if good then "good" else "bad",
          if rising then "▲" else if falling then "▼" else "•")
  }

  /** What `trendText` says: no data, or the direction, the size of the change and whether it is better. */
  datatype Trend = NoData | Trend(direction: string, change: real, verdict: string)

  /** `trendText(current, prev, invert)`, before `toFixed(1)` renders the change. */
  function TrendText(current: real, prev: real, invert: bool): (r: Trend)
    ensures r.NoData? <==> prev == 0.0
  {
    if prev == 0.0 then NoData
    else
      var diff := current - prev;
      var dir := if diff > 0.0 then "зросло" else if diff < 0.0 then "знизилось" else "без змін";
      var good := if invert then diff < 0.0 else diff > 0.0;
      Trend(dir, if diff < 0.0 then -diff else diff, if good then "краще" else "гірше")
  }

  // ---------------------------------------------------------------------------
  // Risk band, alerts, sector filter

  /** The badge class of a breakthrough-risk value. */
  function RiskBand(risk: real): string {
    if risk > 0.65 then "bad" else if risk > 0.5 then "warn" else "good"
  }

  function Severity(band: string): nat {
    if band == "bad" then 2 else if band == "warn" then 1 else 0
  }

  /** One alert: the entry's sector, its current risk and its previous risk. */
  datatype Alert = Alert(sectorId: Option<string>, value: real, prev: Option<real>)

  const RiskMetric: string := "breakthrough_risk_index"

  function ToAlert(e: Entry): Alert
    requires e.currentWeek.Some?
  {
    Alert(e.sectorId, e.currentWeek.value, e.prevWeek)
  }

  function AlertValue(a: Alert): real {
    a.value
  }

  function ToAlerts(vals: seq<Entry>): (r: seq<Alert>)
    requires forall i :: 0 <= i < |vals| ==> vals[i].currentWeek.Some?
    ensures |r| == |vals|
    ensures forall i :: 0 <= i < |vals| ==> r[i] == ToAlert(vals[i])
  {
    if vals == [] then [] else ToAlerts(vals[..|vals| - 1]) + [ToAlert(vals[|vals| - 1])]
  }

  /** Every risk entry has a current value, so the sort's comparator never yields NaN. */
  predicate RiskValuesPresent(metrics: map<string, Metric>) {
    RiskMetric in metrics && metrics[RiskMetric].values.Some? ==>
      forall i :: 0 <= i < |metrics[RiskMetric].values.value| ==>
        metrics[RiskMetric].values.value[i].currentWeek.Some?
  }

  /**
   * `renderAlerts()`: the risk entries, highest current value first, at most
   * three; none without a risk metric. None stands for the TypeError a risk
   * metric without a values list raises.
   */
  function Alerts(metrics: map<string, Metric>): (r: Option<seq<Alert>>)
    requires RiskValuesPresent(metrics)
    ensures RiskMetric !in metrics ==> r == Some([])
    ensures r.None? <==> RiskMetric in metrics && metrics[RiskMetric].values.None?
  {
    if RiskMetric !in metrics then Some([])
    else if metrics[RiskMetric].values.None? then None
    else Some(Take(SortDesc(ToAlerts(metrics[RiskMetric].values.value), AlertValue), 3))
  }

  /** The badge of an alert: a missing previous value is not finite, so it is new. */
  function AlertBadge(a: Alert): Badge {
    if a.prev.None? then NewBadge else DeltaBadge(a.value, a.prev.value, false)
  }

  /** `sectors.find(s => s.id === sectorId)?.name || sectorId`, with an absent id printing as "undefined". */
  function AlertLabel(sectors: seq<Sector>, a: Alert): string {
    var k := FirstSector(sectors, a.sectorId);
    if k < |sectors| && sectors[k].name != "" then sectors[k].name else a.sectorId.GetOr("undefined")
  }

  function FirstSector(sectors: seq<Sector>, id: Option<string>): (k: nat)
    ensures k <= |sectors|
    ensures k < |sectors| ==> id == Some(sectors[k].id)
    ensures forall j :: 0 <= j < k ==> id != Some(sectors[j].id)
  {
    if sectors == [] then 0
    else if id == Some(sectors[0].id) then 0
    else 1 + FirstSector(sectors[1..], id)
  }

  /**
   * The alert card's badge: "new" without a previous value or with a previous
   * value of 0; otherwise an arrow for the direction of the change, "good"
   * exactly for a rise, and the rounded percentage change.
   */
  lemma AlertBadgeMeaning(a: Alert)
    ensures a.prev.None? || a.prev == Some(0.0) ==> AlertBadge(a) == NewBadge
    ensures a.prev.Some? && a.prev.value != 0.0 ==>
      var b := AlertBadge(a);
      var prev := a.prev.value;
      && (b.icon == "▲" <==> a.value > prev)
      && (b.icon == "▼" <==> a.value < prev)
      && (b.icon == "•" <==> a.value == prev)
      && (b.cls == "good" <==> a.value > prev)
      && (b.cls == "bad" <==> a.value <= prev)
      && |b.text| >= 2 && b.text[|b.text| - 1] == '%'
      && AllDigits(b.text[..|b.text| - 1])
      && DigitsValue(b.text[..|b.text| - 1]) == Abs(Round((a.value - prev) / prev * 100.0))
  {
    if a.prev.Some? && a.prev.value != 0.0 {
      DeltaBadgeMeaning(a.value, a.prev.value, false);
    }
  }

  /**
   * The alert card's label: the name of the first sector carrying the alert's
   * id when that name is not empty; otherwise the id itself, or "undefined"
   * when the entry has no id.
   */
  lemma AlertLabelMeaning(sectors: seq<Sector>, a: Alert)
    ensures forall k ::
      (0 <= k < |sectors| && a.sectorId == Some(sectors[k].id)
       && forall j :: 0 <= j < k ==> a.sectorId != Some(sectors[j].id)) ==>
        AlertLabel(sectors, a) == (if sectors[k].name != "" then sectors[k].name else a.sectorId.value)
    ensures (forall j :: 0 <= j < |sectors| ==> a.sectorId != Some(sectors[j].id)) ==>
      AlertLabel(sectors, a) == a.sectorId.GetOr("undefined")
  {
    var f := FirstSector(sectors, a.sectorId);
    forall k | 0 <= k < |sectors| && a.sectorId == Some(sectors[k].id)
      && (forall j :: 0 <= j < k ==> a.sectorId != Some(sectors[j].id))
      ensures f == k
    {
      if f < k {
        assert false;
      }
    }
  }

  /** `sectors.filter(s => selectedSector === 'all' || s.id === selectedSector)`. */
  function SelectSectors(sectors: seq<Sector>, selected: string): (r: seq<Sector>)
    ensures forall s :: s in r <==> s in sectors && (selected == "all" || s.id == selected)
  {
    Filter(sectors, (s: Sector) => selected == "all" || s.id == selected)
  }

  // ---------------------------------------------------------------------------
  // Properties

  /** A later metric with the same id replaces an earlier one. */
  lemma {:induction false} MetricMapLastWins(metrics: seq<Metric>, i: nat)
    requires i < |metrics|
    requires forall j :: i < j < |metrics| ==> metrics[j].id != metrics[i].id
    ensures metrics[i].id in MetricMap(metrics) && MetricMap(metrics)[metrics[i].id] == metrics[i]
  {
    var p := metrics[..|metrics| - 1];
    if i < |metrics| - 1 {
      assert forall j :: i < j < |p| ==> p[j] == metrics[j];
      MetricMapLastWins(p, i);
    }
  }

  /** An id no metric has is not in the map. */
  lemma {:induction false} MetricMapMissing(metrics: seq<Metric>, id: string)
    requires forall j :: 0 <= j < |metrics| ==> metrics[j].id != id
    ensures id !in MetricMap(metrics)
  {
    if metrics != [] {
      MetricMapMissing(metrics[..|metrics| - 1], id);
    }
  }

  /** findValue reads the first matching entry's field, 0 when that field is absent. */
  lemma FindValueFirst(metrics: map<string, Metric>, metricId: string, key: Key, id: string, field: Field, k: nat)
    requires metricId in metrics && metrics[metricId].values.Some?
    requires var vs := metrics[metricId].values.value;
      k < |vs| && KeyOf(vs[k], key) == Some(id) && forall j :: 0 <= j < k ==> KeyOf(vs[j], key) != Some(id)
    ensures FindValue(metrics, metricId, key, id, field) == Some(OrZero(FieldOf(metrics[metricId].values.value[k], field)))
  {
    var vs := metrics[metricId].values.value;
    var f := FirstEntry(vs, key, id);
    assert f == k;
  }

  /** With no matching entry findValue is 0. */
  lemma FindValueNoMatch(metrics: map<string, Metric>, metricId: string, key: Key, id: string, field: Field)
    requires metricId in metrics && metrics[metricId].values.Some?
    requires forall j :: 0 <= j < |metrics[metricId].values.value| ==>
      KeyOf(metrics[metricId].values.value[j], key) != Some(id)
    ensures FindValue(metrics, metricId, key, id, field) == Some(0.0)
  {
  }

  /** Every term of a sum within [lo, hi] puts the sum within [n·lo, n·hi]. */
  lemma {:induction false} SumBounds(vals: seq<Entry>, field: Field, lo: real, hi: real)
    requires forall i :: 0 <= i < |vals| ==> lo <= OrZero(FieldOf(vals[i], field)) <= hi
    ensures |vals| as real * lo <= Sum(vals, field) <= |vals| as real * hi
  {
    if vals != [] {
      SumBounds(vals[..|vals| - 1], field, lo, hi);
    }
  }

  /** The 'sum' mode gives the raw weekly totals. */
  lemma AggregateSum(metrics: map<string, Metric>, metricId: string)
    requires metricId in metrics
    ensures var vals := metrics[metricId].values.GetOr([]);
      AggregateMetric(metrics, metricId, "sum") == Aggregate(Sum(vals, CurrentWeek), Sum(vals, PrevWeek))
  {
  }

  /** An average lies between the smallest and the largest term. */
  lemma AverageBounded(metrics: map<string, Metric>, metricId: string, mode: string, lo: real, hi: real)
    requires mode != "sum" && metricId in metrics
    requires var vals := metrics[metricId].values.GetOr([]);
      |vals| >= 1 && forall i :: 0 <= i < |vals| ==> lo <= OrZero(vals[i].currentWeek) <= hi
    ensures lo <= AggregateMetric(metrics, metricId, mode).current <= hi
  {
    var vals := metrics[metricId].values.GetOr([]);
    SumBounds(vals, CurrentWeek, lo, hi);
    var n := |vals| as real;
    var s := Sum(vals, CurrentWeek);
    assert n * lo <= s <= n * hi;
    DivideBounds(s, n, lo, hi);
  }

  lemma DivideBounds(s: real, n: real, lo: real, hi: real)
    requires n >= 1.0 && n * lo <= s <= n * hi
    ensures lo <= s / n <= hi
  {
    var q := s / n;
    assert q * n == s;
  }

  /** A metric without entries aggregates to zero in either mode. */
  lemma AggregateEmpty(metrics: map<string, Metric>, metricId: string, mode: string)
    requires metricId in metrics && metrics[metricId].values.GetOr([]) == []
    ensures AggregateMetric(metrics, metricId, mode) == Aggregate(0.0, 0.0)
  {
  }

  /**
   * Away from a zero previous value: ▲ exactly on a rise, ▼ exactly on a fall,
   * • exactly when nothing changed; 'good' exactly when a rise is wanted and
   * happened, or a rise is unwanted and did not; the text is the size of the
   * rounded percentage change followed by %.
   */
  lemma DeltaBadgeMeaning(current: real, prev: real, invert: bool)
    requires prev != 0.0
    ensures var b := DeltaBadge(current, prev, invert);
      && (b.icon == "▲" <==> current > prev)
      && (b.icon == "▼" <==> current < prev)
      && (b.icon == "•" <==> current == prev)
      && (b.cls == "good" <==> (if invert then current <= prev else current > prev))
      && (b.cls == "bad" <==> b.cls != "good")
      && |b.text| >= 2 && b.text[|b.text| - 1] == '%'
      && AllDigits(b.text[..|b.text| - 1])
      && DigitsValue(b.text[..|b.text| - 1]) == Abs(Round((current - prev) / prev * 100.0))
  {
    var b := DeltaBadge(current, prev, invert);
    var digits := IntToString(Abs(Round((current - prev) / prev * 100.0)));
    assert b.text == digits + "%";
    assert b.text[..|b.text| - 1] == digits;
  }

  /** Inverting a badge swaps good and bad and keeps the arrow and the text. */
  lemma InvertSwapsClass(current: real, prev: real)
    requires prev != 0.0
    ensures DeltaBadge(current, prev, true).cls == "good" <==> DeltaBadge(current, prev, false).cls == "bad"
    ensures DeltaBadge(current, prev, true).icon == DeltaBadge(current, prev, false).icon
    ensures DeltaBadge(current, prev, true).text == DeltaBadge(current, prev, false).text
  {
  }

  /** The badge depends only on the ratio of the two values: scaling both changes nothing. */
  lemma DeltaScaleInvariant(current: real, prev: real, k: real, invert: bool)
    requires k > 0.0 && prev != 0.0
    ensures DeltaBadge(k * current, k * prev, invert) == DeltaBadge(current, prev, invert)
  {
    var d, kd := current - prev, k * current - k * prev;
    assert kd == k * d;
    ScaleFacts(d, prev, k);
    SameRatioSameBadge(current, prev, k * current, k * prev, invert);
  }

  /** Two changes with the same relative size and the same direction get the same badge. */
  lemma SameRatioSameBadge(c: real, p: real, c2: real, p2: real, invert: bool)
    requires p != 0.0 && p2 != 0.0
    requires (c2 - p2) / p2 == (c - p) / p
    requires c2 - p2 > 0.0 <==> c - p > 0.0
    requires c2 - p2 < 0.0 <==> c - p < 0.0
    ensures DeltaBadge(c2, p2, invert) == DeltaBadge(c, p, invert)
  {
  }

  lemma ScaleFacts(d: real, p: real, k: real)
    requires k > 0.0 && p != 0.0
    ensures k * p != 0.0
    ensures (k * d) / (k * p) == d / p
    ensures k * d > 0.0 <==> d > 0.0
    ensures k * d < 0.0 <==> d < 0.0
  {
    var q := d / p;
    assert q * p == d;
    assert q * (k * p) == k * d;
  }

  /**
   * The trend: no data exactly when the previous value is 0; otherwise the
   * direction follows the sign of the change, the size is its absolute value,
   * and 'краще' exactly when the change goes the wanted way.
   */
  lemma TrendMeaning(current: real, prev: real, invert: bool)
    requires prev != 0.0
    ensures var t := TrendText(current, prev, invert);
      && t.Trend?
      && (t.direction == "зросло" <==> current > prev)
      && (t.direction == "знизилось" <==> current < prev)
      && (t.direction == "без змін" <==> current == prev)
      && t.change >= 0.0 && (t.change == current - prev || t.change == prev - current)
      && (t.verdict == "краще" <==> (if invert then current < prev else current > prev))
  {
  }

  /** When the value moved, the trend and the badge agree on better or worse. */
  lemma TrendAgreesWithBadge(current: real, prev: real, invert: bool)
    requires prev != 0.0 && current != prev
    ensures TrendText(current, prev, invert).verdict == "краще" <==> DeltaBadge(current, prev, invert).cls == "good"
  {
  }

  /**
   * When nothing moved, an inverted metric gets a 'good' badge and a 'гірше'
   * trend at once: the badge counts "not rising" as good, the trend needs a fall.
   */
  lemma UnchangedInvertedDisagree(v: real)
    requires v != 0.0
    ensures DeltaBadge(v, v, true).cls == "good"
    ensures TrendText(v, v, true).verdict == "гірше"
  {
  }

  /** A higher risk never gets a milder band. */
  lemma RiskBandMonotone(a: real, b: real)
    requires a <= b
    ensures Severity(RiskBand(a)) <= Severity(RiskBand(b))
  {
  }

  /** The band edges belong to the milder band. */
  lemma RiskBandEdges()
    ensures RiskBand(0.65) == "warn" && RiskBand(0.5) == "good"
    ensures forall r :: r > 0.65 ==> RiskBand(r) == "bad"
  {
  }

  /**
   * The alerts are the three highest risk entries (all of them when there are
   * fewer), highest first; an entry left out is no higher than the last alert shown.
   */
  lemma AlertsAreTopThree(metrics: map<string, Metric>, e: Entry)
    requires RiskValuesPresent(metrics)
    requires RiskMetric in metrics && metrics[RiskMetric].values.Some?
    requires e in metrics[RiskMetric].values.value
    ensures var r := Alerts(metrics).value;
      && 1 <= |r| <= 3
      && |r| == Min(3, |metrics[RiskMetric].values.value|)
      && multiset(r) <= multiset(ToAlerts(metrics[RiskMetric].values.value))
      && NonIncreasing(r, AlertValue)
      && (forall i :: 0 <= i < |r| ==> r[i] in ToAlerts(metrics[RiskMetric].values.value))
      && (ToAlert(e) in r || e.currentWeek.value <= r[|r| - 1].value)
  {
    var vals := metrics[RiskMetric].values.value;
    var alerts := ToAlerts(vals);
    assert Alerts(metrics) == Some(Take(SortDesc(alerts, AlertValue), 3));
    var i :| 0 <= i < |vals| && vals[i] == e;
    assert alerts[i] == ToAlert(e);
    TopThreeOf(alerts, ToAlert(e));
  }

  /** The top three of a non-empty list of alerts, with the place of one of its members. */
  lemma TopThreeOf(alerts: seq<Alert>, a: Alert)
    requires a in alerts
    ensures var r := Take(SortDesc(alerts, AlertValue), 3);
      && 1 <= |r| <= 3
      && |r| == Min(3, |alerts|)
      && multiset(r) <= multiset(alerts)
      && NonIncreasing(r, AlertValue)
      && (forall i :: 0 <= i < |r| ==> r[i] in alerts)
      && (a in r || a.value <= r[|r| - 1].value)
  {
    TopK(alerts, AlertValue, 3, a);
    TopKPart(alerts, AlertValue, 3);
    TopFromInput(alerts, 3);
  }

  /** The first k of the sorted alerts are sorted alerts of the input. */
  lemma TopFromInput(alerts: seq<Alert>, k: nat)
    ensures var r := Take(SortDesc(alerts, AlertValue), k);
      && NonIncreasing(r, AlertValue)
      && forall j :: 0 <= j < |r| ==> r[j] in alerts
  {
    var sorted := SortDesc(alerts, AlertValue);
    var r := Take(sorted, k);
    forall j | 0 <= j < |r|
      ensures r[j] in alerts && r[j] == sorted[j]
    {
      assert r[j] == sorted[j];
      assert sorted[j] in multiset(sorted);
    }
  }

  /** 'all' keeps every sector in order; any other choice keeps exactly the sectors with that id. */
  lemma SelectAll(sectors: seq<Sector>)
    ensures SelectSectors(sectors, "all") == sectors
  {
    FilterAll(sectors, (s: Sector) => "all" == "all" || s.id == "all");
  }

  /** With distinct ids, choosing one sector's id shows that sector alone. */
  lemma SelectOne(sectors: seq<Sector>, i: nat)
    requires i < |sectors| && sectors[i].id != "all"
    requires forall a, b :: 0 <= a < b < |sectors| ==> sectors[a].id != sectors[b].id
    ensures SelectSectors(sectors, sectors[i].id) == [sectors[i]]
  {
    var id := sectors[i].id;
    var p := (s: Sector) => id == "all" || s.id == id;
    assert sectors == sectors[..i] + [sectors[i]] + sectors[i + 1..];
    FilterConcat(sectors[..i] + [sectors[i]], sectors[i + 1..], p);
    FilterConcat(sectors[..i], [sectors[i]], p);
    FilterNone(sectors[..i], p);
    FilterNone(sectors[i + 1..], p);
  }
}
